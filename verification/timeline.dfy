/** The scene timeline of the long-form composition,
    packages/remotion-video/src/compositions/ARPLong.tsx: scene durations in
    seconds become whole frame counts, scenes are laid end to end from frame
    0, and the frame being drawn selects the scene, its bullets and whether the
    closing call-to-action overlay shows. Animation curves and styling are not
    modelled. */
module Timeline {
  import opened Results
  import opened Text

  datatype MockStyle = GlassCard | AppWindow

  datatype UiMock = UiMock(style: MockStyle, title: String, lines: seq<String>)

  /** A scene of the video script. `kind` is the free-form `type` tag. */
  datatype Scene = Scene(
    id: int,
    kind: String,
    durationSec: real,
    headline: String,
    subhead: Option<String>,
    bullets: Option<seq<String>>,
    lowerThird: Option<String>,
    uiMock: Option<UiMock>)

  /** A scene with its place on the timeline, in frames. */
  datatype Timed = Timed(scene: Scene, startFrame: int, durationFrames: int)

  // ---------------------------------------------------------------------
  // frames and withOffsets
  // ---------------------------------------------------------------------

  /** `Math.round`: the nearest integer, halves rounded up. */
  function Round(x: real): int {
    (x + 0.5).Floor
  }

  /** `Round(x)` is the integer nearest `x`, with a tie going up. */
  lemma RoundNearest(x: real)
    ensures (Round(x) as real) - 0.5 <= x < (Round(x) as real) + 0.5
  {
  }

  /** `frames(sec, fps)`: the rounded frame count, but never less than one. */
  function Frames(sec: real, fps: real): (n: int)
    ensures n >= 1
  {
    var r := Round(sec * fps);
    if r < 1 then 1 else r
  }

  /** A scene gets the frame count nearest its length whenever that count is
      at least one, and exactly one frame when its length rounds to nothing
      (or is negative). */
  lemma FramesSpec(sec: real, fps: real)
    ensures Round(sec * fps) >= 1 ==>
      && (Frames(sec, fps) as real) - 0.5 <= sec * fps < (Frames(sec, fps) as real) + 0.5
    ensures sec * fps < 0.5 ==> Frames(sec, fps) == 1
  {
    RoundNearest(sec * fps);
  }

  /** The frames taken by a run of scenes. */
  function SumFrames(scenes: seq<Scene>, fps: real): int
    decreases |scenes|
  {
    if scenes == [] then 0
    else SumFrames(scenes[..|scenes| - 1], fps) + Frames(scenes[|scenes| - 1].durationSec, fps)
  }

  /** Scenes laid end to end from frame 0, each at least one frame long. */
  predicate Contiguous(timed: seq<Timed>) {
    && (|timed| > 0 ==> timed[0].startFrame == 0)
    && (forall i :: 0 <= i < |timed| ==> timed[i].durationFrames >= 1)
    && (forall i :: 0 <= i < |timed| - 1 ==>
          timed[i + 1].startFrame == timed[i].startFrame + timed[i].durationFrames)
  }

  /** The frame just after the last scene. */
  function Total(timed: seq<Timed>): int {
    if timed == [] then 0 else timed[|timed| - 1].startFrame + timed[|timed| - 1].durationFrames
  }

  /** Where each scene lands: its own frame count, starting after all the
      scenes before it. */
  function Layout(scenes: seq<Scene>, fps: real): (timed: seq<Timed>)
    ensures |timed| == |scenes|
  {
    seq(|scenes|, i requires 0 <= i < |scenes| =>
      Timed(scenes[i], SumFrames(scenes[..i], fps), Frames(scenes[i].durationSec, fps)))
  }

  /** The layout is contiguous and ends after all the scenes' frames. */
  lemma LayoutContiguous(scenes: seq<Scene>, fps: real)
    ensures Contiguous(Layout(scenes, fps))
    ensures Total(Layout(scenes, fps)) == SumFrames(scenes, fps)
  {
    var timed := Layout(scenes, fps);
    forall i | 0 <= i < |timed| - 1
      ensures timed[i + 1].startFrame == timed[i].startFrame + timed[i].durationFrames
    {
      assert scenes[..i + 1][..i] == scenes[..i];
    }
    if scenes != [] {
      assert scenes[..|scenes| - 1] == scenes[..|scenes|][..|scenes| - 1];
      assert scenes[..|scenes|] == scenes;
    }
  }

  /** `withOffsets`: a running start frame threaded through the scenes. Each
      scene is kept whole, gets its frame count, and starts where the scenes
      before it end. */
  method WithOffsets(scenes: seq<Scene>, fps: real) returns (timed: seq<Timed>)
    ensures timed == Layout(scenes, fps)
    ensures forall i :: 0 <= i < |scenes| ==>
      timed[i].scene == scenes[i] && timed[i].durationFrames == Frames(scenes[i].durationSec, fps)
    ensures Contiguous(timed)
    ensures Total(timed) == SumFrames(scenes, fps)
  {
    var start := 0;
    timed := [];
    for i := 0 to |scenes|
      invariant timed == Layout(scenes, fps)[..i]
      invariant start == SumFrames(scenes[..i], fps)
    {
      assert scenes[..i + 1][..i] == scenes[..i];
      var dur := Frames(scenes[i].durationSec, fps);
      timed := timed + [Timed(scenes[i], start, dur)];
      start := start + dur;
    }
    LayoutContiguous(scenes, fps);
  }

  // ---------------------------------------------------------------------
  // The active scene
  // ---------------------------------------------------------------------

  predicate Covers(t: Timed, frame: int) {
    t.startFrame <= frame < t.startFrame + t.durationFrames
  }

  /** `scenes.find(...)` from index `from` on: the first scene covering the frame. */
  function FindFrom(timed: seq<Timed>, frame: int, from: nat): (r: Option<nat>)
    requires from <= |timed|
    ensures r.Some? ==> from <= r.value < |timed| && Covers(timed[r.value], frame)
    decreases |timed| - from
  {
    if from == |timed| then None
    else if Covers(timed[from], frame) then Some(from)
    else FindFrom(timed, frame, from + 1)
  }

  /** Nothing between `from` and the answer covers the frame, and no answer
      means nothing from `from` on covers it. */
  lemma {:induction false} FindFromFirst(timed: seq<Timed>, frame: int, from: nat, j: nat)
    requires from <= j < |timed|
    requires FindFrom(timed, frame, from).None? || j < FindFrom(timed, frame, from).value
    ensures !Covers(timed[j], frame)
    decreases |timed| - from
  {
    if from < j {
      FindFromFirst(timed, frame, from + 1, j);
    }
  }

  /** The index of the active scene: the first whose frame interval holds the
      frame being drawn. */
  function ActiveScene(timed: seq<Timed>, frame: int): (r: Option<nat>)
    ensures r.Some? ==> r.value < |timed| && Covers(timed[r.value], frame)
  {
    FindFrom(timed, frame, 0)
  }

  /** The active scene is the first covering one, and there is none exactly
      when no scene covers the frame. */
  lemma ActiveSceneFirst(timed: seq<Timed>, frame: int, j: nat)
    requires j < |timed|
    ensures ActiveScene(timed, frame).None? ==> !Covers(timed[j], frame)
    ensures ActiveScene(timed, frame).Some? && j < ActiveScene(timed, frame).value ==> !Covers(timed[j], frame)
  {
    if ActiveScene(timed, frame).None? || j < ActiveScene(timed, frame).value {
      FindFromFirst(timed, frame, 0, j);
    }
  }

  /** `local`: the frame's offset inside the active scene, 0 when none is active. */
  function LocalFrame(timed: seq<Timed>, frame: int): (local: int)
    ensures ActiveScene(timed, frame).Some? ==>
      0 <= local < timed[ActiveScene(timed, frame).value].durationFrames
    ensures ActiveScene(timed, frame).None? ==> local == 0
  {
    match ActiveScene(timed, frame)
    case None => 0
    case Some(i) => frame - timed[i].startFrame
  }

  /** On a contiguous timeline every scene starts at or after frame 0. */
  lemma {:induction false} StartsAfterZero(timed: seq<Timed>, i: nat)
    requires Contiguous(timed)
    requires i < |timed|
    ensures 0 <= timed[i].startFrame
  {
    if i > 0 {
      StartsAfterZero(timed, i - 1);
    }
  }

  /** On a contiguous timeline a later scene starts no earlier than an
      earlier one ends. */
  lemma {:induction false} Ordered(timed: seq<Timed>, i: nat, j: nat)
    requires Contiguous(timed)
    requires i < j < |timed|
    ensures timed[i].startFrame + timed[i].durationFrames <= timed[j].startFrame
    decreases j - i
  {
    if i + 1 < j {
      Ordered(timed, i + 1, j);
    }
  }

  /** The start of every scene of a contiguous timeline lies in `[0, Total)`,
      and the scene ends by `Total`. */
  lemma Bounded(timed: seq<Timed>, i: nat)
    requires Contiguous(timed)
    requires i < |timed|
    ensures 0 <= timed[i].startFrame
    ensures timed[i].startFrame + timed[i].durationFrames <= Total(timed)
  {
    StartsAfterZero(timed, i);
    if i + 1 < |timed| {
      Ordered(timed, i, |timed| - 1);
    }
  }

  /** Scenes of a contiguous timeline do not overlap: at most one covers a frame. */
  lemma Disjoint(timed: seq<Timed>, frame: int, i: nat, j: nat)
    requires Contiguous(timed)
    requires i < |timed| && j < |timed|
    requires Covers(timed[i], frame) && Covers(timed[j], frame)
    ensures i == j
  {
    if i < j {
      Ordered(timed, i, j);
    } else if j < i {
      Ordered(timed, j, i);
    }
  }

  /** Every frame in `[0, Total)` is covered by some scene of a contiguous timeline. */
  lemma {:induction false} CoveredSomewhere(timed: seq<Timed>, frame: int) returns (i: nat)
    requires Contiguous(timed)
    requires 0 <= frame < Total(timed)
    ensures i < |timed| && Covers(timed[i], frame)
    decreases |timed|
  {
    var last := |timed| - 1;
    if frame >= timed[last].startFrame {
      i := last;
    } else {
      var init := timed[..last];
      assert Total(init) == timed[last].startFrame;
      i := CoveredSomewhere(init, frame);
    }
  }

  /** On the timeline `withOffsets` builds, a scene is active exactly for the
      frames in `[0, Total)`: none before the first frame or from the end on. */
  lemma ActiveWithinTotal(timed: seq<Timed>, frame: int)
    requires Contiguous(timed)
    ensures ActiveScene(timed, frame).Some? <==> 0 <= frame < Total(timed)
  {
    if 0 <= frame < Total(timed) {
      var i := CoveredSomewhere(timed, frame);
      ActiveSceneFirst(timed, frame, i);
    }
    match ActiveScene(timed, frame)
    case None =>
    case Some(i) => Bounded(timed, i);
  }

  // ---------------------------------------------------------------------
  // What the active scene shows
  // ---------------------------------------------------------------------

  const MaxBullets: nat := 5

  /** `active.bullets.slice(0, 5)`, drawn only when the list is non-empty. */
  function ShownBullets(active: Option<Scene>): (shown: seq<String>)
    ensures |shown| <= MaxBullets
    ensures active.Some? && active.value.bullets.Some? ==>
      var all := active.value.bullets.value;
      |shown| <= |all| && shown == all[..|shown|] && (|shown| == |all| || |shown| == MaxBullets)
    ensures active.None? || active.value.bullets.None? ==> shown == []
  {
    if active.Some? && active.value.bullets.Some? && |active.value.bullets.value| > 0 then
      var all := active.value.bullets.value;
      if |all| <= MaxBullets then all else all[..MaxBullets]
    else []
  }

  /** `active?.headline || props.title`. */
  function Headline(active: Option<Scene>, title: String): (h: String)
    ensures active.Some? && active.value.headline != [] ==> h == active.value.headline
    ensures !(active.Some? && active.value.headline != []) ==> h == title
  {
    if active.Some? && active.value.headline != [] then active.value.headline else title
  }

  /** The side panel: the app-window mock when the scene asks for one,
      otherwise a glass panel titled by the mock or, failing that, the brand. */
  datatype Panel = AppWindowPanel(title: String, lines: seq<String>) | GlassPanel(title: String, lines: seq<String>)

  function SidePanel(active: Option<Scene>, brand: String): (p: Panel)
    ensures p.AppWindowPanel? <==>
      active.Some? && active.value.uiMock.Some? && active.value.uiMock.value.style == AppWindow
    ensures p.AppWindowPanel? ==>
      && active.Some? && active.value.uiMock.Some?
      && p == AppWindowPanel(active.value.uiMock.value.title, active.value.uiMock.value.lines)
    ensures p.GlassPanel? && active.Some? && active.value.uiMock.Some? ==>
      var mock := active.value.uiMock.value;
      p == GlassPanel(if mock.title != [] then mock.title else brand, mock.lines)
    ensures p.GlassPanel? && (active.None? || active.value.uiMock.None?) ==> p == GlassPanel(brand, [])
  {
    if active.Some? && active.value.uiMock.Some? then
      var mock := active.value.uiMock.value;
      if mock.style == AppWindow then AppWindowPanel(mock.title, mock.lines)
      else GlassPanel(if mock.title != [] then mock.title else brand, mock.lines)
    else GlassPanel(brand, [])
  }

  /** The call-to-action overlay: shown once the frame is past the point three
      seconds before the end. */
  predicate ShowsCta(frame: int, durationInFrames: int, fps: real) {
    frame as real > durationInFrames as real - fps * 3.0
  }

  /** With a whole frame rate, the overlay covers the frames after
      `durationInFrames - 3·fps`: the last `3·fps - 1` frames of the video,
      one fewer than three full seconds. */
  lemma CtaWindow(frame: int, durationInFrames: int, fps: nat)
    ensures ShowsCta(frame, durationInFrames, fps as real) <==> frame >= durationInFrames - 3 * fps + 1
  {
  }

  const CtaPrimaryFallback: String := "Get the Free 2026 AI Toolkit"
  const CtaSecondaryFallback: String := "Subscribe for weekly ARP workflows"

  /** The overlay's two lines, each with its fixed fallback. */
  function CtaLines(primary: Option<String>, secondary: Option<String>): (lines: (String, String))
    ensures lines.0 != [] && lines.1 != []
    ensures Truthy(primary) ==> lines.0 == primary.value
    ensures !Truthy(primary) ==> lines.0 == CtaPrimaryFallback
    ensures Truthy(secondary) ==> lines.1 == secondary.value
    ensures !Truthy(secondary) ==> lines.1 == CtaSecondaryFallback
  {
    (Or(primary, CtaPrimaryFallback), Or(secondary, CtaSecondaryFallback))
  }
}
