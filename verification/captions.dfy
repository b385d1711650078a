/** The word-by-word caption strip of
    packages/remotion-video/src/ui/CaptionsWordByWord.tsx: at each frame the
    cue being spoken is found, a window of up to three cues either side of it
    is shown with that cue marked, and the fraction of the cue already spoken
    drives its fade-in. The fade curve itself is not modelled. */
module Captions {
  import opened Results
  import opened Text
  import Srt

  type WordCue = Srt.WordCue

  /** `t >= startSec && t < endSec`. */
  predicate Speaking(c: WordCue, t: real) {
    c.startSec <= t < c.endSec
  }

  /** `cues.findIndex(...)` from index `from` on. */
  function FindFrom(cues: seq<WordCue>, t: real, from: nat): (r: Option<nat>)
    requires from <= |cues|
    ensures r.Some? ==> from <= r.value < |cues| && Speaking(cues[r.value], t)
    decreases |cues| - from
  {
    if from == |cues| then None
    else if Speaking(cues[from], t) then Some(from)
    else FindFrom(cues, t, from + 1)
  }

  /** No cue before the answer (or none at all, without one) is being spoken. */
  lemma {:induction false} FindFromFirst(cues: seq<WordCue>, t: real, from: nat, j: nat)
    requires from <= j < |cues|
    requires FindFrom(cues, t, from).None? || j < FindFrom(cues, t, from).value
    ensures !Speaking(cues[j], t)
    decreases |cues| - from
  {
    if from < j {
      FindFromFirst(cues, t, from + 1, j);
    }
  }

  /** The active index: the first cue being spoken at time `t`. */
  function ActiveIndex(cues: seq<WordCue>, t: real): (r: Option<nat>)
    ensures r.Some? ==> r.value < |cues| && Speaking(cues[r.value], t)
  {
    FindFrom(cues, t, 0)
  }

  /** The active index is the least index of a cue being spoken, and there is
      none exactly when no cue is being spoken. */
  lemma ActiveIndexLeast(cues: seq<WordCue>, t: real, j: nat)
    requires j < |cues|
    requires Speaking(cues[j], t)
    ensures ActiveIndex(cues, t).Some? && ActiveIndex(cues, t).value <= j
  {
    if ActiveIndex(cues, t).None? || j < ActiveIndex(cues, t).value {
      FindFromFirst(cues, t, 0, j);
    }
  }

  const Reach: nat := 3
  const MinDenominator: real := 0.001

  /** What the strip draws at one frame. */
  datatype Strip = Strip(
    start: nat,          // index of the first cue shown
    active: nat,         // index of the active cue
    window: seq<WordCue>,
    marked: seq<bool>,   // which shown cue is highlighted
    progress: real)      // the share of the active cue already spoken

  /** The shown cue at position `i` is highlighted iff it is the active one. */
  function Marks(start: nat, active: nat, n: nat): (m: seq<bool>)
    ensures |m| == n
  {
    seq(n, i requires 0 <= i < n => start + i == active)
  }

  /** The strip at frame `frame` of a video at `fps` frames per second, or
      nothing when no cue is being spoken. */
  function Render(cues: seq<WordCue>, frame: int, fps: real): (r: Option<Strip>)
    requires fps > 0.0
    ensures r.None? <==> ActiveIndex(cues, frame as real / fps).None?
    ensures r.Some? ==>
      var s := r.value;
      && Some(s.active) == ActiveIndex(cues, frame as real / fps)
      && s.start <= s.active < s.start + |s.window| <= |cues|
      && s.window == cues[s.start..s.start + |s.window|]
      && |s.marked| == |s.window|
  {
    var t := frame as real / fps;
    match ActiveIndex(cues, t)
    case None => None
    case Some(ai) =>
      var start := if ai < Reach then 0 else ai - Reach;
      var end := if |cues| < ai + Reach + 1 then |cues| else ai + Reach + 1;
      var c := cues[ai];
      var denom := if c.endSec - c.startSec < MinDenominator then MinDenominator else c.endSec - c.startSec;
      Some(Strip(start, ai, cues[start..end], Marks(start, ai, end - start), (t - c.startSec) / denom))
  }

  /** The window is the slice `[max(0, ai-3), min(len, ai+4))`: 1 to 7 cues in
      their own order, the active one among them. */
  lemma WindowBounds(cues: seq<WordCue>, frame: int, fps: real)
    requires fps > 0.0
    requires Render(cues, frame, fps).Some?
    ensures var s := Render(cues, frame, fps).value;
      && s.start == (if s.active < Reach then 0 else s.active - Reach)
      && s.start + |s.window| == (if |cues| < s.active + Reach + 1 then |cues| else s.active + Reach + 1)
      && 1 <= |s.window| <= 2 * Reach + 1
      && s.window[s.active - s.start] == cues[s.active]
  {
  }

  /** Exactly one shown cue is highlighted, the active one. */
  lemma OneMarked(cues: seq<WordCue>, frame: int, fps: real, i: nat)
    requires fps > 0.0
    requires Render(cues, frame, fps).Some?
    requires i < |Render(cues, frame, fps).value.window|
    ensures var s := Render(cues, frame, fps).value;
      s.marked[i] <==> i == s.active - s.start
  {
  }

  /** A share of time `elapsed` out of a cue of length `len`, the length
      clamped from below: it lies in `[0, 1)` whenever `0 <= elapsed < len`. */
  lemma ShareInUnit(elapsed: real, len: real)
    requires 0.0 <= elapsed < len
    ensures var denom := if len < MinDenominator then MinDenominator else len;
      denom >= MinDenominator && 0.0 <= elapsed / denom < 1.0
  {
    var denom := if len < MinDenominator then MinDenominator else len;
    assert elapsed < denom;
    assert elapsed / denom * denom == elapsed;
  }

  /** The progress through the active cue lies in `[0, 1)`, whatever its
      length, even one shorter than the clamp. */
  lemma ProgressInUnit(cues: seq<WordCue>, frame: int, fps: real)
    requires fps > 0.0
    requires Render(cues, frame, fps).Some?
    ensures 0.0 <= Render(cues, frame, fps).value.progress < 1.0
  {
    var t := frame as real / fps;
    var c := cues[ActiveIndex(cues, t).value];
    ShareInUnit(t - c.startSec, c.endSec - c.startSec);
  }
}
