/** The caption synthesizer of apps/render-service/src/srt.ts: a SubRip parser
    (`timeToSec`, `parseSrt`) and `segmentsToWordCues`, which spreads each
    segment's duration evenly over its words. Times are exact reals. */
module Srt {
  import opened Results
  import opened Text

  datatype CaptionSegment = CaptionSegment(startSec: real, endSec: real, text: String)

  datatype WordCue = WordCue(startSec: real, endSec: real, word: String)

  // ---------------------------------------------------------------------
  // timeToSec
  // ---------------------------------------------------------------------

  /** The four numbers of an `hh:mm:ss,ms` time stamp. */
  datatype Stamp = Stamp(hours: int, minutes: int, seconds: int, millis: int)

  /** Length of the digit run a greedy `\d+` takes at the front of `s`. */
  function DigitRun(s: String): (k: nat)
    ensures k <= |s|
    ensures forall i :: 0 <= i < k ==> IsDigit(s[i])
    ensures k < |s| ==> !IsDigit(s[k])
  {
    if s == [] || !IsDigit(s[0]) then 0 else 1 + DigitRun(s[1..])
  }

  predicate IsGroup(g: String) {
    |g| > 0 && AllDigits(g)
  }

  /** `(\d+)` groups separated by the literal characters of `seps`, matched
      at the front of `s` with greedy `\d+`: the text of each group. */
  function DigitGroups(s: String, seps: String): (r: Option<seq<String>>)
    ensures r.Some? ==> |r.value| == |seps| + 1
    decreases |seps|
  {
    var a := DigitRun(s);
    if a == 0 then None
    else if seps == [] then Some([s[..a]])
    else if a == |s| || s[a] != seps[0] then None
    else
      match DigitGroups(s[a + 1..], seps[1..])
      case None => None
      case Some(rest) => Some([s[..a]] + rest)
  }

  /** Every group of a match is a non-empty run of digits. */
  lemma {:induction false} DigitGroupsAreGroups(s: String, seps: String)
    requires DigitGroups(s, seps).Some?
    ensures forall i :: 0 <= i < |DigitGroups(s, seps).value| ==> IsGroup(DigitGroups(s, seps).value[i])
    decreases |seps|
  {
    var a := DigitRun(s);
    assert IsGroup(s[..a]) by {
      assert forall i :: 0 <= i < a ==> s[..a][i] == s[i];
    }
    if seps != [] {
      DigitGroupsAreGroups(s[a + 1..], seps[1..]);
    }
  }

  /** The pattern `(\d+):(\d+):(\d+),(\d+)` matched at position `p` of `t`. */
  function MatchAt(t: String, p: nat): Option<Stamp>
    requires p <= |t|
  {
    match DigitGroups(t[p..], "::,")
    case None => None
    case Some(g) =>
      Some(Stamp(DecimalValue(g[0]), DecimalValue(g[1]), DecimalValue(g[2]), DecimalValue(g[3])))
  }

  /** The time-stamp pattern matches at position `p` of `t`. */
  predicate HasStampAt(t: String, p: nat)
    requires p <= |t|
  {
    DigitGroups(t[p..], "::,").Some?
  }

  /** No match of the time-stamp pattern starts in `[lo, hi)`. */
  predicate NoMatchIn(t: String, lo: nat, hi: nat) {
    forall q :: lo <= q < hi && q <= |t| ==> !HasStampAt(t, q)
  }

  /** The position of the leftmost match at or after `p`, as
      `String.prototype.match` finds it. */
  function FirstMatchFrom(t: String, p: nat): (r: Option<nat>)
    requires p <= |t|
    ensures r.Some? ==> p <= r.value <= |t| && HasStampAt(t, r.value)
    decreases |t| - p
  {
    if HasStampAt(t, p) then Some(p)
    else if p == |t| then None
    else FirstMatchFrom(t, p + 1)
  }

  /** The search finds the leftmost match, and finds none only when there is none. */
  lemma {:induction false} FirstMatchFromSpec(t: String, p: nat)
    requires p <= |t|
    ensures FirstMatchFrom(t, p).None? ==> NoMatchIn(t, p, |t| + 1)
    ensures FirstMatchFrom(t, p).Some? ==>
      HasStampAt(t, FirstMatchFrom(t, p).value) && NoMatchIn(t, p, FirstMatchFrom(t, p).value)
    decreases |t| - p
  {
    if HasStampAt(t, p) {
    } else if p == |t| {
      assert FirstMatchFrom(t, p) == None;
      forall q | p <= q < |t| + 1 && q <= |t|
        ensures !HasStampAt(t, q)
      {
        assert q == p;
      }
    } else {
      FirstMatchFromSpec(t, p + 1);
      var r := FirstMatchFrom(t, p + 1);
      assert FirstMatchFrom(t, p) == r;
      var hi := if r.None? then |t| + 1 else r.value;
      forall q | p <= q < hi && q <= |t|
        ensures !HasStampAt(t, q)
      {
        if q > p {
          assert p + 1 <= q < hi;
        }
      }
    }
  }

  /** The seconds an `hh:mm:ss,ms` stamp denotes. */
  function Seconds(st: Stamp): real {
    st.hours as real * 3600.0 + st.minutes as real * 60.0 + st.seconds as real
      + st.millis as real / 1000.0
  }

  /** `timeToSec`: the first time stamp in `t` read as seconds, or 0 when there
      is none. */
  function TimeToSec(t: String): real {
    match FirstMatchFrom(t, 0)
    case None => 0.0
    case Some(p) => Seconds(MatchAt(t, p).value)
  }

  /** `timeToSec` reads the leftmost match, and yields 0 when no position of
      `t` matches (a match of all zeros yields 0 as well). */
  lemma TimeToSecSpec(t: String)
    ensures NoMatchIn(t, 0, |t| + 1) ==> TimeToSec(t) == 0.0
    ensures forall p :: 0 <= p <= |t| && HasStampAt(t, p) && NoMatchIn(t, 0, p)
                        ==> TimeToSec(t) == Seconds(MatchAt(t, p).value)
  {
    FirstMatchFromSpec(t, 0);
  }

  predicate NoDigits(s: String) {
    forall i :: 0 <= i < |s| ==> !IsDigit(s[i])
  }

  /** The text that digit groups `gs` separated by `seps` spell. */
  function GroupsText(gs: seq<String>, seps: String): String
    requires |gs| == |seps| + 1
    decreases |seps|
  {
    if seps == [] then gs[0] else gs[0] + ([seps[0]] + GroupsText(gs[1..], seps[1..]))
  }

  lemma DigitRunOf(g: String, rest: String)
    requires IsGroup(g)
    requires rest == [] || !IsDigit(rest[0])
    ensures DigitRun(g + rest) == |g|
  {
    var s := g + rest;
    assert forall i :: 0 <= i < |g| ==> s[i] == g[i];
    if rest != [] {
      assert s[|g|] == rest[0];
    }
  }

  /** Every text spelling digit groups separated by `seps`, followed by a
      non-digit or by nothing, matches with exactly those groups. */
  lemma {:induction false} DigitGroupsComplete(gs: seq<String>, seps: String, rest: String)
    requires |gs| == |seps| + 1 && NoDigits(seps)
    requires forall i :: 0 <= i < |gs| ==> IsGroup(gs[i])
    requires rest == [] || !IsDigit(rest[0])
    ensures DigitGroups(GroupsText(gs, seps) + rest, seps) == Some(gs)
    decreases |seps|
  {
    if seps == [] {
      DigitGroupsCompleteLast(gs, rest);
    } else {
      var tail := GroupsText(gs[1..], seps[1..]) + rest;
      SeqAssoc(gs[0], [seps[0]], GroupsText(gs[1..], seps[1..]), rest);
      assert NoDigits(seps[1..]);
      DigitGroupsComplete(gs[1..], seps[1..], rest);
      assert seps == [seps[0]] + seps[1..];
      DigitGroupsCons(gs[0], seps[0], tail, seps[1..]);
      assert gs == [gs[0]] + gs[1..];
    }
  }

  /** A single group followed by a non-digit or by nothing matches alone. */
  lemma DigitGroupsCompleteLast(gs: seq<String>, rest: String)
    requires |gs| == 1 && IsGroup(gs[0])
    requires rest == [] || !IsDigit(rest[0])
    ensures DigitGroups(GroupsText(gs, []) + rest, []) == Some(gs)
  {
    var s := gs[0] + rest;
    DigitRunOf(gs[0], rest);
    assert s[..|gs[0]|] == gs[0];
    assert gs == [gs[0]];
  }

  /** A group, a non-digit separator and a tail: the match is the group
      followed by the tail's groups. */
  lemma DigitGroupsCons(g: String, sep: char, tail: String, more: String)
    requires IsGroup(g) && !IsDigit(sep)
    requires DigitGroups(tail, more).Some?
    ensures DigitGroups(g + ([sep] + tail), [sep] + more) == Some([g] + DigitGroups(tail, more).value)
  {
    DigitRunOf(g, [sep] + tail);
    AroundSeparator(g, sep, tail);
    AroundSeparator([], sep, more);
  }

  lemma AroundSeparator<T>(g: seq<T>, sep: T, tail: seq<T>)
    ensures var s := g + ([sep] + tail);
      s[..|g|] == g && s[|g|] == sep && s[|g| + 1..] == tail
  {
  }

  /** One step of a match that still has a separator to match. */
  lemma DigitGroupsStep(s: String, seps: String)
    requires seps != []
    ensures DigitGroups(s, seps).Some? ==> var a := DigitRun(s);
      0 < a < |s| && s[a] == seps[0] && DigitGroups(s[a + 1..], seps[1..]).Some?
      && DigitGroups(s, seps).value == [s[..a]] + DigitGroups(s[a + 1..], seps[1..]).value
  {
  }

  /** Every match spells its groups separated by `seps`, followed by a
      non-digit or by nothing. */
  lemma {:induction false} DigitGroupsSound(s: String, seps: String) returns (rest: String)
    requires NoDigits(seps) && DigitGroups(s, seps).Some?
    ensures rest == [] || !IsDigit(rest[0])
    ensures s == GroupsText(DigitGroups(s, seps).value, seps) + rest
    decreases |seps|
  {
    if seps == [] {
      rest := DigitGroupsSoundLast(s);
    } else {
      var a := DigitRun(s);
      var g := s[..a];
      var gs := DigitGroups(s, seps).value;
      DigitGroupsStep(s, seps);
      var s' := s[a + 1..];
      assert NoDigits(seps[1..]);
      rest := DigitGroupsSound(s', seps[1..]);
      var tailText := GroupsText(gs[1..], seps[1..]);
      assert s' == tailText + rest by {
        assert gs[1..] == DigitGroups(s', seps[1..]).value;
      }
      SplitAround(s, a);
      assert GroupsText(gs, seps) == g + ([seps[0]] + tailText);
      SeqAssoc(g, [seps[0]], tailText, rest);
    }
  }

  /** The last group of a match: the digit run, and what follows it. */
  lemma DigitGroupsSoundLast(s: String) returns (rest: String)
    requires DigitGroups(s, []).Some?
    ensures rest == [] || !IsDigit(rest[0])
    ensures s == GroupsText(DigitGroups(s, []).value, []) + rest
  {
    var a := DigitRun(s);
    rest := s[a..];
    assert DigitGroups(s, []).value == [s[..a]];
    assert s == s[..a] + rest;
  }

  lemma SeqAssoc<T>(a: seq<T>, b: seq<T>, c: seq<T>, d: seq<T>)
    ensures a + (b + (c + d)) == (a + (b + c)) + d
  {
  }

  /** The text a stamp match covers, from its groups: `A:B:C,D`. */
  function StampText(a: String, b: String, c: String, d: String): String {
    a + ":" + b + ":" + c + "," + d
  }

  lemma StampTextGroups(a: String, b: String, c: String, d: String)
    ensures GroupsText([a, b, c, d], "::,") == StampText(a, b, c, d)
  {
    var gs := [a, b, c, d];
    assert gs[1..] == [b, c, d] && gs[1..][1..] == [c, d] && gs[1..][1..][1..] == [d];
    assert "::,"[1..] == ":," && ":,"[1..] == ",";
  }

  /** Every text of the shape `A:B:C,D` followed by a non-digit (or nothing)
      matches, with the groups' decimal values. */
  lemma MatchAtComplete(t: String, p: nat, a: String, b: String, c: String, d: String, rest: String)
    requires p <= |t|
    requires IsGroup(a) && IsGroup(b) && IsGroup(c) && IsGroup(d)
    requires rest == [] || !IsDigit(rest[0])
    requires t[p..] == StampText(a, b, c, d) + rest
    ensures MatchAt(t, p) == Some(Stamp(DecimalValue(a), DecimalValue(b), DecimalValue(c), DecimalValue(d)))
  {
    StampTextGroups(a, b, c, d);
    DigitGroupsComplete([a, b, c, d], "::,", rest);
  }

  /** Every match has the shape `A:B:C,D` followed by a non-digit (or nothing),
      and its numbers are the groups' decimal values. */
  lemma MatchAtSound(t: String, p: nat) returns (a: String, b: String, c: String, d: String, rest: String)
    requires p <= |t| && MatchAt(t, p).Some?
    ensures IsGroup(a) && IsGroup(b) && IsGroup(c) && IsGroup(d)
    ensures rest == [] || !IsDigit(rest[0])
    ensures t[p..] == StampText(a, b, c, d) + rest
    ensures MatchAt(t, p).value == Stamp(DecimalValue(a), DecimalValue(b), DecimalValue(c), DecimalValue(d))
  {
    var gs := DigitGroups(t[p..], "::,").value;
    rest := DigitGroupsSound(t[p..], "::,");
    DigitGroupsAreGroups(t[p..], "::,");
    a, b, c, d := gs[0], gs[1], gs[2], gs[3];
    assert gs == [a, b, c, d];
    StampTextGroups(a, b, c, d);
  }

  // ---------------------------------------------------------------------
  // parseSrt
  // ---------------------------------------------------------------------

  /** `s.replace(/\r/g, "")`. */
  function RemoveChar(s: String, c: char): (r: String)
    ensures |r| <= |s|
  {
    if s == [] then [] else (if s[0] == c then [] else [s[0]]) + RemoveChar(s[1..], c)
  }

  /** Removal leaves no `c` and keeps every other character, in order: removing
      again changes nothing. */
  lemma {:induction false} RemoveCharSpec(s: String, c: char)
    ensures c !in RemoveChar(s, c)
    ensures c !in s ==> RemoveChar(s, c) == s
    decreases |s|
  {
    if s != [] {
      RemoveCharSpec(s[1..], c);
      if c !in s {
        assert c !in s[1..];
        assert s == [s[0]] + s[1..];
      }
    }
  }

  lemma {:induction false} RemoveCharAppend(x: String, y: String, c: char)
    ensures RemoveChar(x + y, c) == RemoveChar(x, c) + RemoveChar(y, c)
    decreases |x|
  {
    if x == [] {
      assert x + y == y;
    } else {
      assert (x + y)[1..] == x[1..] + y;
      RemoveCharAppend(x[1..], y, c);
    }
  }

  lemma {:induction false} RemoveCharFlatten(parts: seq<String>, c: char)
    ensures RemoveChar(Flatten(parts), c) == Flatten(seq(|parts|, i requires 0 <= i < |parts| => RemoveChar(parts[i], c)))
    decreases |parts|
  {
    if parts != [] {
      RemoveCharAppend(parts[0], Flatten(parts[1..]), c);
      RemoveCharFlatten(parts[1..], c);
      var f := seq(|parts|, i requires 0 <= i < |parts| => RemoveChar(parts[i], c));
      assert f[1..] == seq(|parts[1..]|, i requires 0 <= i < |parts[1..]| => RemoveChar(parts[1..][i], c));
    }
  }

  /** Length of the run of '\n' at the front of `s`. */
  function NewlineRun(s: String): (k: nat)
    ensures k <= |s|
    ensures forall i :: 0 <= i < k ==> s[i] == '\n'
    ensures k < |s| ==> s[k] != '\n'
  {
    if s == [] || s[0] != '\n' then 0 else 1 + NewlineRun(s[1..])
  }

  /** Where `split(/\n\n+/)` cuts first: the position of the leftmost blank
      line and the length of the whole run of newlines that starts there. */
  function FirstGap(s: String): (r: Option<(nat, nat)>)
    ensures r.Some? ==>
      && r.value.0 + r.value.1 <= |s| && r.value.1 >= 2
      && (forall j :: r.value.0 <= j < r.value.0 + r.value.1 ==> s[j] == '\n')
      && (r.value.0 + r.value.1 < |s| ==> s[r.value.0 + r.value.1] != '\n')
  {
    match IndexOf(s, "\n\n")
    case None => None
    case Some(i) =>
      IndexFromSpec(s, "\n\n", 0);
      assert s[i..i + 2][0] == s[i] && s[i..i + 2][1] == s[i + 1];
      var u := s[i..];
      var k := NewlineRun(u);
      assert forall j :: i <= j < i + k ==> s[j] == u[j - i];
      assert i + k < |s| ==> s[i + k] == u[k];
      Some((i, k))
  }

  /** Without a cut the text holds no blank line; with one, the text before
      it holds none and does not end with a newline. */
  lemma FirstGapClean(s: String)
    ensures FirstGap(s).None? ==> !Contains(s, "\n\n")
    ensures FirstGap(s).Some? ==>
      !Contains(s[..FirstGap(s).value.0], "\n\n") && ClearEnd(s[..FirstGap(s).value.0])
  {
    IndexFromSpec(s, "\n\n", 0);
    match IndexOf(s, "\n\n")
    case None =>
      NoOccurrenceInPrefix(s, "\n\n", |s|);
      assert s[..|s|] == s;
    case Some(i) =>
      NoOccurrenceInPrefix(s, "\n\n", i);
      if 0 < i && s[i - 1] == '\n' {
        assert s[i] == '\n';
        assert s[i - 1..i + 1] == "\n\n";
        assert OccursAt(s, "\n\n", i - 1);
      }
  }

  /** A separator of the split: two or more newlines. */
  predicate NewlineGap(g: String) {
    |g| >= 2 && forall j :: 0 <= j < |g| ==> g[j] == '\n'
  }

  lemma GapIsNewlines(s: String, i: nat, k: nat)
    requires FirstGap(s) == Some((i, k))
    ensures NewlineGap(s[i..i + k])
  {
    var g := s[i..i + k];
    forall j | 0 <= j < |g|
      ensures g[j] == '\n'
    {
      assert g[j] == s[i + j];
    }
  }

  /** `s.split(/\n\n+/)`: the pieces between maximal runs of two or more newlines. */
  function SplitBlocks(s: String): (blocks: seq<String>)
    ensures |blocks| >= 1
    decreases |s|
  {
    match FirstGap(s)
    case None => [s]
    case Some((i, k)) => [s[..i]] + SplitBlocks(s[i + k..])
  }

  /** The separators `split(/\n\n+/)` matched, one between each pair of
      neighbouring blocks. */
  function BlockGaps(s: String): (gaps: seq<String>)
    ensures |gaps| == |SplitBlocks(s)| - 1
    decreases |s|
  {
    match FirstGap(s)
    case None => []
    case Some((i, k)) => [s[i..i + k]] + BlockGaps(s[i + k..])
  }

  /** No block holds a blank-line separator. */
  lemma {:induction false} SplitBlocksPieces(s: String)
    ensures forall i :: 0 <= i < |SplitBlocks(s)| ==> !Contains(SplitBlocks(s)[i], "\n\n")
    decreases |s|
  {
    FirstGapClean(s);
    match FirstGap(s)
    case None =>
    case Some((i, k)) =>
      SplitBlocksPieces(s[i + k..]);
      assert SplitBlocks(s) == [s[..i]] + SplitBlocks(s[i + k..]);
  }

  lemma Thirds<T>(s: seq<T>, i: nat, j: nat)
    requires i <= j <= |s|
    ensures s == s[..i] + (s[i..j] + s[j..])
  {
  }

  /** Splitting into blocks loses nothing but newlines. */
  lemma {:induction false} SplitBlocksKeepsText(s: String)
    ensures RemoveChar(Flatten(SplitBlocks(s)), '\n') == RemoveChar(s, '\n')
    decreases |s|
  {
    match FirstGap(s)
    case None =>
      assert Flatten(SplitBlocks(s)) == s;
    case Some((i, k)) =>
      var head, gap, rest := s[..i], s[i..i + k], s[i + k..];
      SplitBlocksKeepsText(rest);
      assert SplitBlocks(s) == [head] + SplitBlocks(rest);
      assert Flatten(SplitBlocks(s)) == head + Flatten(SplitBlocks(rest));
      RemoveCharAppend(head, Flatten(SplitBlocks(rest)), '\n');
      GapIsNewlines(s, i, k);
      Thirds(s, i, i + k);
      DropGap(head, gap, rest);
  }

  /** The blocks written out with a separator between each neighbouring pair. */
  function Interleave(blocks: seq<String>, gaps: seq<String>): String
    requires |gaps| + 1 == |blocks|
  {
    if gaps == [] then blocks[0] else blocks[0] + gaps[0] + Interleave(blocks[1..], gaps[1..])
  }

  lemma InterleaveCons(b: String, g: String, blocks: seq<String>, gaps: seq<String>)
    requires |gaps| + 1 == |blocks|
    ensures Interleave([b] + blocks, [g] + gaps) == b + g + Interleave(blocks, gaps)
  {
    assert ([b] + blocks)[1..] == blocks;
    assert ([g] + gaps)[1..] == gaps;
  }

  /** Writing the matched separators back between the blocks gives the input,
      and every separator is a run of at least two newlines. */
  lemma {:induction false} SplitBlocksRoundTrip(s: String)
    ensures Interleave(SplitBlocks(s), BlockGaps(s)) == s
    ensures forall j :: 0 <= j < |BlockGaps(s)| ==> NewlineGap(BlockGaps(s)[j])
    decreases |s|
  {
    match FirstGap(s)
    case None =>
    case Some((i, k)) =>
      var head, gap, rest := s[..i], s[i..i + k], s[i + k..];
      SplitBlocksRoundTrip(rest);
      GapIsNewlines(s, i, k);
      assert SplitBlocks(s) == [head] + SplitBlocks(rest);
      assert BlockGaps(s) == [gap] + BlockGaps(rest);
      InterleaveCons(head, gap, SplitBlocks(rest), BlockGaps(rest));
      Thirds(s, i, i + k);
      Assoc3(head, gap, rest);
  }

  predicate ClearEnd(b: String) {
    b == [] || b[|b| - 1] != '\n'
  }

  predicate ClearStart(b: String) {
    b == [] || b[0] != '\n'
  }

  /** The separators are maximal runs: no block continues the separator before
      or after it with a newline, and no block between two separators is empty. */
  predicate MaximalGaps(blocks: seq<String>) {
    && (forall i :: 0 <= i < |blocks| - 1 ==> ClearEnd(blocks[i]))
    && (forall i :: 0 < i < |blocks| ==> ClearStart(blocks[i]))
    && (forall i :: 0 < i < |blocks| - 1 ==> blocks[i] != [])
  }

  /** A text that does not start with a newline has a first block that does
      not either, and that block is non-empty when a separator follows it. */
  lemma FirstBlockClearStart(s: String)
    requires ClearStart(s)
    ensures ClearStart(SplitBlocks(s)[0])
    ensures |SplitBlocks(s)| > 1 ==> SplitBlocks(s)[0] != []
  {
    SplitBlocksHead(s);
    if FirstGap(s).Some? {
      var i := FirstGap(s).value.0;
      assert s[i] == '\n';
      assert 0 < i;
      assert s[..i][0] == s[0];
    }
  }

  /** The first block is the text before the first cut, or all of it. */
  lemma SplitBlocksHead(s: String)
    ensures FirstGap(s).None? ==> SplitBlocks(s) == [s]
    ensures FirstGap(s).Some? ==> |SplitBlocks(s)| > 1 && SplitBlocks(s)[0] == s[..FirstGap(s).value.0]
  {
  }

  lemma MaximalCons(head: String, blocks: seq<String>)
    requires blocks != [] && MaximalGaps(blocks)
    requires ClearEnd(head) && ClearStart(blocks[0])
    requires |blocks| > 1 ==> blocks[0] != []
    ensures MaximalGaps([head] + blocks)
  {
    var all := [head] + blocks;
    forall i | 0 < i < |all|
      ensures all[i] == blocks[i - 1]
    {
    }
  }

  /** The separators the split cuts at are maximal runs of newlines, so the
      blocks and separators are the only such decomposition of the input. */
  lemma {:induction false} SplitBlocksMaximal(s: String)
    ensures MaximalGaps(SplitBlocks(s))
    decreases |s|
  {
    match FirstGap(s)
    case None =>
    case Some((i, k)) =>
      var rest := s[i + k..];
      SplitBlocksMaximal(rest);
      assert SplitBlocks(s) == [s[..i]] + SplitBlocks(rest);
      FirstGapClean(s);
      FirstBlockClearStart(rest);
      MaximalCons(s[..i], SplitBlocks(rest));
  }

  lemma SplitAround<T>(s: seq<T>, a: nat)
    requires a < |s|
    ensures s == s[..a] + ([s[a]] + s[a + 1..])
  {
  }

  /** Removing newlines around a run of newlines joins what is on either side. */
  lemma DropGap(head: String, gap: String, rest: String)
    requires forall j :: 0 <= j < |gap| ==> gap[j] == '\n'
    ensures RemoveChar(head + (gap + rest), '\n') == RemoveChar(head, '\n') + RemoveChar(rest, '\n')
  {
    var tail := gap + rest;
    RemoveCharAppend(head, tail, '\n');
    RemoveCharAppend(gap, rest, '\n');
    NewlinesVanish(gap);
    assert RemoveChar(tail, '\n') == RemoveChar(rest, '\n');
  }

  lemma {:induction false} NewlinesVanish(s: String)
    requires forall i :: 0 <= i < |s| ==> s[i] == '\n'
    ensures RemoveChar(s, '\n') == []
    decreases |s|
  {
    if s != [] {
      NewlinesVanish(s[1..]);
    }
  }

  /** `b.split("\n").filter(Boolean)`. */
  function Lines(b: String): seq<String> {
    DropEmpty(SplitOn(b, "\n"))
  }

  /** The words of a block's text lines (from the third non-empty line on). */
  function TextWords(lines: seq<String>): seq<String>
    requires |lines| >= 3
  {
    Words(Join(lines[2..], " "))
  }

  /** One iteration of `parseSrt`'s loop: the segment a block yields, if any. */
  function ParseBlock(b: String): (r: Option<CaptionSegment>)
    ensures r.Some? <==>
      var lines := Lines(b);
      && |lines| >= 3
      && |SplitOn(lines[1], "-->")| == 2
      && TextWords(lines) != []
    ensures r.Some? ==>
      var lines := Lines(b);
      var times := SplitOn(lines[1], "-->");
      && lines[1] == times[0] + "-->" + times[1]
      && r.value.startSec == TimeToSec(Trim(times[0]))
      && r.value.endSec == TimeToSec(Trim(times[1]))
      && r.value.text == Join(TextWords(lines), " ")
      && Normalized(r.value.text)
      && r.value.text != []
  {
    var lines := Lines(b);
    if |lines| < 3 then None
    else
      var times := SplitOn(lines[1], "-->");
      if |times| != 2 then None
      else
        var text := Normalize(Join(lines[2..], " "));
        NormalizeIsJoinedWords(Join(lines[2..], " "));
        WordsAreWords(Join(lines[2..], " "));
        SplitJoin(lines[1], "-->");
        assert Join(times, "-->") == times[0] + "-->" + times[1];
        if text == [] then None
        else Some(CaptionSegment(TimeToSec(Trim(times[0])), TimeToSec(Trim(times[1])), text))
  }

  /** The segment a block yields, as a sequence of zero or one segments. */
  function BlockSegments(b: String): seq<CaptionSegment> {
    match ParseBlock(b)
    case None => []
    case Some(seg) => [seg]
  }

  /** The loop of `parseSrt` over its blocks: skipped blocks contribute nothing. */
  function ParseBlocks(blocks: seq<String>): (segs: seq<CaptionSegment>)
    ensures |segs| <= |blocks|
  {
    if blocks == [] then [] else BlockSegments(blocks[0]) + ParseBlocks(blocks[1..])
  }

  /** Every parsed segment carries non-empty, normalized text. */
  lemma {:induction false} ParseBlocksTexts(blocks: seq<String>)
    ensures forall i :: 0 <= i < |ParseBlocks(blocks)| ==>
      ParseBlocks(blocks)[i].text != [] && Normalized(ParseBlocks(blocks)[i].text)
    decreases |blocks|
  {
    if blocks != [] {
      ParseBlocksTexts(blocks[1..]);
    }
  }

  /** The blocks `parseSrt` reads: carriage returns removed, the text trimmed,
      then split at blank lines. */
  function SrtBlocks(srt: String): seq<String> {
    SplitBlocks(Trim(RemoveChar(srt, '\r')))
  }

  /** `parseSrt`. */
  function ParseSrt(srt: String): (segs: seq<CaptionSegment>)
    ensures |segs| <= |SrtBlocks(srt)|
  {
    ParseBlocks(SrtBlocks(srt))
  }

  /** Every segment of a parsed file has non-empty, single-spaced, trimmed text. */
  lemma ParseSrtTexts(srt: String)
    ensures forall i :: 0 <= i < |ParseSrt(srt)| ==>
      ParseSrt(srt)[i].text != [] && Normalized(ParseSrt(srt)[i].text)
  {
    ParseBlocksTexts(SrtBlocks(srt));
  }

  /** A parsed file is, in order, the segments its blocks yield one by one. */
  lemma ParseSrtBlockwise(srt: String)
    ensures var blocks := SrtBlocks(srt);
      ParseSrt(srt) == Flatten(seq(|blocks|, i requires 0 <= i < |blocks| => BlockSegments(blocks[i])))
  {
    ParseBlocksBlockwise(SrtBlocks(srt));
  }

  /** Line endings do not matter: a file with CRLF line ends parses as the
      same file with LF ones. */
  lemma ParseSrtIgnoresCR(srt: String)
    ensures ParseSrt(RemoveChar(srt, '\r')) == ParseSrt(srt)
  {
    var lf := RemoveChar(srt, '\r');
    RemoveCharSpec(srt, '\r');
    RemoveCharSpec(lf, '\r');
    assert RemoveChar(lf, '\r') == lf;
    assert SrtBlocks(lf) == SrtBlocks(srt);
  }

  /** Parsing block lists is a homomorphism: a skipped block never stops the
      blocks after it, and segments keep the order of their blocks. */
  lemma {:induction false} ParseBlocksAppend(a: seq<String>, b: seq<String>)
    ensures ParseBlocks(a + b) == ParseBlocks(a) + ParseBlocks(b)
    decreases |a|
  {
    if a == [] {
      assert a + b == b;
    } else {
      assert (a + b)[1..] == a[1..] + b;
      ParseBlocksAppend(a[1..], b);
    }
  }

  /** The parse is the concatenation, block by block, of what each block yields. */
  lemma {:induction false} ParseBlocksBlockwise(blocks: seq<String>)
    ensures ParseBlocks(blocks)
         == Flatten(seq(|blocks|, i requires 0 <= i < |blocks| => BlockSegments(blocks[i])))
    decreases |blocks|
  {
    if blocks != [] {
      ParseBlocksBlockwise(blocks[1..]);
      var f := seq(|blocks|, i requires 0 <= i < |blocks| => BlockSegments(blocks[i]));
      var g := seq(|blocks[1..]|, i requires 0 <= i < |blocks[1..]| => BlockSegments(blocks[1..][i]));
      forall i | 0 <= i < |g|
        ensures f[1..][i] == g[i]
      {
        assert blocks[1..][i] == blocks[i + 1];
      }
      assert f[1..] == g;
      assert Flatten(f) == f[0] + Flatten(f[1..]);
    }
  }

  // ---------------------------------------------------------------------
  // segmentsToWordCues
  // ---------------------------------------------------------------------

  /** The floor on a segment's duration before it is divided among its words. */
  const MinSegmentSec: real := 0.08

  function MaxReal(a: real, b: real): real {
    if a >= b then a else b
  }

  /** The share of the segment's (floored) duration each of its `n` words gets. */
  function PerWord(seg: CaptionSegment, n: nat): (per: real)
    requires n > 0
    ensures per > 0.0
    ensures per * n as real >= MinSegmentSec
    ensures seg.endSec - seg.startSec >= MinSegmentSec ==> per * n as real == seg.endSec - seg.startSec
    ensures seg.endSec - seg.startSec < MinSegmentSec ==> per * n as real == MinSegmentSec
  {
    MaxReal(MinSegmentSec, seg.endSec - seg.startSec) / n as real
  }

  /** A segment at least `MinSegmentSec` long is covered exactly by its words'
      shares. */
  lemma PerWordSpan(seg: CaptionSegment, n: nat)
    requires n > 0 && seg.endSec - seg.startSec >= MinSegmentSec
    ensures seg.startSec + n as real * PerWord(seg, n) == seg.endSec
  {
    var per := PerWord(seg, n);
    assert n as real * per == per * n as real;
  }

  /** The cues the inner loop of `segmentsToWordCues` emits for one segment. */
  function SegmentCues(seg: CaptionSegment): (cues: seq<WordCue>)
    ensures |cues| == |Words(seg.text)|
  {
    var words := Words(seg.text);
    if |words| == 0 then [] else Spread(words, seg.startSec, seg.endSec, PerWord(seg, |words|))
  }

  /** One cue per word, the `i`-th starting at `s0 + i * per` and ending where
      the next one starts, the last one ending at `e`. */
  function Spread(words: seq<String>, s0: real, e: real, per: real): (cues: seq<WordCue>)
    ensures |cues| == |words|
  {
    var n := |words|;
    seq(n, i requires 0 <= i < n =>
      var start := s0 + i as real * per;
      WordCue(start, if i == n - 1 then e else start + per, words[i]))
  }

  /** Cues whose starts step by `per` from `s0`. */
  predicate Stepped(cues: seq<WordCue>, s0: real, per: real) {
    forall i :: 0 <= i < |cues| ==> cues[i].startSec == s0 + i as real * per
  }

  /** One cue per word, in order; the cues tile the segment in steps of
      `PerWord`, back to back, and the last one ends where the segment ends. */
  lemma SegmentCuesSpec(seg: CaptionSegment)
    ensures CueWords(SegmentCues(seg)) == Words(seg.text)
    ensures var cues := SegmentCues(seg);
      |cues| > 0 ==> Stepped(cues, seg.startSec, PerWord(seg, |cues|))
    ensures var cues := SegmentCues(seg);
      forall i :: 0 <= i < |cues| - 1 ==> cues[i].endSec == cues[i + 1].startSec
    ensures var cues := SegmentCues(seg);
      |cues| > 0 ==> cues[|cues| - 1].endSec == seg.endSec
  {
    SegmentCuesWords(seg);
    SegmentCuesTile(seg);
  }

  lemma SegmentCuesWords(seg: CaptionSegment)
    ensures CueWords(SegmentCues(seg)) == Words(seg.text)
  {
  }

  lemma SegmentCuesTile(seg: CaptionSegment)
    ensures var cues := SegmentCues(seg);
      |cues| > 0 ==> Stepped(cues, seg.startSec, PerWord(seg, |cues|))
    ensures var cues := SegmentCues(seg);
      forall i :: 0 <= i < |cues| - 1 ==> cues[i].endSec == cues[i + 1].startSec
    ensures var cues := SegmentCues(seg);
      |cues| > 0 ==> cues[|cues| - 1].endSec == seg.endSec
  {
    var words := Words(seg.text);
    if |words| > 0 {
      SpreadTile(words, seg.startSec, seg.endSec, PerWord(seg, |words|));
    }
  }

  lemma SpreadTile(words: seq<String>, s0: real, e: real, per: real)
    ensures Stepped(Spread(words, s0, e, per), s0, per)
    ensures var cues := Spread(words, s0, e, per);
      forall i :: 0 <= i < |cues| - 1 ==> cues[i].endSec == cues[i + 1].startSec
    ensures var cues := Spread(words, s0, e, per);
      |cues| > 0 ==> cues[|cues| - 1].endSec == e
  {
    var cues := Spread(words, s0, e, per);
    forall i | 0 <= i < |cues| - 1
      ensures cues[i].endSec == cues[i + 1].startSec
    {
      assert s0 + i as real * per + per == s0 + (i + 1) as real * per;
    }
  }

  /** The words of all segments, in segment order. */
  function AllWords(segs: seq<CaptionSegment>): seq<String> {
    if segs == [] then [] else Words(segs[0].text) + AllWords(segs[1..])
  }

  function CueWords(cues: seq<WordCue>): (ws: seq<String>)
    ensures |ws| == |cues|
  {
    seq(|cues|, i requires 0 <= i < |cues| => cues[i].word)
  }

  lemma CueWordsAppend(a: seq<WordCue>, b: seq<WordCue>)
    ensures CueWords(a + b) == CueWords(a) + CueWords(b)
  {
    forall i | 0 <= i < |a| + |b|
      ensures CueWords(a + b)[i] == (CueWords(a) + CueWords(b))[i]
    {
    }
  }

  /** Reference definition of `segmentsToWordCues`: each segment's cues, in
      segment order. */
  function WordCues(segs: seq<CaptionSegment>): (cues: seq<WordCue>)
    ensures |cues| == |AllWords(segs)|
  {
    if segs == [] then [] else SegmentCues(segs[0]) + WordCues(segs[1..])
  }

  /** One cue per word, nothing else: the cues carry every segment's words in
      order. */
  lemma {:induction false} WordCuesWords(segs: seq<CaptionSegment>)
    ensures CueWords(WordCues(segs)) == AllWords(segs)
    decreases |segs|
  {
    if segs != [] {
      var first := SegmentCues(segs[0]);
      var rest := WordCues(segs[1..]);
      WordCuesWords(segs[1..]);
      SegmentCuesWords(segs[0]);
      CueWordsAppend(first, rest);
    }
  }

  lemma {:induction false} WordCuesAppend(a: seq<CaptionSegment>, b: seq<CaptionSegment>)
    ensures WordCues(a + b) == WordCues(a) + WordCues(b)
    decreases |a|
  {
    if a == [] {
      assert a + b == b;
    } else {
      assert (a + b)[1..] == a[1..] + b;
      WordCuesAppend(a[1..], b);
    }
  }

  /** The body of the outer loop of `segmentsToWordCues`: a segment without
      words is skipped, otherwise the inner loop emits one cue per word. */
  method EmitSegmentCues(seg: CaptionSegment) returns (out: seq<WordCue>)
    ensures out == SegmentCues(seg)
  {
    var words := Words(seg.text);
    out := [];
    if |words| == 0 {
      return;
    }
    var dur := MaxReal(MinSegmentSec, seg.endSec - seg.startSec);
    var per := dur / |words| as real;
    ghost var expected := SegmentCues(seg);
    for i := 0 to |words|
      invariant out == expected[..i]
    {
      var start := seg.startSec + i as real * per;
      var end := if i == |words| - 1 then seg.endSec else start + per;
      assert expected[i] == WordCue(start, end, words[i]);
      out := out + [WordCue(start, end, words[i])];
      assert expected[..i + 1] == expected[..i] + [expected[i]];
    }
    assert expected[..|words|] == expected;
  }

  /** `segmentsToWordCues`, loop for loop. */
  method SegmentsToWordCues(segments: seq<CaptionSegment>) returns (cues: seq<WordCue>)
    ensures cues == WordCues(segments)
  {
    cues := [];
    for k := 0 to |segments|
      invariant cues == WordCues(segments[..k])
    {
      var segCues := EmitSegmentCues(segments[k]);
      WordCuesAppend(segments[..k], [segments[k]]);
      assert segments[..k + 1] == segments[..k] + [segments[k]];
      assert WordCues([segments[k]]) == segCues;
      cues := cues + segCues;
    }
    assert segments[..|segments|] == segments;
  }

  lemma ScaleMonotone(x: real, y: real, per: real)
    requires x < y && per > 0.0
    ensures x * per < y * per
  {
    assert y * per - x * per == (y - x) * per;
  }

  lemma ScaleMonotoneLe(x: real, y: real, per: real)
    requires x <= y && per >= 0.0
    ensures x * per <= y * per
  {
    assert y * per - x * per == (y - x) * per;
  }

  lemma SteppedIncreasing(cues: seq<WordCue>, s0: real, per: real)
    requires per > 0.0 && Stepped(cues, s0, per)
    ensures forall i, j :: 0 <= i < j < |cues| ==> cues[i].startSec < cues[j].startSec
  {
    forall i, j | 0 <= i < j < |cues|
      ensures cues[i].startSec < cues[j].startSec
    {
      ScaleMonotone(i as real, j as real, per);
    }
  }

  lemma SteppedInside(cues: seq<WordCue>, s0: real, per: real, e: real)
    requires |cues| > 0 && per > 0.0 && Stepped(cues, s0, per)
    requires s0 + |cues| as real * per == e
    requires forall i :: 0 <= i < |cues| - 1 ==> cues[i].endSec == cues[i + 1].startSec
    requires cues[|cues| - 1].endSec == e
    ensures forall i :: 0 <= i < |cues| ==> s0 <= cues[i].startSec <= cues[i].endSec <= e
  {
    var n := |cues|;
    forall i | 0 <= i < n
      ensures s0 <= cues[i].startSec <= cues[i].endSec <= e
    {
      ScaleMonotoneLe(0.0, i as real, per);
      ScaleMonotoneLe(i as real, n as real, per);
      if i < n - 1 {
        ScaleMonotoneLe(i as real, (i + 1) as real, per);
        ScaleMonotoneLe((i + 1) as real, n as real, per);
        assert cues[i + 1].startSec == s0 + (i + 1) as real * per;
      }
    }
  }

  /** Within a segment cue starts strictly increase. */
  lemma SegmentCuesIncreasing(seg: CaptionSegment)
    ensures var cues := SegmentCues(seg);
      forall i, j :: 0 <= i < j < |cues| ==> cues[i].startSec < cues[j].startSec
  {
    var cues := SegmentCues(seg);
    var n := |cues|;
    SegmentCuesSpec(seg);
    if n > 0 {
      var per := PerWord(seg, n);
      SteppedIncreasing(cues, seg.startSec, per);
    }
  }

  /** When the segment is at least `MinSegmentSec` long every cue lies inside
      it and ends no earlier than it starts. */
  lemma SegmentCuesInside(seg: CaptionSegment)
    requires seg.endSec - seg.startSec >= MinSegmentSec
    ensures var cues := SegmentCues(seg);
      forall i :: 0 <= i < |cues| ==>
        seg.startSec <= cues[i].startSec <= cues[i].endSec <= seg.endSec
  {
    var cues := SegmentCues(seg);
    var n := |cues|;
    SegmentCuesSpec(seg);
    if n > 0 {
      var per := PerWord(seg, n);
      PerWordSpan(seg, n);
      SteppedInside(cues, seg.startSec, per, seg.endSec);
    }
  }

  /** Two words over two seconds: one second each, the second cue pinned to
      the segment's end. */
  lemma TwoWordCues(a: String, b: String)
    requires |a| > 0 && NoSpace(a) && |b| > 0 && NoSpace(b)
    ensures SegmentCues(CaptionSegment(1.0, 3.0, Join([a, b], " ")))
         == [WordCue(1.0, 2.0, a), WordCue(2.0, 3.0, b)]
  {
    var seg := CaptionSegment(1.0, 3.0, Join([a, b], " "));
    WordsOfJoin([a, b]);
    var cues := SegmentCues(seg);
    SegmentCuesSpec(seg);
    assert PerWord(seg, 2) == 1.0;
    assert CueWords(cues)[0] == a && CueWords(cues)[1] == b;
  }

  /** A segment shorter than `MinSegmentSec` divides the floor instead, so its
      last cue, pinned to the segment's end, can end before it starts. */
  lemma ShortSegmentLastCue(a: String, b: String)
    requires |a| > 0 && NoSpace(a) && |b| > 0 && NoSpace(b)
    ensures var cues := SegmentCues(CaptionSegment(1.0, 1.0, Join([a, b], " ")));
      && |cues| == 2
      && cues[1].startSec == 1.04
      && cues[1].endSec == 1.0
  {
    var seg := CaptionSegment(1.0, 1.0, Join([a, b], " "));
    WordsOfJoin([a, b]);
    SegmentCuesSpec(seg);
    assert PerWord(seg, 2) == 0.04;
  }
}
