/** String primitives of the JavaScript runtime that the render service leans on:
    the `\s` and `\d` character classes, `trim`, `split` on a literal
    separator, `split(/\s+/).filter(Boolean)` and `replace(/\s+/g, " ")`. */
module Text {
  import opened Results

  type String = seq<char>

  /** JavaScript's `\s`, which is also the set `String.prototype.trim` strips:
      the WhiteSpace and LineTerminator code points of ECMA-262. */
  predicate IsSpace(c: char) {
    || c == ' ' || c == '\t' || c == '\n' || c == '\U{B}' || c == '\U{C}' || c == '\r'
    || c == '\U{A0}' || c == '\U{1680}' || ('\U{2000}' <= c <= '\U{200A}')
    || c == '\U{2028}' || c == '\U{2029}' || c == '\U{202F}' || c == '\U{205F}'
    || c == '\U{3000}' || c == '\U{FEFF}'
  }

  /** An optional string JavaScript treats as true: present and non-empty. */
  predicate Truthy(x: Option<String>) {
    x.Some? && x.value != []
  }

  /** `a || fallback` on an optional string and a string. */
  function Or(a: Option<String>, fallback: String): String {
    if Truthy(a) then a.value else fallback
  }

  /** JavaScript's `\d`. */
  predicate IsDigit(c: char) {
    '0' <= c <= '9'
  }

  predicate NoSpace(s: String) {
    forall i :: 0 <= i < |s| ==> !IsSpace(s[i])
  }

  predicate AllSpace(s: String) {
    forall i :: 0 <= i < |s| ==> IsSpace(s[i])
  }

  predicate AllDigits(s: String) {
    forall i :: 0 <= i < |s| ==> IsDigit(s[i])
  }

  /** The decimal value of a run of digits, as `Number("0042")` reads it. */
  function DecimalValue(s: String): int
  {
    if s == [] then 0
    else DecimalValue(s[..|s| - 1]) * 10 + ((s[|s| - 1] as int) - ('0' as int))
  }

  /** Length of the whitespace prefix of `s`. */
  function LeadingSpaces(s: String): (k: nat)
    ensures k <= |s|
    ensures forall i :: 0 <= i < k ==> IsSpace(s[i])
    ensures k < |s| ==> !IsSpace(s[k])
  {
    if s == [] || !IsSpace(s[0]) then 0 else 1 + LeadingSpaces(s[1..])
  }

  /** Length of the whitespace suffix of `s`. */
  function TrailingSpaces(s: String): (k: nat)
    ensures k <= |s|
    ensures forall i :: |s| - k <= i < |s| ==> IsSpace(s[i])
    ensures k < |s| ==> !IsSpace(s[|s| - k - 1])
  {
    if s == [] || !IsSpace(s[|s| - 1]) then 0 else 1 + TrailingSpaces(s[..|s| - 1])
  }

  /** Length of the maximal run of non-whitespace characters at the front of `s`. */
  function NonSpaceRun(s: String): (k: nat)
    ensures k <= |s|
    ensures forall i :: 0 <= i < k ==> !IsSpace(s[i])
    ensures k < |s| ==> IsSpace(s[k])
  {
    if s == [] || IsSpace(s[0]) then 0 else 1 + NonSpaceRun(s[1..])
  }

  /** `s.trim()`. */
  function Trim(s: String): String
  {
    var t := s[LeadingSpaces(s)..];
    t[..|t| - TrailingSpaces(t)]
  }

  /** `s` is `Trim(s)` with only whitespace around it. */
  lemma TrimParts(s: String) returns (lead: String, trail: String)
    ensures s == lead + Trim(s) + trail
    ensures AllSpace(lead) && AllSpace(trail)
  {
    var a := LeadingSpaces(s);
    var t := s[a..];
    var b := |t| - TrailingSpaces(t);
    lead, trail := s[..a], t[b..];
    assert AllSpace(lead) by {
      forall i | 0 <= i < |lead|
        ensures IsSpace(lead[i])
      {
        assert lead[i] == s[i];
      }
    }
    assert AllSpace(trail) by {
      forall i | 0 <= i < |trail|
        ensures IsSpace(trail[i])
      {
        assert trail[i] == t[b + i];
      }
    }
    Halves(s, a);
    Halves(t, b);
    Assoc3(lead, t[..b], trail);
  }

  lemma Halves<T>(s: seq<T>, k: nat)
    requires k <= |s|
    ensures s == s[..k] + s[k..]
  {
  }

  lemma Assoc3<T>(a: seq<T>, b: seq<T>, c: seq<T>)
    ensures a + (b + c) == a + b + c
  {
  }

  /** Trimming removes exactly the whitespace at both ends. */
  lemma TrimSpec(s: String)
    ensures Trim(s) == [] <==> AllSpace(s)
    ensures Trim(s) != [] ==> !IsSpace(Trim(s)[0]) && !IsSpace(Trim(s)[|Trim(s)| - 1])
  {
    if Trim(s) == [] {
      TrimEmpty(s);
    } else {
      TrimEnds(s);
    }
  }

  lemma TrimEmpty(s: String)
    requires Trim(s) == []
    ensures AllSpace(s)
  {
    var lead, trail := TrimParts(s);
    assert s == lead + trail;
    forall i | 0 <= i < |s|
      ensures IsSpace(s[i])
    {
      if i < |lead| { assert s[i] == lead[i]; } else { assert s[i] == trail[i - |lead|]; }
    }
  }

  lemma TrimEnds(s: String)
    requires Trim(s) != []
    ensures !AllSpace(s)
    ensures !IsSpace(Trim(s)[0]) && !IsSpace(Trim(s)[|Trim(s)| - 1])
  {
    var t := Trim(s);
    var a := LeadingSpaces(s);
    var u := s[a..];
    assert t == u[..|u| - TrailingSpaces(u)];
    assert !IsSpace(s[a]) && s[a] == t[0];
    assert t[|t| - 1] == u[|u| - TrailingSpaces(u) - 1];
  }

  /** Whitespace is only ever a single ' ', never two in a row. */
  predicate SingleSpaced(s: String) {
    && (forall i :: 0 <= i < |s| && IsSpace(s[i]) ==> s[i] == ' ')
    && (forall i :: 0 <= i < |s| - 1 ==> !IsSpace(s[i]) || !IsSpace(s[i + 1]))
  }

  /** What the caption cleanup promises of a text: single-spaced, no whitespace
      at either end. */
  predicate Normalized(s: String) {
    && SingleSpaced(s)
    && (s != [] ==> !IsSpace(s[0]) && !IsSpace(s[|s| - 1]))
  }

  /** `s.replace(/\s+/g, " ")`: every maximal whitespace run becomes one space. */
  function CollapseSpaces(s: String): (r: String)
    ensures r == [] <==> s == []
    ensures r != [] ==> (IsSpace(r[0]) <==> IsSpace(s[0]))
    decreases |s|
  {
    if s == [] then []
    else if IsSpace(s[0]) then " " + CollapseSpaces(s[LeadingSpaces(s)..])
    else
      var k := NonSpaceRun(s);
      s[..k] + CollapseSpaces(s[k..])
  }

  lemma SingleSpacedAppend(a: String, b: String)
    requires SingleSpaced(a) && SingleSpaced(b)
    requires a == [] || b == [] || !IsSpace(a[|a| - 1]) || !IsSpace(b[0])
    ensures SingleSpaced(a + b)
  {
    var c := a + b;
    forall i | 0 <= i < |c| && IsSpace(c[i])
      ensures c[i] == ' '
    {
      if i < |a| { assert c[i] == a[i]; } else { assert c[i] == b[i - |a|]; }
    }
    forall i | 0 <= i < |c| - 1
      ensures !IsSpace(c[i]) || !IsSpace(c[i + 1])
    {
      if i + 1 < |a| {
        assert c[i] == a[i] && c[i + 1] == a[i + 1];
      } else if i + 1 == |a| {
        assert c[i] == a[|a| - 1] && c[i + 1] == b[0];
      } else {
        assert c[i] == b[i - |a|] && c[i + 1] == b[i + 1 - |a|];
      }
    }
  }

  /** Collapsing leaves only single ' ' characters as whitespace. */
  lemma {:induction false} CollapseSingleSpaced(s: String)
    ensures SingleSpaced(CollapseSpaces(s))
    decreases |s|
  {
    if s == [] {
    } else if IsSpace(s[0]) {
      var rest := CollapseSpaces(s[LeadingSpaces(s)..]);
      CollapseSingleSpaced(s[LeadingSpaces(s)..]);
      SingleSpacedAppend(" ", rest);
    } else {
      var k := NonSpaceRun(s);
      var rest := CollapseSpaces(s[k..]);
      CollapseSingleSpaced(s[k..]);
      assert SingleSpaced(s[..k]) by {
        assert forall i :: 0 <= i < k ==> s[..k][i] == s[i];
      }
      SingleSpacedAppend(s[..k], rest);
    }
  }

  /** `s.replace(/\s+/g, " ").trim()`, the caption text cleanup. */
  function Normalize(s: String): String {
    Trim(CollapseSpaces(s))
  }

  /** `s.split(/\s+/).filter(Boolean)`: the maximal non-whitespace runs of `s`,
      in order. */
  function Words(s: String): seq<String>
    decreases |s|
  {
    if s == [] then []
    else if IsSpace(s[0]) then Words(s[1..])
    else
      var k := NonSpaceRun(s);
      [s[..k]] + Words(s[k..])
  }

  /** Every word is non-empty and free of whitespace. */
  lemma {:induction false} WordsAreWords(s: String)
    ensures forall i :: 0 <= i < |Words(s)| ==> |Words(s)[i]| > 0 && NoSpace(Words(s)[i])
    decreases |s|
  {
    if s == [] {
    } else if IsSpace(s[0]) {
      WordsAreWords(s[1..]);
    } else {
      var k := NonSpaceRun(s);
      WordsAreWords(s[k..]);
      assert Words(s) == [s[..k]] + Words(s[k..]);
      assert NoSpace(s[..k]) by {
        assert forall i :: 0 <= i < k ==> s[..k][i] == s[i];
      }
    }
  }

  /** `parts.join(sep)`. */
  function Join(parts: seq<String>, sep: String): String {
    if parts == [] then []
    else if |parts| == 1 then parts[0]
    else parts[0] + sep + Join(parts[1..], sep)
  }

  lemma JoinCons(w: String, ws: seq<String>, sep: String)
    requires ws != []
    ensures Join([w] + ws, sep) == w + (sep + Join(ws, sep))
  {
    assert ([w] + ws)[1..] == ws;
  }

  /** The concatenation of all `parts`. */
  function Flatten<T>(parts: seq<seq<T>>): seq<T> {
    if parts == [] then [] else parts[0] + Flatten(parts[1..])
  }

  /** `xs.filter(Boolean)` on strings: the empty strings are dropped. */
  function DropEmpty(xs: seq<String>): (r: seq<String>)
    ensures |r| <= |xs|
  {
    if xs == [] then []
    else if xs[0] == [] then DropEmpty(xs[1..])
    else [xs[0]] + DropEmpty(xs[1..])
  }

  /** `sep` occurs in `s` at position `j`. */
  predicate OccursAt(s: String, sep: String, j: int) {
    0 <= j && j + |sep| <= |s| && s[j..j + |sep|] == sep
  }

  predicate Contains(s: String, sep: String) {
    exists j :: 0 <= j <= |s| && OccursAt(s, sep, j)
  }

  /** The first position at or after `from` where `sep` occurs in `s`. */
  function IndexFrom(s: String, sep: String, from: nat): (r: Option<nat>)
    requires |sep| > 0
    ensures r.Some? ==> from <= r.value && r.value + |sep| <= |s|
    decreases |s| - from
  {
    if from + |sep| > |s| then None
    else if s[from..from + |sep|] == sep then Some(from)
    else IndexFrom(s, sep, from + 1)
  }

  /** `IndexFrom` finds the first occurrence at or after `from`. */
  lemma {:induction false} IndexFromSpec(s: String, sep: String, from: nat)
    requires |sep| > 0
    ensures IndexFrom(s, sep, from).Some? ==> OccursAt(s, sep, IndexFrom(s, sep, from).value)
    ensures forall j :: from <= j && (IndexFrom(s, sep, from).None? || j < IndexFrom(s, sep, from).value)
                        ==> !OccursAt(s, sep, j)
    decreases |s| - from
  {
    if from + |sep| <= |s| && s[from..from + |sep|] != sep {
      IndexFromSpec(s, sep, from + 1);
    }
  }

  /** Where `IndexFrom` reports a position, `s` splits around `sep` there. */
  lemma {:induction false} IndexFromFound(s: String, sep: String, from: nat)
    requires |sep| > 0
    ensures IndexFrom(s, sep, from).Some? ==>
      var i := IndexFrom(s, sep, from).value;
      s == s[..i] + sep + s[i + |sep|..]
    decreases |s| - from
  {
    if from + |sep| <= |s| {
      if s[from..from + |sep|] == sep {
        assert s == s[..from] + s[from..from + |sep|] + s[from + |sep|..];
      } else {
        IndexFromFound(s, sep, from + 1);
      }
    }
  }

  /** A first occurrence at or after `from` is what `IndexFrom` reports. */
  lemma {:induction false} IndexFromFirst(s: String, sep: String, from: nat, p: nat)
    requires |sep| > 0 && from <= p && OccursAt(s, sep, p)
    requires forall j :: from <= j < p ==> !OccursAt(s, sep, j)
    ensures IndexFrom(s, sep, from) == Some(p)
    decreases p - from
  {
    if from < p {
      assert !OccursAt(s, sep, from);
      IndexFromFirst(s, sep, from + 1, p);
    }
  }

  /** `s.indexOf(sep)`, as an option. */
  function IndexOf(s: String, sep: String): (r: Option<nat>)
    requires |sep| > 0
    ensures r.Some? ==> r.value + |sep| <= |s|
  {
    IndexFrom(s, sep, 0)
  }

  /** `s` holds no occurrence of `sep` that ends at or before position `n`. */
  lemma NoOccurrenceInPrefix(s: String, sep: String, n: nat)
    requires |sep| > 0 && n <= |s|
    requires forall j :: 0 <= j < n ==> !OccursAt(s, sep, j)
    ensures !Contains(s[..n], sep)
  {
    forall j | 0 <= j <= n && OccursAt(s[..n], sep, j)
      ensures false
    {
      assert s[..n][j..j + |sep|] == s[j..j + |sep|];
      assert OccursAt(s, sep, j);
    }
  }

  /** `s.split(sep)` for a non-empty literal separator: the pieces between the
      leftmost non-overlapping occurrences of `sep`. */
  function SplitOn(s: String, sep: String): (parts: seq<String>)
    requires |sep| > 0
    ensures |parts| >= 1
    decreases |s|
  {
    match IndexOf(s, sep)
    case None => [s]
    case Some(i) => [s[..i]] + SplitOn(s[i + |sep|..], sep)
  }

  /** No piece of a split holds the separator. */
  lemma {:induction false} SplitOnPieces(s: String, sep: String)
    requires |sep| > 0
    ensures forall i :: 0 <= i < |SplitOn(s, sep)| ==> !Contains(SplitOn(s, sep)[i], sep)
    decreases |s|
  {
    var parts := SplitOn(s, sep);
    IndexFromSpec(s, sep, 0);
    match IndexOf(s, sep)
    case None =>
      NoOccurrenceInPrefix(s, sep, |s|);
      assert s[..|s|] == s;
    case Some(i) =>
      NoOccurrenceInPrefix(s, sep, i);
      SplitOnPieces(s[i + |sep|..], sep);
      assert parts == [s[..i]] + SplitOn(s[i + |sep|..], sep);
  }

  /** Splitting and re-joining with the same separator gives the input back. */
  lemma {:induction false} SplitJoin(s: String, sep: String)
    requires |sep| > 0
    ensures Join(SplitOn(s, sep), sep) == s
    decreases |s|
  {
    IndexFromFound(s, sep, 0);
    match IndexOf(s, sep)
    case None =>
    case Some(i) =>
      var rest := s[i + |sep|..];
      SplitJoin(rest, sep);
      assert SplitOn(s, sep) == [s[..i]] + SplitOn(rest, sep);
  }

  /** `s.endsWith(suffix)`. */
  predicate EndsWith(s: String, suffix: String) {
    |suffix| <= |s| && s[|s| - |suffix|..] == suffix
  }

  /** `s.split("/").pop()`. */
  function LastSegment(s: String): String {
    var parts := SplitOn(s, "/");
    parts[|parts| - 1]
  }

  lemma {:induction false} JoinLast(parts: seq<String>, sep: String)
    requires |parts| >= 2
    ensures Join(parts, sep) == Join(parts[..|parts| - 1], sep) + sep + parts[|parts| - 1]
    decreases |parts|
  {
    if |parts| > 2 {
      JoinLast(parts[1..], sep);
      assert parts[1..][..|parts| - 2] == parts[..|parts| - 1][1..];
    }
  }

  /** The last segment is the part of `s` after its last '/': it holds no '/',
      and what precedes it is empty or ends with '/'. */
  lemma LastSegmentSpec(s: String)
    ensures '/' !in LastSegment(s)
    ensures |LastSegment(s)| <= |s|
    ensures var pre := s[..|s| - |LastSegment(s)|];
      && s == pre + LastSegment(s)
      && (pre == [] || pre[|pre| - 1] == '/')
  {
    var parts := SplitOn(s, "/");
    var r := parts[|parts| - 1];
    SplitOnPieces(s, "/");
    if '/' in r {
      var j :| 0 <= j < |r| && r[j] == '/';
      assert OccursAt(r, "/", j);
    }
    SplitJoin(s, "/");
    if |parts| >= 2 {
      JoinLast(parts, "/");
      var pre := Join(parts[..|parts| - 1], "/") + "/";
      assert s == pre + r;
      assert s[..|s| - |r|] == pre;
    } else {
      assert s == r;
    }
  }

  // ---------------------------------------------------------------------
  // Words, whitespace collapsing and trimming
  // ---------------------------------------------------------------------

  lemma NonSpaceRunOfAppend(x: String, y: String)
    requires x != []
    requires y == [] || IsSpace(x[|x| - 1]) || IsSpace(y[0])
    ensures NonSpaceRun(x + y) == NonSpaceRun(x)
  {
    var r, k := NonSpaceRun(x + y), NonSpaceRun(x);
    assert forall i :: 0 <= i < |x| ==> (x + y)[i] == x[i];
    if k == |x| && y != [] {
      assert !IsSpace(x[|x| - 1]);
      assert (x + y)[|x|] == y[0];
    }
  }

  /** Words never straddle a whitespace boundary. */
  lemma {:induction false} WordsAppend(x: String, y: String)
    requires x == [] || y == [] || IsSpace(x[|x| - 1]) || IsSpace(y[0])
    ensures Words(x + y) == Words(x) + Words(y)
    decreases |x|
  {
    if x == [] {
      assert x + y == y;
    } else if y == [] {
      assert x + y == x;
    } else if IsSpace(x[0]) {
      assert (x + y)[0] == x[0];
      assert (x + y)[1..] == x[1..] + y;
      WordsAppend(x[1..], y);
    } else {
      var k := NonSpaceRun(x);
      if k < |x| {
        assert x[k..][|x[k..]| - 1] == x[|x| - 1];
      }
      WordsAppend(x[k..], y);
      WordsFrontAppend(x, y);
      assert Words(x) == [x[..k]] + Words(x[k..]);
    }
  }

  /** A text that starts with a non-space starts with its first word. */
  lemma WordsOfFrontWord(s: String)
    requires s != [] && !IsSpace(s[0])
    ensures Words(s) == [s[..NonSpaceRun(s)]] + Words(s[NonSpaceRun(s)..])
  {
  }

  /** The first word of `x + y` is the first word of `x` when no word
      straddles the seam. */
  lemma WordsFrontAppend(x: String, y: String)
    requires x != [] && !IsSpace(x[0])
    requires y == [] || IsSpace(x[|x| - 1]) || IsSpace(y[0])
    ensures var k := NonSpaceRun(x);
      Words(x + y) == [x[..k]] + Words(x[k..] + y)
  {
    var k := NonSpaceRun(x);
    var xy := x + y;
    NonSpaceRunOfAppend(x, y);
    assert xy[0] == x[0];
    WordsOfFrontWord(xy);
    SplitOfAppend(x, y, k);
  }

  /** Cutting `x + y` inside `x`. */
  lemma SplitOfAppend<T>(x: seq<T>, y: seq<T>, k: nat)
    requires k <= |x|
    ensures (x + y)[..k] == x[..k] && (x + y)[k..] == x[k..] + y
  {
  }

  lemma {:induction false} WordsOfSpaces(s: String)
    requires AllSpace(s)
    ensures Words(s) == []
    decreases |s|
  {
    if s != [] {
      WordsOfSpaces(s[1..]);
    }
  }

  lemma WordsOfWord(w: String)
    requires |w| > 0 && NoSpace(w)
    ensures Words(w) == [w]
  {
    assert NonSpaceRun(w) == |w|;
    assert w[..|w|] == w;
  }

  /** Trimming never changes the words of a text. */
  lemma WordsTrim(s: String)
    ensures Words(Trim(s)) == Words(s)
  {
    var lead, trail := TrimParts(s);
    var t := Trim(s);
    var body := t + trail;
    assert s == lead + body;
    WordsOfSpaces(lead);
    WordsOfSpaces(trail);
    assert trail == [] || IsSpace(trail[0]);
    WordsAppend(t, trail);
    assert Words(body) == Words(t);
    assert lead == [] || IsSpace(lead[|lead| - 1]);
    WordsAppend(lead, body);
  }

  /** Collapsing whitespace runs never changes the words of a text. */
  lemma {:induction false} WordsCollapse(s: String)
    ensures Words(CollapseSpaces(s)) == Words(s)
    decreases |s|
  {
    if s == [] {
    } else if IsSpace(s[0]) {
      var a := LeadingSpaces(s);
      var rest := CollapseSpaces(s[a..]);
      WordsCollapse(s[a..]);
      assert (" " + rest)[1..] == rest;
      WordsOfSpaces(s[..a]);
      WordsAppend(s[..a], s[a..]);
      assert s == s[..a] + s[a..];
    } else {
      var k := NonSpaceRun(s);
      var rest := CollapseSpaces(s[k..]);
      WordsCollapse(s[k..]);
      WordsOfWord(s[..k]);
      WordsAppend(s[..k], rest);
    }
  }

  /** A normalized text that is not a single word is a word, one ' ', and a
      normalized rest. */
  lemma NormalizedSplit(s: String) returns (k: nat)
    requires Normalized(s) && NonSpaceRun(s) < |s|
    ensures k == NonSpaceRun(s) && k + 1 < |s|
    ensures s == s[..k] + (" " + s[k + 1..])
    ensures Normalized(s[k + 1..])
  {
    k := NonSpaceRun(s);
    assert IsSpace(s[k]);
    assert s[k] == ' ';
    assert k != |s| - 1;
    var rest := s[k + 1..];
    assert rest[0] == s[k + 1];
    assert !IsSpace(s[k]) || !IsSpace(s[k + 1]);
    SingleSpacedSuffix(s, k + 1);
    assert rest[|rest| - 1] == s[|s| - 1];
    assert s == s[..k] + ([s[k]] + rest);
  }

  lemma SingleSpacedSuffix(s: String, j: nat)
    requires SingleSpaced(s) && j <= |s|
    ensures SingleSpaced(s[j..])
  {
    var r := s[j..];
    forall i | 0 <= i < |r| && IsSpace(r[i])
      ensures r[i] == ' '
    {
      assert r[i] == s[j + i];
    }
    forall i | 0 <= i < |r| - 1
      ensures !IsSpace(r[i]) || !IsSpace(r[i + 1])
    {
      assert r[i] == s[j + i] && r[i + 1] == s[j + i + 1];
    }
  }

  /** A text starting with a word then whitespace has that word first. */
  lemma WordsOfWordThenSpace(w: String, rest: String)
    requires |w| > 0 && NoSpace(w) && rest != [] && !IsSpace(rest[0])
    ensures Words(w + (" " + rest)) == [w] + Words(rest)
    ensures Words(rest) != []
  {
    WordsOfWord(w);
    var sp := " " + rest;
    WordsAppend(w, sp);
    assert sp[1..] == rest;
    assert Words(sp) == Words(rest);
    var k := NonSpaceRun(rest);
    assert Words(rest) == [rest[..k]] + Words(rest[k..]);
  }

  /** A normalized text is its own words joined by single spaces. */
  lemma {:induction false} NormalizedIsJoinedWords(s: String)
    requires Normalized(s)
    ensures s == Join(Words(s), " ")
    decreases |s|
  {
    if s != [] {
      if NonSpaceRun(s) == |s| {
        WordsOfWord(s);
      } else {
        var k := NormalizedSplit(s);
        var rest := s[k + 1..];
        NormalizedIsJoinedWords(rest);
        WordsOfWordThenSpace(s[..k], rest);
        JoinCons(s[..k], Words(rest), " ");
      }
    }
  }

  /** Trimming keeps single spacing (it only removes characters at the ends). */
  lemma TrimSingleSpaced(s: String)
    requires SingleSpaced(s)
    ensures Normalized(Trim(s))
  {
    var a := LeadingSpaces(s);
    var t := s[a..];
    var b := |t| - TrailingSpaces(t);
    assert Trim(s) == s[a..a + b];
    assert forall i :: 0 <= i < b ==> Trim(s)[i] == s[a + i];
  }

  /** The caption cleanup yields the text's words joined by single spaces. */
  lemma NormalizeIsJoinedWords(s: String)
    ensures Normalized(Normalize(s))
    ensures Normalize(s) == Join(Words(s), " ")
  {
    CollapseSingleSpaced(s);
    TrimSingleSpaced(CollapseSpaces(s));
    WordsTrim(CollapseSpaces(s));
    WordsCollapse(s);
    NormalizedIsJoinedWords(Normalize(s));
  }

  /** Splitting a single-space join into words recovers the words. */
  lemma {:induction false} WordsOfJoin(ws: seq<String>)
    requires forall i :: 0 <= i < |ws| ==> |ws[i]| > 0 && NoSpace(ws[i])
    ensures Words(Join(ws, " ")) == ws
    decreases |ws|
  {
    if ws == [] {
    } else if |ws| == 1 {
      WordsOfWord(ws[0]);
    } else {
      var tail := Join(ws[1..], " ");
      WordsOfJoin(ws[1..]);
      assert ws == [ws[0]] + ws[1..];
      JoinCons(ws[0], ws[1..], " ");
      WordsOfWord(ws[0]);
      WordsAppend(ws[0], " " + tail);
      assert (" " + tail)[1..] == tail;
      assert Words(" " + tail) == Words(tail);
    }
  }

  /** The words of pieces joined by a space are the pieces' words in order. */
  lemma {:induction false} WordsOfSpaceJoin(parts: seq<String>)
    ensures Words(Join(parts, " ")) == Flatten(seq(|parts|, i requires 0 <= i < |parts| => Words(parts[i])))
    decreases |parts|
  {
    var f := seq(|parts|, i requires 0 <= i < |parts| => Words(parts[i]));
    if parts == [] {
    } else if |parts| == 1 {
      assert Flatten(f) == f[0] + Flatten(f[1..]);
    } else {
      var tail := Join(parts[1..], " ");
      WordsOfSpaceJoin(parts[1..]);
      assert f[1..] == seq(|parts[1..]|, i requires 0 <= i < |parts[1..]| => Words(parts[1..][i]));
      assert parts == [parts[0]] + parts[1..];
      JoinCons(parts[0], parts[1..], " ");
      WordsAppend(parts[0], " " + tail);
      assert (" " + tail)[1..] == tail;
      assert Words(" " + tail) == Words(tail);
      assert Flatten(f) == f[0] + Flatten(f[1..]);
    }
  }
}
