/** Character classes and the JavaScript and Python string primitives that the editor
    (static/script.js) and the storage layer (main.py) are built from. */
module Text {

  datatype Option<T> = None | Some(value: T)

  /** The characters that the regular-expression class `\s` matches and that
      `String.prototype.trim` removes (a fixed subset of Unicode white space). */
  predicate IsSpace(c: char) {
    c == ' ' || c == '\t' || c == '\n' || c == '\r' || c == '\U{B}' || c == '\U{C}'
    || c == '\U{A0}' || c == '\U{2028}' || c == '\U{2029}' || c == '\U{FEFF}'
  }

  /** The characters that the JavaScript regular-expression `.` refuses to match. */
  predicate IsLineTerminator(c: char) {
    c == '\n' || c == '\r' || c == '\U{2028}' || c == '\U{2029}'
  }

  predicate IsDigit(c: char) {
    '0' <= c <= '9'
  }

  predicate IsBlank(s: string) {
    forall i :: 0 <= i < |s| ==> IsSpace(s[i])
  }

  predicate AllDigits(s: string) {
    forall i :: 0 <= i < |s| ==> IsDigit(s[i])
  }

  predicate NoLineTerminator(s: string) {
    forall i :: 0 <= i < |s| ==> !IsLineTerminator(s[i])
  }

  /** Where a greedy `\s*` that starts at position `i` stops. */
  function SpaceEnd(s: string, i: nat): (j: nat)
    requires i <= |s|
    ensures i <= j <= |s|
    ensures j < |s| ==> !IsSpace(s[j])
    decreases |s| - i
  {
    if i < |s| && IsSpace(s[i]) then SpaceEnd(s, i + 1) else i
  }

  /** Everything the `\s*` scan passes over is white space. */
  lemma {:induction false} SpaceEndSpans(s: string, i: nat)
    requires i <= |s|
    ensures forall m :: i <= m < SpaceEnd(s, i) ==> IsSpace(s[m])
    decreases |s| - i
  {
    if i < |s| && IsSpace(s[i]) {
      SpaceEndSpans(s, i + 1);
    }
  }

  /** Where a greedy `\d*` that starts at position `i` stops. */
  function DigitEnd(s: string, i: nat): (j: nat)
    requires i <= |s|
    ensures i <= j <= |s|
    ensures j < |s| ==> !IsDigit(s[j])
    decreases |s| - i
  {
    if i < |s| && IsDigit(s[i]) then DigitEnd(s, i + 1) else i
  }

  /** Everything the `\d*` scan passes over is a digit. */
  lemma {:induction false} DigitEndSpans(s: string, i: nat)
    requires i <= |s|
    ensures forall m :: i <= m < DigitEnd(s, i) ==> IsDigit(s[m])
    decreases |s| - i
  {
    if i < |s| && IsDigit(s[i]) {
      DigitEndSpans(s, i + 1);
    }
  }

  /** Where a run of white space that ends just before position `j` begins, looking no
      further back than `lo`. */
  function SpaceStart(s: string, lo: nat, j: nat): (i: nat)
    requires lo <= j <= |s|
    ensures lo <= i <= j
    ensures i > lo ==> !IsSpace(s[i - 1])
    ensures lo < j && !IsSpace(s[lo]) ==> lo < i
    decreases j
  {
    if j > lo && IsSpace(s[j - 1]) then SpaceStart(s, lo, j - 1) else j
  }

  /** Everything the backward scan passes over is white space. */
  lemma {:induction false} SpaceStartSpans(s: string, lo: nat, j: nat)
    requires lo <= j <= |s|
    ensures forall m :: SpaceStart(s, lo, j) <= m < j ==> IsSpace(s[m])
    decreases j
  {
    if j > lo && IsSpace(s[j - 1]) {
      SpaceStartSpans(s, lo, j - 1);
    }
  }

  /** A scan stops at the first position that does not match: any `j` with the two
      properties of `SpaceEnd` is `SpaceEnd`. */
  lemma {:induction false} SpaceEndIs(s: string, i: nat, j: nat)
    requires i <= j <= |s| && forall m :: i <= m < j ==> IsSpace(s[m])
    requires j < |s| ==> !IsSpace(s[j])
    ensures SpaceEnd(s, i) == j
    decreases j - i
  {
    if i < j {
      SpaceEndIs(s, i + 1, j);
    }
  }

  lemma {:induction false} DigitEndIs(s: string, i: nat, j: nat)
    requires i <= j <= |s| && forall m :: i <= m < j ==> IsDigit(s[m])
    requires j < |s| ==> !IsDigit(s[j])
    ensures DigitEnd(s, i) == j
    decreases j - i
  {
    if i < j {
      DigitEndIs(s, i + 1, j);
    }
  }

  /** `String.prototype.trim`: the part of `s` between its leading and its trailing
      white space. */
  function Trim(s: string): (r: string)
    ensures |r| <= |s|
  {
    var i := SpaceEnd(s, 0);
    s[i..SpaceStart(s, i, |s|)]
  }

  /** Nothing is left of `s` by `trim` exactly when `s` is blank. */
  lemma TrimEmpty(s: string)
    ensures Trim(s) == [] <==> IsBlank(s)
  {
    SpaceEndSpans(s, 0);
  }

  /** The trimmed text lies in `s` right after the leading white space, only white space
      follows it, and it neither starts nor ends with white space. */
  lemma TrimShape(s: string)
    ensures var i := SpaceEnd(s, 0); var r := Trim(s);
      i + |r| <= |s| && r == s[i..i + |r|] && IsBlank(s[i + |r|..])
      && (r != [] ==> !IsSpace(r[0]) && !IsSpace(r[|r| - 1]))
  {
    var i := SpaceEnd(s, 0);
    var j := SpaceStart(s, i, |s|);
    SpaceStartSpans(s, i, |s|);
    if i < j {
      assert s[i..j][0] == s[i] && s[i..j][j - i - 1] == s[j - 1];
    }
  }

  /** `s.indexOf(c, from)`: the first position at or after `from` that holds `c`, or -1. */
  function IndexOf(s: string, c: char, from: nat): (r: int)
    requires from <= |s|
    ensures r == -1 || (from <= r < |s| && s[r] == c)
    decreases |s| - from
  {
    if from == |s| then -1
    else if s[from] == c then from
    else IndexOf(s, c, from + 1)
  }

  /** No position the search passes over holds `c`. */
  lemma {:induction false} IndexOfFirst(s: string, c: char, from: nat)
    requires from <= |s|
    ensures var r := IndexOf(s, c, from);
      forall i :: from <= i < |s| && (r == -1 || i < r) ==> s[i] != c
    decreases |s| - from
  {
    if from < |s| && s[from] != c {
      IndexOfFirst(s, c, from + 1);
    }
  }

  /** The search finds the first occurrence: a position `k` that holds `c`, with no `c`
      from `from` up to it, is what `IndexOf` returns (and `|s|`, no occurrence, gives -1). */
  lemma {:induction false} IndexOfIs(s: string, c: char, from: nat, k: nat)
    requires from <= k <= |s| && (k < |s| ==> s[k] == c)
    requires forall i :: from <= i < k ==> s[i] != c
    ensures IndexOf(s, c, from) == (if k == |s| then -1 else k)
    decreases k - from
  {
    if from < k {
      IndexOfIs(s, c, from + 1, k);
    }
  }

  /** The last position below `n` that holds `c`, or -1. */
  function LastBefore(s: string, c: char, n: nat): (r: int)
    requires n <= |s|
    ensures -1 <= r < n && (r >= 0 ==> s[r] == c)
  {
    if n == 0 then -1
    else if s[n - 1] == c then n - 1
    else LastBefore(s, c, n - 1)
  }

  /** No position between the one found and `n` holds `c`. */
  lemma {:induction false} LastBeforeLast(s: string, c: char, n: nat)
    requires n <= |s|
    ensures forall i :: LastBefore(s, c, n) < i < n ==> s[i] != c
  {
    if n > 0 && s[n - 1] != c {
      LastBeforeLast(s, c, n - 1);
    }
  }

  /** `s.lastIndexOf(c, from)` for one character: `from` is clamped to position 0 from
      below (so a negative `from` still examines position 0) and the search runs backwards. */
  function LastIndexOf(s: string, c: char, from: int): (r: int)
    ensures -1 <= r < |s|
    ensures r >= 0 ==> s[r] == c && r <= (if from < 0 then 0 else from)
  {
    var clamped := if from < 0 then 0 else from;
    LastBefore(s, c, if clamped + 1 < |s| then clamped + 1 else |s|)
  }

  /** No position between the one found and the clamped `from` holds `c`. */
  lemma LastIndexOfLast(s: string, c: char, from: int)
    ensures var r := LastIndexOf(s, c, from);
      forall i :: r < i < |s| && i <= (if from < 0 then 0 else from) ==> s[i] != c
  {
    var clamped := if from < 0 then 0 else from;
    LastBeforeLast(s, c, if clamped + 1 < |s| then clamped + 1 else |s|);
  }

  /** `s.split(sep)` for a one-character separator. */
  function Split(s: string, sep: char): (parts: seq<string>)
    ensures |parts| >= 1
    decreases |s|
  {
    var k := IndexOf(s, sep, 0);
    if k == -1 then [s] else [s[..k]] + Split(s[k + 1..], sep)
  }

  /** No piece holds the separator. */
  lemma {:induction false} SplitNoSep(s: string, sep: char)
    ensures forall i :: 0 <= i < |Split(s, sep)| ==> sep !in Split(s, sep)[i]
    decreases |s|
  {
    var k := IndexOf(s, sep, 0);
    IndexOfFirst(s, sep, 0);
    if k == -1 {
      assert forall j :: 0 <= j < |s| ==> s[j] != sep;
    } else {
      SplitNoSep(s[k + 1..], sep);
      assert forall j :: 0 <= j < k ==> s[..k][j] != sep;
    }
  }

  /** `parts.join(sep)`. */
  function Join(parts: seq<string>, sep: char): string
  {
    if |parts| == 0 then []
    else if |parts| == 1 then parts[0]
    else parts[0] + [sep] + Join(parts[1..], sep)
  }

  lemma {:induction false} JoinSplit(s: string, sep: char)
    ensures Join(Split(s, sep), sep) == s
    decreases |s|
  {
    var k := IndexOf(s, sep, 0);
    if k != -1 {
      var t := s[k + 1..];
      SplitAt(s, sep, k);
      JoinSplit(t, sep);
      JoinCons(s[..k], Split(t, sep), sep);
      assert s == s[..k] + [sep] + t;
    }
  }

  lemma SplitAt(s: string, sep: char, k: int)
    requires k == IndexOf(s, sep, 0) && k != -1
    ensures Split(s, sep) == [s[..k]] + Split(s[k + 1..], sep)
  {
  }

  lemma JoinCons(p: string, rest: seq<string>, sep: char)
    requires |rest| >= 1
    ensures Join([p] + rest, sep) == p + [sep] + Join(rest, sep)
  {
    assert ([p] + rest)[1..] == rest;
  }

  lemma {:induction false} SplitJoin(parts: seq<string>, sep: char)
    requires |parts| >= 1
    requires forall i :: 0 <= i < |parts| ==> sep !in parts[i]
    ensures Split(Join(parts, sep), sep) == parts
  {
    var s := Join(parts, sep);
    var p := parts[0];
    if |parts| == 1 {
      assert forall j :: 0 <= j < |s| ==> s[j] != sep;
      IndexOfIs(s, sep, 0, |s|);
    } else {
      assert s == p + [sep] + Join(parts[1..], sep);
      assert s[|p|] == sep;
      assert forall j :: 0 <= j < |p| ==> s[j] == p[j] && s[j] != sep;
      IndexOfIs(s, sep, 0, |p|);
      assert s[|p| + 1..] == Join(parts[1..], sep);
      assert s[..|p|] == p;
      SplitJoin(parts[1..], sep);
      assert parts == [p] + parts[1..];
    }
  }

  /** The number of pieces `Split` produces is one more than the number of separators. */
  function Count(s: string, c: char): nat
  {
    if s == [] then 0 else (if s[0] == c then 1 else 0) + Count(s[1..], c)
  }

  lemma {:induction false} CountAppend(a: string, b: string, c: char)
    ensures Count(a + b, c) == Count(a, c) + Count(b, c)
  {
    if a != [] {
      assert (a + b)[1..] == a[1..] + b;
      CountAppend(a[1..], b, c);
    } else {
      assert a + b == b;
    }
  }

  lemma {:induction false} SplitCount(s: string, sep: char)
    ensures |Split(s, sep)| == Count(s, sep) + 1
    decreases |s|
  {
    var k := IndexOf(s, sep, 0);
    IndexOfFirst(s, sep, 0);
    if k == -1 {
      assert forall j :: 0 <= j < |s| ==> s[j] != sep;
      NoOccurrenceCount(s, sep);
    } else {
      assert forall j :: 0 <= j < k ==> s[..k][j] != sep;
      SplitCount(s[k + 1..], sep);
      assert s == s[..k] + ([sep] + s[k + 1..]);
      CountAppend(s[..k], [sep] + s[k + 1..], sep);
      CountAppend([sep], s[k + 1..], sep);
      NoOccurrenceCount(s[..k], sep);
    }
  }

  lemma {:induction false} NoOccurrenceCount(s: string, c: char)
    requires c !in s
    ensures Count(s, c) == 0
  {
    if s != [] {
      NoOccurrenceCount(s[1..], c);
    }
  }

  /** `s.split(sep).pop()`: the text after the last separator, or all of `s` when it has
      none. */
  function LastPart(s: string, sep: char): (r: string)
    ensures |r| <= |s| && r == s[|s| - |r|..]
    ensures |r| < |s| ==> s[|s| - |r| - 1] == sep
  {
    s[LastBefore(s, sep, |s|) + 1..]
  }

  /** The last piece holds no separator. */
  lemma LastPartNoSep(s: string, sep: char)
    ensures sep !in LastPart(s, sep)
  {
    var k := LastBefore(s, sep, |s|);
    LastBeforeLast(s, sep, |s|);
  }

  predicate StartsWith(s: string, p: string) {
    |p| <= |s| && s[..|p|] == p
  }

  predicate EndsWith(s: string, p: string) {
    |p| <= |s| && s[|s| - |p|..] == p
  }

  /** Substring containment: Python's `p in s`. */
  predicate Contains(s: string, p: string)
    decreases |s|
  {
    StartsWith(s, p) || (|s| > 0 && Contains(s[1..], p))
  }

  /** Python's `s.replace(pat, rep)`: every occurrence, scanning left to right without overlap. */
  function ReplaceAll(s: string, pat: string, rep: string): string
    requires |pat| > 0
    decreases |s|
  {
    if |s| < |pat| then s
    else if s[..|pat|] == pat then rep + ReplaceAll(s[|pat|..], pat, rep)
    else [s[0]] + ReplaceAll(s[1..], pat, rep)
  }

  /** JavaScript's `s.replace(pat, rep)` with a string pattern: the first occurrence only. */
  function ReplaceFirst(s: string, pat: string, rep: string): string
    requires |pat| > 0
    decreases |s|
  {
    if |s| < |pat| then s
    else if s[..|pat|] == pat then rep + s[|pat|..]
    else [s[0]] + ReplaceFirst(s[1..], pat, rep)
  }

  /** Neither replacement changes a string in which the pattern does not occur. */
  lemma {:induction false} ReplaceAbsent(s: string, pat: string, rep: string)
    requires |pat| > 0 && !Contains(s, pat)
    ensures ReplaceAll(s, pat, rep) == s && ReplaceFirst(s, pat, rep) == s
    decreases |s|
  {
    if |s| >= |pat| {
      ReplaceAbsent(s[1..], pat, rep);
      assert s == [s[0]] + s[1..];
    }
  }

  /** `k` is where the pattern first occurs in `s`. */
  predicate FirstOccurrence(s: string, pat: string, k: nat) {
    && k + |pat| <= |s| && s[k..k + |pat|] == pat
    && forall j :: 0 <= j < k ==> !StartsWith(s[j..], pat)
  }

  /** Both replacements keep what precedes the first occurrence and put `rep` in its place;
      JavaScript's then keeps the rest as it is, while Python's goes on replacing in it. */
  lemma ReplaceRemovesOccurrence(s: string, pat: string, rep: string, k: nat)
    requires |pat| > 0 && FirstOccurrence(s, pat, k)
    ensures ReplaceFirst(s, pat, rep) == s[..k] + rep + s[k + |pat|..]
    ensures ReplaceAll(s, pat, rep) == s[..k] + rep + ReplaceAll(s[k + |pat|..], pat, rep)
  {
    FirstOccurrenceSkips(s, pat, k);
    ReplaceFirstAt(s, pat, rep, k);
    ReplaceAllAt(s, pat, rep, k);
  }

  /** The pattern does not start `s`, nor its next `k - 1` tails, and starts the `k`-th one:
      the first occurrence, counted one character at a time. */
  predicate SkipsTo(s: string, pat: string, k: nat)
    ensures SkipsTo(s, pat, k) ==> k + |pat| <= |s|
    decreases k
  {
    if k == 0 then StartsWith(s, pat)
    else |s| > 0 && !StartsWith(s, pat) && SkipsTo(s[1..], pat, k - 1)
  }

  lemma {:induction false} FirstOccurrenceSkips(s: string, pat: string, k: nat)
    requires FirstOccurrence(s, pat, k)
    ensures SkipsTo(s, pat, k)
    decreases k
  {
    if k == 0 {
      assert s[..|pat|] == s[0..|pat|];
    } else {
      FirstOccurrenceTail(s, pat, k);
      FirstOccurrenceSkips(s[1..], pat, k - 1);
    }
  }

  lemma {:induction false} ReplaceFirstAt(s: string, pat: string, rep: string, k: nat)
    requires |pat| > 0 && SkipsTo(s, pat, k)
    ensures ReplaceFirst(s, pat, rep) == s[..k] + rep + s[k + |pat|..]
    decreases k
  {
    if k == 0 {
      ReplaceAtStart(s, pat, rep);
      assert s[..k] + rep == rep;
    } else {
      assert !StartsWith(s, pat) && k + |pat| <= |s|;
      assert ReplaceFirst(s[1..], pat, rep)
        == s[1..][..k - 1] + rep + s[1..][k - 1 + |pat|..] by {
        ReplaceFirstAt(s[1..], pat, rep, k - 1);
      }
      ReplaceFirstShift(s, pat, rep, k);
    }
  }

  lemma {:induction false} ReplaceAllAt(s: string, pat: string, rep: string, k: nat)
    requires |pat| > 0 && SkipsTo(s, pat, k)
    ensures ReplaceAll(s, pat, rep) == s[..k] + rep + ReplaceAll(s[k + |pat|..], pat, rep)
    decreases k
  {
    if k == 0 {
      ReplaceAtStart(s, pat, rep);
      assert s[..k] + rep == rep;
    } else {
      assert !StartsWith(s, pat) && k + |pat| <= |s|;
      assert ReplaceAll(s[1..], pat, rep)
        == s[1..][..k - 1] + rep + ReplaceAll(s[1..][k - 1 + |pat|..], pat, rep) by {
        ReplaceAllAt(s[1..], pat, rep, k - 1);
      }
      ReplaceAllShift(s, pat, rep, k);
    }
  }

  /** One step of `ReplaceFirstAt`: an occurrence found at `k - 1` in the tail is found at `k`. */
  lemma ReplaceFirstShift(s: string, pat: string, rep: string, k: nat)
    requires |pat| > 0 && 0 < k && k + |pat| <= |s| && !StartsWith(s, pat)
    requires ReplaceFirst(s[1..], pat, rep) == s[1..][..k - 1] + rep + s[1..][k - 1 + |pat|..]
    ensures ReplaceFirst(s, pat, rep) == s[..k] + rep + s[k + |pat|..]
  {
    var t, rest := s[1..], s[k + |pat|..];
    calc {
      ReplaceFirst(s, pat, rep);
      { ReplaceStep(s, pat, rep); }
      [s[0]] + ReplaceFirst(t, pat, rep);
      { assert t[k - 1 + |pat|..] == rest; }
      [s[0]] + (t[..k - 1] + rep + rest);
      { Regroup(s, k, rep, rest); }
      s[..k] + rep + rest;
    }
  }

  /** One step of `ReplaceAllAt`: an occurrence found at `k - 1` in the tail is found at `k`. */
  lemma ReplaceAllShift(s: string, pat: string, rep: string, k: nat)
    requires |pat| > 0 && 0 < k && k + |pat| <= |s| && !StartsWith(s, pat)
    requires ReplaceAll(s[1..], pat, rep)
      == s[1..][..k - 1] + rep + ReplaceAll(s[1..][k - 1 + |pat|..], pat, rep)
    ensures ReplaceAll(s, pat, rep) == s[..k] + rep + ReplaceAll(s[k + |pat|..], pat, rep)
  {
    var t, rest := s[1..], s[k + |pat|..];
    calc {
      ReplaceAll(s, pat, rep);
      { ReplaceStep(s, pat, rep); }
      [s[0]] + ReplaceAll(t, pat, rep);
      { assert t[k - 1 + |pat|..] == rest; }
      [s[0]] + (t[..k - 1] + rep + ReplaceAll(rest, pat, rep));
      { Regroup(s, k, rep, ReplaceAll(rest, pat, rep)); }
      s[..k] + rep + ReplaceAll(rest, pat, rep);
    }
  }

  /** Where the string starts with the pattern, both replacements put `rep` in its place. */
  lemma ReplaceAtStart(s: string, pat: string, rep: string)
    requires |pat| > 0 && |s| >= |pat| && s[..|pat|] == pat
    ensures ReplaceFirst(s, pat, rep) == rep + s[|pat|..]
    ensures ReplaceAll(s, pat, rep) == rep + ReplaceAll(s[|pat|..], pat, rep)
  {
  }

  /** Where the string does not start with the pattern, both replacements keep its first
      character and carry on in the tail. */
  lemma ReplaceStep(s: string, pat: string, rep: string)
    requires |pat| > 0 && |s| >= |pat| && s[..|pat|] != pat
    ensures ReplaceFirst(s, pat, rep) == [s[0]] + ReplaceFirst(s[1..], pat, rep)
    ensures ReplaceAll(s, pat, rep) == [s[0]] + ReplaceAll(s[1..], pat, rep)
  {
  }

  /** Putting the first character back in front of a split of the tail. */
  lemma Regroup(s: string, k: nat, rep: string, rest: string)
    requires 0 < k <= |s|
    ensures [s[0]] + (s[1..][..k - 1] + rep + rest) == s[..k] + rep + rest
  {
    assert s[..k] == [s[0]] + s[1..][..k - 1];
  }

  /** A first occurrence past the start is one place earlier in the tail, and the string
      does not start with the pattern. */
  lemma FirstOccurrenceTail(s: string, pat: string, k: nat)
    requires FirstOccurrence(s, pat, k) && k > 0
    ensures |s| >= |pat| && s[..|pat|] != pat && FirstOccurrence(s[1..], pat, k - 1)
  {
    assert s[0..] == s;
    assert !StartsWith(s[0..], pat);
    var t := s[1..];
    assert t[k - 1..k - 1 + |pat|] == s[k..k + |pat|];
    forall j | 0 <= j < k - 1
      ensures !StartsWith(t[j..], pat)
    {
      assert t[j..] == s[j + 1..];
      assert !StartsWith(s[j + 1..], pat);
    }
  }

  /** A name ending in `.md.md` keeps one `.md` under JavaScript's replacement and loses both
      under Python's. */
  lemma ReplaceFirstKeepsSecond()
    ensures ReplaceFirst("a.md.md", ".md", "") == "a.md"
    ensures ReplaceAll("a.md.md", ".md", "") == "a"
  {
    var s := "a.md.md";
    assert FirstOccurrence(s, ".md", 1) by {
      assert s[1..4] == ".md";
      assert !StartsWith(s[0..], ".md") by { assert s[0..][..3] == "a.m"; }
    }
    ReplaceRemovesOccurrence(s, ".md", "", 1);
    assert s[..1] == "a" && s[4..] == ".md";
    var u := ".md";
    assert FirstOccurrence(u, ".md", 0);
    ReplaceRemovesOccurrence(u, ".md", "", 0);
    assert u[3..] == [];
  }

  /** The value of a decimal digit (0 for any other character, which `parseInt` never
      reaches here). */
  function DigitValue(c: char): nat
  {
    if IsDigit(c) then c as int - '0' as int else 0
  }

  function DigitChar(d: nat): (c: char)
    requires d < 10
    ensures IsDigit(c) && DigitValue(c) == d
  {
    ('0' as int + d) as char
  }

  /** `parseInt(ds, 10)` of a non-empty run of decimal digits, over unbounded integers. */
  function ParseDecimal(ds: string): nat
  {
    if |ds| == 0 then 0 else ParseDecimal(ds[..|ds| - 1]) * 10 + DigitValue(ds[|ds| - 1])
  }

  /** The decimal text `${n}` of a natural number: digits only, no leading zero. */
  function ShowDecimal(n: nat): (ds: string)
    ensures |ds| >= 1 && AllDigits(ds)
    ensures ds[0] == '0' ==> n == 0
  {
    if n < 10 then [DigitChar(n)] else ShowDecimal(n / 10) + [DigitChar(n % 10)]
  }

  /** Reading back the decimal text of a number gives the number. */
  lemma {:induction false} ParseShow(n: nat)
    ensures ParseDecimal(ShowDecimal(n)) == n
  {
    var ds := ShowDecimal(n);
    if n >= 10 {
      ParseShow(n / 10);
      assert ds[..|ds| - 1] == ShowDecimal(n / 10);
    }
  }
}
