/** The regular expressions with which the list commands of `formatText` and the Enter
    handler recognise Markdown list items (static/script.js), written as deterministic
    scans over a line's positions, and the per-block transforms built from them. */
module ListMarkers {
  import opened Text

  predicate IsBullet(c: char) {
    c == '*' || c == '+' || c == '-'
  }

  /** Where `^\s*[*+-]` stops matching: just after the bullet, if the line starts that way. */
  function BulletEnd(line: string): (r: Option<nat>)
    ensures r.Some? ==> 0 < r.value <= |line|
  {
    var k := SpaceEnd(line, 0);
    if k < |line| && IsBullet(line[k]) then Some(k + 1) else None
  }

  /** Where `^\s*\d+\.` stops matching: just after the dot, if the line starts that way. */
  function NumberEnd(line: string): (r: Option<nat>)
    ensures r.Some? ==> 1 < r.value <= |line|
  {
    var k := SpaceEnd(line, 0);
    var d := DigitEnd(line, k);
    if k < d < |line| && line[d] == '.' then Some(d + 1) else None
  }

  /** `/^\s*[*+-]\s/.test(line)`. */
  predicate IsBulletItem(line: string) {
    var m := BulletEnd(line);
    m.Some? && m.value < |line| && IsSpace(line[m.value])
  }

  /** `/^\s*\d+\.\s/.test(line)`. */
  predicate IsNumberItem(line: string) {
    var m := NumberEnd(line);
    m.Some? && m.value < |line| && IsSpace(line[m.value])
  }

  /** `line.replace(/^\s*[*+-]\s?/, '')`. */
  function StripBullet(line: string): string {
    match BulletEnd(line)
    case None => line
    case Some(m) => if m < |line| && IsSpace(line[m]) then line[m + 1..] else line[m..]
  }

  /** `line.replace(/^\s*\d+\.\s?/, '')`. */
  function StripNumber(line: string): string {
    match NumberEnd(line)
    case None => line
    case Some(m) => if m < |line| && IsSpace(line[m]) then line[m + 1..] else line[m..]
  }

  // `line.replace(/^\s*(\d+\.|[*+-])\s*/, '')`: removes a marker of either kind together
  // with the indentation before it and all the white space after it.
  function StripMarker(line: string): string
  {
    var m := if NumberEnd(line).Some? then NumberEnd(line) else BulletEnd(line);
    match m
    case None => line
    case Some(e) => line[SpaceEnd(line, e)..]
  }

  /** A line carries no list marker of either kind. */
  predicate Unmarked(line: string) {
    BulletEnd(line).None? && NumberEnd(line).None?
  }

  /** One line of the bullet application path: the old marker gives way to `* `, and a line
      left blank becomes empty. */
  function BulletLine(line: string): string {
    var c := StripMarker(line);
    if Trim(c) == [] then [] else "* " + c
  }

  /** Line `i` (counted from 0 over the whole block) of the numbering application path. */
  function NumberedLine(line: string, i: nat): string {
    var c := StripMarker(line);
    if Trim(c) == [] then [] else ShowDecimal(i + 1) + ". " + c
  }

  /** `lines.every(line => /^\s*[*+-]\s/.test(line))`. */
  predicate AllBulletItems(lines: seq<string>) {
    lines == [] || (IsBulletItem(lines[0]) && AllBulletItems(lines[1..]))
  }

  /** `lines.every(line => /^\s*\d+\.\s/.test(line))`. */
  predicate AllNumberItems(lines: seq<string>) {
    lines == [] || (IsNumberItem(lines[0]) && AllNumberItems(lines[1..]))
  }

  /** `lines.map(f)`. */
  function MapLines(f: string -> string, lines: seq<string>): (r: seq<string>)
    ensures |r| == |lines|
  {
    if lines == [] then [] else [f(lines[0])] + MapLines(f, lines[1..])
  }

  /** `lines.map((line, index) => f(line, n + index))`. */
  function MapIndexed(f: (string, nat) -> string, lines: seq<string>, n: nat): (r: seq<string>)
    ensures |r| == |lines|
  {
    if lines == [] then [] else [f(lines[0], n)] + MapIndexed(f, lines[1..], n + 1)
  }

  lemma {:induction false} MapLinesAt(f: string -> string, lines: seq<string>, i: nat)
    requires i < |lines|
    ensures MapLines(f, lines)[i] == f(lines[i])
  {
    if i > 0 {
      MapLinesAt(f, lines[1..], i - 1);
    }
  }

  lemma {:induction false} MapIndexedAt(f: (string, nat) -> string, lines: seq<string>, n: nat, i: nat)
    requires i < |lines|
    ensures MapIndexed(f, lines, n)[i] == f(lines[i], n + i)
  {
    if i > 0 {
      MapIndexedAt(f, lines[1..], n + 1, i - 1);
    }
  }

  /** The `'unordered-list'` transform of the lines of a block (script.js 375-382). */
  function ToggleBullets(lines: seq<string>): (r: seq<string>)
    ensures |r| == |lines|
  {
    if AllBulletItems(lines) then MapLines(StripBullet, lines) else MapLines(BulletLine, lines)
  }

  /** The `'ordered-list'` transform of the lines of a block (script.js 388-395). */
  function ToggleNumbers(lines: seq<string>): (r: seq<string>)
    ensures |r| == |lines|
  {
    if AllNumberItems(lines) then MapLines(StripNumber, lines) else MapIndexed(NumberedLine, lines, 0)
  }

  /** A line of a Markdown list as the Enter handler reads it: the indentation, the marker
      and the item's text after the white space that follows the marker. */
  datatype ListItem =
    | Numbered(indent: string, digits: string, content: string)
    | Bulleted(indent: string, bullet: char, content: string)
  {
    /** The indentation and the marker. */
    function Head(): string {
      match this
      case Numbered(ind, ds, _) => ind + ds + "."
      case Bulleted(ind, b, _) => ind + [b]
    }

    predicate WellFormed() {
      && IsBlank(indent)
      && NoLineTerminator(content)
      && (content == [] || !IsSpace(content[0]))
      && match this
         case Numbered(_, ds, _) => |ds| > 0 && AllDigits(ds)
         case Bulleted(_, b, _) => IsBullet(b)
    }

    /** The item written out with one space after its marker. */
    function Line(): string {
      Head() + " " + content
    }
  }

  /** What `\s*(.*)$` captures from position `e` on: the rest of the line after the white
      space there, provided it holds no line terminator. */
  function RestAfter(line: string, e: nat): Option<string>
    requires e <= |line|
  {
    var c := line[SpaceEnd(line, e)..];
    if NoLineTerminator(c) then Some(c) else None
  }

  /** `line.match(/^(\s*)(\d+)\.\s*(.*)$/)`, and when that fails
      `line.match(/^(\s*)([*+-])\s*(.*)$/)`: the captured groups, if either matches. */
  function ParseItem(line: string): Option<ListItem>
  {
    var k := SpaceEnd(line, 0);
    match NumberEnd(line)
    case Some(e) =>
      (match RestAfter(line, e)
       case None => None
       case Some(c) => Some(Numbered(line[..k], line[k..e - 1], c)))
    case None =>
      match BulletEnd(line)
      case None => None
      case Some(e) =>
        match RestAfter(line, e)
        case None => None
        case Some(c) => Some(Bulleted(line[..k], line[k], c))
  }

  /** `item`'s head starts `line`, its text ends it, and only white space lies between. */
  predicate ItemSpans(line: string, item: ListItem) {
    && |item.Head()| + |item.content| <= |line|
    && line[..|item.Head()|] == item.Head()
    && line[|line| - |item.content|..] == item.content
    && IsBlank(line[|item.Head()|..|line| - |item.content|])
  }

  /** What a match means: a well-formed item whose indentation and marker start the line,
      whose captured text ends it, with nothing but white space in between. */
  lemma ParseItemSound(line: string)
    ensures var r := ParseItem(line);
      r.Some? ==> (r.value.WellFormed() && ItemSpans(line, r.value))
  {
    var k := SpaceEnd(line, 0);
    if NumberEnd(line).Some? {
      var e := NumberEnd(line).value;
      if RestAfter(line, e).Some? {
        var item := Numbered(line[..k], line[k..e - 1], RestAfter(line, e).value);
        assert ParseItem(line) == Some(item);
        NumberedSound(line, k, e, item.content);
      }
    } else if BulletEnd(line).Some? && RestAfter(line, k + 1).Some? {
      var item := Bulleted(line[..k], line[k], RestAfter(line, k + 1).value);
      assert ParseItem(line) == Some(item);
      BulletedSound(line, k, item.content);
    }
  }

  lemma NumberedSound(line: string, k: nat, e: nat, c: string)
    requires k == SpaceEnd(line, 0) && NumberEnd(line) == Some(e) && RestAfter(line, e) == Some(c)
    ensures Numbered(line[..k], line[k..e - 1], c).WellFormed()
    ensures ItemSpans(line, Numbered(line[..k], line[k..e - 1], c))
  {
    NumberedHead(line, k, e);
    RestAfterShape(line, e);
  }

  /** The indentation, digits and dot that `NumberEnd` passes over. */
  lemma NumberedHead(line: string, k: nat, e: nat)
    requires k == SpaceEnd(line, 0) && NumberEnd(line) == Some(e)
    ensures k < e - 1 && IsBlank(line[..k]) && AllDigits(line[k..e - 1])
    ensures line[..e] == line[..k] + line[k..e - 1] + "."
  {
    SpaceEndSpans(line, 0);
    DigitEndSpans(line, k);
  }

  lemma BulletedSound(line: string, k: nat, c: string)
    requires k == SpaceEnd(line, 0) && BulletEnd(line) == Some(k + 1) && RestAfter(line, k + 1) == Some(c)
    ensures Bulleted(line[..k], line[k], c).WellFormed()
    ensures ItemSpans(line, Bulleted(line[..k], line[k], c))
  {
    RestAfterShape(line, k + 1);
    SpaceEndSpans(line, 0);
    assert line[..k + 1] == line[..k] + [line[k]];
  }

  lemma RestAfterShape(line: string, e: nat)
    requires e <= |line| && RestAfter(line, e).Some?
    ensures var c := RestAfter(line, e).value;
      |line| - |c| == SpaceEnd(line, e) && IsBlank(line[e..|line| - |c|]) && NoLineTerminator(c)
      && (c == [] || !IsSpace(c[0]))
  {
    SpaceEndSpans(line, e);
  }

  /** The positions of `Numbered(ind, ds, c).Line()`. */
  predicate NumberedLayout(line: string, ind: string, ds: string, c: string) {
    && |line| == |ind| + |ds| + 2 + |c|
    && line[..|ind|] == ind && line[|ind|..|ind| + |ds|] == ds
    && line[|ind| + |ds|] == '.' && line[|ind| + |ds| + 1] == ' ' && line[|ind| + |ds| + 2..] == c
  }

  /** The positions of `Bulleted(ind, b, c).Line()`. */
  predicate BulletedLayout(line: string, ind: string, b: char, c: string) {
    && |line| == |ind| + 2 + |c|
    && line[..|ind|] == ind && line[|ind|] == b && line[|ind| + 1] == ' ' && line[|ind| + 2..] == c
  }

  lemma NumberedLineLayout(ind: string, ds: string, c: string)
    ensures NumberedLayout(Numbered(ind, ds, c).Line(), ind, ds, c)
  {
    var line := Numbered(ind, ds, c).Line();
    assert line == ind + (ds + ("." + (" " + c)));
  }

  lemma BulletedLineLayout(ind: string, b: char, c: string)
    ensures BulletedLayout(Bulleted(ind, b, c).Line(), ind, b, c)
  {
    var line := Bulleted(ind, b, c).Line();
    assert line == ind + ([b] + (" " + c));
  }

  /** How the scans read a line laid out as a numbered item. */
  lemma NumberedScan(line: string, ind: string, ds: string, c: string)
    requires NumberedLayout(line, ind, ds, c) && Numbered(ind, ds, c).WellFormed()
    ensures SpaceEnd(line, 0) == |ind| && NumberEnd(line) == Some(|ind| + |ds| + 1)
    ensures SpaceEnd(line, |ind| + |ds| + 1) == |ind| + |ds| + 2
  {
    IndentScan(line, ind);
    DigitsScan(line, |ind|, ds);
    NumberEndAt(line, |ind|, |ind| + |ds|);
    GapScan(line, |ind| + |ds| + 1);
  }

  /** How the scans read a line laid out as a bullet item. */
  lemma BulletedScan(line: string, ind: string, b: char, c: string)
    requires BulletedLayout(line, ind, b, c) && Bulleted(ind, b, c).WellFormed()
    ensures SpaceEnd(line, 0) == |ind| && NumberEnd(line).None? && BulletEnd(line) == Some(|ind| + 1)
    ensures SpaceEnd(line, |ind| + 1) == |ind| + 2
  {
    IndentScan(line, ind);
    DigitEndIs(line, |ind|, |ind|);
    MarkerEndsAt(line, |ind|);
    GapScan(line, |ind| + 1);
  }

  lemma NumberEndAt(line: string, k: nat, d: nat)
    requires k < d < |line| && SpaceEnd(line, 0) == k && DigitEnd(line, k) == d && line[d] == '.'
    ensures NumberEnd(line) == Some(d + 1)
  {
  }

  lemma MarkerEndsAt(line: string, k: nat)
    requires k < |line| && SpaceEnd(line, 0) == k && DigitEnd(line, k) == k && IsBullet(line[k])
    ensures NumberEnd(line).None? && BulletEnd(line) == Some(k + 1)
  {
  }

  lemma IndentScan(line: string, ind: string)
    requires |ind| < |line| && line[..|ind|] == ind && IsBlank(ind) && !IsSpace(line[|ind|])
    ensures SpaceEnd(line, 0) == |ind|
  {
    assert forall m :: 0 <= m < |ind| ==> line[m] == ind[m];
    SpaceEndIs(line, 0, |ind|);
  }

  lemma DigitsScan(line: string, i: nat, ds: string)
    requires i + |ds| < |line| && line[i..i + |ds|] == ds && AllDigits(ds) && !IsDigit(line[i + |ds|])
    ensures DigitEnd(line, i) == i + |ds|
  {
    assert forall m :: i <= m < i + |ds| ==> line[m] == ds[m - i];
    DigitEndIs(line, i, i + |ds|);
  }

  /** The single space after a marker, followed by text that does not start with white
      space. */
  lemma GapScan(line: string, e: nat)
    requires e < |line| && line[e] == ' ' && (e + 1 < |line| ==> !IsSpace(line[e + 1]))
    ensures SpaceEnd(line, e) == e + 1
  {
    SpaceEndIs(line, e, e + 1);
  }

  /** Parsing a well-formed item written out with one space after its marker gives the item
      back: the two regular expressions recover indentation, marker and text. */
  lemma ParseItemLine(item: ListItem)
    requires item.WellFormed()
    ensures ParseItem(item.Line()) == Some(item)
  {
    var line := item.Line();
    match item {
      case Numbered(ind, ds, c) =>
        NumberedLineLayout(ind, ds, c);
        NumberedScan(line, ind, ds, c);
        RestAfterAt(line, |ind| + |ds| + 1, |ind| + |ds| + 2);
        ParseNumberedAt(line, |ind|, |ind| + |ds| + 1, c);
      case Bulleted(ind, b, c) =>
        BulletedLineLayout(ind, b, c);
        BulletedScan(line, ind, b, c);
        RestAfterAt(line, |ind| + 1, |ind| + 2);
        ParseBulletedAt(line, |ind|, c);
    }
  }

  /** The converse of `ParseItemSound`: any line that a well-formed item spans parses to
      that item, whatever white space, none or several characters, follows the marker
      (`**bold`, `3.14` and `-   x` all continue a list). */
  lemma ParseItemComplete(line: string, item: ListItem)
    requires item.WellFormed() && ItemSpans(line, item)
    ensures ParseItem(line) == Some(item)
  {
    var j := |line| - |item.content|;
    GapOver(line, |item.Head()|, item.content);
    RestAfterAt(line, |item.Head()|, j);
    match item {
      case Numbered(ind, ds, c) => NumberedSpans(line, ind, ds, c);
      case Bulleted(ind, b, c) => BulletedSpans(line, ind, b, c);
    }
  }

  /** Lines that are not lists to a reader still parse as items: a decimal number and
      bold text. */
  lemma NoSpaceItems()
    ensures ParseItem("3.14") == Some(Numbered("", "3", "14"))
    ensures ParseItem("**bold") == Some(Bulleted("", '*', "*bold"))
  {
    ParseItemComplete("3.14", Numbered("", "3", "14"));
    ParseItemComplete("**bold", Bulleted("", '*', "*bold"));
  }

  lemma NumberedSpans(line: string, ind: string, ds: string, c: string)
    requires Numbered(ind, ds, c).WellFormed() && ItemSpans(line, Numbered(ind, ds, c))
    requires RestAfter(line, |ind| + |ds| + 1) == Some(c)
    ensures ParseItem(line) == Some(Numbered(ind, ds, c))
  {
    var h := |ind| + |ds| + 1;
    assert line[..h] == ind + ds + ".";
    assert line[..|ind|] == ind by { assert line[..|ind|] == line[..h][..|ind|]; }
    assert line[|ind|..|ind| + |ds|] == ds by { assert line[|ind|..|ind| + |ds|] == line[..h][|ind|..|ind| + |ds|]; }
    assert line[|ind| + |ds|] == line[..h][|ind| + |ds|];
    IndentScan(line, ind);
    DigitsScan(line, |ind|, ds);
    NumberEndAt(line, |ind|, |ind| + |ds|);
    ParseNumberedAt(line, |ind|, h, c);
  }

  lemma BulletedSpans(line: string, ind: string, b: char, c: string)
    requires Bulleted(ind, b, c).WellFormed() && ItemSpans(line, Bulleted(ind, b, c))
    requires RestAfter(line, |ind| + 1) == Some(c)
    ensures ParseItem(line) == Some(Bulleted(ind, b, c))
  {
    var h := |ind| + 1;
    assert line[..h] == ind + [b];
    assert line[..|ind|] == ind by { assert line[..|ind|] == line[..h][..|ind|]; }
    assert line[|ind|] == line[..h][|ind|];
    IndentScan(line, ind);
    DigitEndIs(line, |ind|, |ind|);
    MarkerEndsAt(line, |ind|);
    ParseBulletedAt(line, |ind|, c);
  }

  /** The white space between a marker and the item's text is exactly what `\s*` skips. */
  lemma GapOver(line: string, h: nat, c: string)
    requires h + |c| <= |line| && line[|line| - |c|..] == c && IsBlank(line[h..|line| - |c|])
    requires c == [] || !IsSpace(c[0])
    ensures SpaceEnd(line, h) == |line| - |c|
  {
    var j := |line| - |c|;
    assert forall m :: h <= m < j ==> line[m] == line[h..j][m - h];
    if j < |line| {
      assert line[j] == c[0];
    }
    SpaceEndIs(line, h, j);
  }

  lemma RestAfterAt(line: string, e: nat, j: nat)
    requires e <= j <= |line| && SpaceEnd(line, e) == j && NoLineTerminator(line[j..])
    ensures RestAfter(line, e) == Some(line[j..])
  {
  }

  lemma ParseNumberedAt(line: string, k: nat, e: nat, c: string)
    requires SpaceEnd(line, 0) == k && NumberEnd(line) == Some(e) && RestAfter(line, e) == Some(c)
    ensures ParseItem(line) == Some(Numbered(line[..k], line[k..e - 1], c))
  {
  }

  lemma ParseBulletedAt(line: string, k: nat, c: string)
    requires SpaceEnd(line, 0) == k && NumberEnd(line).None? && BulletEnd(line) == Some(k + 1)
    requires RestAfter(line, k + 1) == Some(c)
    ensures ParseItem(line) == Some(Bulleted(line[..k], line[k], c))
  {
  }

  /** `* ` in front of any text makes a bullet item, and stripping the bullet gives the
      text back. */
  lemma BulletPrefixed(l: string)
    ensures IsBulletItem("* " + l) && StripBullet("* " + l) == l && NumberEnd("* " + l).None?
  {
    var x := "* " + l;
    assert x[0] == '*' && x[1] == ' ' && x[2..] == l;
    SpaceEndIs(x, 0, 0);
    DigitEndIs(x, 0, 0);
  }

  /** A decimal numeral and `. ` in front of any text make a numbered item, and stripping
      the number gives the text back. */
  lemma NumberPrefixed(ds: string, l: string)
    requires |ds| > 0 && AllDigits(ds)
    ensures IsNumberItem(ds + ". " + l) && StripNumber(ds + ". " + l) == l
  {
    var x := ds + ". " + l;
    assert x == ds + ("." + (" " + l));
    assert forall m :: 0 <= m < |ds| ==> x[m] == ds[m];
    assert x[|ds|] == '.' && x[|ds| + 1] == ' ' && x[|ds| + 2..] == l;
    SpaceEndIs(x, 0, 0);
    DigitEndIs(x, 0, |ds|);
  }

  /** A line with no list marker is left as it is by `StripMarker`. */
  lemma StripUnmarked(l: string)
    requires Unmarked(l)
    ensures StripMarker(l) == l
  {
  }

  /** A blank line carries no list marker. */
  lemma BlankUnmarked(l: string)
    requires IsBlank(l)
    ensures Unmarked(l)
  {
    SpaceEndIs(l, 0, |l|);
  }

  /** Text with no list marker and not blank: what a line holds before it becomes an item. */
  predicate Plain(l: string) {
    Unmarked(l) && !IsBlank(l)
  }

  predicate AllPlain(lines: seq<string>) {
    lines == [] || (Plain(lines[0]) && AllPlain(lines[1..]))
  }

  /** A line of text as a bullet item. */
  function WithBullet(l: string): string {
    "* " + l
  }

  /** A line of text as the item at position `i` (counted from 0) of a numbered list. */
  function Enumerated(l: string, i: nat): string {
    ShowDecimal(i + 1) + ". " + l
  }

  /** One line of text with no marker: bulleting prefixes `* `, and stripping undoes it. */
  lemma BulletLineRoundTrip(l: string)
    requires Plain(l)
    ensures BulletLine(l) == WithBullet(l) && IsBulletItem(WithBullet(l))
    ensures StripBullet(WithBullet(l)) == l
  {
    StripUnmarked(l);
    TrimEmpty(l);
    BulletPrefixed(l);
  }

  /** One line of text with no marker: numbering prefixes the position, and stripping undoes
      it. */
  lemma NumberedLineRoundTrip(l: string, i: nat)
    requires Plain(l)
    ensures NumberedLine(l, i) == Enumerated(l, i) && IsNumberItem(Enumerated(l, i))
    ensures StripNumber(Enumerated(l, i)) == l
  {
    StripUnmarked(l);
    TrimEmpty(l);
    NumberPrefixed(ShowDecimal(i + 1), l);
  }

  lemma {:induction false} BulletPlainLines(lines: seq<string>)
    requires AllPlain(lines)
    ensures MapLines(BulletLine, lines) == MapLines(WithBullet, lines)
    ensures AllBulletItems(MapLines(WithBullet, lines))
    ensures MapLines(StripBullet, MapLines(WithBullet, lines)) == lines
  {
    if lines != [] {
      BulletLineRoundTrip(lines[0]);
      BulletPlainLines(lines[1..]);
      var r := MapLines(WithBullet, lines);
      assert r[1..] == MapLines(WithBullet, lines[1..]);
      assert lines == [lines[0]] + lines[1..];
    }
  }

  lemma {:induction false} NumberPlainLines(lines: seq<string>, n: nat)
    requires AllPlain(lines)
    ensures MapIndexed(NumberedLine, lines, n) == MapIndexed(Enumerated, lines, n)
    ensures AllNumberItems(MapIndexed(Enumerated, lines, n))
    ensures MapLines(StripNumber, MapIndexed(Enumerated, lines, n)) == lines
  {
    if lines != [] {
      NumberedLineRoundTrip(lines[0], n);
      NumberPlainLines(lines[1..], n + 1);
      var r := MapIndexed(Enumerated, lines, n);
      assert r[1..] == MapIndexed(Enumerated, lines[1..], n + 1);
      assert lines == [lines[0]] + lines[1..];
    }
  }

  /** Lines of text with no marker become bullet items, and toggling again restores them. */
  lemma ToggleBulletsRoundTrip(lines: seq<string>)
    requires AllPlain(lines)
    ensures ToggleBullets(lines) == MapLines(WithBullet, lines)
    ensures ToggleBullets(ToggleBullets(lines)) == lines
  {
    BulletPlainLines(lines);
    if lines != [] {
      assert !IsBulletItem(lines[0]);
    }
  }

  /** Lines of text with no marker become items numbered 1, 2, ..., and toggling again
      restores them. */
  lemma ToggleNumbersRoundTrip(lines: seq<string>)
    requires AllPlain(lines)
    ensures ToggleNumbers(lines) == MapIndexed(Enumerated, lines, 0)
    ensures ToggleNumbers(ToggleNumbers(lines)) == lines
  {
    NumberPlainLines(lines, 0);
    if lines != [] {
      assert !IsNumberItem(lines[0]);
    }
  }

  /** Where the text of an item begins, `StripMarker` cuts: the marker, the indentation
      before it and the white space after it all go. */
  lemma StripMarkerOfItem(item: ListItem)
    requires item.WellFormed()
    ensures StripMarker(item.Line()) == item.content
  {
    var line := item.Line();
    match item {
      case Numbered(ind, ds, c) =>
        NumberedLineLayout(ind, ds, c);
        NumberedScan(line, ind, ds, c);
        StripMarkerAt(line, |ind| + |ds| + 1, |ind| + |ds| + 2);
      case Bulleted(ind, b, c) =>
        BulletedLineLayout(ind, b, c);
        BulletedScan(line, ind, b, c);
        StripMarkerAt(line, |ind| + 1, |ind| + 2);
    }
  }

  lemma StripMarkerAt(line: string, e: nat, j: nat)
    requires (if NumberEnd(line).Some? then NumberEnd(line) else BulletEnd(line)) == Some(e)
    requires SpaceEnd(line, e) == j
    ensures StripMarker(line) == line[j..]
  {
  }

  /** An item with text keeps its text under a new marker of either kind. */
  lemma RemarkItem(item: ListItem, i: nat)
    requires item.WellFormed() && item.content != []
    ensures NumberedLine(item.Line(), i) == Enumerated(item.content, i)
    ensures BulletLine(item.Line()) == WithBullet(item.content)
  {
    StripMarkerOfItem(item);
    assert Trim(item.content) != [];
  }

  /** A bullet item is not a numbered item. */
  lemma BulletedNotNumbered(item: ListItem)
    requires item.Bulleted? && item.WellFormed()
    ensures !IsNumberItem(item.Line())
  {
    BulletedLineLayout(item.indent, item.bullet, item.content);
    BulletedScan(item.Line(), item.indent, item.bullet, item.content);
  }

  /** A numbered item is not a bullet item. */
  lemma NumberedNotBulleted(item: ListItem)
    requires item.Numbered? && item.WellFormed()
    ensures !IsBulletItem(item.Line())
  {
    NumberedLineLayout(item.indent, item.digits, item.content);
    NumberedScan(item.Line(), item.indent, item.digits, item.content);
  }

  /** Well-formed items that all have text. */
  predicate AllTexted(items: seq<ListItem>) {
    items == [] || (items[0].WellFormed() && items[0].content != [] && AllTexted(items[1..]))
  }

  /** `items.map(item => item.Line())`. */
  function ItemLines(items: seq<ListItem>): (r: seq<string>)
    ensures |r| == |items|
  {
    if items == [] then [] else [items[0].Line()] + ItemLines(items[1..])
  }

  /** `items.map(item => item.content)`. */
  function Contents(items: seq<ListItem>): (r: seq<string>)
    ensures |r| == |items|
  {
    if items == [] then [] else [items[0].content] + Contents(items[1..])
  }

  lemma {:induction false} RemarkItems(items: seq<ListItem>, n: nat)
    requires AllTexted(items)
    ensures MapIndexed(NumberedLine, ItemLines(items), n) == MapIndexed(Enumerated, Contents(items), n)
    ensures MapLines(BulletLine, ItemLines(items)) == MapLines(WithBullet, Contents(items))
  {
    if items != [] {
      RemarkItem(items[0], n);
      RemarkItems(items[1..], n + 1);
      assert ItemLines(items)[1..] == ItemLines(items[1..]);
      assert Contents(items)[1..] == Contents(items[1..]);
    }
  }

  /** Numbering a block of list items that is not already numbered throughout gives each
      item a number for its position in place of its old marker, keeping its text. */
  lemma NumbersReplaceMarkers(items: seq<ListItem>)
    requires AllTexted(items) && !AllNumberItems(ItemLines(items))
    ensures ToggleNumbers(ItemLines(items)) == MapIndexed(Enumerated, Contents(items), 0)
  {
    RemarkItems(items, 0);
  }

  /** Bulleting a block of list items that is not already bulleted throughout gives each
      item the bullet `*` in place of its old marker, keeping its text. */
  lemma BulletsReplaceMarkers(items: seq<ListItem>)
    requires AllTexted(items) && !AllBulletItems(ItemLines(items))
    ensures ToggleBullets(ItemLines(items)) == MapLines(WithBullet, Contents(items))
  {
    RemarkItems(items, 0);
  }

  /** When a block is not already a list of the requested kind, its blank lines come out
      empty. */
  lemma ApplyEmptiesBlankLines(lines: seq<string>, i: nat)
    requires i < |lines| && IsBlank(lines[i])
    ensures !AllBulletItems(lines) ==> ToggleBullets(lines)[i] == []
    ensures !AllNumberItems(lines) ==> ToggleNumbers(lines)[i] == []
  {
    BlankUnmarked(lines[i]);
    MapLinesAt(BulletLine, lines, i);
    MapIndexedAt(NumberedLine, lines, 0, i);
  }
}
