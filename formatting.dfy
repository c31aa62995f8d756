/** The editing commands of static/script.js over the textarea: `setRangeText`, the toolbar
    commands of `formatText`, list continuation on Enter and the link form. */
module Formatting {
  import opened Text
  import opened ListMarkers

  /** The textarea's value and its selection `[start, end)`. */
  datatype Buffer = Buffer(value: string, start: nat, end: nat)
  {
    predicate Valid() {
      start <= end <= |value|
    }

    function Selected(): string
      requires Valid()
    {
      value[start..end]
    }
  }

  /** The `selectionMode` argument of `setRangeText`. */
  datatype SelectionMode = Select | End

  /** `setRangeText(text, s, e, mode)`: `text` replaces `[s, e)`; with `'select'` the
      inserted text becomes the selection, with `'end'` the cursor goes just after it. */
  function SetRange(b: Buffer, text: string, s: nat, e: nat, mode: SelectionMode): (r: Buffer)
    requires s <= e <= |b.value|
    ensures r.Valid() && |r.value| == |b.value| - (e - s) + |text|
  {
    var v := b.value[..s] + text + b.value[e..];
    match mode
    case Select => Buffer(v, s, s + |text|)
    case End => Buffer(v, s + |text|, s + |text|)
  }

  /** What `setRangeText` leaves where: the text before `s`, the new text, and the text that
      followed `e`. */
  lemma SetRangeParts(b: Buffer, text: string, s: nat, e: nat, mode: SelectionMode)
    requires s <= e <= |b.value|
    ensures var r := SetRange(b, text, s, e, mode);
      && r.value[..s] == b.value[..s] && r.value[s..s + |text|] == text
      && r.value[s + |text|..] == b.value[e..]
      && r.end == s + |text| && r.start == (if mode == Select then s else s + |text|)
  {
  }

  /** `document.execCommand('insertText', false, text)` in the focused textarea: the text
      replaces the selection and the cursor follows it. */
  function InsertText(b: Buffer, text: string): (r: Buffer)
    requires b.Valid()
    ensures r.Valid()
  {
    SetRange(b, text, b.start, b.end, End)
  }

  /** `value.lastIndexOf('\n', start - 1) + 1`: where the line holding `start` begins. */
  function LineStart(v: string, start: int): (r: nat)
    ensures r <= |v|
  {
    LastIndexOf(v, '\n', start - 1) + 1
  }

  /** `value.indexOf('\n', end)`, or the length of the value when no line break follows:
      where the line holding `end` ends. */
  function LineEnd(v: string, end: nat): (r: nat)
    requires end <= |v|
    ensures end <= r <= |v|
  {
    var k := IndexOf(v, '\n', end);
    if k == -1 then |v| else k
  }

  /** The one case in which the line start passes the selection start: a selection that
      begins at position 0 of a value whose first character is a line break, because
      `lastIndexOf` reads the position -1 as 0. */
  predicate BreakAtOrigin(b: Buffer) {
    b.start == 0 && |b.value| > 0 && b.value[0] == '\n'
  }

  /** `setRangeText(newText, lineStart, lineEnd, 'select')` with `lineStart > lineEnd`. */
  predicate ListEditThrows(b: Buffer) {
    BreakAtOrigin(b) && b.end == 0
  }

  /** The block of whole lines that the list commands rewrite: it starts after the line break
      before the selection and ends at the first line break at or after the selection's end,
      and it is empty-handed (start past end) only when the selection is the empty one at a
      leading line break. */
  lemma LineBlock(b: Buffer)
    requires b.Valid()
    ensures var v := b.value; var ls := LineStart(v, b.start); var le := LineEnd(v, b.end);
      && (ls <= b.start <==> !BreakAtOrigin(b)) && (ls == 0 || v[ls - 1] == '\n')
      && (!BreakAtOrigin(b) ==> forall i :: ls <= i < b.start ==> v[i] != '\n')
      && (le == |v| || v[le] == '\n') && (forall i :: b.end <= i < le ==> v[i] != '\n')
      && (ls > le <==> ListEditThrows(b))
  {
    var v := b.value;
    var r := LastIndexOf(v, '\n', b.start - 1);
    LastIndexOfLast(v, '\n', b.start - 1);
    IndexOfFirst(v, '\n', b.end);
    if b.start == 0 && |v| > 0 && v[0] != '\n' {
      assert r != 0;
    }
  }

  /** The toolbar commands of `formatText`; any other `data-command` is `Unknown`. */
  datatype Command = Bold | Italic | Link | UnorderedList | OrderedList | Unknown

  datatype ListKind = Bullets | Numbers

  function Toggle(kind: ListKind, lines: seq<string>): (r: seq<string>)
    ensures |r| == |lines|
  {
    match kind
    case Bullets => ToggleBullets(lines)
    case Numbers => ToggleNumbers(lines)
  }

  /** What `formatText` does with the textarea. */
  datatype Formatted =
    | Edited(buffer: Buffer)   // the value and the selection were rewritten
    | LinkForm(seed: string)   // the link form opens, its text field seeded with the selection
    | Threw                    // `setRangeText` raised `IndexSizeError`; nothing changed
    | Ignored                  // an unknown command; nothing changed

  /** `**`+selection+`**` (or `*`+selection+`*`) in place of the selection, and selected. */
  function Wrap(b: Buffer, mark: string): (r: Buffer)
    requires b.Valid()
    ensures r.Valid()
  {
    SetRange(b, mark + b.Selected() + mark, b.start, b.end, Select)
  }

  /** A block's lines split on `'\n'`, toggled, and joined again. */
  function Reformat(block: string, kind: ListKind): string {
    Join(Toggle(kind, Split(block, '\n')), '\n')
  }

  /** `'unordered-list'` on one block. */
  function BulletBlock(block: string): string {
    Reformat(block, Bullets)
  }

  /** `'ordered-list'` on one block. */
  function NumberBlock(block: string): string {
    Reformat(block, Numbers)
  }

  /** What the two list commands share: the block of whole lines under the selection is
      replaced by `f` of it and selected; `setRangeText` throws when the line start lies past
      the line end. */
  function Rewrite(b: Buffer, f: string -> string): Formatted
    requires b.Valid()
  {
    var ls := LineStart(b.value, b.start);
    var le := LineEnd(b.value, b.end);
    if ls > le then Threw
    else Edited(SetRange(b, f(b.value[ls..le]), ls, le, Select))
  }

  /** The two list commands. */
  function ListEdit(b: Buffer, kind: ListKind): Formatted
    requires b.Valid()
  {
    Rewrite(b, if kind == Bullets then BulletBlock else NumberBlock)
  }

  /** `formatText(command)`. */
  function Format(b: Buffer, cmd: Command): Formatted
    requires b.Valid()
  {
    match cmd
    case Bold => Edited(Wrap(b, "**"))
    case Italic => Edited(Wrap(b, "*"))
    case Link => LinkForm(b.Selected())
    case UnorderedList => ListEdit(b, Bullets)
    case OrderedList => ListEdit(b, Numbers)
    case Unknown => Ignored
  }

  /** Bold and italic: the selection, wrapped in the mark, replaces the selection and is
      selected; the text before and after is untouched. */
  lemma WrapSelection(b: Buffer, mark: string)
    requires b.Valid()
    ensures var r := Wrap(b, mark);
      && r.start == b.start && r.Selected() == mark + b.Selected() + mark
      && r.value[..r.start] == b.value[..b.start] && r.value[r.end..] == b.value[b.end..]
  {
    SetRangeParts(b, mark + b.Selected() + mark, b.start, b.end, Select);
  }

  /** Wrapping never removes a character: every character occurs as often as before, plus
      twice for each time it occurs in the mark. */
  lemma WrapCounts(b: Buffer, mark: string, c: char)
    requires b.Valid()
    ensures Count(Wrap(b, mark).value, c) == Count(b.value, c) + 2 * Count(mark, c)
  {
    var v := b.value;
    var sel := b.Selected();
    assert v == v[..b.start] + sel + v[b.end..];
    CountAppend(v[..b.start] + sel, v[b.end..], c);
    CountAppend(v[..b.start], sel, c);
    var w := Wrap(b, mark).value;
    assert w == v[..b.start] + mark + sel + mark + v[b.end..];
    CountAppend(v[..b.start] + mark + sel + mark, v[b.end..], c);
    CountAppend(v[..b.start] + mark + sel, mark, c);
    CountAppend(v[..b.start] + mark, sel, c);
    CountAppend(v[..b.start], mark, c);
  }

  /** Taking the mark off both ends of the selection. */
  function Unwrap(b: Buffer, mark: string): Buffer
    requires b.Valid() && b.end - b.start >= 2 * |mark|
  {
    SetRange(b, b.value[b.start + |mark|..b.end - |mark|], b.start, b.end, Select)
  }

  /** Unwrapping the selection that bold or italic left gives back the buffer as it was. */
  lemma UnwrapWrap(b: Buffer, mark: string)
    requires b.Valid()
    ensures Unwrap(Wrap(b, mark), mark) == b
  {
    var v, s, e := b.value, b.start, b.end;
    var x, y, z := v[..s], v[s..e], v[e..];
    var w := x + (mark + y + mark) + z;
    var wb := Buffer(w, s, s + 2 * |mark| + |y|);
    assert Wrap(b, mark) == wb by {
      assert b.Selected() == y;
    }
    Unsplice(x, mark, y, z);
    assert Unwrap(wb, mark) == Buffer(x + y + z, s, e) by {
      assert w[s + |mark|..s + 2 * |mark| + |y| - |mark|] == y;
    }
    SplitAround(v, s, e);
  }

  /** A text is its part before `s`, its part from `s` to `e` and its part after `e`. */
  lemma SplitAround(v: string, s: nat, e: nat)
    requires s <= e <= |v|
    ensures v[..s] + v[s..e] + v[e..] == v
  {
    assert v[..e] == v[..s] + v[s..e];
  }

  /** The three parts of a wrapped text, read back by position. */
  lemma Unsplice(x: string, mark: string, y: string, z: string)
    ensures var w := x + (mark + y + mark) + z;
      && w[..|x|] == x && w[|x| + |mark|..|x| + |mark| + |y|] == y
      && w[|x| + 2 * |mark| + |y|..] == z
  {
    var w := x + (mark + y + mark) + z;
    assert w[..|x|] == x;
    assert w[|x| + |mark|..|x| + |mark| + |y|] == y;
    assert w[|x| + 2 * |mark| + |y|..] == z;
  }

  /** The text of the block of whole lines under the selection. */
  function Block(b: Buffer): string
    requires b.Valid() && LineStart(b.value, b.start) <= LineEnd(b.value, b.end)
  {
    b.value[LineStart(b.value, b.start)..LineEnd(b.value, b.end)]
  }

  predicate NoBreaks(lines: seq<string>) {
    forall i :: 0 <= i < |lines| ==> '\n' !in lines[i]
  }

  lemma SuffixNoBreak(l: string, j: nat)
    requires j <= |l| && '\n' !in l
    ensures '\n' !in l[j..]
  {
    assert forall k :: 0 <= k < |l| - j ==> l[j..][k] == l[j + k];
  }

  /** No transform of a line brings in a line break. */
  lemma LineTransformsNoBreak(l: string, i: nat)
    requires '\n' !in l
    ensures '\n' !in StripBullet(l) && '\n' !in StripNumber(l)
    ensures '\n' !in BulletLine(l) && '\n' !in NumberedLine(l, i)
  {
    var c := StripMarker(l);
    var m := if NumberEnd(l).Some? then NumberEnd(l) else BulletEnd(l);
    if m.Some? {
      SuffixNoBreak(l, SpaceEnd(l, m.value));
    }
    match BulletEnd(l) {
      case None =>
      case Some(e) => SuffixNoBreak(l, e); if e < |l| { SuffixNoBreak(l, e + 1); }
    }
    match NumberEnd(l) {
      case None =>
      case Some(e) => SuffixNoBreak(l, e); if e < |l| { SuffixNoBreak(l, e + 1); }
    }
    var ds := ShowDecimal(i + 1);
    assert forall k :: 0 <= k < |ds| ==> IsDigit(ds[k]);
  }

  lemma {:induction false} MapLinesNoBreak(f: string -> string, lines: seq<string>)
    requires NoBreaks(lines) && forall l :: '\n' !in l ==> '\n' !in f(l)
    ensures NoBreaks(MapLines(f, lines))
  {
    if lines != [] {
      MapLinesNoBreak(f, lines[1..]);
      assert MapLines(f, lines)[1..] == MapLines(f, lines[1..]);
    }
  }

  lemma {:induction false} MapIndexedNoBreak(f: (string, nat) -> string, lines: seq<string>, n: nat)
    requires NoBreaks(lines) && forall l, i :: '\n' !in l ==> '\n' !in f(l, i)
    ensures NoBreaks(MapIndexed(f, lines, n))
  {
    if lines != [] {
      MapIndexedNoBreak(f, lines[1..], n + 1);
      assert MapIndexed(f, lines, n)[1..] == MapIndexed(f, lines[1..], n + 1);
    }
  }

  /** Toggling keeps every line free of line breaks. */
  lemma ToggleNoBreak(kind: ListKind, lines: seq<string>)
    requires NoBreaks(lines)
    ensures NoBreaks(Toggle(kind, lines))
  {
    forall l, i: nat | '\n' !in l
      ensures '\n' !in StripBullet(l) && '\n' !in StripNumber(l)
      ensures '\n' !in BulletLine(l) && '\n' !in NumberedLine(l, i)
    {
      LineTransformsNoBreak(l, i);
    }
    match kind {
      case Bullets =>
        MapLinesNoBreak(StripBullet, lines);
        MapLinesNoBreak(BulletLine, lines);
      case Numbers =>
        MapLinesNoBreak(StripNumber, lines);
        MapIndexedNoBreak(NumberedLine, lines, 0);
    }
  }

  /** Reformatting a block turns its lines into the toggled lines, one for one. */
  lemma ReformatLines(block: string, kind: ListKind)
    ensures Split(Reformat(block, kind), '\n') == Toggle(kind, Split(block, '\n'))
  {
    var out := Toggle(kind, Split(block, '\n'));
    SplitNoSep(block, '\n');
    ToggleNoBreak(kind, Split(block, '\n'));
    SplitJoin(out, '\n');
  }

  /** A list command rewrites exactly the block of whole lines under the selection: the text
      before and after it stays, the new block is selected, and its lines are the toggled
      lines of the old block, so there are as many as before. */
  lemma ListEditBlock(b: Buffer, kind: ListKind)
    requires b.Valid()
    ensures ListEdit(b, kind).Threw? <==> ListEditThrows(b)
    ensures ListEdit(b, kind).Edited? ==>
      var ls := LineStart(b.value, b.start); var le := LineEnd(b.value, b.end);
      var r := ListEdit(b, kind).buffer;
      && r.start == ls && r.value[..ls] == b.value[..ls] && r.value[r.end..] == b.value[le..]
      && Split(r.Selected(), '\n') == Toggle(kind, Split(Block(b), '\n'))
      && |Split(r.Selected(), '\n')| == |Split(Block(b), '\n')|
  {
    LineBlock(b);
    if !ListEditThrows(b) {
      var ls := LineStart(b.value, b.start);
      var le := LineEnd(b.value, b.end);
      var nb := Reformat(Block(b), kind);
      SetRangeParts(b, nb, ls, le, Select);
      ReformatLines(Block(b), kind);
    }
  }

  /** Join puts the first part at the front. */
  lemma {:induction false} JoinHead(parts: seq<string>, sep: char)
    requires |parts| >= 1
    ensures |parts[0]| <= |Join(parts, sep)| && Join(parts, sep)[..|parts[0]|] == parts[0]
  {
    if |parts| > 1 {
      assert Join(parts, sep) == parts[0] + ([sep] + Join(parts[1..], sep));
    }
  }

  /** After a block `[ls, le)` between line breaks is replaced by `nb` and selected, the line
      bounds of the new selection are the bounds of `nb`, provided `nb` does not itself
      start with a line break at the start of the value. */
  lemma ReselectBlock(v: string, ls: nat, le: nat, nb: string)
    requires ls <= le <= |v| && (ls == 0 || v[ls - 1] == '\n') && (le == |v| || v[le] == '\n')
    requires ls == 0 ==> nb != [] && nb[0] != '\n'
    ensures var w := v[..ls] + nb + v[le..];
      LineStart(w, ls) == ls && LineEnd(w, ls + |nb|) == ls + |nb|
  {
    var w := v[..ls] + nb + v[le..];
    if ls > 0 {
      assert w[ls - 1] == '\n';
    } else {
      assert w[0] == nb[0];
    }
    if le < |v| {
      assert w[ls + |nb|] == '\n';
    }
  }

  /** Reformatting twice gives the block back when the second toggle undoes the first. */
  lemma ReformatTwice(block: string, kind: ListKind)
    requires Toggle(kind, Toggle(kind, Split(block, '\n'))) == Split(block, '\n')
    ensures Reformat(Reformat(block, kind), kind) == block
  {
    ReformatLines(block, kind);
    JoinSplit(block, '\n');
  }

  /** The reformatted block starts with the first toggled line. */
  lemma ReformatHead(block: string, kind: ListKind)
    requires var out := Toggle(kind, Split(block, '\n')); out[0] != [] && out[0][0] != '\n'
    ensures Reformat(block, kind) != [] && Reformat(block, kind)[0] != '\n'
  {
    var out := Toggle(kind, Split(block, '\n'));
    JoinHead(out, '\n');
    assert Reformat(block, kind)[0] == Join(out, '\n')[..|out[0]|][0];
  }

  /** The second rewrite finds the block the first one wrote and puts the old block back in
      its place, when `f` undoes itself on that block and the new block does not open with a
      line break. */
  lemma RewriteTwice(b: Buffer, f: string -> string)
    requires b.Valid() && LineStart(b.value, b.start) <= LineEnd(b.value, b.end)
    requires f(f(Block(b))) == Block(b)
    requires f(Block(b)) != [] && f(Block(b))[0] != '\n'
    ensures Rewrite(b, f).Edited?
    ensures var ls := LineStart(b.value, b.start); var le := LineEnd(b.value, b.end);
      Rewrite(Rewrite(b, f).buffer, f) == Edited(Buffer(b.value, ls, le))
  {
    var ls := LineStart(b.value, b.start);
    var le := LineEnd(b.value, b.end);
    var v := b.value;
    var nb := f(Block(b));
    assert Rewrite(b, f) == Edited(Buffer(v[..ls] + nb + v[le..], ls, ls + |nb|));
    assert (ls == 0 || v[ls - 1] == '\n') && (le == |v| || v[le] == '\n') by {
      LineBlock(b);
    }
    SecondRewrite(v, ls, le, nb, f);
  }

  /** The block `nb` that replaced `[ls, le)` between line breaks is found again, and `f`
      of it goes back in its place. */
  lemma SecondRewrite(v: string, ls: nat, le: nat, nb: string, f: string -> string)
    requires ls <= le <= |v| && (ls == 0 || v[ls - 1] == '\n') && (le == |v| || v[le] == '\n')
    requires ls == 0 ==> nb != [] && nb[0] != '\n'
    requires f(nb) == v[ls..le]
    ensures Rewrite(Buffer(v[..ls] + nb + v[le..], ls, ls + |nb|), f) == Edited(Buffer(v, ls, le))
  {
    var w := v[..ls] + nb + v[le..];
    ReselectBlock(v, ls, le, nb);
    RewriteWholeLines(Buffer(w, ls, ls + |nb|), f);
    SpliceBack(v, ls, le, nb);
    assert SetRange(Buffer(w, ls, ls + |nb|), v[ls..le], ls, ls + |nb|, Select) == Buffer(v, ls, le);
  }

  /** A selection that already spans whole lines is rewritten in place. */
  lemma RewriteWholeLines(b: Buffer, f: string -> string)
    requires b.Valid() && LineStart(b.value, b.start) == b.start && LineEnd(b.value, b.end) == b.end
    ensures Rewrite(b, f) == Edited(SetRange(b, f(b.Selected()), b.start, b.end, Select))
  {
  }

  /** Splicing `nb` in for `[ls, le)` and the old text back in for `nb` restores `v`. */
  lemma SpliceBack(v: string, ls: nat, le: nat, nb: string)
    requires ls <= le <= |v|
    ensures var w := v[..ls] + nb + v[le..];
      w[ls..ls + |nb|] == nb && w[..ls] + v[ls..le] + w[ls + |nb|..] == v
  {
    var w := v[..ls] + nb + v[le..];
    assert w[..ls] == v[..ls];
    assert w[ls + |nb|..] == v[le..];
  }

  /** Lines of text without markers come out of `'unordered-list'` with `* ` in front, and a
      second pass undoes it. */
  lemma BulletsUndo(block: string)
    requires AllPlain(Split(block, '\n'))
    ensures Split(Reformat(block, Bullets), '\n') == MapLines(WithBullet, Split(block, '\n'))
    ensures Reformat(Reformat(block, Bullets), Bullets) == block
    ensures Reformat(block, Bullets) != [] && Reformat(block, Bullets)[0] != '\n'
  {
    var lines := Split(block, '\n');
    ToggleBulletsRoundTrip(lines);
    MapLinesAt(WithBullet, lines, 0);
    ReformatLines(block, Bullets);
    ReformatTwice(block, Bullets);
    ReformatHead(block, Bullets);
  }

  /** Lines of text without markers come out of `'ordered-list'` numbered from 1, and a
      second pass undoes it. */
  lemma NumbersUndo(block: string)
    requires AllPlain(Split(block, '\n'))
    ensures Split(Reformat(block, Numbers), '\n') == MapIndexed(Enumerated, Split(block, '\n'), 0)
    ensures Reformat(Reformat(block, Numbers), Numbers) == block
    ensures Reformat(block, Numbers) != [] && Reformat(block, Numbers)[0] != '\n'
  {
    var lines := Split(block, '\n');
    ToggleNumbersRoundTrip(lines);
    MapIndexedAt(Enumerated, lines, 0, 0);
    var first := ShowDecimal(1) + ". " + lines[0];
    assert first[0] == ShowDecimal(1)[0];
    ReformatLines(block, Numbers);
    ReformatTwice(block, Numbers);
    ReformatHead(block, Numbers);
  }

  /** Lines of text without markers: `'unordered-list'` puts `* ` before each line of the
      block, and a second `'unordered-list'` restores the value, with the block selected. */
  lemma BulletsTwice(b: Buffer)
    requires b.Valid() && LineStart(b.value, b.start) <= LineEnd(b.value, b.end)
    requires AllPlain(Split(Block(b), '\n'))
    ensures ListEdit(b, Bullets).Edited?
    ensures Split(ListEdit(b, Bullets).buffer.Selected(), '\n') == MapLines(WithBullet, Split(Block(b), '\n'))
    ensures ListEdit(ListEdit(b, Bullets).buffer, Bullets)
      == Edited(Buffer(b.value, LineStart(b.value, b.start), LineEnd(b.value, b.end)))
  {
    BulletsUndo(Block(b));
    RewriteTwice(b, BulletBlock);
    ListEditBlock(b, Bullets);
  }

  /** Lines of text without markers: `'ordered-list'` numbers the lines of the block `1. `,
      `2. `, ..., and a second `'ordered-list'` restores the value, with the block selected. */
  lemma NumbersTwice(b: Buffer)
    requires b.Valid() && LineStart(b.value, b.start) <= LineEnd(b.value, b.end)
    requires AllPlain(Split(Block(b), '\n'))
    ensures ListEdit(b, Numbers).Edited?
    ensures Split(ListEdit(b, Numbers).buffer.Selected(), '\n') == MapIndexed(Enumerated, Split(Block(b), '\n'), 0)
    ensures ListEdit(ListEdit(b, Numbers).buffer, Numbers)
      == Edited(Buffer(b.value, LineStart(b.value, b.start), LineEnd(b.value, b.end)))
  {
    NumbersUndo(Block(b));
    RewriteTwice(b, NumberBlock);
    ListEditBlock(b, Numbers);
  }

  /** `textarea.value.substring(0, pos).split('\n').pop()` with `pos` the selection start:
      the cursor's line up to the cursor. */
  function CurrentLine(b: Buffer): string
    requires b.Valid()
  {
    LastPart(b.value[..b.start], '\n')
  }

  /** The item that Enter starts on the next line: the same indentation, the next number
      (`parseInt(numStr, 10) + 1`) or the same bullet, and no text yet. */
  function Successor(item: ListItem): ListItem {
    match item
    case Numbered(ind, ds, _) => Numbered(ind, ShowDecimal(ParseDecimal(ds) + 1), "")
    case Bulleted(ind, m, _) => Bulleted(ind, m, "")
  }

  /** What the Enter handler did: the textarea afterwards, whether it called
      `preventDefault` (so the browser inserts no line break of its own), and whether the
      line was a list item at all (then the preview render is scheduled and the key goes no
      further). */
  datatype EnterResult = EnterResult(buffer: Buffer, prevented: bool, listed: bool)

  /** The Enter handler in the editor. On an item with text, `\n` and the successor item's
      head and space are inserted at the cursor; on an item without text, the line up to the
      cursor is deleted and the browser's own line break follows; on any other line nothing
      happens. */
  function Enter(b: Buffer): (r: EnterResult)
    requires b.Valid()
    ensures r.buffer.Valid()
    ensures r.listed <==> ParseItem(CurrentLine(b)).Some?
    ensures !r.listed ==> r.buffer == b && !r.prevented
  {
    var line := CurrentLine(b);
    match ParseItem(line)
    case None => EnterResult(b, false, false)
    case Some(item) =>
      if Trim(item.content) == [] then
        EnterResult(SetRange(b, "", b.start - |line|, b.start, End), false, true)
      else
        EnterResult(SetRange(b, "\n" + Successor(item).Line(), b.start, b.start, End), true, true)
  }

  /** The successor of a numbered item carries the next number, that of a bullet item the
      same bullet; both keep the indentation, have no text, and are well formed. */
  lemma SuccessorNext(item: ListItem)
    requires item.WellFormed()
    ensures var n := Successor(item);
      && n.WellFormed() && n.indent == item.indent && n.content == [] && n.Numbered? == item.Numbered?
      && (n.Numbered? ==> ParseDecimal(n.digits) == ParseDecimal(item.digits) + 1)
      && (n.Bulleted? ==> n.bullet == item.bullet)
  {
    if item.Numbered? {
      ParseShow(ParseDecimal(item.digits) + 1);
    }
  }

  /** The line before a line break is cut off by `split('\n').pop()`. */
  lemma LastPartAfterBreak(x: string, l: string)
    requires '\n' !in l
    ensures LastPart(x + "\n" + l, '\n') == l
  {
    var s := x + "\n" + l;
    var r := LastPart(s, '\n');
    LastPartNoSep(s, '\n');
    assert s[|x|] == '\n';
    assert forall i :: |s| - |l| <= i < |s| ==> s[i] == l[i - (|s| - |l|)];
    assert forall i :: |s| - |r| <= i < |s| ==> s[i] == r[i - (|s| - |r|)];
    assert s[|s| - |l|..] == l;
  }

  /** A parsed item's indentation is where the line starts. */
  lemma ParsedIndent(line: string)
    requires ParseItem(line).Some?
    ensures ParseItem(line).value.indent == line[..SpaceEnd(line, 0)]
  {
  }

  /** The text Enter inserts holds no line break after its first character. */
  lemma SuccessorNoBreak(line: string)
    requires '\n' !in line && ParseItem(line).Some?
    ensures var item := ParseItem(line).value;
      '\n' !in Successor(item).Line()
  {
    var item := ParseItem(line).value;
    ParseItemSound(line);
    ParsedIndent(line);
    SuccessorNext(item);
    var n := Successor(item);
    assert forall i :: 0 <= i < |item.indent| ==> item.indent[i] == line[i];
    if n.Numbered? {
      assert forall i :: 0 <= i < |n.digits| ==> IsDigit(n.digits[i]);
      assert n.Line() == n.indent + n.digits + ". ";
    } else {
      assert n.Line() == n.indent + [n.bullet] + " ";
    }
  }

  /** Enter on an item with text: a line break and the successor item's head go in at the
      cursor, the cursor follows them, the browser's line break is suppressed, and the
      cursor's line now parses as the successor item. */
  lemma EnterContinues(b: Buffer)
    requires b.Valid()
    requires var r := ParseItem(CurrentLine(b)); r.Some? && Trim(r.value.content) != []
    ensures var item := ParseItem(CurrentLine(b)).value; var next := Successor(item).Line();
      var r := Enter(b); var e := b.start + 1 + |next|;
      && r.prevented && r.listed && '\n' !in next
      && r.buffer == Buffer(b.value[..b.start] + ("\n" + next) + b.value[b.start..], e, e)
      && ParseItem(CurrentLine(r.buffer)) == Some(Successor(item))
  {
    var line := CurrentLine(b);
    var item := ParseItem(line).value;
    var next := Successor(item).Line();
    assert '\n' !in next by {
      CurrentLineBounds(b);
      SuccessorNoBreak(line);
    }
    assert ParseItem(next) == Some(Successor(item)) by {
      ParseItemSound(line);
      SuccessorNext(item);
      ParseItemLine(Successor(item));
    }
    ContinuedLine(b.value, b.start, next);
  }

  /** After a line break and `next` go in at `s`, the cursor's line is `next`. */
  lemma ContinuedLine(v: string, s: nat, next: string)
    requires s <= |v| && '\n' !in next
    ensures var e := s + 1 + |next|;
      CurrentLine(Buffer(v[..s] + ("\n" + next) + v[s..], e, e)) == next
  {
    var w := v[..s] + ("\n" + next) + v[s..];
    assert w[..s + 1 + |next|] == v[..s] + "\n" + next;
    LastPartAfterBreak(v[..s], next);
  }

  /** The cursor's line up to the cursor starts after a line break or at the start of the
      value, and holds no line break. */
  lemma CurrentLineBounds(b: Buffer)
    requires b.Valid()
    ensures var p := b.start - |CurrentLine(b)|;
      && 0 <= p && b.value[p..b.start] == CurrentLine(b)
      && (p == 0 || b.value[p - 1] == '\n') && '\n' !in CurrentLine(b)
  {
    var x := b.value[..b.start];
    var line := CurrentLine(b);
    LastPartNoSep(x, '\n');
    assert b.value[b.start - |line|..b.start] == x[|x| - |line|..];
  }

  /** Enter on an item without text: the cursor's line up to the cursor, which starts after
      a line break or at the start of the value, is deleted, the cursor goes where it began,
      and the browser's own line break is not suppressed. */
  lemma EnterEndsList(b: Buffer)
    requires b.Valid()
    requires var r := ParseItem(CurrentLine(b)); r.Some? && Trim(r.value.content) == []
    ensures var p := b.start - |CurrentLine(b)|; var r := Enter(b);
      && !r.prevented && r.listed
      && r.buffer == Buffer(b.value[..p] + b.value[b.start..], p, p)
      && (p == 0 || b.value[p - 1] == '\n') && '\n' !in b.value[p..b.start]
  {
    var p := b.start - |CurrentLine(b)|;
    CurrentLineBounds(b);
    EnterClears(b, p);
  }

  lemma EnterClears(b: Buffer, p: nat)
    requires b.Valid() && p == b.start - |CurrentLine(b)|
    requires var r := ParseItem(CurrentLine(b)); r.Some? && Trim(r.value.content) == []
    ensures Enter(b) == EnterResult(Buffer(b.value[..p] + b.value[b.start..], p, p), false, true)
  {
    assert Enter(b) == EnterResult(SetRange(b, "", p, b.start, End), false, true);
    assert b.value[..p] + "" + b.value[b.start..] == b.value[..p] + b.value[b.start..];
  }

  /** The markdown that `insertLinkFromModal` inserts: both fields are trimmed, an empty text
      falls back to the URL, and an empty URL inserts nothing at all. */
  function LinkMarkup(url: string, text: string): (r: Option<string>)
    ensures r.Some? ==> |r.value| >= 4 + |Trim(url)|
  {
    var u := Trim(url);
    var t := if Trim(text) == [] then u else Trim(text);
    if u == [] then None else Some("[" + t + "](" + u + ")")
  }

  /** Reads `[text](url)` back: the text runs up to the first `]`, which must be followed by
      `(`, and the URL runs to the closing parenthesis that ends the string. */
  function LinkParts(m: string): (r: Option<(string, string)>)
    ensures r.Some? ==> |m| == |r.value.0| + |r.value.1| + 4
  {
    if |m| < 4 || m[0] != '[' || m[|m| - 1] != ')' then None
    else
      var k := IndexOf(m, ']', 1);
      if k == -1 || k + 2 > |m| - 1 || m[k + 1] != '(' then None
      else Some((m[1..k], m[k + 2..|m| - 1]))
  }

  /** Whatever `LinkParts` accepts is exactly the link it reads. */
  lemma LinkPartsSound(m: string)
    requires LinkParts(m).Some?
    ensures var (t, u) := LinkParts(m).value; m == "[" + t + "](" + u + ")" && ']' !in t
  {
    var (t, u) := LinkParts(m).value;
    var k := IndexOf(m, ']', 1);
    assert t == m[1..k] && u == m[k + 2..|m| - 1];
    assert ']' !in t by {
      IndexOfFirst(m, ']', 1);
      forall i | 0 <= i < |t|
        ensures t[i] != ']'
      {
        assert t[i] == m[i + 1];
      }
    }
    assert m[..1] == "[" && m[k..k + 2] == "](" && m[|m| - 1..] == ")";
    assert m == m[..1] + m[1..k] + m[k..k + 2] + m[k + 2..|m| - 1] + m[|m| - 1..];
  }

  /** The inserted link reads back as the trimmed text (or, when that is empty, the trimmed
      URL) and the trimmed URL, provided the text shown contains no `]`. */
  lemma LinkRoundTrip(url: string, text: string)
    requires !IsBlank(url)
    requires ']' !in (if IsBlank(text) then Trim(url) else Trim(text))
    ensures LinkMarkup(url, text).Some?
    ensures LinkParts(LinkMarkup(url, text).value)
      == Some((if IsBlank(text) then Trim(url) else Trim(text), Trim(url)))
  {
    TrimEmpty(url);
    TrimEmpty(text);
    var u := Trim(url);
    LinkScan(if Trim(text) == [] then u else Trim(text), u);
  }

  /** `LinkParts` reads back any link whose text holds no `]`. */
  lemma LinkScan(t: string, u: string)
    requires ']' !in t
    ensures LinkParts("[" + t + "](" + u + ")") == Some((t, u))
  {
    var m := "[" + t + "](" + u + ")";
    assert m[1..1 + |t|] == t && m[1 + |t|] == ']' && m[1 + |t| + 1] == '(';
    assert forall i :: 1 <= i < 1 + |t| ==> m[i] == t[i - 1];
    IndexOfIs(m, ']', 1, 1 + |t|);
    assert m[1 + |t| + 2..|m| - 1] == u;
  }

  /** Confirming the link form: nothing when the URL is blank; otherwise the link replaces the
      selection and the cursor follows it. */
  function InsertLink(b: Buffer, url: string, text: string): (r: Option<Buffer>)
    requires b.Valid()
    ensures r.Some? ==> r.value.Valid()
  {
    match LinkMarkup(url, text)
    case None => None
    case Some(m) => Some(InsertText(b, m))
  }

  /** The link form inserts nothing, and stays open, exactly when the URL is blank. */
  lemma LinkNeedsUrl(b: Buffer, url: string, text: string)
    requires b.Valid()
    ensures LinkMarkup(url, text).None? <==> IsBlank(url)
    ensures InsertLink(b, url, text).None? <==> IsBlank(url)
  {
    TrimEmpty(url);
  }

  /** The link command opens the form with the selection as its text; confirming it with a URL
      puts the link where the selection was, keeping everything around it, and leaves the
      cursor after the link. */
  lemma LinkReplacesSelection(b: Buffer, url: string)
    requires b.Valid() && !IsBlank(url)
    ensures Format(b, Link) == LinkForm(b.Selected())
    ensures LinkMarkup(url, b.Selected()).Some?
    ensures var m := LinkMarkup(url, b.Selected()).value; var r := InsertLink(b, url, b.Selected());
      && r == Some(Buffer(b.value[..b.start] + m + b.value[b.end..], b.start + |m|, b.start + |m|))
  {
    TrimEmpty(url);
  }

  /** The textarea after its `value` is assigned `v`: the HTML value setter leaves the text and
      the selection alone when `v` is the current value, and otherwise puts the cursor at the
      end of the new text. */
  function Assigned(b: Buffer, v: string): (r: Buffer)
    ensures r.value == v
    ensures v == b.value ==> r == b
    ensures v != b.value ==> r.start == r.end == |v|
    ensures b.Valid() ==> r.Valid()
  {
    if v == b.value then b else Buffer(v, |v|, |v|)
  }

  /** The textarea of the editor: its value and its selection, changed in place. */
  class Textarea {
    var value: string
    var selectionStart: nat
    var selectionEnd: nat

    function State(): Buffer
      reads this
    {
      Buffer(value, selectionStart, selectionEnd)
    }

    predicate Valid()
      reads this
    {
      State().Valid()
    }

    constructor ()
      ensures Valid() && State() == Buffer("", 0, 0)
    {
      value, selectionStart, selectionEnd := "", 0, 0;
    }

    /** Assigning `textarea.value`. */
    method SetValue(v: string)
      requires Valid()
      modifies this
      ensures Valid() && State() == Assigned(old(State()), v)
    {
      if v != value {
        value, selectionStart, selectionEnd := v, |v|, |v|;
      }
    }

    /** The user placing the cursor or selecting `[s, e)`; the text stays. */
    method SetSelection(s: nat, e: nat)
      requires s <= e <= |value|
      modifies this
      ensures Valid() && State() == Buffer(old(value), s, e)
    {
      selectionStart, selectionEnd := s, e;
    }

    /** `textarea.setRangeText(text, s, e, mode)`. */
    method SetRangeText(text: string, s: nat, e: nat, mode: SelectionMode)
      requires Valid() && s <= e <= |value|
      modifies this
      ensures Valid() && State() == SetRange(old(State()), text, s, e, mode)
    {
      var r := SetRange(State(), text, s, e, mode);
      value, selectionStart, selectionEnd := r.value, r.start, r.end;
    }

    /** `document.execCommand('insertText', false, text)` with the textarea focused. */
    method ExecInsertText(text: string)
      requires Valid()
      modifies this
      ensures Valid() && State() == InsertText(old(State()), text)
    {
      SetRangeText(text, selectionStart, selectionEnd, End);
    }

    /** `formatText(command)` on this textarea. When `setRangeText` throws (an empty selection
        at a leading line break), the textarea is left as it was. */
    method FormatText(cmd: Command) returns (r: Formatted)
      requires Valid()
      modifies this
      ensures Valid() && r == Format(old(State()), cmd)
      ensures State() == (if r.Edited? then r.buffer else old(State()))
    {
      var start, end := selectionStart, selectionEnd;
      var lineStart := LineStart(value, start);
      var lineEnd := LineEnd(value, end);
      match cmd
      case Bold =>
        SetRangeText("**" + value[start..end] + "**", start, end, Select);
        r := Edited(State());
      case Italic =>
        SetRangeText("*" + value[start..end] + "*", start, end, Select);
        r := Edited(State());
      case Link =>
        r := LinkForm(value[start..end]);
      case UnorderedList =>
        r := ListText(lineStart, lineEnd, Bullets);
      case OrderedList =>
        r := ListText(lineStart, lineEnd, Numbers);
      case Unknown =>
        r := Ignored;
    }

    /** The list branches of `formatText`: `setRangeText` over the whole-line block. */
    method ListText(lineStart: nat, lineEnd: nat, kind: ListKind) returns (r: Formatted)
      requires Valid()
      requires lineStart == LineStart(value, selectionStart) && lineEnd == LineEnd(value, selectionEnd)
      modifies this
      ensures Valid() && r == ListEdit(old(State()), kind)
      ensures State() == (if r.Edited? then r.buffer else old(State()))
    {
      if lineStart > lineEnd {
        r := Threw;
      } else {
        SetRangeText(Reformat(value[lineStart..lineEnd], kind), lineStart, lineEnd, Select);
        r := Edited(State());
      }
    }

    /** The Enter handler on this textarea; the results say whether the browser's own line
        break was prevented and whether the line was a list item. */
    method PressEnter() returns (prevented: bool, listed: bool)
      requires Valid()
      modifies this
      ensures Valid() && EnterResult(State(), prevented, listed) == Enter(old(State()))
    {
      var pos := selectionStart;
      var currentLine := LastPart(value[..pos], '\n');
      var parsed := ParseItem(currentLine);
      if parsed.None? {
        prevented, listed := false, false;
      } else if Trim(parsed.value.content) == [] {
        SetRangeText("", pos - |currentLine|, pos, End);
        prevented, listed := false, true;
      } else {
        SetRangeText("\n" + Successor(parsed.value).Line(), pos, pos, End);
        prevented, listed := true, true;
      }
    }
  }
}
