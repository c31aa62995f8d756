/** The command palette of static/script.js: opening it lists a snapshot of the note names
    with the first one selected, the arrow keys move the selection round the list, and Enter
    picks the selected name and closes the palette. There is no filtering. */
module Palette {
  import opened Text

  /** `(currentIndex + 1) % items.length`: one step down, from the last item back to the first. */
  function Next(i: nat, n: nat): (j: nat)
    requires i < n
    ensures j < n
    ensures i + 1 < n ==> j == i + 1
    ensures i + 1 == n ==> j == 0
  {
    (i + 1) % n
  }

  /** `(currentIndex - 1 + items.length) % items.length`: one step up, from the first item
      round to the last. */
  function Prev(i: nat, n: nat): (j: nat)
    requires i < n
    ensures j < n
    ensures 0 < i ==> j == i - 1
    ensures i == 0 ==> j == n - 1
  {
    (i - 1 + n) % n
  }

  /** ArrowUp undoes ArrowDown and ArrowDown undoes ArrowUp. */
  lemma UpUndoesDown(i: nat, n: nat)
    requires i < n
    ensures Prev(Next(i, n), n) == i && Next(Prev(i, n), n) == i
  {
  }

  /** Where `k` presses of ArrowDown lead from item `i`. */
  function Downs(i: nat, n: nat, k: nat): (j: nat)
    requires i < n
    ensures j < n
    decreases k
  {
    if k == 0 then i else Downs(Next(i, n), n, k - 1)
  }

  /** `a` presses followed by `b` more are `a + b` presses. */
  lemma {:induction false} DownsAdd(i: nat, n: nat, a: nat, b: nat)
    requires i < n
    ensures Downs(i, n, a + b) == Downs(Downs(i, n, a), n, b)
    decreases a
  {
    if a > 0 {
      DownsAdd(Next(i, n), n, a - 1, b);
    }
  }

  /** Before the end of the list, each press moves one item down. */
  lemma {:induction false} DownsBelowEnd(i: nat, n: nat, k: nat)
    requires i + k < n
    ensures Downs(i, n, k) == i + k
    decreases k
  {
    if k > 0 {
      DownsBelowEnd(i + 1, n, k - 1);
    }
  }

  /** Pressing ArrowDown once per item brings the selection back where it started. */
  lemma FullCircle(i: nat, n: nat)
    requires i < n
    ensures Downs(i, n, n) == i
  {
    DownsAdd(i, n, n - 1 - i, i + 1);
    DownsBelowEnd(i, n, n - 1 - i);
    assert Downs(n - 1, n, i + 1) == Downs(0, n, i) by {
      DownsAdd(n - 1, n, 1, i);
    }
    DownsBelowEnd(0, n, i);
  }

  /** The keys that `handlePaletteNavigation` acts on: ArrowUp, ArrowDown and Enter. */
  datatype NavKey = Up | Down | Choose

  /** The palette overlay, the list it shows and which entry carries the `selected` mark. */
  class CommandPalette {
    var shown: bool
    var items: seq<string>
    var selected: nat

    /** A non-empty list has exactly one selected entry; an empty one has none, and the index
        rests at 0. */
    predicate Valid()
      reads this
    {
      selected < |items| || (items == [] && selected == 0)
    }

    constructor ()
      ensures Valid() && !shown && items == [] && selected == 0
    {
      shown, items, selected := false, [], 0;
    }

    /** `openPalette`: the list is filled from the note names as they are now, the first entry
        is selected and the overlay is shown. */
    method Open(notes: seq<string>)
      modifies this
      ensures Valid() && shown && items == notes && selected == 0
    {
      items := notes;
      selected := 0;
      shown := true;
    }

    /** `closePalette`: the overlay is hidden; the list and its selection stay until the next
        opening refills them. */
    method Close()
      modifies this
      ensures !shown && items == old(items) && selected == old(selected)
    {
      shown := false;
    }

    /** `handlePaletteNavigation`: nothing happens on an empty list; otherwise the arrows move
        the selection with wrap-around and Enter returns the selected name, for the editor to
        open, and closes the palette. */
    method Navigate(key: NavKey) returns (chosen: Option<string>)
      requires Valid()
      modifies this
      ensures Valid() && items == old(items)
      ensures items == [] ==> selected == old(selected) && shown == old(shown) && chosen == None
      ensures items != [] && key == Down ==>
        selected == Next(old(selected), |items|) && shown == old(shown) && chosen == None
      ensures items != [] && key == Up ==>
        selected == Prev(old(selected), |items|) && shown == old(shown) && chosen == None
      ensures items != [] && key == Choose ==>
        selected == old(selected) && !shown && chosen == Some(items[old(selected)])
    {
      chosen := None;
      if |items| == 0 {
        return;
      }
      match key
      case Down =>
        selected := Next(selected, |items|);
      case Up =>
        selected := Prev(selected, |items|);
      case Choose =>
        chosen := Some(items[selected]);
        Close();
    }
  }
}
