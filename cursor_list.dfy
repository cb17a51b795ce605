/**
 * `StatefulList<T>` of src/lib.rs: an item sequence with a wrap-around cursor.
 * tui's `ListState` is reduced to the one thing these operations touch, the
 * optional selected position.
 */
module CursorList {
  import opened Options

  /** The selection `next` moves to, in a list of `len` items. */
  function NextSelection(len: nat, sel: Option<nat>): (r: Option<nat>)
    ensures len == 0 ==> r == sel
    ensures len > 0 ==> r.Some? && r.value < len
    ensures len > 0 && sel.Some? && sel.value + 1 < len ==> r == Some(sel.value + 1)
    ensures len > 0 && (sel.None? || sel.value + 1 >= len) ==> r == Some(0)
  {
    if len == 0 then sel
    else match sel
      case Some(i) => if i >= len - 1 then Some(0) else Some(i + 1)
      case None => Some(0)
  }

  /** The selection `previous` moves to, in a list of `len` items. */
  function PreviousSelection(len: nat, sel: Option<nat>): (r: Option<nat>)
    ensures len == 0 ==> r == sel
    ensures len > 0 ==> r.Some?
    ensures len > 0 && sel.None? ==> r == Some(0)
    ensures len > 0 && sel == Some(0) ==> r == Some(len - 1)
    ensures len > 0 && sel.Some? && sel.value > 0 ==> r == Some(sel.value - 1)
    ensures len > 0 && (sel.None? || sel.value < len) ==> r.value < len
  {
    if len == 0 then sel
    else match sel
      case Some(i) => if i == 0 then Some(len - 1) else Some(i - 1)
      case None => Some(0)
  }

  /** `next` applied `k` times. */
  function NextTimes(len: nat, sel: Option<nat>, k: nat): Option<nat>
  {
    if k == 0 then sel else NextSelection(len, NextTimes(len, sel, k - 1))
  }

  /** For an in-range cursor, `previous` undoes `next` and `next` undoes `previous`. */
  lemma PreviousUndoesNext(len: nat, i: nat)
    requires i < len
    ensures PreviousSelection(len, NextSelection(len, Some(i))) == Some(i)
    ensures NextSelection(len, PreviousSelection(len, Some(i))) == Some(i)
  {
  }

  /**
   * A stale cursor past the end: `next` wraps it to the first item, while
   * `previous` only steps it back by one, which can leave it out of range.
   */
  lemma StaleCursor(len: nat, i: nat)
    requires 0 < len <= i
    ensures NextSelection(len, Some(i)) == Some(0)
    ensures PreviousSelection(len, Some(i)) == Some(i - 1)
    ensures i > len ==> PreviousSelection(len, Some(i)).value >= len
  {
  }

  /** Running `a` steps and then `b` more is running `a + b` steps. */
  lemma {:induction false} NextTimesAdd(len: nat, sel: Option<nat>, a: nat, b: nat)
    ensures NextTimes(len, sel, a + b) == NextTimes(len, NextTimes(len, sel, a), b)
  {
    if b > 0 {
      NextTimesAdd(len, sel, a, b - 1);
    }
  }

  /** Below the last index, `k` steps of `next` simply advance the cursor by `k`. */
  lemma {:induction false} NextTimesClimbs(len: nat, j: nat, k: nat)
    requires j + k < len
    ensures NextTimes(len, Some(j), k) == Some(j + k)
  {
    if k > 0 {
      NextTimesClimbs(len, j, k - 1);
    }
  }

  /** `len` steps of `next` from an in-range cursor come back to where they started. */
  lemma {:induction false} NextCycles(len: nat, i: nat)
    requires i < len
    ensures NextTimes(len, Some(i), len) == Some(i)
  {
    NextTimesAdd(len, Some(i), len - 1 - i, i + 1);
    NextTimesClimbs(len, i, len - 1 - i);
    NextTimesAdd(len, Some(len - 1), 1, i);
    assert NextTimes(len, Some(len - 1), 1) == Some(0);
    NextTimesClimbs(len, 0, i);
  }

  class StatefulList<T> {
    var items: seq<T>
    var selected: Option<nat>

    /** `StatefulList::with_items`: the given items, nothing selected. */
    constructor WithItems(items: seq<T>)
      ensures this.items == items && selected == None
    {
      this.items := items;
      selected := None;
    }

    /** `Default`: no items, nothing selected. */
    constructor Default()
      ensures items == [] && selected == None
    {
      items := [];
      selected := None;
    }

    method Next()
      modifies this`selected
      ensures selected == NextSelection(|items|, old(selected))
    {
      if |items| == 0 {
        return;
      }
      var i;
      match selected {
        case Some(j) =>
          if j >= |items| - 1 {
            i := 0;
          } else {
            i := j + 1;
          }
        case None =>
          i := 0;
      }
      selected := Some(i);
    }

    method Previous()
      modifies this`selected
      ensures selected == PreviousSelection(|items|, old(selected))
    {
      if |items| == 0 {
        return;
      }
      var i;
      match selected {
        case Some(j) =>
          if j == 0 {
            i := |items| - 1;
          } else {
            i := j - 1;
          }
        case None =>
          i := 0;
      }
      selected := Some(i);
    }

    method Unselect()
      modifies this`selected
      ensures selected == None
    {
      selected := None;
    }
  }
}
