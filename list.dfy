/**
 * The list widget (`tui_list_*`): a sequence of item windows and the
 * index of the selected one. Scrolling moves the selection to the
 * nearest visible item after or before it; an update moves it off an
 * item the layout made invisible.
 */
module List {
  import opened Base
  import Focus
  import Input

  const KEY_DOWN: int := 258
  const KEY_UP: int := 259

  /** Every item is NULL or a window of the tui, whose visibility `visible` holds. */
  predicate ItemsIn(items: seq<int>, visible: seq<bool>)
  {
    forall k :: 0 <= k < |items| ==> items[k] == NULL || 0 <= items[k] < |visible|
  }

  /** Item `k` is a window the last layout pass left visible. */
  predicate Shown(items: seq<int>, visible: seq<bool>, k: int)
    requires ItemsIn(items, visible) && 0 <= k < |items|
  {
    items[k] != NULL && visible[items[k]]
  }

  /** The first shown item at or after `lo`. */
  function FirstShown(items: seq<int>, visible: seq<bool>, lo: int): (r: Option<int>)
    requires ItemsIn(items, visible) && 0 <= lo
    ensures r.Some? ==> lo <= r.value < |items| && Shown(items, visible, r.value)
    ensures r.Some? ==> forall k :: lo <= k < r.value ==> !Shown(items, visible, k)
    ensures r.None? <==> forall k :: lo <= k < |items| ==> !Shown(items, visible, k)
    decreases |items| - lo
  {
    if lo >= |items| then None
    else if Shown(items, visible, lo) then Some(lo)
    else FirstShown(items, visible, lo + 1)
  }

  /** The last shown item before `hi`. */
  function LastShown(items: seq<int>, visible: seq<bool>, hi: int): (r: Option<int>)
    requires ItemsIn(items, visible) && hi <= |items|
    ensures r.Some? ==> 0 <= r.value < hi && Shown(items, visible, r.value)
    ensures r.Some? ==> forall k :: r.value < k < hi ==> !Shown(items, visible, k)
    ensures r.None? <==> forall k :: 0 <= k < hi ==> !Shown(items, visible, k)
    decreases hi
  {
    if hi <= 0 then None
    else if Shown(items, visible, hi - 1) then Some(hi - 1)
    else LastShown(items, visible, hi - 1)
  }

  /** `tui_list_scroll_forward`: the nearest shown item after `index`, if any. */
  function Forward(items: seq<int>, visible: seq<bool>, index: int): Option<int>
    requires ItemsIn(items, visible) && 0 <= index
  {
    FirstShown(items, visible, index + 1)
  }

  /** `tui_list_scroll_backward`: the nearest shown item before `index`, if any. */
  function Backward(items: seq<int>, visible: seq<bool>, index: int): Option<int>
    requires ItemsIn(items, visible) && 0 <= index <= |items|
  {
    LastShown(items, visible, index)
  }

  /**
   * `tui_list_item_update`: nothing when the selected item is shown,
   * else the nearest shown item after it, else the nearest before it.
   */
  function Update(items: seq<int>, visible: seq<bool>, index: int): (r: Option<int>)
    requires ItemsIn(items, visible) && 0 <= index < |items|
    ensures Shown(items, visible, index) ==> r.None?
    ensures r.Some? ==> 0 <= r.value < |items| && r.value != index && Shown(items, visible, r.value)
    ensures r.None? && !Shown(items, visible, index) ==> forall k :: 0 <= k < |items| ==> !Shown(items, visible, k)
  {
    if Shown(items, visible, index) then None
    else match Forward(items, visible, index)
      case Some(k) => Some(k)
      case None => Backward(items, visible, index)
  }

  /** A forward step from a shown item followed by a backward step comes back to it. */
  lemma ForwardThenBack(items: seq<int>, visible: seq<bool>, index: int)
    requires ItemsIn(items, visible) && 0 <= index < |items| && Shown(items, visible, index)
    requires Forward(items, visible, index).Some?
    ensures Backward(items, visible, Forward(items, visible, index).value) == Some(index)
  {
    var j := Forward(items, visible, index).value;
    assert Backward(items, visible, j).Some?;
  }

  /** A backward step from a shown item followed by a forward step comes back to it. */
  lemma BackThenForward(items: seq<int>, visible: seq<bool>, index: int)
    requires ItemsIn(items, visible) && 0 <= index < |items| && Shown(items, visible, index)
    requires Backward(items, visible, index).Some?
    ensures Forward(items, visible, Backward(items, visible, index).value) == Some(index)
  {
    var j := Backward(items, visible, index).value;
    assert Forward(items, visible, j).Some?;
  }

  /** After an update the selection is shown, or no item is: a second update changes nothing. */
  lemma UpdateSettles(items: seq<int>, visible: seq<bool>, index: int)
    requires ItemsIn(items, visible) && 0 <= index < |items|
    ensures var i := match Update(items, visible, index) case Some(k) => k case None => index;
      Update(items, visible, i).None?
  {
  }

  /** The list state: `tui_list_t`, with the item windows as handles into the tui. */
  class Selection {
    var items: seq<int>
    var index: int
    const isVertical: bool

    ghost predicate Valid()
      reads this
    {
      0 <= index && (index < |items| || index == 0)
    }

    /** `tui_list_create`: no items, the first index selected. */
    constructor (isVertical: bool)
      ensures Valid() && items == [] && index == 0 && this.isVertical == isVertical
    {
      items := [];
      index := 0;
      this.isVertical := isVertical;
    }

    /** `tui_list_item_add`: appends an item; 0 is success. */
    method ItemAdd(item: int) returns (code: int)
      requires Valid()
      modifies `items
      ensures Valid() && items == old(items) + [item] && code == 0
    {
      items := items + [item];
      return 0;
    }

    /** `tui_list_scroll_forward` */
    method ScrollForward(visible: seq<bool>) returns (moved: bool)
      requires Valid() && ItemsIn(items, visible)
      modifies `index
      ensures Valid()
      ensures moved == Forward(items, visible, old(index)).Some?
      ensures index == if moved then Forward(items, visible, old(index)).value else old(index)
    {
      var k := index + 1;
      while k < |items|
        invariant k == index + 1 || index + 1 <= k <= |items|
        invariant FirstShown(items, visible, index + 1) == FirstShown(items, visible, k)
      {
        var window := items[k];
        if window != NULL && visible[window] {
          index := k;
          return true;
        }
        k := k + 1;
      }
      return false;
    }

    /** `tui_list_scroll_backward` */
    method ScrollBackward(visible: seq<bool>) returns (moved: bool)
      requires Valid() && ItemsIn(items, visible)
      modifies `index
      ensures Valid()
      ensures moved == Backward(items, visible, old(index)).Some?
      ensures index == if moved then Backward(items, visible, old(index)).value else old(index)
    {
      var k := index;
      while k > 0
        invariant 0 <= k <= index
        invariant LastShown(items, visible, index) == LastShown(items, visible, k)
      {
        k := k - 1;
        var window := items[k];
        if window != NULL && visible[window] {
          index := k;
          return true;
        }
      }
      return false;
    }

    /** `tui_list_item_update`, which reads every item it visits without a NULL check. */
    method ItemUpdate(visible: seq<bool>) returns (changed: bool)
      requires Valid() && ItemsIn(items, visible) && |items| > 0
      requires forall k :: 0 <= k < |items| ==> items[k] != NULL
      modifies `index
      ensures Valid()
      ensures changed == Update(items, visible, old(index)).Some?
      ensures index == if changed then Update(items, visible, old(index)).value else old(index)
    {
      if !visible[items[index]] {
        // The two searches are the scroll loops without their NULL test, which no item needs here.
        changed := ScrollForward(visible);
        if !changed {
          changed := ScrollBackward(visible);
        }
        return changed;
      }
      return false;
    }

    /**
     * `tui_list_event`: a vertical list scrolls on down/up, a horizontal
     * one on right/left; both scroll on tab and reverse tab.
     */
    method Event(key: int, visible: seq<bool>) returns (handled: bool)
      requires Valid() && ItemsIn(items, visible)
      modifies `index
      ensures Valid()
      ensures var next := if isVertical then key == KEY_DOWN else key == Input.KEY_RIGHT;
        var prev := if isVertical then key == KEY_UP else key == Input.KEY_LEFT;
        if next || key == Focus.KEY_TAB then
          handled == Forward(items, visible, old(index)).Some?
          && index == (if handled then Forward(items, visible, old(index)).value else old(index))
        else if prev || key == Focus.KEY_RTAB then
          handled == Backward(items, visible, old(index)).Some?
          && index == (if handled then Backward(items, visible, old(index)).value else old(index))
        else !handled && index == old(index)
    {
      if isVertical {
        if key == KEY_DOWN || key == Focus.KEY_TAB {
          handled := ScrollForward(visible);
        } else if key == KEY_UP || key == Focus.KEY_RTAB {
          handled := ScrollBackward(visible);
        } else {
          handled := false;
        }
      } else {
        if key == Input.KEY_RIGHT || key == Focus.KEY_TAB {
          handled := ScrollForward(visible);
        } else if key == Input.KEY_LEFT || key == Focus.KEY_RTAB {
          handled := ScrollBackward(visible);
        } else {
          handled := false;
        }
      }
    }
  }
}
