/**
 * The input widget: a fixed-size line buffer edited at a cursor
 * (`tui_input_*`). The buffer is a byte array of `size + 1` characters
 * whose tail past the text is NUL; adding and deleting shift its bytes
 * in place. The visible string shows the text with a blink escape in
 * front of the cursor.
 */
module Input {
  import opened Base
  import Escape

  const KEY_LEFT: int := 260
  const KEY_RIGHT: int := 261
  const KEY_BACKSPACE: int := 263

  /** The blink escape `ESC [ 5 m` written in front of the character under the cursor. */
  const BLINK: seq<char> := [Escape.ESC] + "[5m"

  /** The editable state of an input: its text, cursor and scroll offset. */
  datatype Edit = Edit(text: seq<char>, cursor: int, scroll: int)

  /** A key the buffer accepts: printable ASCII. */
  predicate Printable(key: int)
  {
    32 <= key <= 126
  }

  predicate PrintableText(t: seq<char>)
  {
    forall i :: 0 <= i < |t| ==> Printable(t[i] as int)
  }

  /**
   * A reachable edit state of a buffer of `size` characters: the cursor
   * lies inside the text, the text fits the buffer and holds only
   * printable characters, and the scroll offset is 0 (it starts at 0
   * and is only ever lowered to the cursor).
   */
  predicate Fits(e: Edit, size: int)
  {
    e.scroll == 0 && 0 <= e.cursor <= |e.text| <= size && PrintableText(e.text)
  }

  /** The input's text window is the active window: the arrows move the cursor only then. */
  predicate Focus(window: int, active: int)
  {
    window != NULL && active == window
  }

  /** `tui_input_symbol_add`: insert a printable key at the cursor when the buffer has room. */
  function Add(e: Edit, size: int, key: int): (r: (bool, Edit))
    requires Fits(e, size)
    ensures r.0 <==> |e.text| < size && Printable(key)
    ensures !r.0 ==> r.1 == e
    ensures r.0 ==> |r.1.text| == |e.text| + 1 && r.1.text[e.cursor] as int == key
    ensures r.0 ==> forall i :: 0 <= i < |r.1.text| && i != e.cursor ==>
      r.1.text[i] == if i < e.cursor then e.text[i] else e.text[i - 1]
    ensures r.0 ==> r.1.cursor == e.cursor + 1
    ensures Fits(r.1, size)
  {
    if |e.text| >= size then (false, e)
    else if key < 32 || key > 126 then (false, e)
    else
      var text := e.text[..e.cursor] + [key as char] + e.text[e.cursor..];
      assert forall i :: 0 <= i < |text| ==> text[i] == (if i < e.cursor then e.text[i] else if i == e.cursor then key as char else e.text[i - 1]);
      (true, Edit(text, if e.cursor < |text| then e.cursor + 1 else e.cursor, e.scroll))
  }

  /** `tui_input_symbol_del`: remove the character before the cursor. */
  function Del(e: Edit, size: int): (r: (bool, Edit))
    requires Fits(e, size)
    ensures r.0 <==> e.cursor > 0
    ensures !r.0 ==> r.1 == e
    ensures r.0 ==> |r.1.text| == |e.text| - 1
    ensures r.0 ==> forall i :: 0 <= i < |r.1.text| ==>
      r.1.text[i] == if i < e.cursor - 1 then e.text[i] else e.text[i + 1]
    ensures r.0 ==> r.1.cursor == e.cursor - 1
    ensures Fits(r.1, size)
  {
    if e.cursor <= 0 || |e.text| <= 0 then (false, e)
    else
      var text := e.text[..e.cursor - 1] + e.text[e.cursor..];
      assert forall i :: 0 <= i < |text| ==> text[i] == (if i < e.cursor - 1 then e.text[i] else e.text[i + 1]);
      (true, Edit(text, Min(e.cursor - 1, |text|), e.scroll))
  }

  /** `tui_input_scroll_right`: move the cursor one character right, only while focused. */
  function Right(e: Edit, size: int, focused: bool): (r: (bool, Edit))
    requires Fits(e, size)
    ensures r.0 <==> focused && e.cursor < |e.text|
    ensures r.1.text == e.text
    ensures r.1.cursor == if r.0 then e.cursor + 1 else e.cursor
    ensures Fits(r.1, size)
  {
    if !focused then (false, e)
    else if e.cursor >= |e.text| then (false, e)
    else (true, e.(cursor := e.cursor + 1))
  }

  /** `tui_input_scroll_left`: move the cursor one character left, pulling the scroll offset along. */
  function Left(e: Edit, size: int, focused: bool): (r: (bool, Edit))
    requires Fits(e, size)
    ensures r.0 <==> focused && e.cursor > 0
    ensures r.1.text == e.text
    ensures r.1.cursor == if r.0 then e.cursor - 1 else e.cursor
    ensures Fits(r.1, size)
  {
    if !focused then (false, e)
    else if e.cursor == 0 then (false, e)
    else
      var cursor := e.cursor - 1;
      (true, e.(cursor := cursor, scroll := if cursor < e.scroll then cursor else e.scroll))
  }

  /** `tui_input_event`: the arrows move the cursor, backspace deletes, every other key is added. */
  function Key(e: Edit, size: int, key: int, focused: bool): (r: (bool, Edit))
    requires Fits(e, size)
    ensures !r.0 ==> r.1 == e
    ensures key == KEY_LEFT || key == KEY_RIGHT ==> r.1.text == e.text
    ensures !focused && r.0 ==> key != KEY_LEFT && key != KEY_RIGHT && r.1.text != e.text
    ensures Fits(r.1, size)
  {
    if key == KEY_RIGHT then Right(e, size, focused)
    else if key == KEY_LEFT then Left(e, size, focused)
    else if key == KEY_BACKSPACE then Del(e, size)
    else Add(e, size, key)
  }

  /**
   * `tui_input_string_update`: the visible part of the text before the
   * cursor, the blink escape, the rest of the text, and a space for the
   * cursor to blink on when it is at the end of the text and focused.
   */
  function View(e: Edit, size: int, focused: bool): seq<char>
    requires Fits(e, size)
  {
    e.text[e.scroll..e.cursor] + BLINK + e.text[e.cursor..]
      + (if e.cursor == |e.text| && focused then " " else "")
  }

  /** The visible string and its NUL fit the `size + 6` characters allocated for it. */
  lemma ViewFits(e: Edit, size: int, focused: bool)
    requires Fits(e, size)
    ensures |View(e, size, focused)| + 1 <= size + 6
  {
  }

  /** Printable text holds no escape character, nor does any slice of it. */
  lemma PrintableNoEscape(t: seq<char>, i: int, j: int)
    requires PrintableText(t) && 0 <= i <= j <= |t|
    ensures Escape.ESC !in t[i..j]
  {
    assert forall c :: c in t[i..j] ==> Printable(c as int);
  }

  /** Once its escape is stripped, the visible string is the whole text (plus the cursor space). */
  lemma ViewPlain(e: Edit, size: int, focused: bool)
    requires Fits(e, size)
    ensures Escape.Plain(View(e, size, focused)) == e.text + (if e.cursor == |e.text| && focused then " " else "")
  {
    var before := e.text[..e.cursor];
    var space := if e.cursor == |e.text| && focused then " " else "";
    var rest := e.text[e.cursor..] + space;
    PrintableNoEscape(e.text, 0, e.cursor);
    PrintableNoEscape(e.text, e.cursor, |e.text|);
    assert e.text[0..e.cursor] == before && e.text[e.cursor..|e.text|] == e.text[e.cursor..];
    assert View(e, size, focused) == before + ([Escape.ESC] + "[5" + ['m'] + rest);
    Escape.PlainPrefix(before, [Escape.ESC] + "[5" + ['m'] + rest);
    Escape.PlainDropsEscape("[5", rest);
    Escape.PlainIdentity(rest);
    assert before + rest == (before + e.text[e.cursor..]) + space;
    assert before + e.text[e.cursor..] == e.text;
  }

  /** Adding a character and deleting it again restores text, cursor and scroll. */
  lemma AddThenDel(e: Edit, size: int, key: int)
    requires Fits(e, size) && Add(e, size, key).0
    ensures Del(Add(e, size, key).1, size) == (true, e)
  {
    var a := Add(e, size, key).1;
    var d := Del(a, size).1;
    assert d.text == e.text[..e.cursor] + e.text[e.cursor..];
    assert e.text[..e.cursor] + e.text[e.cursor..] == e.text;
  }

  /** Deleting a character and typing it again restores text, cursor and scroll when the buffer is not full. */
  lemma DelThenAdd(e: Edit, size: int)
    requires Fits(e, size) && Del(e, size).0
    ensures Add(Del(e, size).1, size, e.text[e.cursor - 1] as int) == (true, e)
  {
    var d := Del(e, size).1;
    var a := Add(d, size, e.text[e.cursor - 1] as int).1;
    assert a.text == e.text[..e.cursor - 1] + [e.text[e.cursor - 1]] + e.text[e.cursor..];
    assert e.text[..e.cursor - 1] + [e.text[e.cursor - 1]] + e.text[e.cursor..] == e.text;
  }

  /** A step right and a step left cancel out. */
  lemma RightThenLeft(e: Edit, size: int)
    requires Fits(e, size) && Right(e, size, true).0
    ensures Left(Right(e, size, true).1, size, true) == (true, e)
  {
  }

  /** The shift loop of `tui_input_symbol_add`: moves `a[lo..hi]` one place up, to `a[lo + 1..hi + 1]`. */
  method ShiftRight(a: array<char>, lo: int, hi: int)
    requires 0 <= lo <= hi < a.Length
    modifies a
    ensures forall k :: 0 <= k <= lo || hi < k < a.Length ==> a[k] == old(a[k])
    ensures forall k :: lo < k <= hi ==> a[k] == old(a[k - 1])
  {
    var index := hi + 1;
    while index > lo + 1
      invariant lo + 1 <= index <= hi + 1
      invariant forall k :: 0 <= k < index || hi < k < a.Length ==> a[k] == old(a[k])
      invariant forall k :: index <= k <= hi ==> a[k] == old(a[k - 1])
    {
      index := index - 1;
      a[index] := a[index - 1];
    }
  }

  /** The shift loop of `tui_input_symbol_del`: moves `a[lo + 1..hi + 1]` one place down, over `a[lo]`. */
  method ShiftLeft(a: array<char>, lo: int, hi: int)
    requires 0 <= lo <= hi < a.Length
    modifies a
    ensures forall k :: 0 <= k < lo || hi <= k < a.Length ==> a[k] == old(a[k])
    ensures forall k :: lo <= k < hi ==> a[k] == old(a[k + 1])
  {
    var index := lo;
    while index < hi
      invariant lo <= index <= hi
      invariant forall k :: 0 <= k < lo || index <= k < a.Length ==> a[k] == old(a[k])
      invariant forall k :: lo <= k < index ==> a[k] == old(a[k + 1])
    {
      a[index] := a[index + 1];
      index := index + 1;
    }
  }

  /** The widget state: `tui_input_t`. */
  class Field {
    const buffer: array<char>
    const size: int
    var len: int
    var cursor: int
    var scroll: int
    /** The text window showing the input, or NULL. */
    const window: int
    /** The visible string. */
    var str: seq<char>

    ghost function State(): Edit
      reads this, buffer
      requires 0 <= len <= buffer.Length
    {
      Edit(buffer[..len], cursor, scroll)
    }

    ghost predicate Valid()
      reads this, buffer
    {
      buffer.Length == size + 1 && 0 <= len <= size && Fits(State(), size)
      && (forall k :: len <= k < buffer.Length ==> buffer[k] == '\0')
    }

    /** `tui_input_create`: an empty buffer of `size` characters; `active` is the tui's active window. */
    constructor (size: int, window: int, active: int)
      requires size >= 0
      ensures Valid() && this.size == size && this.window == window
      ensures State() == Edit([], 0, 0)
      ensures str == View(State(), size, Focus(window, active))
    {
      this.size := size;
      this.window := window;
      buffer := new char[size + 1](_ => '\0');
      len := 0;
      cursor := 0;
      scroll := 0;
      new;
      StringUpdate(active);
    }

    /** `tui_input_string_update`, with the tui's active window `active`. */
    method StringUpdate(active: int)
      requires Valid()
      modifies `str
      ensures str == View(State(), size, Focus(window, active))
    {
      var s: seq<char> := [];
      var index := scroll;
      while index < cursor
        invariant scroll <= index <= cursor
        invariant s == buffer[scroll..index]
      {
        s := s + [buffer[index]];
        index := index + 1;
      }
      s := s + BLINK;
      index := cursor;
      while index < len
        invariant cursor <= index <= len
        invariant s == buffer[scroll..cursor] + BLINK + buffer[cursor..index]
      {
        s := s + [buffer[index]];
        index := index + 1;
      }
      if cursor == len && window != NULL && active == window {
        s := s + " ";
      }
      assert buffer[..len][scroll..cursor] == buffer[scroll..cursor];
      assert buffer[..len][cursor..] == buffer[cursor..len];
      str := s;
    }

    /** `tui_input_symbol_add`: shifts the bytes from the cursor on one place right and writes the key. */
    method SymbolAdd(key: int, active: int) returns (ok: bool)
      requires Valid()
      modifies this, buffer
      ensures Valid()
      ensures (ok, State()) == Add(old(State()), size, key)
      ensures ok ==> str == View(State(), size, Focus(window, active))
      ensures !ok ==> str == old(str)
    {
      if len >= size {
        return false;
      }
      if key < 32 || key > 126 {
        return false;
      }
      var symbol := key as char;
      ghost var e := State();
      ShiftRight(buffer, cursor, len);
      buffer[cursor] := symbol;
      len := len + 1;
      if cursor < len {
        cursor := cursor + 1;
      }
      ghost var expected := Add(e, size, key).1;
      assert forall k :: 0 <= k < len ==> buffer[k] == expected.text[k];
      assert buffer[..len] == expected.text;
      StringUpdate(active);
      return true;
    }

    /** `tui_input_symbol_del`: shifts the bytes after the cursor one place left over the deleted one. */
    method SymbolDel(active: int) returns (ok: bool)
      requires Valid()
      modifies this, buffer
      ensures Valid()
      ensures (ok, State()) == Del(old(State()), size)
      ensures ok ==> str == View(State(), size, Focus(window, active))
      ensures !ok ==> str == old(str)
    {
      if cursor <= 0 || len <= 0 {
        return false;
      }
      ghost var e := State();
      ShiftLeft(buffer, cursor - 1, len);
      len := len - 1;
      buffer[len] := '\0';
      cursor := Min(cursor - 1, len);
      ghost var expected := Del(e, size).1;
      assert forall k :: 0 <= k < len ==> buffer[k] == expected.text[k];
      assert buffer[..len] == expected.text;
      StringUpdate(active);
      return true;
    }

    /** `tui_input_scroll_right` */
    method ScrollRight(active: int) returns (ok: bool)
      requires Valid()
      modifies this
      ensures Valid()
      ensures (ok, State()) == Right(old(State()), size, Focus(window, active))
      ensures ok ==> str == View(State(), size, Focus(window, active))
      ensures !ok ==> str == old(str)
    {
      if window == NULL || active != window {
        return false;
      }
      if cursor >= len {
        return false;
      }
      cursor := cursor + 1;
      StringUpdate(active);
      return true;
    }

    /** `tui_input_scroll_left` */
    method ScrollLeft(active: int) returns (ok: bool)
      requires Valid()
      modifies this
      ensures Valid()
      ensures (ok, State()) == Left(old(State()), size, Focus(window, active))
      ensures ok ==> str == View(State(), size, Focus(window, active))
      ensures !ok ==> str == old(str)
    {
      if window == NULL || active != window {
        return false;
      }
      if cursor == 0 {
        return false;
      }
      cursor := cursor - 1;
      scroll := if cursor < scroll then cursor else scroll;
      StringUpdate(active);
      return true;
    }

    /** `tui_input_event` */
    method Event(key: int, active: int) returns (ok: bool)
      requires Valid()
      modifies this, buffer
      ensures Valid()
      ensures (ok, State()) == Key(old(State()), size, key, Focus(window, active))
      ensures ok ==> str == View(State(), size, Focus(window, active))
      ensures !ok ==> str == old(str)
    {
      if key == KEY_RIGHT {
        ok := ScrollRight(active);
      } else if key == KEY_LEFT {
        ok := ScrollLeft(active);
      } else if key == KEY_BACKSPACE {
        ok := SymbolDel(active);
      } else {
        ok := SymbolAdd(key, active);
      }
    }
  }
}
