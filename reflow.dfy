/**
 * Text reflow: the greedy word wrap (`tui_text_h_get`), the binary search
 * for the narrowest width that fits a height (`tui_text_w_get`) and the
 * per-line widths (`tui_text_ws_get`).
 *
 * Each loop of the source is a method proved equal to a recursive
 * function that runs the same state machine; the properties of the wrap
 * are lemmas about those functions.
 */
module Reflow {
  import opened Base

  /**
   * The wrap loop of `tui_text_h_get` from a given state: `x` is the column,
   * `h` the lines so far, `sp` the last space seen and `last` the space the
   * previous wrap went back to. A wrap that finds no new space since the
   * previous one gives -1. A wrap goes back to the space and carries on
   * with the character after it.
   */
  function HeightFrom(t: seq<char>, w: int, index: int, x: int, h: int, sp: int, last: int): int
    requires 0 <= last <= sp <= index <= |t|
    decreases |t| - last, |t| - index
  {
    if index == |t| then h
    else
      var sp' := if t[index] == ' ' then index else sp;
      if t[index] == '\n' then HeightFrom(t, w, index + 1, 0, h + 1, sp', last)
      else if x >= w then
        if sp' == last then -1
        else HeightFrom(t, w, sp' + 1, 0, h + 1, sp', sp')
      else HeightFrom(t, w, index + 1, x + 1, h, sp', last)
  }

  /** Height of `t` wrapped at width `w`, or -1 when a word cannot be wrapped. */
  function WrapHeight(t: seq<char>, w: int): int
  {
    if |t| == 0 || w == 0 then 0 else HeightFrom(t, w, 0, 0, 1, 0, 0)
  }

  /** `tui_text_h_get`. */
  method TextHGet(text: seq<char>, w: int) returns (h: int)
    ensures h == WrapHeight(text, w)
  {
    var length := |text|;
    if length == 0 || w == 0 {
      return 0;
    }
    h := 1;
    var x := 0;
    var spaceIndex := 0;
    var lastSpaceIndex := spaceIndex;
    var index := 0;
    while index < length
      invariant 0 <= lastSpaceIndex <= spaceIndex <= index <= length
      invariant HeightFrom(text, w, index, x, h, spaceIndex, lastSpaceIndex) == WrapHeight(text, w)
      decreases length - lastSpaceIndex, length - index
    {
      var letter := text[index];
      if letter == ' ' {
        spaceIndex := index;
      }
      if letter == '\n' {
        x := 0;
        h := h + 1;
      } else if x >= w {
        x := 0;
        h := h + 1;
        // The current word cannot be wrapped
        if spaceIndex == lastSpaceIndex {
          return -1;
        }
        index := spaceIndex;
        lastSpaceIndex := spaceIndex;
      } else {
        x := x + 1;
      }
      index := index + 1;
    }
  }

  /** The wrap either fails or ends with at least the lines counted so far. */
  lemma {:induction false} HeightFromBound(t: seq<char>, w: int, index: int, x: int, h: int, sp: int, last: int)
    requires 0 <= last <= sp <= index <= |t|
    ensures HeightFrom(t, w, index, x, h, sp, last) == -1 || HeightFrom(t, w, index, x, h, sp, last) >= h
    decreases |t| - last, |t| - index
  {
    if index < |t| {
      var sp' := if t[index] == ' ' then index else sp;
      if t[index] == '\n' {
        HeightFromBound(t, w, index + 1, 0, h + 1, sp', last);
      } else if x >= w {
        if sp' != last {
          HeightFromBound(t, w, sp' + 1, 0, h + 1, sp', sp');
        }
      } else {
        HeightFromBound(t, w, index + 1, x + 1, h, sp', last);
      }
    }
  }

  /**
   * `tui_text_h_get` gives 0 for the empty string or width 0, and otherwise
   * either -1 or a height of at least one line.
   */
  lemma WrapHeightRange(t: seq<char>, w: int)
    ensures |t| == 0 || w == 0 <==> WrapHeight(t, w) == 0
    ensures |t| > 0 && w != 0 ==> WrapHeight(t, w) == -1 || WrapHeight(t, w) >= 1
  {
    if |t| > 0 && w != 0 {
      HeightFromBound(t, w, 0, 0, 1, 0, 0);
    }
  }

  /** While the width is never reached, every line feed adds one line and nothing else does. */
  lemma {:induction false} HeightFromNoWrap(t: seq<char>, w: int, index: int, x: int, h: int, sp: int, last: int)
    requires 0 <= last <= sp <= index <= |t|
    requires 0 <= x <= index && |t| <= w
    ensures HeightFrom(t, w, index, x, h, sp, last) == h + NewlineCount(t[index..])
    decreases |t| - index
  {
    if index < |t| {
      assert t[index..][1..] == t[index + 1..];
      var sp' := if t[index] == ' ' then index else sp;
      if t[index] == '\n' {
        HeightFromNoWrap(t, w, index + 1, 0, h + 1, sp', last);
      } else {
        HeightFromNoWrap(t, w, index + 1, x + 1, h, sp', last);
      }
    }
  }

  /** At a width of at least the text's length, only line feeds break lines. */
  lemma WrapHeightWide(t: seq<char>, w: int)
    requires |t| > 0 && w >= |t|
    ensures WrapHeight(t, w) == 1 + NewlineCount(t)
  {
    HeightFromNoWrap(t, w, 0, 0, 1, 0, 0);
    assert t[0..] == t;
  }

  /** "hello world" wraps to two lines at width 5 and cannot be wrapped at width 4. */
  lemma WrapHeightExamples()
    ensures WrapHeight("hello world", 5) == 2
    ensures WrapHeight("hello world", 4) == -1
  {
    var t := "hello world";
    assert HeightFrom(t, 5, 6, 0, 2, 5, 5) == 2;
    assert HeightFrom(t, 5, 0, 0, 1, 0, 0) == 2;
    assert HeightFrom(t, 4, 0, 0, 1, 0, 0) == -1;
  }

  /** A width is usable for a height when the text wraps at it within that height. */
  predicate Fits(t: seq<char>, w: int, h: int)
  {
    WrapHeight(t, w) != -1 && WrapHeight(t, w) <= h
  }

  /**
   * The binary search of `tui_text_w_get` over `[left, right]`, `minW` being
   * the best width found so far.
   */
  function SearchWidth(t: seq<char>, h: int, left: int, right: int, minW: int): int
    requires 1 <= left
    decreases right - left + 1
  {
    if left > right then minW
    else
      var mid := (left + right) / 2;
      var curr := WrapHeight(t, mid);
      if curr == -1 || curr > h then SearchWidth(t, h, mid + 1, right, minW)
      else SearchWidth(t, h, left, mid - 1, mid)
  }

  /** The width `tui_text_w_get` chooses for text `t` and height `h`. */
  function MinWidth(t: seq<char>, h: int): int
  {
    SearchWidth(t, h, 1, |t|, |t|)
  }

  /** `tui_text_w_get`. */
  method TextWGet(text: seq<char>, h: int) returns (minW: int)
    ensures minW == MinWidth(text, h)
  {
    var left := 1;
    var right := |text|;
    minW := right;
    while left <= right
      invariant 1 <= left
      invariant SearchWidth(text, h, left, right, minW) == MinWidth(text, h)
      decreases right - left + 1
    {
      var mid := (left + right) / 2;
      var currH := TextHGet(text, mid);
      if currH == -1 {
        // The width was too small to wrap
        left := mid + 1;
      } else if currH > h {
        // The height got too large
        left := mid + 1;
      } else {
        minW := mid;
        right := mid - 1;
      }
    }
  }

  lemma {:induction false} SearchWidthBounds(t: seq<char>, h: int, left: int, right: int, minW: int)
    requires 1 <= left && right <= |t| && 0 <= minW <= |t|
    requires |t| > 0 ==> minW >= 1
    requires minW < |t| ==> Fits(t, minW, h)
    ensures var r := SearchWidth(t, h, left, right, minW);
      0 <= r <= |t| && (|t| > 0 ==> r >= 1) && (r < |t| ==> Fits(t, r, h))
    decreases right - left + 1
  {
    if left <= right {
      var mid := (left + right) / 2;
      var curr := WrapHeight(t, mid);
      if curr == -1 || curr > h {
        SearchWidthBounds(t, h, mid + 1, right, minW);
      } else {
        SearchWidthBounds(t, h, left, mid - 1, mid);
      }
    }
  }

  /**
   * `tui_text_w_get` returns a width in `[0, |t|]`, at least 1 for a non-empty
   * text, and any width below `|t|` wraps the text without failure in at most
   * `h` lines.
   */
  lemma MinWidthBounds(t: seq<char>, h: int)
    ensures 0 <= MinWidth(t, h) <= |t|
    ensures |t| > 0 ==> MinWidth(t, h) >= 1
    ensures MinWidth(t, h) < |t| ==> Fits(t, MinWidth(t, h), h)
  {
    SearchWidthBounds(t, h, 1, |t|, |t|);
  }

  /**
   * When the text needs no more lines than `h` even unwrapped, the chosen
   * width always fits: this is what `tui_text_ws_get` relies on.
   */
  lemma MinWidthFits(t: seq<char>, h: int)
    requires |t| > 0 && 1 + NewlineCount(t) <= h
    ensures 1 <= MinWidth(t, h) <= |t| && Fits(t, MinWidth(t, h), h)
  {
    MinWidthBounds(t, h);
    if MinWidth(t, h) == |t| {
      WrapHeightWide(t, |t|);
    }
  }

  /**
   * The space index the wrap loops hold on reaching index `k`: the last
   * space before `k`, or 0 when there is none.
   */
  function LastSpace(t: seq<char>, k: int): (s: int)
    requires 0 <= k <= |t|
    ensures 0 <= s && (s < k || s == 0)
    ensures 1 <= s ==> t[s] == ' '
  {
    if k == 0 then 0 else if t[k - 1] == ' ' then k - 1 else LastSpace(t, k - 1)
  }

  /** No space lies between the last space before `k` and `k`. */
  lemma {:induction false} LastSpaceLast(t: seq<char>, k: int)
    requires 0 <= k <= |t|
    ensures forall p :: LastSpace(t, k) < p < k ==> t[p] != ' '
  {
    if k > 0 && t[k - 1] != ' ' {
      LastSpaceLast(t, k - 1);
    }
  }

  /** Index of the first line feed in `t[a..b]`, or `b` when there is none. */
  function FirstNewline(t: seq<char>, a: int, b: int): (n: int)
    requires 0 <= a <= b <= |t|
    ensures a <= n <= b && (n < b ==> t[n] == '\n')
    decreases b - a
  {
    if a == b then b else if t[a] == '\n' then a else FirstNewline(t, a + 1, b)
  }

  /** No line feed lies before the first one. */
  lemma {:induction false} FirstNewlineFirst(t: seq<char>, a: int, b: int)
    requires 0 <= a <= b <= |t|
    ensures forall p :: a <= p < FirstNewline(t, a, b) ==> t[p] != '\n'
    decreases b - a
  {
    if a < b && t[a] != '\n' {
      FirstNewlineFirst(t, a + 1, b);
    }
  }

  /**
   * Searching from a later start up to the first line feed, or to a later
   * end, finds the same line feed, or none before the first search's end.
   */
  lemma {:induction false} FirstNewlineWider(t: seq<char>, a: int, b: int, a2: int, b2: int)
    requires 0 <= a <= b <= b2 <= |t| && a <= a2 <= FirstNewline(t, a, b)
    ensures FirstNewline(t, a, b) < b ==> FirstNewline(t, a2, b2) == FirstNewline(t, a, b)
    ensures FirstNewline(t, a2, b2) >= FirstNewline(t, a, b)
    decreases b - a
  {
    if a < b && t[a] != '\n' {
      FirstNewlineWider(t, a + 1, b, if a2 == a then a + 1 else a2, b2);
    }
  }

  function Prepend(k: int, rest: Option<seq<int>>): Option<seq<int>>
  {
    if rest.None? then None else Some([k] + rest.value)
  }

  /**
   * The greedy wrap stated line by line: the widths of the lines that start
   * at `L`, or None when a word does not fit. A line ends at the first line
   * feed among its next `w + 1` characters. Without one, a line that does not
   * reach the end of the text breaks at the last space up to the character
   * after its `w` columns, and that space belongs to no line; there must be
   * such a space in the line itself, and index 0 is never one.
   */
  function WrapLines(t: seq<char>, w: nat, L: int): (r: Option<seq<int>>)
    requires 0 <= L <= |t|
    ensures r.Some? ==> |r.value| >= 1
    decreases |t| - L
  {
    if L == |t| then Some([0])
    else
      var e := Min(L + w + 1, |t|);
      var n := FirstNewline(t, L, e);
      if n < e then Prepend(n - L, WrapLines(t, w, n + 1))
      else if L + w >= |t| then Some([|t| - L])
      else
        var s := LastSpace(t, L + w + 1);
        if s < L || s == 0 then None else Prepend(s - L, WrapLines(t, w, s + 1))
  }

  /** A line that meets a line feed within its width ends there. */
  lemma WrapLinesFeed(t: seq<char>, w: nat, L: int, n: int)
    requires 0 <= L < |t| && n == FirstNewline(t, L, Min(L + w + 1, |t|)) && n < Min(L + w + 1, |t|)
    ensures WrapLines(t, w, L) == Prepend(n - L, WrapLines(t, w, n + 1))
  {
  }

  /** A line that meets neither a line feed nor its wrap point is the last one. */
  lemma WrapLinesLast(t: seq<char>, w: nat, L: int)
    requires 0 <= L < |t| <= L + w && FirstNewline(t, L, |t|) == |t|
    ensures WrapLines(t, w, L) == Some([|t| - L])
  {
  }

  /** A line that reaches its wrap point with a space of its own breaks at its last space. */
  lemma WrapLinesBreak(t: seq<char>, w: nat, L: int, s: int)
    requires 0 <= L && L + w < |t| && FirstNewline(t, L, L + w + 1) == L + w + 1
    requires s == LastSpace(t, L + w + 1) && s >= L && s >= 1
    ensures WrapLines(t, w, L) == Prepend(s - L, WrapLines(t, w, s + 1))
  {
  }

  /**
   * Inside one line the wrap loop of `tui_text_h_get` runs on to the line's
   * first line feed and carries on with the next line.
   */
  lemma {:induction false} HeightScanNewline(t: seq<char>, w: nat, L: int, j: int, h: int, last: int)
    requires 0 <= L <= j <= |t| && j <= L + w
    requires forall p :: L <= p < j ==> t[p] != '\n'
    requires 0 <= last <= LastSpace(t, j)
    requires FirstNewline(t, j, Min(L + w + 1, |t|)) < Min(L + w + 1, |t|)
    ensures var n := FirstNewline(t, j, Min(L + w + 1, |t|));
      last <= LastSpace(t, n + 1) &&
      HeightFrom(t, w, j, j - L, h, LastSpace(t, j), last) == HeightFrom(t, w, n + 1, 0, h + 1, LastSpace(t, n + 1), last)
    decreases |t| - j
  {
    var e := Min(L + w + 1, |t|);
    LastSpaceMono(t, j, j + 1);
    if t[j] != '\n' {
      assert FirstNewline(t, j, e) == FirstNewline(t, j + 1, e);
      HeightScanNewline(t, w, L, j + 1, h, last);
    }
  }

  /** A last line without a line feed that stays within the width ends the wrap loop. */
  lemma {:induction false} HeightScanEnd(t: seq<char>, w: nat, L: int, j: int, h: int, last: int)
    requires 0 <= L <= j <= |t| <= L + w
    requires forall p :: L <= p < |t| ==> t[p] != '\n'
    requires 0 <= last <= LastSpace(t, j)
    ensures HeightFrom(t, w, j, j - L, h, LastSpace(t, j), last) == h
    decreases |t| - j
  {
    if j < |t| {
      LastSpaceMono(t, j, j + 1);
      HeightScanEnd(t, w, L, j + 1, h, last);
    }
  }

  /**
   * A line with no line feed within its `w` columns and the character after
   * them wraps there: back to the last space, or fails when that space is
   * the one of the previous wrap.
   */
  lemma {:induction false} HeightScanWrap(t: seq<char>, w: nat, L: int, j: int, h: int, last: int)
    requires 0 <= L <= j <= L + w < |t|
    requires forall p :: L <= p <= L + w ==> t[p] != '\n'
    requires 0 <= last <= LastSpace(t, j)
    ensures var s := LastSpace(t, L + w + 1);
      HeightFrom(t, w, j, j - L, h, LastSpace(t, j), last) ==
        if s == last then -1 else HeightFrom(t, w, s + 1, 0, h + 1, s, s)
    decreases |t| - j
  {
    LastSpaceMono(t, j, j + 1);
    if j < L + w {
      HeightScanWrap(t, w, L, j + 1, h, last);
    }
  }

  /** The last space before an index is at least the last space before any earlier index. */
  lemma {:induction false} LastSpaceMono(t: seq<char>, k: int, k2: int)
    requires 0 <= k <= k2 <= |t|
    ensures LastSpace(t, k) <= LastSpace(t, k2)
    decreases k2
  {
    if k < k2 && t[k2 - 1] != ' ' {
      LastSpaceMono(t, k, k2 - 1);
    }
  }

  /**
   * Once the wrap state holds the previous wrap's space as the last space and
   * no space follows before a line's wrap point, the wrap loop fails, even
   * when it first has to read line feeds again.
   */
  lemma {:induction false} NoSpaceFails(t: seq<char>, w: nat, L: int, j: int, x: int, h: int, last: int)
    requires 0 <= last <= j <= L + w < |t| && 0 <= L
    requires 0 <= x && (j >= L ==> x >= j - L)
    requires forall p :: L <= p <= L + w ==> t[p] != '\n'
    requires forall p :: j <= p <= L + w ==> t[p] != ' '
    ensures HeightFrom(t, w, j, x, h, last, last) == -1
    decreases L + w - j
  {
    if t[j] == '\n' {
      NoSpaceFails(t, w, L, j + 1, 0, h + 1, last);
    } else if x < w {
      NoSpaceFails(t, w, L, j + 1, x + 1, h, last);
    }
  }

  /**
   * From every line start the wrap loop of `tui_text_h_get` fails exactly
   * when the line-by-line wrap does, and otherwise adds one line per line
   * of it.
   */
  lemma {:induction false} HeightLines(t: seq<char>, w: nat, L: int, h: int, last: int)
    requires 0 <= L <= |t| && 0 <= last <= LastSpace(t, L) && (L == 0 || last < L)
    ensures HeightFrom(t, w, L, 0, h, LastSpace(t, L), last) ==
      if WrapLines(t, w, L).None? then -1 else h - 1 + |WrapLines(t, w, L).value|
    decreases |t| - L, 2
  {
    if L < |t| {
      var e := Min(L + w + 1, |t|);
      if FirstNewline(t, L, e) < e {
        HeightLinesNewline(t, w, L, h, last);
      } else if L + w >= |t| {
        assert WrapLines(t, w, L) == Some([|t| - L]);
        FirstNewlineFirst(t, L, e);
        HeightScanEnd(t, w, L, L, h, last);
      } else {
        HeightLinesWrap(t, w, L, h, last);
      }
    }
  }

  lemma {:induction false} HeightLinesNewline(t: seq<char>, w: nat, L: int, h: int, last: int)
    requires 0 <= L < |t| && 0 <= last <= LastSpace(t, L) && (L == 0 || last < L)
    requires FirstNewline(t, L, Min(L + w + 1, |t|)) < Min(L + w + 1, |t|)
    ensures HeightFrom(t, w, L, 0, h, LastSpace(t, L), last) ==
      if WrapLines(t, w, L).None? then -1 else h - 1 + |WrapLines(t, w, L).value|
    decreases |t| - L, 0
  {
    var n := FirstNewline(t, L, Min(L + w + 1, |t|));
    WrapLinesFeed(t, w, L, n);
    HeightScanNewline(t, w, L, L, h, last);
    HeightLines(t, w, n + 1, h + 1, last);
  }

  lemma {:induction false} HeightLinesWrap(t: seq<char>, w: nat, L: int, h: int, last: int)
    requires 0 <= L && L + w < |t| && 0 <= last <= LastSpace(t, L) && (L == 0 || last < L)
    requires FirstNewline(t, L, L + w + 1) == L + w + 1
    ensures HeightFrom(t, w, L, 0, h, LastSpace(t, L), last) ==
      if WrapLines(t, w, L).None? then -1 else h - 1 + |WrapLines(t, w, L).value|
    decreases |t| - L, 1
  {
    var s := LastSpace(t, L + w + 1);
    if s >= L && s >= 1 {
      HeightLinesBreak(t, w, L, h, last, s);
    } else {
      HeightLinesStuck(t, w, L, h, last);
    }
  }

  lemma {:induction false} HeightLinesBreak(t: seq<char>, w: nat, L: int, h: int, last: int, s: int)
    requires 0 <= L && L + w < |t| && 0 <= last <= LastSpace(t, L) && (L == 0 || last < L)
    requires FirstNewline(t, L, L + w + 1) == L + w + 1
    requires s == LastSpace(t, L + w + 1) && s >= L && s >= 1
    ensures HeightFrom(t, w, L, 0, h, LastSpace(t, L), last) ==
      if WrapLines(t, w, L).None? then -1 else h - 1 + |WrapLines(t, w, L).value|
    decreases |t| - L, 0
  {
    FirstNewlineFirst(t, L, L + w + 1);
    HeightScanWrap(t, w, L, L, h, last);
    WrapLinesBreak(t, w, L, s);
    HeightLines(t, w, s + 1, h + 1, s);
  }

  /** A line with no space of its own before its wrap point fails both wraps. */
  lemma HeightLinesStuck(t: seq<char>, w: nat, L: int, h: int, last: int)
    requires 0 <= L && L + w < |t| && 0 <= last <= LastSpace(t, L) && (L == 0 || last < L)
    requires FirstNewline(t, L, L + w + 1) == L + w + 1
    requires LastSpace(t, L + w + 1) < L || LastSpace(t, L + w + 1) == 0
    ensures WrapLines(t, w, L).None?
    ensures HeightFrom(t, w, L, 0, h, LastSpace(t, L), last) == -1
  {
    var s := LastSpace(t, L + w + 1);
    FirstNewlineFirst(t, L, L + w + 1);
    HeightScanWrap(t, w, L, L, h, last);
    if s != last {
      LastSpaceLast(t, L + w + 1);
      NoSpaceFails(t, w, L, s + 1, 0, h + 1, s);
    }
  }

  /** For a non-empty text and a positive width, `tui_text_h_get` counts the lines of the line-by-line wrap, or gives -1 when it fails. */
  lemma WrapHeightLines(t: seq<char>, w: nat)
    requires |t| > 0 && w >= 1
    ensures WrapHeight(t, w) == if WrapLines(t, w, 0).None? then -1 else |WrapLines(t, w, 0).value|
  {
    HeightLines(t, w, 0, 1, 0);
  }

  /**
   * Widening the lines, or starting further on, never makes the wrap fail
   * and never adds a line: each line of the wider wrap ends no earlier.
   */
  lemma {:induction false} WrapLinesMono(t: seq<char>, w: nat, w2: nat, L: int, L2: int)
    requires w <= w2 && 0 <= L <= L2 <= |t|
    requires WrapLines(t, w, L).Some?
    ensures WrapLines(t, w2, L2).Some?
    ensures |WrapLines(t, w2, L2).value| <= |WrapLines(t, w, L).value|
    decreases |t| - L, 3
  {
    if L2 < |t| {
      var e := Min(L + w + 1, |t|);
      if FirstNewline(t, L, e) < e {
        WrapLinesMonoNewline(t, w, w2, L, L2);
      } else if L + w >= |t| {
        FirstNewlineWider(t, L, |t|, L2, |t|);
      } else {
        WrapLinesMonoWrap(t, w, w2, L, L2);
      }
    }
  }

  lemma {:induction false} WrapLinesMonoNewline(t: seq<char>, w: nat, w2: nat, L: int, L2: int)
    requires w <= w2 && 0 <= L <= L2 < |t|
    requires FirstNewline(t, L, Min(L + w + 1, |t|)) < Min(L + w + 1, |t|)
    requires WrapLines(t, w, L).Some?
    ensures WrapLines(t, w2, L2).Some?
    ensures |WrapLines(t, w2, L2).value| <= |WrapLines(t, w, L).value|
    decreases |t| - L, 1
  {
    var n := FirstNewline(t, L, Min(L + w + 1, |t|));
    WrapLinesFeed(t, w, L, n);
    if L2 > n {
      WrapLinesMono(t, w, w2, n + 1, L2);
    } else {
      FirstNewlineWider(t, L, Min(L + w + 1, |t|), L2, Min(L2 + w2 + 1, |t|));
      WrapLinesMonoSameFeed(t, w, w2, L2, n);
    }
  }

  lemma {:induction false} WrapLinesMonoSameFeed(t: seq<char>, w: nat, w2: nat, L2: int, n: int)
    requires w <= w2 && 0 <= L2 <= n < |t|
    requires n == FirstNewline(t, L2, Min(L2 + w2 + 1, |t|)) && n < Min(L2 + w2 + 1, |t|)
    requires WrapLines(t, w, n + 1).Some?
    ensures WrapLines(t, w2, L2).Some?
    ensures |WrapLines(t, w2, L2).value| <= 1 + |WrapLines(t, w, n + 1).value|
    decreases |t| - n, 0
  {
    WrapLinesFeed(t, w2, L2, n);
    WrapLinesMono(t, w, w2, n + 1, n + 1);
  }

  lemma {:induction false} WrapLinesMonoWrap(t: seq<char>, w: nat, w2: nat, L: int, L2: int)
    requires w <= w2 && 0 <= L <= L2 < |t| && L + w < |t|
    requires FirstNewline(t, L, L + w + 1) == L + w + 1
    requires WrapLines(t, w, L).Some?
    ensures WrapLines(t, w2, L2).Some?
    ensures |WrapLines(t, w2, L2).value| <= |WrapLines(t, w, L).value|
    decreases |t| - L, 2
  {
    var s := LastSpace(t, L + w + 1);
    assert s >= L && s >= 1;
    WrapLinesBreak(t, w, L, s);
    if L2 > s {
      WrapLinesMono(t, w, w2, s + 1, L2);
    } else {
      WrapLinesMonoBehind(t, w, w2, L, L2, s);
    }
  }

  lemma {:induction false} WrapLinesMonoBehind(t: seq<char>, w: nat, w2: nat, L: int, L2: int, s: int)
    requires w <= w2 && 0 <= L <= L2 <= s && L + w < |t|
    requires FirstNewline(t, L, L + w + 1) == L + w + 1
    requires s == LastSpace(t, L + w + 1) && s >= 1
    requires WrapLines(t, w, s + 1).Some?
    ensures WrapLines(t, w2, L2).Some?
    ensures |WrapLines(t, w2, L2).value| <= 1 + |WrapLines(t, w, s + 1).value|
    decreases |t| - L, 1
  {
    var e2 := Min(L2 + w2 + 1, |t|);
    var n2 := FirstNewline(t, L2, e2);
    FirstNewlineWider(t, L, L + w + 1, L2, e2);
    if n2 < e2 {
      WrapLinesMonoBehindFeed(t, w, w2, L2, s, n2);
    } else if L2 + w2 < |t| {
      LastSpaceMono(t, L + w + 1, L2 + w2 + 1);
      WrapLinesMonoBehindBreak(t, w, w2, L2, s, LastSpace(t, L2 + w2 + 1));
    } else {
      WrapLinesLast(t, w2, L2);
    }
  }

  lemma {:induction false} WrapLinesMonoBehindFeed(t: seq<char>, w: nat, w2: nat, L2: int, s: int, n2: int)
    requires w <= w2 && 0 <= L2 <= s < n2 < |t|
    requires n2 == FirstNewline(t, L2, Min(L2 + w2 + 1, |t|)) && n2 < Min(L2 + w2 + 1, |t|)
    requires WrapLines(t, w, s + 1).Some?
    ensures WrapLines(t, w2, L2).Some?
    ensures |WrapLines(t, w2, L2).value| <= 1 + |WrapLines(t, w, s + 1).value|
    decreases |t| - s, 0
  {
    WrapLinesFeed(t, w2, L2, n2);
    WrapLinesMono(t, w, w2, s + 1, n2 + 1);
  }

  lemma {:induction false} WrapLinesMonoBehindBreak(t: seq<char>, w: nat, w2: nat, L2: int, s: int, s2: int)
    requires w <= w2 && 0 <= L2 <= s && 1 <= s <= s2 && L2 + w2 < |t|
    requires FirstNewline(t, L2, L2 + w2 + 1) == L2 + w2 + 1 && s2 == LastSpace(t, L2 + w2 + 1)
    requires WrapLines(t, w, s + 1).Some?
    ensures WrapLines(t, w2, L2).Some?
    ensures |WrapLines(t, w2, L2).value| <= 1 + |WrapLines(t, w, s + 1).value|
    decreases |t| - s, 0
  {
    WrapLinesBreak(t, w2, L2, s2);
    WrapLinesMono(t, w, w2, s + 1, s2 + 1);
  }

  /** A width that fits a height keeps fitting it at any larger width. */
  lemma FitsMono(t: seq<char>, w: int, w2: int, h: int)
    requires 1 <= w <= w2 && Fits(t, w, h)
    ensures Fits(t, w2, h)
  {
    if |t| > 0 {
      WrapHeightLines(t, w);
      WrapHeightLines(t, w2);
      WrapLinesMono(t, w, w2, 0, 0);
    }
  }

  lemma {:induction false} SearchWidthLeast(t: seq<char>, h: int, left: int, right: int, minW: int)
    requires 1 <= left <= right + 1 && minW <= right + 1
    requires forall w :: 1 <= w < left ==> !Fits(t, w, h)
    ensures forall w :: 1 <= w < SearchWidth(t, h, left, right, minW) ==> !Fits(t, w, h)
    decreases right - left + 1
  {
    if left <= right {
      var mid := (left + right) / 2;
      if !Fits(t, mid, h) {
        forall w | 1 <= w <= mid
          ensures !Fits(t, w, h)
        {
          if Fits(t, w, h) {
            FitsMono(t, w, mid, h);
          }
        }
        SearchWidthLeast(t, h, mid + 1, right, minW);
      } else {
        SearchWidthLeast(t, h, left, mid - 1, mid);
      }
    }
  }

  /**
   * `tui_text_w_get` finds the least width: no positive width below the one
   * it returns wraps the text in at most `h` lines.
   */
  lemma MinWidthLeast(t: seq<char>, h: int)
    ensures forall w :: 1 <= w < MinWidth(t, h) ==> !Fits(t, w, h)
  {
    SearchWidthLeast(t, h, 1, |t|, |t|);
  }

  /**
   * The line-width loop of `tui_text_ws_get` from a given state. It runs the
   * wrap of `HeightFrom` without the failure check; `y` is the line being
   * filled and `ws` the widths written so far. A line feed records the
   * column; a wrap records the column minus the part of the word after the
   * last space and goes back to that space. Once the last character has been
   * read the width of the current line is recorded. The bound check on that
   * last write never fails under the precondition of `TextWsGet`.
   */
  function WidthsFrom(t: seq<char>, w: int, h: int, index: int, x: int, y: int, sp: int, ws: seq<int>): (r: seq<int>)
    requires 0 <= sp <= index <= |t| && 0 <= y && |ws| == h
    ensures |r| == h
    decreases h - y, |t| - index
  {
    if index == |t| || y >= h then ws
    else
      var sp' := if t[index] == ' ' then index else sp;
      var (index', x', y', ws') :=
        if t[index] == '\n' then (index, 0, y + 1, ws[y := x])
        else if x >= w then (sp', 0, y + 1, ws[y := x - (index - sp')])
        else (index, x + 1, y, ws);
      WidthsFrom(t, w, h, index' + 1, x', y', sp', if index' + 1 == |t| && y' < h then ws'[y' := x'] else ws')
  }

  /** After the last character the width of the current line `y` is stored, when there is a slot for it. */
  function LastLine(t: seq<char>, next: int, y: int, x: int, ws: seq<int>): (r: seq<int>)
    ensures |r| == |ws|
  {
    if next == |t| && 0 <= y < |ws| then ws[y := x] else ws
  }

  /** The widths `tui_text_ws_get` writes for text `t` and height `h` over `ws`. */
  function LineWidths(t: seq<char>, h: int, ws: seq<int>): seq<int>
    requires |ws| == h
  {
    WidthsFrom(t, MinWidth(t, h), h, 0, 0, 0, 0, ws)
  }

  /**
   * `tui_text_ws_get`. The caller sizes `ws` by the wrapped height of the
   * text, which is at least one line more than its line feeds; with less
   * room the last write would fall past the end of `ws`.
   */
  method TextWsGet(ws: array<int>, text: seq<char>, h: int)
    requires ws.Length == h
    requires |text| > 0 ==> 1 + NewlineCount(text) <= h
    modifies ws
    ensures ws[..] == LineWidths(text, h, old(ws[..]))
    ensures |text| == 0 ==> ws[..] == old(ws[..])
    ensures |text| > 0 ==> var w := MinWidth(text, h);
      1 <= w && (var lines := WrapLines(text, w, 0);
        lines.Some? && |lines.value| == WrapHeight(text, w) <= h &&
        ws[..] == lines.value + old(ws[..])[|lines.value|..])
  {
    var w := TextWGet(text, h);
    var length := |text|;
    var y := 0;
    var x := 0;
    var spaceIndex := 0;
    ghost var lastSpaceIndex := 0;
    ghost var total := 0;
    if length > 0 {
      MinWidthFits(text, h);
      total := WrapHeight(text, w);
    }
    var index := 0;
    while index < length && y < h
      invariant 0 <= lastSpaceIndex <= spaceIndex <= index <= length && 0 <= y
      invariant length > 0 ==> total == WrapHeight(text, w) && total != -1 && total <= h
      invariant length > 0 ==> HeightFrom(text, w, index, x, y + 1, spaceIndex, lastSpaceIndex) == total
      invariant WidthsFrom(text, w, h, index, x, y, spaceIndex, ws[..]) == LineWidths(text, h, old(ws[..]))
      decreases h - y, length - index
    {
      HeightFromBound(text, w, index, x, y + 1, spaceIndex, lastSpaceIndex);
      var letter := text[index];
      if letter == ' ' {
        spaceIndex := index;
      }
      if letter == '\n' {
        ws[y] := x;
        y := y + 1;
        x := 0;
      } else if x >= w {
        // Full line width minus the last partial word
        ws[y] := x - (index - spaceIndex);
        y := y + 1;
        x := 0;
        index := spaceIndex;
        lastSpaceIndex := spaceIndex;
      } else {
        x := x + 1;
      }
      HeightFromBound(text, w, index + 1, x, y + 1, spaceIndex, lastSpaceIndex);
      // Store the width of the last line
      if index + 1 == length {
        ws[y] := x;
      }
      index := index + 1;
    }
    LineWidthsLines(text, h, old(ws[..]));
  }

  /** One character inside a line that is neither a line feed nor past the width only advances the column. */
  lemma WidthsScanStep(t: seq<char>, w: nat, h: int, L: int, j: int, y: int, ws: seq<int>)
    requires 0 <= L <= j < L + w && j + 1 < |t| && 0 <= y < h == |ws| && t[j] != '\n'
    ensures WidthsFrom(t, w, h, j, j - L, y, LastSpace(t, j), ws) ==
      WidthsFrom(t, w, h, j + 1, j + 1 - L, y, LastSpace(t, j + 1), ws)
  {
  }

  /**
   * Inside one line the loop of `tui_text_ws_get` runs on to the line's
   * first line feed `n` (searched for up to `e`), stores the line's width
   * and carries on with the next line.
   */
  lemma {:induction false} WidthsScanFeed(t: seq<char>, w: nat, h: int, L: int, j: int, y: int, ws: seq<int>, e: int, n: int)
    requires 0 <= L <= j <= e <= |t| && e <= L + w + 1 && 0 <= y < h == |ws|
    requires n == FirstNewline(t, j, e) && n < e
    ensures WidthsFrom(t, w, h, j, j - L, y, LastSpace(t, j), ws) ==
      WidthsFrom(t, w, h, n + 1, 0, y + 1, LastSpace(t, n + 1), LastLine(t, n + 1, y + 1, 0, ws[y := n - L]))
    decreases |t| - j
  {
    if t[j] != '\n' {
      assert n == FirstNewline(t, j + 1, e);
      WidthsScanStep(t, w, h, L, j, y, ws);
      WidthsScanFeed(t, w, h, L, j + 1, y, ws, e, n);
    } else {
      WidthsScanFeedAt(t, w, h, L, j, y, ws);
    }
  }

  /** A line feed stores the width of its line and starts the next one. */
  lemma WidthsScanFeedAt(t: seq<char>, w: nat, h: int, L: int, j: int, y: int, ws: seq<int>)
    requires 0 <= L <= j < |t| && 0 <= y < h == |ws| && t[j] == '\n'
    ensures WidthsFrom(t, w, h, j, j - L, y, LastSpace(t, j), ws) ==
      WidthsFrom(t, w, h, j + 1, 0, y + 1, LastSpace(t, j + 1), LastLine(t, j + 1, y + 1, 0, ws[y := j - L]))
  {
  }

  /** A last line without a line feed that stays within the width is stored with its full length. */
  lemma {:induction false} WidthsScanEnd(t: seq<char>, w: nat, h: int, L: int, j: int, y: int, ws: seq<int>)
    requires 0 <= L <= j < |t| <= L + w && 0 <= y < h == |ws|
    requires FirstNewline(t, j, |t|) == |t|
    ensures WidthsFrom(t, w, h, j, j - L, y, LastSpace(t, j), ws) == ws[y := |t| - L]
    decreases |t| - j
  {
    assert t[j] != '\n';
    if j + 1 < |t| {
      WidthsScanStep(t, w, h, L, j, y, ws);
      WidthsScanEnd(t, w, h, L, j + 1, y, ws);
    }
  }

  /**
   * A line with no line feed within its `w` columns and the character after
   * them stores the width up to its last space and goes on after that space.
   */
  lemma {:induction false} WidthsScanWrap(t: seq<char>, w: nat, h: int, L: int, j: int, y: int, ws: seq<int>)
    requires 0 <= L <= j <= L + w < |t| && 0 <= y < h == |ws|
    requires FirstNewline(t, j, L + w + 1) == L + w + 1
    ensures var s := LastSpace(t, L + w + 1);
      WidthsFrom(t, w, h, j, j - L, y, LastSpace(t, j), ws) ==
        WidthsFrom(t, w, h, s + 1, 0, y + 1, s, LastLine(t, s + 1, y + 1, 0, ws[y := s - L]))
    decreases |t| - j
  {
    assert t[j] != '\n';
    if j < L + w {
      WidthsScanStep(t, w, h, L, j, y, ws);
      WidthsScanWrap(t, w, h, L, j + 1, y, ws);
    } else {
      WidthsScanWrapAt(t, w, h, L, y, ws);
    }
  }

  /** At column `w` the loop goes back to the last space and stores the width up to it. */
  lemma WidthsScanWrapAt(t: seq<char>, w: nat, h: int, L: int, y: int, ws: seq<int>)
    requires 0 <= L && L + w < |t| && 0 <= y < h == |ws| && t[L + w] != '\n'
    ensures var s := LastSpace(t, L + w + 1);
      WidthsFrom(t, w, h, L + w, w, y, LastSpace(t, L + w), ws) ==
        WidthsFrom(t, w, h, s + 1, 0, y + 1, s, LastLine(t, s + 1, y + 1, 0, ws[y := s - L]))
  {
  }

  /**
   * From every line start the loop of `tui_text_ws_get` stores the widths of
   * the line-by-line wrap in the slots from `y` on and leaves every other
   * slot as it was, as long as the wrap does not fail and the slots suffice.
   * At the end of the text the width 0 of the empty last line is already
   * stored.
   */
  lemma {:induction false} WidthsLines(t: seq<char>, w: nat, h: int, L: int, y: int, ws: seq<int>)
    requires 0 <= L <= |t| && 0 <= y && |ws| == h
    requires WrapLines(t, w, L).Some? && y + |WrapLines(t, w, L).value| <= h
    requires L == |t| ==> ws[y] == 0
    ensures WidthsFrom(t, w, h, L, 0, y, LastSpace(t, L), ws) ==
      ws[..y] + WrapLines(t, w, L).value + ws[y + |WrapLines(t, w, L).value|..]
    decreases |t| - L, 2
  {
    if L == |t| {
      assert ws == ws[..y] + [0] + ws[y + 1..];
    } else {
      var e := Min(L + w + 1, |t|);
      var n := FirstNewline(t, L, e);
      if n < e {
        WidthsLinesFeed(t, w, h, L, y, ws, n);
      } else if L + w >= |t| {
        WrapLinesLast(t, w, L);
        WidthsScanEnd(t, w, h, L, L, y, ws);
        assert ws[y := |t| - L] == ws[..y] + [|t| - L] + ws[y + 1..];
      } else {
        WidthsLinesBreak(t, w, h, L, y, ws);
      }
    }
  }

  lemma {:induction false} WidthsLinesFeed(t: seq<char>, w: nat, h: int, L: int, y: int, ws: seq<int>, n: int)
    requires 0 <= L < |t| && 0 <= y && |ws| == h
    requires n == FirstNewline(t, L, Min(L + w + 1, |t|)) && n < Min(L + w + 1, |t|)
    requires WrapLines(t, w, L).Some? && y + |WrapLines(t, w, L).value| <= h
    ensures WidthsFrom(t, w, h, L, 0, y, LastSpace(t, L), ws) ==
      ws[..y] + WrapLines(t, w, L).value + ws[y + |WrapLines(t, w, L).value|..]
    decreases |t| - L, 1
  {
    WrapLinesFeed(t, w, L, n);
    WidthsScanFeed(t, w, h, L, L, y, ws, Min(L + w + 1, |t|), n);
    WidthsLinesNext(t, w, h, n + 1, y, ws, n - L, WrapLines(t, w, L).value);
  }

  lemma {:induction false} WidthsLinesBreak(t: seq<char>, w: nat, h: int, L: int, y: int, ws: seq<int>)
    requires 0 <= L && L + w < |t| && 0 <= y && |ws| == h
    requires FirstNewline(t, L, L + w + 1) == L + w + 1
    requires WrapLines(t, w, L).Some? && y + |WrapLines(t, w, L).value| <= h
    ensures WidthsFrom(t, w, h, L, 0, y, LastSpace(t, L), ws) ==
      ws[..y] + WrapLines(t, w, L).value + ws[y + |WrapLines(t, w, L).value|..]
    decreases |t| - L, 1
  {
    var s := LastSpace(t, L + w + 1);
    WrapLinesBreakAt(t, w, L, s);
    WidthsScanWrap(t, w, h, L, L, y, ws);
    WidthsLinesNext(t, w, h, s + 1, y, ws, s - L, WrapLines(t, w, L).value);
  }

  /** A successful wrap that breaks at its last space `s` goes on after it, `s` being the last space seen there too. */
  lemma WrapLinesBreakAt(t: seq<char>, w: nat, L: int, s: int)
    requires 0 <= L && L + w < |t| && FirstNewline(t, L, L + w + 1) == L + w + 1
    requires WrapLines(t, w, L).Some? && s == LastSpace(t, L + w + 1)
    ensures L <= s < |t| && LastSpace(t, s + 1) == s
    ensures WrapLines(t, w, s + 1).Some? && WrapLines(t, w, L).value == [s - L] + WrapLines(t, w, s + 1).value
  {
    assert s >= L && s >= 1;
    WrapLinesBreak(t, w, L, s);
  }

  /**
   * Once a line of width `k` is stored at slot `y` and the loop goes on at
   * line start `next`, the widths of the lines from `next` follow it.
   */
  lemma {:induction false} WidthsLinesNext(t: seq<char>, w: nat, h: int, next: int, y: int, ws: seq<int>, k: int, v: seq<int>)
    requires 0 < next <= |t| && 0 <= y && |ws| == h
    requires WrapLines(t, w, next).Some? && v == [k] + WrapLines(t, w, next).value && y + |v| <= h
    ensures WidthsFrom(t, w, h, next, 0, y + 1, LastSpace(t, next), LastLine(t, next, y + 1, 0, ws[y := k])) ==
      ws[..y] + v + ws[y + |v|..]
    decreases |t| - next + 1, 0
  {
    var rest := WrapLines(t, w, next).value;
    var ws1 := LastLine(t, next, y + 1, 0, ws[y := k]);
    assert ws1 == ws[y := k] || ws1 == ws[y := k][y + 1 := 0];
    WidthsLines(t, w, h, next, y + 1, ws1);
    Splice(ws, y, k, rest, ws1, v);
  }

  /**
   * Writing a line's width at slot `y`, and possibly 0 at slot `y + 1`,
   * before the widths `rest` of the following lines go in from slot
   * `y + 1`, puts the line's width in front of them.
   */
  lemma Splice(ws: seq<int>, y: int, k: int, rest: seq<int>, ws1: seq<int>, v: seq<int>)
    requires 0 <= y && 1 <= |rest| && y + 1 + |rest| <= |ws| && v == [k] + rest
    requires ws1 == ws[y := k] || ws1 == ws[y := k][y + 1 := 0]
    ensures ws1[..y + 1] + rest + ws1[y + 1 + |rest|..] == ws[..y] + v + ws[y + |v|..]
  {
    assert ws1[..y + 1] == ws[..y] + [k];
    assert ws1[y + 1 + |rest|..] == ws[y + |v|..];
    assert ws[..y] + [k] + rest == ws[..y] + v;
  }

  /** Every line of a successful wrap at width `w` is at most `w` columns wide. */
  lemma {:induction false} WrapLinesWidths(t: seq<char>, w: nat, L: int)
    requires 0 <= L <= |t| && WrapLines(t, w, L).Some?
    ensures forall i :: 0 <= i < |WrapLines(t, w, L).value| ==> 0 <= WrapLines(t, w, L).value[i] <= w
    decreases |t| - L
  {
    if L < |t| {
      var e := Min(L + w + 1, |t|);
      var n := FirstNewline(t, L, e);
      if n < e {
        WrapLinesFeed(t, w, L, n);
        WrapLinesWidths(t, w, n + 1);
      } else if L + w < |t| {
        var s := LastSpace(t, L + w + 1);
        WrapLinesBreak(t, w, L, s);
        WrapLinesWidths(t, w, s + 1);
      }
    }
  }

  /**
   * What `tui_text_ws_get` stores: for non-empty text whose line feeds fit
   * in `h` lines, the first `WrapHeight` slots receive the widths of the
   * lines wrapped at the minimum width, each at most that width, and the
   * remaining slots keep their old values. Empty text leaves every slot
   * alone.
   */
  lemma LineWidthsLines(t: seq<char>, h: int, ws: seq<int>)
    requires |ws| == h && (|t| > 0 ==> 1 + NewlineCount(t) <= h)
    ensures |t| == 0 ==> LineWidths(t, h, ws) == ws
    ensures |t| > 0 ==> var w := MinWidth(t, h);
      1 <= w && (var lines := WrapLines(t, w, 0);
        lines.Some? && |lines.value| == WrapHeight(t, w) <= h &&
        LineWidths(t, h, ws) == lines.value + ws[|lines.value|..] &&
        forall i :: 0 <= i < |lines.value| ==> 0 <= LineWidths(t, h, ws)[i] <= w)
  {
    if |t| > 0 {
      var w := MinWidth(t, h);
      MinWidthFits(t, h);
      WrapHeightLines(t, w);
      WidthsLines(t, w, h, 0, 0, ws);
      WrapLinesWidths(t, w, 0);
      var v := WrapLines(t, w, 0).value;
      assert LineWidths(t, h, ws) == v + ws[|v|..];
      forall i | 0 <= i < |v|
        ensures 0 <= LineWidths(t, h, ws)[i] <= w
      {
        assert LineWidths(t, h, ws)[i] == v[i];
      }
    }
  }

  /** The pieces of `t` from `L` on between line feeds, as lengths: an independent reference for unwrapped text. */
  function Segments(t: seq<char>, L: int): (r: seq<int>)
    requires 0 <= L <= |t|
    ensures |r| >= 1
    decreases |t| - L
  {
    if L == |t| then [0]
    else
      var n := FirstNewline(t, L, |t|);
      if n < |t| then [n - L] + Segments(t, n + 1) else [|t| - L]
  }

  /** Text that fits its width from `L` on wraps only at its line feeds. */
  lemma {:induction false} WrapLinesWide(t: seq<char>, w: nat, L: int)
    requires 0 <= L <= |t| <= L + w
    ensures WrapLines(t, w, L) == Some(Segments(t, L))
    decreases |t| - L
  {
    if L < |t| {
      var n := FirstNewline(t, L, |t|);
      if n < |t| {
        WrapLinesFeed(t, w, L, n);
        WrapLinesWide(t, w, n + 1);
      } else {
        WrapLinesLast(t, w, L);
      }
    }
  }

  /** There is one segment more than there are line feeds from `j` on, for any `j` inside the first segment, which ends at `n`. */
  lemma {:induction false} SegmentsCount(t: seq<char>, L: int, j: int, n: int)
    requires 0 <= L <= j <= |t| && n == FirstNewline(t, L, |t|) && n == FirstNewline(t, j, |t|)
    ensures |Segments(t, L)| == 1 + NewlineCount(t[j..])
    decreases |t| - L, n - j
  {
    if j < n {
      assert t[j..][1..] == t[j + 1..];
      SegmentsCount(t, L, j + 1, n);
    } else if n < |t| {
      assert t[n..][1..] == t[n + 1..];
      SegmentsCount(t, n + 1, n + 1, FirstNewline(t, n + 1, |t|));
    }
  }

  /**
   * At a width no line reaches, the loop of `tui_text_ws_get` stores the
   * lengths of the pieces between line feeds, one per line, and leaves the
   * slots after them alone.
   */
  lemma WidthsWide(t: seq<char>, w: nat, h: int, ws: seq<int>)
    requires |ws| == h && |t| > 0 && |t| <= w && 1 + NewlineCount(t) <= h
    ensures |Segments(t, 0)| == 1 + NewlineCount(t)
    ensures WidthsFrom(t, w, h, 0, 0, 0, 0, ws) == Segments(t, 0) + ws[|Segments(t, 0)|..]
  {
    SegmentsCount(t, 0, 0, FirstNewline(t, 0, |t|));
    assert t[0..] == t;
    WrapLinesWide(t, w, 0);
    WidthsLines(t, w, h, 0, 0, ws);
  }

  /** "hello world" at height 2 is given width 5 and line widths 5 and 5. */
  lemma LineWidthsExample()
    ensures MinWidth("hello world", 2) == 5
    ensures LineWidths("hello world", 2, [0, 0]) == [5, 5]
  {
    var t := "hello world";
    WrapHeightExamples();
    assert HeightFrom(t, 6, 6, 0, 2, 5, 5) == 2;
    assert WrapHeight(t, 6) == 2;
    assert HeightFrom(t, 3, 0, 0, 1, 0, 0) == -1;
    assert SearchWidth(t, 2, 5, 4, 5) == 5;
    assert SearchWidth(t, 2, 5, 5, 6) == 5;
    assert SearchWidth(t, 2, 4, 5, 6) == 5;
    assert SearchWidth(t, 2, 1, 5, 6) == 5;
    assert SearchWidth(t, 2, 1, 11, 11) == 5;
    assert WidthsFrom(t, 5, 2, 6, 0, 1, 5, [5, 0]) == [5, 5];
    assert WidthsFrom(t, 5, 2, 0, 0, 0, 0, [0, 0]) == [5, 5];
  }

  lemma {:induction false} NoBreakFails(t: seq<char>, w: int, index: int)
    requires 0 <= index <= w < |t|
    requires forall i :: 0 <= i < |t| ==> t[i] != ' ' && t[i] != '\n'
    ensures HeightFrom(t, w, index, index, 1, 0, 0) == -1
    decreases w - index
  {
    if index < w {
      NoBreakFails(t, w, index + 1);
    }
  }

  /**
   * A text with neither a space nor a line feed that is longer than a
   * positive width cannot be wrapped: its only word does not fit.
   */
  lemma WordTooLong(t: seq<char>, w: int)
    requires 0 < w < |t|
    requires forall i :: 0 <= i < |t| ==> t[i] != ' ' && t[i] != '\n'
    ensures WrapHeight(t, w) == -1
  {
    NoBreakFails(t, w, 0);
  }

  /**
   * A space at index 0 is not a place to wrap: the space index starts at 0,
   * so that space looks like "no space seen since the last break".
   */
  lemma LeadingSpaceIsNoBreak()
    ensures WrapHeight(" ab", 2) == -1
    ensures WrapHeight("x ab", 2) == 2
  {
    assert HeightFrom(" ab", 2, 0, 0, 1, 0, 0) == -1;
    assert HeightFrom("x ab", 2, 2, 0, 2, 1, 1) == 2;
    assert HeightFrom("x ab", 2, 0, 0, 1, 0, 0) == 2;
  }
}
