/**
 * The arithmetic of layout: the content box of a parent window
 * (`tui_max_size_get`, `tui_child_x_get`, `tui_child_y_get`), the
 * resolution of a requested rect against its parent (`tui_window_rect_get`)
 * and the placement of one aligned child (`tui_child_vert_rect_calc` and
 * `tui_child_horiz_rect_calc`).
 *
 * The two placement functions of the source are the same code with the
 * axes swapped (the gap unit is 1 row vertically and 2 columns
 * horizontally), so placement is stated once along a "main" axis (the
 * parent's direction) and a "cross" axis. Their float expressions are
 * read as exact: a sum `v + k / 2.f * s` with k in {0, 1, 2} is a multiple
 * of one half and the cast truncates it (`HalfShift`), and a float quotient
 * of two integers truncated to int is the C quotient (`CDiv`). Single
 * precision agrees with this while `|2v + k * s| < 2^24` for a shift and
 * while both operands of a quotient stay below 2^24; beyond that the float
 * sum rounds, which terminal-sized layouts never reach.
 */
module Placement {
  import opened Base
  import opened Windows

  /** Columns a parent's decorations take: padding 4, border 2, shadow 2. */
  function DecorW(k: Kind): (d: int)
    requires k.ParentWindow?
    ensures 0 <= d <= 8
  {
    (if k.hasPadding then 4 else 0) + (if k.hasBorder then 2 else 0) + (if k.hasShadow then 2 else 0)
  }

  /** Rows a parent's decorations take: padding 2, border 2, shadow 1. */
  function DecorH(k: Kind): (d: int)
    requires k.ParentWindow?
    ensures 0 <= d <= 5
  {
    (if k.hasPadding then 2 else 0) + (if k.hasBorder then 2 else 0) + (if k.hasShadow then 1 else 0)
  }

  /** `tui_max_size_get`: the parent's calculated size less its decorations. */
  function MaxSizeGet(k: Kind, r: Rect): (s: Size)
    requires k.ParentWindow?
    ensures s.w == r.w - DecorW(k) && s.h == r.h - DecorH(k)
  {
    var w := r.w - (if k.hasPadding then 4 else 0) - (if k.hasBorder then 2 else 0) - (if k.hasShadow then 2 else 0);
    var h := r.h - (if k.hasPadding then 2 else 0) - (if k.hasBorder then 2 else 0) - (if k.hasShadow then 1 else 0);
    Size(w, h)
  }

  /** `tui_child_x_get`: the left inset of the content, border 1 and padding 2. */
  function ChildXGet(k: Kind): (x: int)
    requires k.ParentWindow?
    ensures 0 <= x <= 3
  {
    (if k.hasBorder then 1 else 0) + (if k.hasPadding then 2 else 0)
  }

  /** `tui_child_y_get`: the top inset of the content, border 1 and padding 1. */
  function ChildYGet(k: Kind): (y: int)
    requires k.ParentWindow?
    ensures 0 <= y <= 2
  {
    (if k.hasBorder then 1 else 0) + (if k.hasPadding then 1 else 0)
  }

  /**
   * The content box lies inside the parent: its left inset, its width and
   * what is left on the right (border 1, padding 2, shadow 2) add up to the
   * parent's width, and likewise top inset, height and bottom (border 1,
   * padding 1, shadow 1) to its height. The shadow takes no room on the
   * left or the top.
   */
  lemma ContentBox(k: Kind, r: Rect)
    requires k.ParentWindow?
    ensures ChildXGet(k) + MaxSizeGet(k, r).w
              + (if k.hasBorder then 1 else 0) + (if k.hasPadding then 2 else 0) + (if k.hasShadow then 2 else 0) == r.w
    ensures ChildYGet(k) + MaxSizeGet(k, r).h
              + (if k.hasBorder then 1 else 0) + (if k.hasPadding then 1 else 0) + (if k.hasShadow then 1 else 0) == r.h
    ensures ChildXGet(k) <= DecorW(k) && ChildYGet(k) <= DecorH(k)
  {
  }

  /**
   * `tui_window_rect_get`: a width or height of zero or less counts from
   * the parent's size, a negative x or y counts back from the parent's far
   * edge, and each such value is clamped at 0; positive sizes and
   * non-negative positions are kept.
   */
  function RectGet(rect: Rect, parentW: int, parentH: int): (r: Rect)
    ensures r.w >= 0 && r.h >= 0 && r.x >= 0 && r.y >= 0 && r.isNone == rect.isNone
    ensures r.w == (if rect.w <= 0 then Max(0, parentW + rect.w) else rect.w)
    ensures r.h == (if rect.h <= 0 then Max(0, parentH + rect.h) else rect.h)
    ensures r.x == (if rect.x < 0 then Max(0, parentW + rect.x) else rect.x)
    ensures r.y == (if rect.y < 0 then Max(0, parentH + rect.y) else rect.y)
  {
    var h := if rect.h <= 0 then Max(0, parentH + rect.h) else rect.h;
    var w := if rect.w <= 0 then Max(0, parentW + rect.w) else rect.w;
    var x := if rect.x < 0 then Max(0, parentW + rect.x) else rect.x;
    var y := if rect.y < 0 then Max(0, parentH + rect.y) else rect.y;
    rect.(w := w, h := h, x := x, y := y)
  }

  /**
   * A resolved rect with a positive size resolves to itself again; a zero
   * width or height does not, since zero means "the parent's size".
   */
  lemma RectGetStable(rect: Rect, parentW: int, parentH: int)
    ensures var r := RectGet(rect, parentW, parentH);
      r.w > 0 && r.h > 0 ==> RectGet(r, parentW, parentH) == r
    ensures var r := RectGet(rect, parentW, parentH);
      r.w == 0 && parentW > 0 ==> RectGet(r, parentW, parentH).w == parentW
    ensures RectGet(Rect(0, 0, 0, 0, false), parentW, parentH).w == Max(0, parentW)
  {
  }

  /**
   * `tui_child_w_get` and `tui_child_h_get`: across the parent's axis a
   * child takes the full content size when it is a contain window or grows
   * that way, and otherwise its own size capped by the content size.
   */
  function ChildSpan(isContain: bool, grow: bool, own: int, max: int): (s: int)
    ensures s <= max
    ensures isContain || grow ==> s == max
    ensures !(isContain || grow) ==> s == Min(max, own)
  {
    if isContain || grow then max else Min(max, own)
  }

  /**
   * One row of `n` items sharing `total` cells: each gets `total / n`, and
   * the first `total - (total / n) * n` of them one cell more.
   */
  function EvenShare(total: int, n: int, i: int): int
    requires n >= 1
  {
    var q := CDiv(total, n);
    q + (if total - q * n > i then 1 else 0)
  }

  /** For a non-negative total, share `i` is the quotient, plus one for the first `total % n` items. */
  lemma EvenShareValue(total: int, n: int, i: int)
    requires total >= 0 && n >= 1 && i >= 0
    ensures EvenShare(total, n, i) == total / n + (if i < total % n then 1 else 0)
  {
  }

  function SumShares(total: int, n: int, k: int): int
    requires n >= 1 && k >= 0
    decreases k
  {
    if k == 0 then 0 else SumShares(total, n, k - 1) + EvenShare(total, n, k - 1)
  }

  lemma {:induction false} SumSharesPrefix(total: int, n: int, k: int)
    requires total >= 0 && n >= 1 && 0 <= k <= n
    ensures SumShares(total, n, k) == k * (total / n) + Min(k, total % n)
    decreases k
  {
    if k > 0 {
      SumSharesPrefix(total, n, k - 1);
      EvenShareValue(total, n, k - 1);
    }
  }

  /** The shares of the `n` items add up to exactly the total: nothing is lost or invented. */
  lemma EvenSharesSum(total: int, n: int)
    requires total >= 0 && n >= 1
    ensures SumShares(total, n, n) == total
  {
    SumSharesPrefix(total, n, n);
  }

  /**
   * Everything placement needs to know about the parent and its aligned
   * children: alignment, cross position, gap and its unit (1 vertically, 2
   * horizontally), the number of aligned and of growing children, the
   * content size along and across the axis, the summed aligned size along
   * the axis (already capped by the content size), and where the content
   * starts along and across the axis.
   */
  datatype Line = Line(align: Align, pos: Pos, hasGap: bool, unit: int, count: int, growCount: int,
                       maxMain: int, maxCross: int, alignMain: int, mainStart: int, crossStart: int)

  /** An aligned child's measured size along and across the axis, and its flags. */
  datatype Item = Item(main: int, cross: int, isAtomic: bool, isContain: bool, growMain: bool, growCross: bool)

  /** The state threaded from child to child: the position reached, `align_index` and `grow_index`. */
  datatype Cursor = Cursor(main: int, index: int, grow: int)

  /** A child's place: position and size along and across the axis, relative to the parent. */
  datatype Slot = Slot(mainPos: int, crossPos: int, mainLen: int, crossLen: int)

  datatype Placed = Placed(slot: Slot, next: Cursor)

  /** Position and length along the axis before the clamp, and the gap left after the child. */
  datatype Span = Span(pos: int, len: int, gap: int)

  /**
   * The BETWEEN gap as the source computes it: a float quotient of the free
   * space by `align_count - 1`, truncated to int. With one aligned child the
   * divisor is 0, the quotient is infinite or not a number, and its
   * conversion to int is undefined.
   */
  function BetweenGapAsWritten(space: int, count: int): (g: Option<int>)
    ensures count == 1 <==> g.None?
    ensures count != 1 ==> g == Some(CDiv(space, count - 1))
  {
    if count - 1 == 0 then None else Some(CDiv(space, count - 1))
  }

  /** A lone aligned child under BETWEEN hits the division by zero, whatever the free space. */
  lemma BetweenLoneChildAsWritten(space: int)
    ensures BetweenGapAsWritten(space, 1).None?
    ensures BetweenGapAsWritten(space, 2) == Some(space)
  {
  }

  /** The BETWEEN gap with a lone child given no gap, as at the start; otherwise as written. */
  function BetweenGap(space: int, count: int): (g: int)
    ensures count != 1 ==> Some(g) == BetweenGapAsWritten(space, count)
    ensures count == 1 ==> g == 0
  {
    if count == 1 then 0 else CDiv(space, count - 1)
  }

  /** The free space left for growing, or for positioning, once the gaps are taken out. */
  function FreeSpace(l: Line, space: int): int
  {
    if l.hasGap then Max(0, space - (l.count - 1) * l.unit) else space
  }

  /**
   * The first half of `tui_child_*_rect_calc`: where the child starts along
   * the axis, its length before the clamp and the gap after it, by
   * alignment. EVENLY splits the content (less the gaps) evenly; a growing
   * child splits the free space with the other growing ones; when some
   * child grows the others just keep their size; BETWEEN puts the free
   * space between children and AROUND also before the first and after the
   * last, both ignoring the gap flag; START, CENTER and END shift the first
   * child by 0, 1 or 2 halves of the free space.
   */
  function MainSpan(l: Line, it: Item, c: Cursor): (s: Span)
    requires l.count >= 1 && (it.growMain ==> l.growCount >= 1)
  {
    var start := if c.index == 0 then l.mainStart else c.main;
    var space := l.maxMain - l.alignMain;
    var unitGap := if l.hasGap then l.unit else 0;
    if l.align.AlignEvenly? then
      var total := if l.hasGap then Max(0, l.maxMain - (l.count - 1) * l.unit) else l.maxMain;
      Span(start, EvenShare(total, l.count, c.index), unitGap)
    else if it.growMain then
      Span(start, it.main + EvenShare(FreeSpace(l, space), l.growCount, c.grow), unitGap)
    else if l.growCount > 0 then
      Span(start, it.main, unitGap)
    else if l.align.AlignBetween? then
      var gap := BetweenGap(space, l.count);
      Span(start, it.main, gap + (if space - gap * (l.count - 1) > c.index then 1 else 0))
    else if l.align.AlignAround? then
      var gap := CDiv(space, l.count + 1);
      var rest := space - gap * (l.count + 1);
      Span((if c.index == 0 && rest > 0 then HalfShift(start, 1, rest) else start) + gap, it.main, 0)
    else
      Span(if c.index == 0 then HalfShift(start, AlignValue(l.align), FreeSpace(l, space)) else start,
           it.main, unitGap)
  }

  /**
   * `tui_child_*_rect_calc`: the child's slot and the cursor for the next
   * aligned child. A child that would reach past the content's far edge is
   * cut to end there, or given length 0 when it is atomic; across the axis
   * the child is shifted by `pos` halves of the room left beside it.
   */
  function PlaceChild(l: Line, it: Item, c: Cursor): (p: Placed)
    requires l.count >= 1 && (it.growMain ==> l.growCount >= 1)
    ensures p.next.index == c.index + 1
    ensures p.next.grow == c.grow + (if !l.align.AlignEvenly? && it.growMain then 1 else 0)
    ensures p.slot.mainPos == MainSpan(l, it, c).pos
    ensures p.next.main == p.slot.mainPos + p.slot.mainLen + MainSpan(l, it, c).gap
  {
    var s := MainSpan(l, it, c);
    var crossLen := ChildSpan(it.isContain, it.growCross, it.cross, l.maxCross);
    var edge := l.maxMain + l.mainStart;
    var len := if s.pos + s.len > edge then (if it.isAtomic then 0 else edge - s.pos) else s.len;
    var crossPos := HalfShift(l.crossStart, PosValue(l.pos), l.maxCross - crossLen);
    Placed(Slot(s.pos, crossPos, len, crossLen),
           Cursor(s.pos + len + s.gap, c.index + 1, c.grow + (if !l.align.AlignEvenly? && it.growMain then 1 else 0)))
  }

  /**
   * The clamp: a child that fits keeps its length; one that does not is cut
   * to end exactly at the content's far edge, or gets length 0 when atomic.
   * So a non-atomic child never ends past the edge.
   */
  lemma PlaceClamp(l: Line, it: Item, c: Cursor)
    requires l.count >= 1 && (it.growMain ==> l.growCount >= 1)
    ensures var s := MainSpan(l, it, c); var p := PlaceChild(l, it, c).slot;
      var edge := l.maxMain + l.mainStart;
      (s.pos + s.len <= edge ==> p.mainLen == s.len) &&
      (s.pos + s.len > edge && !it.isAtomic ==> p.mainPos + p.mainLen == edge) &&
      (s.pos + s.len > edge && it.isAtomic ==> p.mainLen == 0) &&
      (!it.isAtomic ==> p.mainPos + p.mainLen <= edge)
  {
  }

  /**
   * Across the axis the child is no larger than the content, fills it when
   * it is a contain window or grows that way, and stays inside it: START
   * puts it at the content's start, END flush with its end, CENTER between.
   */
  lemma PlaceCross(l: Line, it: Item, c: Cursor)
    requires l.count >= 1 && (it.growMain ==> l.growCount >= 1)
    ensures var p := PlaceChild(l, it, c).slot;
      p.crossLen <= l.maxCross && (it.isContain || it.growCross ==> p.crossLen == l.maxCross)
    ensures var p := PlaceChild(l, it, c).slot;
      l.crossStart >= 0 && p.crossLen <= l.maxCross ==>
        l.crossStart <= p.crossPos <= l.crossStart + l.maxCross - p.crossLen
    ensures var p := PlaceChild(l, it, c).slot;
      (l.pos.PosStart? ==> p.crossPos == l.crossStart) &&
      (l.pos.PosEnd? ==> p.crossPos + p.crossLen == l.crossStart + l.maxCross)
  {
  }

  /**
   * EVENLY ignores the children's own sizes: child `i` gets its share of
   * the content less the gaps, so the first children are one longer when
   * the content does not divide evenly.
   */
  lemma PlaceEvenly(l: Line, it: Item, c: Cursor)
    requires l.count >= 1 && (it.growMain ==> l.growCount >= 1)
    requires l.align.AlignEvenly? && c.index >= 0
    requires l.maxMain - (if l.hasGap then (l.count - 1) * l.unit else 0) >= 0
    ensures var total := l.maxMain - (if l.hasGap then (l.count - 1) * l.unit else 0);
      MainSpan(l, it, c).len == total / l.count + (if c.index < total % l.count then 1 else 0)
  {
    var total := if l.hasGap then Max(0, l.maxMain - (l.count - 1) * l.unit) else l.maxMain;
    EvenShareValue(total, l.count, c.index);
  }

  /**
   * A growing child (not under EVENLY) gets its own size plus its share, by
   * `grow_index`, of the free space less the gaps.
   */
  lemma PlaceGrow(l: Line, it: Item, c: Cursor)
    requires l.count >= 1 && l.growCount >= 1 && it.growMain && !l.align.AlignEvenly? && c.grow >= 0
    requires FreeSpace(l, l.maxMain - l.alignMain) >= 0
    ensures var free := FreeSpace(l, l.maxMain - l.alignMain);
      MainSpan(l, it, c).len == it.main + free / l.growCount + (if c.grow < free % l.growCount then 1 else 0)
  {
    EvenShareValue(FreeSpace(l, l.maxMain - l.alignMain), l.growCount, c.grow);
  }

  function TwoChildBetween(hasGap: bool): Line
  {
    Line(AlignBetween, PosStart, hasGap, 2, 2, 0, 10, 5, 7, 0, 0)
  }

  /**
   * Two children of widths 3 and 4 in a row of 10 under BETWEEN, with or
   * without the gap flag: the first at 0 followed by a gap of 3, the second
   * at 6. Both fit, so the clamp (`PlaceClamp`) keeps their widths.
   */
  lemma BetweenExample(hasGap: bool)
    ensures MainSpan(TwoChildBetween(hasGap), Item(3, 1, false, false, false, false), Cursor(0, 0, 0)) == Span(0, 3, 3)
    ensures MainSpan(TwoChildBetween(hasGap), Item(4, 1, false, false, false, false), Cursor(6, 1, 0)) == Span(6, 4, 3)
  {
    assert BetweenGap(3, 2) == 3;
  }

  function TwoChildEvenly(hasGap: bool): Line
  {
    Line(AlignEvenly, PosStart, hasGap, 2, 2, 0, 10, 5, 3, 0, 0)
  }

  /**
   * Two children of widths 1 and 2 in a row of 10 under EVENLY: 4 and 4
   * with the 2-column gap, the second at 6; 5 and 5 without, the second
   * at 5. Their own widths play no part.
   */
  lemma EvenlyExample(hasGap: bool)
    ensures var w := if hasGap then 4 else 5;
      MainSpan(TwoChildEvenly(hasGap), Item(1, 1, false, false, false, false), Cursor(0, 0, 0)) == Span(0, w, if hasGap then 2 else 0)
    ensures var w := if hasGap then 4 else 5;
      var c := Cursor(if hasGap then 6 else 5, 1, 0);
      MainSpan(TwoChildEvenly(hasGap), Item(2, 1, false, false, false, false), c) == Span(c.main, w, if hasGap then 2 else 0)
  {
    if hasGap {
      assert EvenShare(8, 2, 0) == 4 && EvenShare(8, 2, 1) == 4;
    } else {
      assert EvenShare(10, 2, 0) == 5 && EvenShare(10, 2, 1) == 5;
    }
  }

  /** A lone child under BETWEEN is placed at the start of the content, as under START. */
  lemma BetweenLoneChildAtStart(l: Line, it: Item)
    requires l.align.AlignBetween? && l.count == 1 && l.growCount == 0 && !it.growMain
    ensures PlaceChild(l, it, Cursor(0, 0, 0)).slot.mainPos == l.mainStart
    ensures PlaceChild(l, it, Cursor(0, 0, 0)).slot.mainPos ==
            PlaceChild(l.(align := AlignStart, hasGap := false), it, Cursor(0, 0, 0)).slot.mainPos
  {
  }
}
