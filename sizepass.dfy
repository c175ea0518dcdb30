/**
 * The size pass (`tui_size_calc`): every window gets a preliminary size
 * from its content, children before parents. A text window is sized by its
 * wrapped plain text, a grid window by its configured size, and a parent
 * window by a fold over all its children: fixed-rect children and children
 * that are not contain windows stretch the parent's extent, and the
 * remaining (aligned) children are stacked along the parent's axis with
 * their gaps, padding, border and shadow added.
 *
 * `Measure` is that size as a function of the arena; `SizeCalc` is the
 * recursive pass over a window's subtree, proved to leave `Measure` in the
 * `rects` entry of every window below it and nothing else changed.
 */
module SizePass {
  import opened Base
  import opened Reflow
  import opened Escape
  import opened Windows
  import opened Placement

  /**
   * `tui_window_text_size_calc` on the window's plain text `text`: a fixed
   * rect gives its size clamped at 0; otherwise a non-empty text is wrapped
   * at the screen width `sw` and given its narrowest width for that height;
   * an empty text takes one cell, for the cursor.
   */
  function TextSize(rect: Rect, text: seq<char>, sw: int): (r: Rect)
    ensures !r.isNone && r.x == 0 && r.y == 0
    ensures !rect.isNone ==> r.w == Max(0, rect.w) && r.h == Max(0, rect.h)
    ensures rect.isNone && |text| == 0 ==> r.w == 1 && r.h == 1
    ensures rect.isNone && |text| > 0 ==> r.h == WrapHeight(text, sw) && r.w == MinWidth(text, r.h)
  {
    if !rect.isNone then SizeRect(Max(0, rect.w), Max(0, rect.h))
    else if |text| > 0 then
      var h := WrapHeight(text, sw);
      SizeRect(MinWidth(text, h), h)
    else SizeRect(1, 1)
  }

  /**
   * `tui_window_grid_size_calc`: no size without cells, the configured grid
   * size when the rect is "none", else the fixed rect clamped at 0.
   */
  function GridSize(rect: Rect, size: Size, hasCells: bool): (r: Rect)
    ensures !hasCells <==> r == RECT_NONE
    ensures hasCells && rect.isNone ==> r == SizeRect(size.w, size.h)
    ensures hasCells && !rect.isNone ==> r == SizeRect(Max(0, rect.w), Max(0, rect.h))
  {
    if !hasCells then RECT_NONE
    else if rect.isNone then SizeRect(size.w, size.h)
    else SizeRect(Max(0, rect.w), Max(0, rect.h))
  }

  /**
   * The accumulators of the parent's fold: the largest extent of the
   * children that do not align (`max_size`), the stacked size of the
   * aligned ones (`align_size`) and their number (`align_count`).
   */
  datatype SizeAcc = SizeAcc(maxW: int, maxH: int, alignW: int, alignH: int, count: int)

  const EMPTY_ACC := SizeAcc(0, 0, 0, 0, 0)

  /**
   * One child's contribution. A child that is not a contain window
   * stretches the extent by its measured size; a fixed-rect child by the
   * far corner of its rect; any other child is aligned: it is added along
   * the axis, and across it stretches the aligned size unless it is a
   * contain window.
   */
  function SizeStep(acc: SizeAcc, isVertical: bool, child: Node, size: Rect): (a: SizeAcc)
    ensures a.maxW >= acc.maxW && a.maxH >= acc.maxH
    ensures !child.isContain ==> a.maxW >= size.w && a.maxH >= size.h
    ensures !child.rect.isNone ==> a.maxW >= child.rect.x + child.rect.w && a.maxH >= child.rect.y + child.rect.h
    ensures !child.rect.isNone ==> a.alignW == acc.alignW && a.alignH == acc.alignH && a.count == acc.count
    ensures child.rect.isNone ==> a.count == acc.count + 1
    ensures child.rect.isNone && isVertical ==> a.alignH == acc.alignH + size.h
    ensures child.rect.isNone && !isVertical ==> a.alignW == acc.alignW + size.w
  {
    var maxW := if !child.isContain then Max(acc.maxW, size.w) else acc.maxW;
    var maxH := if !child.isContain then Max(acc.maxH, size.h) else acc.maxH;
    if !child.rect.isNone then
      acc.(maxW := Max(maxW, child.rect.x + child.rect.w), maxH := Max(maxH, child.rect.y + child.rect.h))
    else if isVertical then
      SizeAcc(maxW, maxH, if !child.isContain then Max(acc.alignW, size.w) else acc.alignW, acc.alignH + size.h, acc.count + 1)
    else
      SizeAcc(maxW, maxH, acc.alignW + size.w, if !child.isContain then Max(acc.alignH, size.h) else acc.alignH, acc.count + 1)
  }

  /** The room the gaps between `count` aligned children take: one row or two columns each. */
  function GapTotal(count: int, unit: int): (g: int)
    requires count >= 0 && unit >= 0
    ensures g >= 0
    ensures count <= 1 ==> g == 0
  {
    if count == 0 then 0 else (count - 1) * unit
  }

  /**
   * The parent's size from its fold: the larger of the children's extent
   * and the aligned size plus the gaps and the decorations.
   */
  function ParentExtent(k: Kind, acc: SizeAcc): (r: Rect)
    requires k.ParentWindow? && acc.count >= 0
    ensures !r.isNone && r.x == 0 && r.y == 0
    ensures r.w >= acc.maxW && r.h >= acc.maxH
    ensures r.w >= acc.alignW + DecorW(k) && r.h >= acc.alignH + DecorH(k)
    ensures r.w == Max(acc.maxW, acc.alignW + (if k.hasGap && !k.isVertical then GapTotal(acc.count, 2) else 0) + DecorW(k))
    ensures r.h == Max(acc.maxH, acc.alignH + (if k.hasGap && k.isVertical then GapTotal(acc.count, 1) else 0) + DecorH(k))
  {
    var gapW := if k.hasGap && !k.isVertical then GapTotal(acc.count, 2) else 0;
    var gapH := if k.hasGap && k.isVertical then GapTotal(acc.count, 1) else 0;
    SizeRect(Max(acc.maxW, acc.alignW + gapW + DecorW(k)), Max(acc.maxH, acc.alignH + gapH + DecorH(k)))
  }

  /** A `size_t` value: the integer reduced modulo 2^64. */
  function SizeT(x: int): (u: int)
    ensures 0 <= u < 0x1_0000_0000_0000_0000
    ensures 0 <= x < 0x1_0000_0000_0000_0000 ==> u == x
  {
    x % 0x1_0000_0000_0000_0000
  }

  /** A `size_t` stored back into a 32-bit `int`: its low 32 bits read as two's complement. */
  function ToInt(u: int): (v: int)
    ensures -0x8000_0000 <= v < 0x8000_0000
    ensures 0 <= u < 0x8000_0000 ==> v == u
  {
    var low := u % 0x1_0000_0000;
    if low >= 0x8000_0000 then low - 0x1_0000_0000 else low
  }

  /**
   * `align_size += (align_count - 1) * unit` as written: `align_count` is a
   * `size_t`, so with no aligned child the subtraction wraps around and the
   * sum comes back as `size - unit`.
   */
  function GapAddAsWritten(size: int, count: int, unit: int): int
  {
    ToInt(SizeT(SizeT(size) + SizeT(SizeT(count - 1) * unit)))
  }

  /** The parent's size from its fold, with the gap added as written. */
  function ParentExtentAsWritten(k: Kind, acc: SizeAcc): (r: Rect)
    requires k.ParentWindow?
    ensures !r.isNone
  {
    var alignW := if k.hasGap && !k.isVertical then GapAddAsWritten(acc.alignW, acc.count, 2) else acc.alignW;
    var alignH := if k.hasGap && k.isVertical then GapAddAsWritten(acc.alignH, acc.count, 1) else acc.alignH;
    SizeRect(Max(acc.maxW, alignW + DecorW(k)), Max(acc.maxH, alignH + DecorH(k)))
  }

  /**
   * A horizontal parent with a gap and a border whose only child has the
   * fixed rect 1 x 1: as written its width comes out as 1, the border's two
   * columns cancelled by the wrapped gap of -2; the corrected width is 2.
   */
  lemma GapWrapAsWritten()
    ensures var k := ParentWindow([], false, true, false, false, true, PosStart, AlignStart);
      var acc := SizeAcc(1, 1, 0, 0, 0);
      GapAddAsWritten(0, 0, 2) == -2 &&
      ParentExtentAsWritten(k, acc).w == 1 && ParentExtent(k, acc).w == 2
  {
    assert SizeT(-1) == 0xFFFF_FFFF_FFFF_FFFF;
    assert SizeT(0xFFFF_FFFF_FFFF_FFFF * 2) == 0xFFFF_FFFF_FFFF_FFFE;
  }

  /**
   * With at least one aligned child and sizes that fit in an `int`, the
   * size as written and the corrected size agree.
   */
  lemma GapAddAgrees(k: Kind, acc: SizeAcc)
    requires k.ParentWindow? && acc.count >= 1
    requires 0 <= acc.alignW && acc.alignW + (acc.count - 1) * 2 < 0x8000_0000
    requires 0 <= acc.alignH && acc.alignH + (acc.count - 1) < 0x8000_0000
    ensures ParentExtentAsWritten(k, acc) == ParentExtent(k, acc)
  {
    assert SizeT(acc.count - 1) == acc.count - 1;
    if k.hasGap && !k.isVertical {
      assert GapAddAsWritten(acc.alignW, acc.count, 2) == acc.alignW + (acc.count - 1) * 2;
    }
    if k.hasGap && k.isVertical {
      assert GapAddAsWritten(acc.alignH, acc.count, 1) == acc.alignH + (acc.count - 1);
    }
  }

  /**
   * `tui_window_size_calc`: the preliminary size of window `id` given the
   * screen width `sw`, its children's sizes computed first.
   */
  function Measure(nodes: seq<Node>, sw: int, id: int): Rect
    requires Tree(nodes) && 0 <= id < |nodes|
    decreases |nodes| - id, 1
  {
    var n := nodes[id];
    match n.kind
    case TextWindow(str, _) => TextSize(n.rect, Plain(str), sw)
    case GridWindow(size, hasCells) => GridSize(n.rect, size, hasCells)
    case ParentWindow(cs, _, _, _, _, _, _, _) =>
      assert IsParent(nodes, id) && ChildrenOk(nodes, id);
      ParentSize(nodes, id, ChildSizes(nodes, sw, id, |cs|))
  }

  /** The measured sizes of the first `k` children of parent `p`, in order. */
  function ChildSizes(nodes: seq<Node>, sw: int, p: int, k: int): (sizes: seq<Rect>)
    requires Tree(nodes) && IsParent(nodes, p) && 0 <= k <= |Children(nodes, p)|
    ensures |sizes| == k
    decreases |nodes| - p, 0, k
  {
    if k == 0 then []
    else
      assert ChildrenOk(nodes, p);
      ChildSizes(nodes, sw, p, k - 1) + [Measure(nodes, sw, Children(nodes, p)[k - 1])]
  }

  lemma {:induction false} ChildSizesAt(nodes: seq<Node>, sw: int, p: int, k: int, j: int)
    requires Tree(nodes) && IsParent(nodes, p) && 0 <= j < k <= |Children(nodes, p)|
    ensures 0 <= Children(nodes, p)[j] < |nodes|
    ensures ChildSizes(nodes, sw, p, k)[j] == Measure(nodes, sw, Children(nodes, p)[j])
    decreases k
  {
    assert ChildrenOk(nodes, p);
    if j < k - 1 {
      ChildSizesAt(nodes, sw, p, k - 1, j);
    }
  }

  /**
   * The second half of `tui_window_parent_size_calc`, given the sizes of
   * the children: a fixed rect clamped at 0, the empty rect without
   * children, otherwise the fold over the children with the gaps and
   * decorations added.
   */
  function ParentSize(nodes: seq<Node>, p: int, sizes: seq<Rect>): (r: Rect)
    requires IsParent(nodes, p) && ChildrenIn(nodes, p) && |sizes| == |Children(nodes, p)|
    ensures !r.isNone && r.x == 0 && r.y == 0
    ensures !nodes[p].rect.isNone ==> r == SizeRect(Max(0, nodes[p].rect.w), Max(0, nodes[p].rect.h))
    ensures nodes[p].rect.isNone && |sizes| == 0 ==> r == SizeRect(0, 0)
  {
    var n := nodes[p];
    if !n.rect.isNone then SizeRect(Max(0, n.rect.w), Max(0, n.rect.h))
    else if |sizes| == 0 then SizeRect(0, 0)
    else ParentExtent(n.kind, SizeFold(nodes, p, sizes, |sizes|))
  }

  /** The fold of `SizeStep` over the first `k` children of parent `p`, of sizes `sizes`. */
  function SizeFold(nodes: seq<Node>, p: int, sizes: seq<Rect>, k: int): (acc: SizeAcc)
    requires IsParent(nodes, p) && ChildrenIn(nodes, p) && |sizes| == |Children(nodes, p)| && 0 <= k <= |sizes|
    ensures 0 <= acc.count <= k
    decreases k
  {
    if k == 0 then EMPTY_ACC
    else
      var c := Children(nodes, p)[k - 1];
      SizeStep(SizeFold(nodes, p, sizes, k - 1), nodes[p].kind.isVertical, nodes[c], sizes[k - 1])
  }

  /**
   * The fold's extent covers every child among the first `k` that is not a
   * contain window, and the far corner of every fixed-rect child.
   */
  lemma {:induction false} SizeFoldCovers(nodes: seq<Node>, p: int, sizes: seq<Rect>, k: int, j: int)
    requires IsParent(nodes, p) && ChildrenIn(nodes, p) && |sizes| == |Children(nodes, p)| && 0 <= j < k <= |sizes|
    ensures var c := Children(nodes, p)[j]; var acc := SizeFold(nodes, p, sizes, k);
      0 <= c < |nodes| &&
      (!nodes[c].isContain ==> acc.maxW >= sizes[j].w && acc.maxH >= sizes[j].h) &&
      (!nodes[c].rect.isNone ==> acc.maxW >= nodes[c].rect.x + nodes[c].rect.w &&
                                 acc.maxH >= nodes[c].rect.y + nodes[c].rect.h)
    decreases k
  {
    if j < k - 1 {
      SizeFoldCovers(nodes, p, sizes, k - 1, j);
    }
  }

  /**
   * A parent sized by its children is at least as large as every child
   * that is not a contain window, and reaches the far corner of every
   * fixed-rect child.
   */
  lemma ParentCoversChildren(nodes: seq<Node>, sw: int, p: int, j: int)
    requires Tree(nodes) && IsParent(nodes, p) && nodes[p].rect.isNone
    requires 0 <= j < |Children(nodes, p)|
    ensures var c := Children(nodes, p)[j]; var r := Measure(nodes, sw, p);
      0 <= c < |nodes| &&
      (!nodes[c].isContain ==> r.w >= Measure(nodes, sw, c).w && r.h >= Measure(nodes, sw, c).h) &&
      (!nodes[c].rect.isNone ==> r.w >= nodes[c].rect.x + nodes[c].rect.w && r.h >= nodes[c].rect.y + nodes[c].rect.h)
  {
    var n := |Children(nodes, p)|;
    var sizes := ChildSizes(nodes, sw, p, n);
    TreeChildrenIn(nodes, p);
    ChildSizesAt(nodes, sw, p, n, j);
    SizeFoldCovers(nodes, p, sizes, n, j);
  }

  /** Sum of the heights (vertical) or widths of the aligned children among the first `k`. */
  function AlignedLength(nodes: seq<Node>, p: int, sizes: seq<Rect>, k: int): int
    requires IsParent(nodes, p) && ChildrenIn(nodes, p) && |sizes| == |Children(nodes, p)| && 0 <= k <= |sizes|
    decreases k
  {
    if k == 0 then 0
    else
      var c := Children(nodes, p)[k - 1];
      AlignedLength(nodes, p, sizes, k - 1) +
      (if !nodes[c].rect.isNone then 0 else if nodes[p].kind.isVertical then sizes[k - 1].h else sizes[k - 1].w)
  }

  /** Number of aligned children (rect "none") among the first `k`. */
  function AlignedCount(nodes: seq<Node>, p: int, k: int): (n: nat)
    requires IsParent(nodes, p) && ChildrenIn(nodes, p) && 0 <= k <= |Children(nodes, p)|
    ensures n <= k
    decreases k
  {
    if k == 0 then 0
    else
      AlignedCount(nodes, p, k - 1) + (if nodes[Children(nodes, p)[k - 1]].rect.isNone then 1 else 0)
  }

  /**
   * Along the parent's axis the fold stacks exactly the aligned children:
   * its aligned length is the sum of their lengths and its count their number.
   */
  lemma {:induction false} SizeFoldStacks(nodes: seq<Node>, p: int, sizes: seq<Rect>, k: int)
    requires IsParent(nodes, p) && ChildrenIn(nodes, p) && |sizes| == |Children(nodes, p)| && 0 <= k <= |sizes|
    ensures var acc := SizeFold(nodes, p, sizes, k);
      acc.count == AlignedCount(nodes, p, k) &&
      (if nodes[p].kind.isVertical then acc.alignH else acc.alignW) == AlignedLength(nodes, p, sizes, k)
    decreases k
  {
    if k > 0 {
      SizeFoldStacks(nodes, p, sizes, k - 1);
    }
  }

  /**
   * A parent sized by its children is, along its axis, at least as long as
   * its aligned children end to end, with one gap unit between each two,
   * plus its decorations.
   */
  lemma ParentFitsAligned(nodes: seq<Node>, sw: int, p: int)
    requires Tree(nodes) && IsParent(nodes, p) && nodes[p].rect.isNone && |Children(nodes, p)| > 0
    ensures var k := nodes[p].kind; var n := |Children(nodes, p)|;
      var r := Measure(nodes, sw, p);
      var gap := if k.hasGap then GapTotal(AlignedCount(nodes, p, n), if k.isVertical then 1 else 2) else 0;
      (if k.isVertical then r.h else r.w) >=
        AlignedLength(nodes, p, ChildSizes(nodes, sw, p, n), n) + gap + (if k.isVertical then DecorH(k) else DecorW(k))
  {
    var n := |Children(nodes, p)|;
    TreeChildrenIn(nodes, p);
    SizeFoldStacks(nodes, p, ChildSizes(nodes, sw, p, n), n);
  }

  /**
   * A text window with a word wider than the screen cannot be wrapped: its
   * height comes out as -1 and its width as the whole text's length.
   */
  lemma UnwrappableText(rect: Rect, text: seq<char>, sw: int)
    requires rect.isNone && |text| > 0 && WrapHeight(text, sw) == -1
    ensures TextSize(rect, text, sw) == SizeRect(|text|, -1)
  {
    MinWidthAtNoHeight(text, 1, |text|, |text|);
  }

  lemma {:induction false} MinWidthAtNoHeight(t: seq<char>, left: int, right: int, minW: int)
    requires 1 <= left
    ensures SearchWidth(t, -1, left, right, minW) == minW
    decreases right - left + 1
  {
    if left <= right {
      var mid := (left + right) / 2;
      HeightAtLeastMinusOne(t, mid);
      MinWidthAtNoHeight(t, mid + 1, right, minW);
    }
  }

  lemma HeightAtLeastMinusOne(t: seq<char>, w: int)
    ensures WrapHeight(t, w) >= -1
  {
    WrapHeightRange(t, w);
  }

  /**
   * A text window whose text wraps at the screen width gets that many lines
   * and a width between 1 and the text's length at which it still wraps
   * into them.
   */
  lemma WrappedTextFits(rect: Rect, text: seq<char>, sw: int)
    requires rect.isNone && |text| > 0 && WrapHeight(text, sw) != -1
    ensures var r := TextSize(rect, text, sw);
      r.h == WrapHeight(text, sw) && 1 <= r.w <= |text| && (r.w < |text| ==> Fits(text, r.w, r.h))
  {
    MinWidthBounds(text, WrapHeight(text, sw));
  }

  /**
   * `ms` holds the measured size of every window. Each window's entry is
   * tied to its `Measure` only where that `Measure` is mentioned.
   */
  ghost predicate Measured(nodes: seq<Node>, sw: int, ms: seq<Rect>)
    requires Tree(nodes)
  {
    |ms| == |nodes| &&
    forall i {:trigger Measure(nodes, sw, i)} :: 0 <= i < |nodes| ==> ms[i] == Measure(nodes, sw, i)
  }

  /** The measured size of every window of the arena. */
  ghost function Measures(nodes: seq<Node>, sw: int): (ms: seq<Rect>)
    requires Tree(nodes)
    ensures Measured(nodes, sw, ms)
  {
    seq(|nodes|, i requires 0 <= i < |nodes| => Measure(nodes, sw, i))
  }

  /** The measured sizes of the children of parent `p`, in order. */
  ghost function ChildMeasures(nodes: seq<Node>, ms: seq<Rect>, p: int): (sizes: seq<Rect>)
    requires IsParent(nodes, p) && ChildrenIn(nodes, p) && |ms| == |nodes|
    ensures |sizes| == |Children(nodes, p)|
    ensures forall j :: 0 <= j < |sizes| ==> sizes[j] == ms[Children(nodes, p)[j]]
  {
    seq(|Children(nodes, p)|, j requires 0 <= j < |Children(nodes, p)| => ms[Children(nodes, p)[j]])
  }

  /** A parent measures to the fold over its children's measured sizes. */
  lemma MeasureParent(nodes: seq<Node>, sw: int, ms: seq<Rect>, p: int)
    requires Tree(nodes) && Measured(nodes, sw, ms) && IsParent(nodes, p)
    ensures ChildrenIn(nodes, p)
    ensures ms[p] == ParentSize(nodes, p, ChildMeasures(nodes, ms, p))
  {
    TreeChildrenIn(nodes, p);
    var n := |Children(nodes, p)|;
    var sizes := ChildSizes(nodes, sw, p, n);
    forall j | 0 <= j < n
      ensures sizes[j] == ChildMeasures(nodes, ms, p)[j]
    {
      ChildSizesAt(nodes, sw, p, n, j);
    }
    assert sizes == ChildMeasures(nodes, ms, p);
    assert ms[p] == Measure(nodes, sw, p);
  }

  /** The per-window results the size pass writes: `rects` and `texts`. */
  datatype Pass = Pass(rects: seq<Rect>, texts: seq<seq<char>>)

  /** `ps` has one entry per window of the arena. */
  predicate OnePerWindow(nodes: seq<Node>, ps: Pass)
  {
    |ps.rects| == |nodes| && |ps.texts| == |nodes|
  }

  /**
   * The results after sizing the subtree of `id`, `ms` being the measured
   * sizes: the children's subtrees in order, then the window's own size
   * and, for a text window, its plain text.
   */
  function SizeTree(nodes: seq<Node>, ms: seq<Rect>, ps: Pass, id: int): (r: Pass)
    requires Tree(nodes) && |ms| == |nodes| && 0 <= id < |nodes| && OnePerWindow(nodes, ps)
    ensures OnePerWindow(nodes, r)
    decreases |nodes| - id, 1
  {
    if IsParent(nodes, id) then
      TreeChildrenIn(nodes, id);
      var cs := Children(nodes, id);
      var after := SizeList(nodes, ms, ps, cs, id, |cs|);
      after.(rects := after.rects[id := ms[id]])
    else if nodes[id].kind.TextWindow? then
      Pass(ps.rects[id := ms[id]], ps.texts[id := Plain(nodes[id].kind.str)])
    else
      ps.(rects := ps.rects[id := ms[id]])
  }

  /** The results after sizing the subtrees of the first `k` windows of `ws`, all of them above `lo`. */
  function SizeList(nodes: seq<Node>, ms: seq<Rect>, ps: Pass, ws: seq<int>, lo: int, k: int): (r: Pass)
    requires Tree(nodes) && |ms| == |nodes| && OnePerWindow(nodes, ps) && -1 <= lo && 0 <= k <= |ws|
    requires forall j :: 0 <= j < |ws| ==> lo < ws[j] < |nodes|
    ensures OnePerWindow(nodes, r)
    decreases |nodes| - lo - 1, 2, k
  {
    if k == 0 then ps
    else SizeTree(nodes, ms, SizeList(nodes, ms, ps, ws, lo, k - 1), ws[k - 1])
  }

  /**
   * Sizing a subtree writes the measured size into the entry of every
   * window below it and the plain text into that of every text window
   * below it, and keeps every other entry.
   */
  lemma {:induction false} SizeTreeSpec(nodes: seq<Node>, ms: seq<Rect>, ps: Pass, id: int, d: int)
    requires Tree(nodes) && |ms| == |nodes| && 0 <= id < |nodes| && OnePerWindow(nodes, ps) && 0 <= d < |nodes|
    ensures SizeTree(nodes, ms, ps, id).rects[d] == if Desc(nodes, id, d) then ms[d] else ps.rects[d]
    ensures SizeTree(nodes, ms, ps, id).texts[d] ==
            if Desc(nodes, id, d) && nodes[d].kind.TextWindow? then Plain(nodes[d].kind.str) else ps.texts[d]
    decreases |nodes| - id, 1
  {
    if IsParent(nodes, id) {
      var cs := Children(nodes, id);
      assert ChildrenOk(nodes, id);
      SizeListSpec(nodes, ms, ps, cs, id, |cs|, d);
      StrictDescIsUnderChildren(nodes, id, d);
      assert cs[..|cs|] == cs;
    } else {
      DescOnlySelf(nodes, id);
    }
  }

  /** Sizing a list of subtrees does so for every window below one of them. */
  lemma {:induction false} SizeListSpec(nodes: seq<Node>, ms: seq<Rect>, ps: Pass, ws: seq<int>, lo: int, k: int, d: int)
    requires Tree(nodes) && |ms| == |nodes| && OnePerWindow(nodes, ps) && -1 <= lo && 0 <= k <= |ws| && 0 <= d < |nodes|
    requires forall j :: 0 <= j < |ws| ==> lo < ws[j] < |nodes|
    ensures SizeList(nodes, ms, ps, ws, lo, k).rects[d] ==
            if UnderSome(nodes, ws[..k], d) then ms[d] else ps.rects[d]
    ensures SizeList(nodes, ms, ps, ws, lo, k).texts[d] ==
            if UnderSome(nodes, ws[..k], d) && nodes[d].kind.TextWindow? then Plain(nodes[d].kind.str) else ps.texts[d]
    decreases |nodes| - lo - 1, 2, k
  {
    if k > 0 {
      SizeListSpec(nodes, ms, ps, ws, lo, k - 1, d);
      SizeTreeSpec(nodes, ms, SizeList(nodes, ms, ps, ws, lo, k - 1), ws[k - 1], d);
      assert ws[..k] == ws[..k - 1] + [ws[k - 1]];
      UnderSomeSnoc(nodes, ws[..k - 1], ws[k - 1], d);
    }
  }

  /** Only a window itself lies below a window that is not a parent. */
  lemma DescOnlySelf(nodes: seq<Node>, id: int)
    requires Tree(nodes) && 0 <= id < |nodes| && !nodes[id].kind.ParentWindow?
    ensures forall d :: 0 <= d < |nodes| ==> (Desc(nodes, id, d) <==> d == id)
  {
    forall d | 0 <= d < |nodes| && Desc(nodes, id, d) && d != id
      ensures false
    {
      DescAboveIsParent(nodes, id, d);
    }
  }

  /** A window strictly above another one is a parent window. */
  lemma {:induction false} DescAboveIsParent(nodes: seq<Node>, a: int, d: int)
    requires Tree(nodes) && 0 <= d < |nodes| && Desc(nodes, a, d) && d != a
    ensures IsParent(nodes, a)
    decreases d
  {
    var q := nodes[d].parent;
    Linked(nodes, d);
    if q != a {
      DescAboveIsParent(nodes, a, q);
    }
  }

  /** After sizing all children of a parent, each child's entry is its measured size. */
  lemma ChildrenSized(nodes: seq<Node>, ms: seq<Rect>, ps: Pass, p: int)
    requires Tree(nodes) && |ms| == |nodes| && OnePerWindow(nodes, ps) && IsParent(nodes, p)
    ensures ChildrenIn(nodes, p)
    ensures var cs := Children(nodes, p);
      forall j :: 0 <= j < |cs| ==> SizeList(nodes, ms, ps, cs, p, |cs|).rects[cs[j]] == ms[cs[j]]
  {
    TreeChildrenIn(nodes, p);
    var cs := Children(nodes, p);
    forall j | 0 <= j < |cs|
      ensures SizeList(nodes, ms, ps, cs, p, |cs|).rects[cs[j]] == ms[cs[j]]
    {
      SizeListSpec(nodes, ms, ps, cs, p, |cs|, cs[j]);
      assert cs[..|cs|] == cs;
      UnderSomeOf(nodes, cs, j, cs[j]);
    }
  }

  /** `tui_window_size_calc` on window `id` and its subtree, children first. */
  method SizeCalc(tui: Tui, id: int, ghost ms: seq<Rect>)
    requires tui.Arena() && 0 <= id < |tui.nodes| && Measured(tui.nodes, tui.size.w, ms)
    modifies tui`rects, tui`texts
    ensures tui.Arena()
    ensures Pass(tui.rects, tui.texts) == SizeTree(tui.nodes, ms, old(Pass(tui.rects, tui.texts)), id)
    decreases |tui.nodes| - id, 2
  {
    var node := tui.nodes[id];
    assert ms[id] == Measure(tui.nodes, tui.size.w, id);
    match node.kind {
      case TextWindow(str, _) =>
        var text := TextExtract(str);
        var r := SizeRect(1, 1);
        if !node.rect.isNone {
          r := SizeRect(Max(0, node.rect.w), Max(0, node.rect.h));
        } else if |text| > 0 {
          var h := TextHGet(text, tui.size.w);
          var w := TextWGet(text, h);
          r := SizeRect(w, h);
        }
        tui.texts := tui.texts[id := text];
        tui.rects := tui.rects[id := r];
      case GridWindow(size, hasCells) =>
        var r;
        if !hasCells {
          r := RECT_NONE;
        } else if node.rect.isNone {
          r := SizeRect(size.w, size.h);
        } else {
          r := SizeRect(Max(0, node.rect.w), Max(0, node.rect.h));
        }
        tui.rects := tui.rects[id := r];
      case ParentWindow(_, _, _, _, _, _, _, _) =>
        ParentSizeCalc(tui, id, ms);
    }
  }

  /** `tui_window_parent_size_calc`: every child's subtree, then the fold over the children. */
  method ParentSizeCalc(tui: Tui, id: int, ghost ms: seq<Rect>)
    requires tui.Arena() && IsParent(tui.nodes, id) && Measured(tui.nodes, tui.size.w, ms)
    modifies tui`rects, tui`texts
    ensures tui.Arena()
    ensures Pass(tui.rects, tui.texts) == SizeTree(tui.nodes, ms, old(Pass(tui.rects, tui.texts)), id)
    decreases |tui.nodes| - id, 1
  {
    ghost var ps := Pass(tui.rects, tui.texts);
    ChildrenSizeCalc(tui, id, ms);
    ChildrenSized(tui.nodes, ms, ps, id);
    MeasureParent(tui.nodes, tui.size.w, ms, id);
    var r := ParentRect(tui, id, ChildMeasures(tui.nodes, ms, id));
    tui.rects := tui.rects[id := r];
  }

  /** The loop of `tui_window_parent_size_calc`: the subtree of every child of `id`, in order. */
  method ChildrenSizeCalc(tui: Tui, id: int, ghost ms: seq<Rect>)
    requires tui.Arena() && IsParent(tui.nodes, id) && Measured(tui.nodes, tui.size.w, ms)
    modifies tui`rects, tui`texts
    ensures tui.Arena() && ChildrenIn(tui.nodes, id)
    ensures Pass(tui.rects, tui.texts) ==
            SizeList(tui.nodes, ms, old(Pass(tui.rects, tui.texts)), Children(tui.nodes, id), id, |Children(tui.nodes, id)|)
    decreases |tui.nodes| - id, 0
  {
    ghost var ps := Pass(tui.rects, tui.texts);
    var cs := Children(tui.nodes, id);
    TreeChildrenIn(tui.nodes, id);
    var index := 0;
    while index < |cs|
      invariant 0 <= index <= |cs|
      invariant tui.Arena()
      invariant Pass(tui.rects, tui.texts) == SizeList(tui.nodes, ms, ps, cs, id, index)
    {
      SizeCalc(tui, cs[index], ms);
      index := index + 1;
    }
  }

  /**
   * The second half of `tui_window_parent_size_calc`, once the children
   * are measured: a fixed rect clamped at 0, the empty rect without
   * children, and otherwise the fold over the children's measured sizes
   * `sizes` with the gaps and decorations added.
   */
  method ParentRect(tui: Tui, id: int, ghost sizes: seq<Rect>) returns (r: Rect)
    requires IsParent(tui.nodes, id) && ChildrenIn(tui.nodes, id) && |tui.rects| == |tui.nodes|
    requires |sizes| == |Children(tui.nodes, id)|
    requires forall j :: 0 <= j < |sizes| ==> tui.rects[Children(tui.nodes, id)[j]] == sizes[j]
    ensures r == ParentSize(tui.nodes, id, sizes)
  {
    var node := tui.nodes[id];
    var cs := Children(tui.nodes, id);
    r := SizeRect(0, 0);
    if !node.rect.isNone {
      r := SizeRect(Max(0, node.rect.w), Max(0, node.rect.h));
    } else if |cs| > 0 {
      var maxW, maxH, alignW, alignH, count := 0, 0, 0, 0, 0;
      var index := 0;
      while index < |cs|
        invariant 0 <= index <= |cs|
        invariant SizeAcc(maxW, maxH, alignW, alignH, count) == SizeFold(tui.nodes, id, sizes, index)
      {
        var c := cs[index];
        var child := tui.nodes[c];
        var size := tui.rects[c];
        if !child.isContain {
          maxW := Max(maxW, size.w);
          maxH := Max(maxH, size.h);
        }
        if !child.rect.isNone {
          maxW := Max(maxW, child.rect.x + child.rect.w);
          maxH := Max(maxH, child.rect.y + child.rect.h);
        } else if node.kind.isVertical {
          count := count + 1;
          alignH := alignH + size.h;
          if !child.isContain {
            alignW := Max(alignW, size.w);
          }
        } else {
          count := count + 1;
          alignW := alignW + size.w;
          if !child.isContain {
            alignH := Max(alignH, size.h);
          }
        }
        index := index + 1;
      }
      if node.kind.hasGap {
        if node.kind.isVertical {
          alignH := alignH + GapTotal(count, 1);
        } else {
          alignW := alignW + GapTotal(count, 2);
        }
      }
      alignW := alignW + DecorW(node.kind);
      alignH := alignH + DecorH(node.kind);
      r := SizeRect(Max(maxW, alignW), Max(maxH, alignH));
    }
  }

  /** `tui_windows_size_calc`: the subtree of every window of `ws`, in order. */
  method WindowsSizeCalc(tui: Tui, ws: seq<int>, ghost ms: seq<Rect>)
    requires tui.Arena() && Measured(tui.nodes, tui.size.w, ms)
    requires forall j :: 0 <= j < |ws| ==> 0 <= ws[j] < |tui.nodes|
    modifies tui`rects, tui`texts
    ensures tui.Arena()
    ensures Pass(tui.rects, tui.texts) == SizeList(tui.nodes, ms, old(Pass(tui.rects, tui.texts)), ws, -1, |ws|)
  {
    ghost var ps := Pass(tui.rects, tui.texts);
    var index := 0;
    while index < |ws|
      invariant 0 <= index <= |ws|
      invariant tui.Arena()
      invariant Pass(tui.rects, tui.texts) == SizeList(tui.nodes, ms, ps, ws, -1, index)
    {
      SizeCalc(tui, ws[index], ms);
      index := index + 1;
    }
  }

  /**
   * `tui_size_calc`: sizes the subtree of every toolkit window, then of
   * every window of the active menu.
   */
  method SizeCalcAll(tui: Tui, ghost ms: seq<Rect>)
    requires tui.Arena() && tui.Starts() && Measured(tui.nodes, tui.size.w, ms)
    modifies tui`rects, tui`texts
    ensures tui.Arena()
    ensures Pass(tui.rects, tui.texts) == SizeList(tui.nodes, ms, old(Pass(tui.rects, tui.texts)), tui.Roots(), -1, |tui.Roots()|)
  {
    ghost var ps := Pass(tui.rects, tui.texts);
    var windows := tui.windows;
    var ws: seq<int> := [];
    if tui.menu != NULL {
      ws := tui.menus[tui.menu].windows;
    }
    assert tui.Roots() == windows + ws;
    SizeListAppend(tui.nodes, ms, ps, windows, ws, |ws|);
    WindowsSizeCalc(tui, windows, ms);
    if tui.menu != NULL {
      WindowsSizeCalc(tui, ws, ms);
    }
  }


  /** `SizeList` over the first `k` windows reads no window past them. */
  lemma {:induction false} SizeListPrefix(nodes: seq<Node>, ms: seq<Rect>, ps: Pass, a: seq<int>, b: seq<int>, k: int)
    requires Tree(nodes) && |ms| == |nodes| && OnePerWindow(nodes, ps) && 0 <= k <= |a| && k <= |b| && a[..k] == b[..k]
    requires forall j :: 0 <= j < |a| ==> 0 <= a[j] < |nodes|
    requires forall j :: 0 <= j < |b| ==> 0 <= b[j] < |nodes|
    ensures SizeList(nodes, ms, ps, a, -1, k) == SizeList(nodes, ms, ps, b, -1, k)
    decreases k
  {
    if k > 0 {
      assert a[..k - 1] == a[..k][..k - 1];
      assert b[..k - 1] == b[..k][..k - 1];
      assert a[k - 1] == a[..k][k - 1];
      assert b[k - 1] == b[..k][k - 1];
      SizeListPrefix(nodes, ms, ps, a, b, k - 1);
    }
  }

  /** Sizing two lists one after the other is sizing their concatenation. */
  lemma {:induction false} SizeListAppend(nodes: seq<Node>, ms: seq<Rect>, ps: Pass, a: seq<int>, b: seq<int>, k: int)
    requires Tree(nodes) && |ms| == |nodes| && OnePerWindow(nodes, ps) && 0 <= k <= |b|
    requires forall j :: 0 <= j < |a| ==> 0 <= a[j] < |nodes|
    requires forall j :: 0 <= j < |b| ==> 0 <= b[j] < |nodes|
    ensures forall j :: 0 <= j < |a + b| ==> 0 <= (a + b)[j] < |nodes|
    ensures SizeList(nodes, ms, ps, a + b, -1, |a| + k) ==
            SizeList(nodes, ms, SizeList(nodes, ms, ps, a, -1, |a|), b, -1, k)
    decreases k
  {
    var ab := a + b;
    assert forall j :: 0 <= j < |ab| ==> ab[j] == if j < |a| then a[j] else b[j - |a|];
    if k == 0 {
      SizeListPrefix(nodes, ms, ps, a, ab, |a|);
    } else {
      SizeListAppend(nodes, ms, ps, a, b, k - 1);
      assert ab[|a| + k - 1] == b[k - 1];
    }
  }

  /**
   * After the size pass every window below a toolkit window or a window of
   * the active menu holds its `Measure`, and every other window keeps its
   * previous entry.
   */
  lemma SizeCalcAllSpec(nodes: seq<Node>, sw: int, ps: Pass, roots: seq<int>, d: int)
    requires Tree(nodes) && OnePerWindow(nodes, ps) && 0 <= d < |nodes|
    requires forall j :: 0 <= j < |roots| ==> 0 <= roots[j] < |nodes|
    ensures SizeList(nodes, Measures(nodes, sw), ps, roots, -1, |roots|).rects[d] ==
            if UnderSome(nodes, roots, d) then Measure(nodes, sw, d) else ps.rects[d]
  {
    SizeListSpec(nodes, Measures(nodes, sw), ps, roots, -1, |roots|, d);
    assert roots[..|roots|] == roots;
  }

  /**
   * Sizing is idempotent: after a second size pass over the same windows
   * every window's entries are those after the first.
   */
  lemma SizeListTwice(nodes: seq<Node>, ms: seq<Rect>, ps: Pass, roots: seq<int>, d: int)
    requires Tree(nodes) && |ms| == |nodes| && OnePerWindow(nodes, ps) && 0 <= d < |nodes|
    requires forall j :: 0 <= j < |roots| ==> 0 <= roots[j] < |nodes|
    ensures var once := SizeList(nodes, ms, ps, roots, -1, |roots|);
      var twice := SizeList(nodes, ms, once, roots, -1, |roots|);
      twice.rects[d] == once.rects[d] && twice.texts[d] == once.texts[d]
  {
    var once := SizeList(nodes, ms, ps, roots, -1, |roots|);
    SizeListSpec(nodes, ms, ps, roots, -1, |roots|, d);
    SizeListSpec(nodes, ms, once, roots, -1, |roots|, d);
  }
}
