/**
 * The rect pass of layout (`tui_rect_calc`): starting from the sizes the
 * size pass left in `_rect`, every window reachable from the toolkit's and
 * the active menu's windows gets its final rect and its visibility.
 *
 * A parent first scans its children (`tui_children_rect_calc`, first
 * loop): a child with a fixed rect is visible unless hidden; a hidden child
 * is not; an atomic aligned child that would not fit beside the aligned
 * children before it is not; every other aligned child is counted. Then it
 * places them (second loop): an invisible child is hidden with its whole
 * subtree, an aligned child is placed by `PlaceChild`, a fixed-rect child
 * by `RectGet`; a child that ends up with no width or no height is hidden
 * with its subtree, any other is made visible, moved into the parent and,
 * when it is a parent itself, has its own children laid out.
 *
 * The results are a `Frame`: `rects` and `visible`, one entry per window.
 * Each operation is a method over the toolkit proved equal to a function
 * over frames; what the pass guarantees is proved about those functions
 * one window `d` at a time.
 */
module RectPass {
  import opened Base
  import opened Windows
  import opened Placement
  import SizePass

  /** The per-window results the rect pass writes: `_rect` and `_is_visable`. */
  datatype Frame = Frame(rects: seq<Rect>, visible: seq<bool>)

  /** `fr` has one entry per window of the arena. */
  predicate Complete(nodes: seq<Node>, fr: Frame)
  {
    |fr.rects| == |nodes| && |fr.visible| == |nodes|
  }

  /** `a` and `b` agree on window `d`. */
  predicate Same(a: Frame, b: Frame, d: int)
    requires 0 <= d < |a.rects| && 0 <= d < |a.visible| && 0 <= d < |b.rects| && 0 <= d < |b.visible|
  {
    a.rects[d] == b.rects[d] && a.visible[d] == b.visible[d]
  }

  /** `tui_window_set_invisable`: the window, then the subtree of each child in order, made invisible. */
  function HideTree(nodes: seq<Node>, fr: Frame, id: int): (r: Frame)
    requires Tree(nodes) && 0 <= id < |nodes| && Complete(nodes, fr)
    ensures Complete(nodes, r) && r.rects == fr.rects
    decreases |nodes| - id, 1
  {
    var hidden := fr.(visible := fr.visible[id := false]);
    if IsParent(nodes, id) then
      TreeChildrenIn(nodes, id);
      var cs := Children(nodes, id);
      HideList(nodes, hidden, cs, id, |cs|)
    else
      hidden
  }

  /** The subtrees of the first `k` windows of `ws`, all of them above `lo`, made invisible in order. */
  function HideList(nodes: seq<Node>, fr: Frame, ws: seq<int>, lo: int, k: int): (r: Frame)
    requires Tree(nodes) && Complete(nodes, fr) && -1 <= lo && 0 <= k <= |ws|
    requires forall j :: 0 <= j < |ws| ==> lo < ws[j] < |nodes|
    ensures Complete(nodes, r) && r.rects == fr.rects
    decreases |nodes| - lo - 1, 2, k
  {
    if k == 0 then fr
    else HideTree(nodes, HideList(nodes, fr, ws, lo, k - 1), ws[k - 1])
  }

  /** Hiding a window makes exactly the windows of its subtree invisible. */
  lemma {:induction false} HideTreeSpec(nodes: seq<Node>, fr: Frame, id: int, d: int)
    requires Tree(nodes) && 0 <= id < |nodes| && Complete(nodes, fr) && 0 <= d < |nodes|
    ensures HideTree(nodes, fr, id).visible[d] == (!Desc(nodes, id, d) && fr.visible[d])
    decreases |nodes| - id, 1
  {
    if IsParent(nodes, id) {
      var cs := Children(nodes, id);
      assert ChildrenOk(nodes, id);
      HideListSpec(nodes, fr.(visible := fr.visible[id := false]), cs, id, |cs|, d);
      StrictDescIsUnderChildren(nodes, id, d);
      assert cs[..|cs|] == cs;
    } else {
      SizePass.DescOnlySelf(nodes, id);
    }
  }

  lemma {:induction false} HideListSpec(nodes: seq<Node>, fr: Frame, ws: seq<int>, lo: int, k: int, d: int)
    requires Tree(nodes) && Complete(nodes, fr) && -1 <= lo && 0 <= k <= |ws| && 0 <= d < |nodes|
    requires forall j :: 0 <= j < |ws| ==> lo < ws[j] < |nodes|
    ensures HideList(nodes, fr, ws, lo, k).visible[d] == (!UnderSome(nodes, ws[..k], d) && fr.visible[d])
    decreases |nodes| - lo - 1, 2, k
  {
    if k > 0 {
      HideListSpec(nodes, fr, ws, lo, k - 1, d);
      HideTreeSpec(nodes, HideList(nodes, fr, ws, lo, k - 1), ws[k - 1], d);
      assert ws[..k] == ws[..k - 1] + [ws[k - 1]];
      UnderSomeSnoc(nodes, ws[..k - 1], ws[k - 1], d);
    }
  }

  /** `tui_window_set_invisable` on window `id`. */
  method SetInvisible(tui: Tui, id: int)
    requires tui.Arena() && 0 <= id < |tui.nodes|
    modifies tui`visible
    ensures tui.Arena()
    ensures Frame(tui.rects, tui.visible) == HideTree(tui.nodes, old(Frame(tui.rects, tui.visible)), id)
    decreases |tui.nodes| - id
  {
    tui.visible := tui.visible[id := false];
    if IsParent(tui.nodes, id) {
      ghost var fr := Frame(tui.rects, tui.visible);
      var cs := Children(tui.nodes, id);
      TreeChildrenIn(tui.nodes, id);
      var index := 0;
      while index < |cs|
        invariant 0 <= index <= |cs|
        invariant tui.Arena()
        invariant Frame(tui.rects, tui.visible) == HideList(tui.nodes, fr, cs, id, index)
      {
        SetInvisible(tui, cs[index]);
        index := index + 1;
      }
    }
  }

  /** The running totals of the first loop: `align_size`, `align_count` and `grow_count`. */
  datatype Scan = Scan(alignW: int, alignH: int, count: int, grow: int)

  datatype Scanned = Scanned(acc: Scan, visible: bool)

  /** Whether a child grows along the parent's direction. */
  predicate GrowsMain(k: Kind, child: Node)
    requires k.ParentWindow?
  {
    if k.isVertical then child.hGrow else child.wGrow
  }

  /**
   * One step of the first loop of `tui_children_rect_calc` on a child of
   * measured size `size`, inside content of size `max`: its visibility and
   * the new totals. Only visible aligned children are counted, and an
   * atomic aligned child is counted only when it fits beside the ones
   * counted before it.
   */
  function ScanChild(k: Kind, max: Size, child: Node, size: Rect, acc: Scan): (s: Scanned)
    requires k.ParentWindow?
    ensures s.visible ==> !child.isHidden
    ensures !child.rect.isNone ==> s.visible == !child.isHidden
    ensures !child.rect.isNone || !s.visible ==> s.acc == acc
    ensures child.rect.isNone && s.visible ==>
      s.acc.count == acc.count + 1 && s.acc.grow == acc.grow + (if GrowsMain(k, child) then 1 else 0)
    ensures child.rect.isNone && s.visible && child.isAtomic ==>
      (k.isVertical ==> s.acc.alignH <= max.h && size.w <= max.w) &&
      (!k.isVertical ==> s.acc.alignW <= max.w && size.h <= max.h)
  {
    if !child.rect.isNone then Scanned(acc, !child.isHidden)
    else if child.isHidden then Scanned(acc, false)
    else if k.isVertical then
      if child.isAtomic && (acc.alignH + size.h > max.h || size.w > max.w) then Scanned(acc, false)
      else Scanned(Scan(Max(acc.alignW, size.w), acc.alignH + size.h, acc.count + 1,
                        acc.grow + (if child.hGrow then 1 else 0)), true)
    else
      if child.isAtomic && (acc.alignW + size.w > max.w || size.h > max.h) then Scanned(acc, false)
      else Scanned(Scan(acc.alignW + size.w, Max(acc.alignH, size.h), acc.count + 1,
                        acc.grow + (if child.wGrow then 1 else 0)), true)
  }

  /** The totals after the first `k` children of `p`, measured sizes being read from `rects`. */
  function ScanFold(nodes: seq<Node>, p: int, rects: seq<Rect>, k: int): (s: Scan)
    requires IsParent(nodes, p) && ChildrenIn(nodes, p) && |rects| == |nodes| && 0 <= k <= |Children(nodes, p)|
    ensures 0 <= s.grow <= s.count
  {
    if k == 0 then Scan(0, 0, 0, 0)
    else
      var c := Children(nodes, p)[k - 1];
      var kind := nodes[p].kind;
      ScanChild(kind, MaxSizeGet(kind, rects[p]), nodes[c], rects[c], ScanFold(nodes, p, rects, k - 1)).acc
  }

  /** The visibility the first loop gives child `j` of `p`. */
  function ScanVisible(nodes: seq<Node>, p: int, rects: seq<Rect>, j: int): bool
    requires IsParent(nodes, p) && ChildrenIn(nodes, p) && |rects| == |nodes| && 0 <= j < |Children(nodes, p)|
  {
    var c := Children(nodes, p)[j];
    var kind := nodes[p].kind;
    ScanChild(kind, MaxSizeGet(kind, rects[p]), nodes[c], rects[c], ScanFold(nodes, p, rects, j)).visible
  }

  /** `_is_visable` after the first loop has seen the first `k` children of `p`. */
  function ScanMarks(nodes: seq<Node>, p: int, rects: seq<Rect>, vis: seq<bool>, k: int): (r: seq<bool>)
    requires IsParent(nodes, p) && ChildrenIn(nodes, p) && |rects| == |nodes| && |vis| == |nodes|
    requires 0 <= k <= |Children(nodes, p)|
    ensures |r| == |nodes|
  {
    if k == 0 then vis
    else ScanMarks(nodes, p, rects, vis, k - 1)[Children(nodes, p)[k - 1] := ScanVisible(nodes, p, rects, k - 1)]
  }

  /** After the first loop every seen child carries the visibility the loop gave it. */
  lemma {:induction false} ScanMarksAt(nodes: seq<Node>, p: int, rects: seq<Rect>, vis: seq<bool>, k: int, j: int)
    requires Tree(nodes) && IsParent(nodes, p) && |rects| == |nodes| && |vis| == |nodes|
    requires 0 <= j < k <= |Children(nodes, p)|
    ensures ChildrenIn(nodes, p)
    ensures ScanMarks(nodes, p, rects, vis, k)[Children(nodes, p)[j]] == ScanVisible(nodes, p, rects, j)
    decreases k
  {
    TreeChildrenIn(nodes, p);
    assert ChildrenOk(nodes, p);
    if j < k - 1 {
      ScanMarksAt(nodes, p, rects, vis, k - 1, j);
    }
  }

  /** The first loop touches no window but the children of `p`. */
  lemma {:induction false} ScanMarksOther(nodes: seq<Node>, p: int, rects: seq<Rect>, vis: seq<bool>, k: int, d: int)
    requires Tree(nodes) && IsParent(nodes, p) && |rects| == |nodes| && |vis| == |nodes|
    requires 0 <= k <= |Children(nodes, p)| && 0 <= d < |nodes| && nodes[d].parent != p
    ensures ChildrenIn(nodes, p)
    ensures ScanMarks(nodes, p, rects, vis, k)[d] == vis[d]
    decreases k
  {
    TreeChildrenIn(nodes, p);
    assert ChildrenOk(nodes, p);
    if k > 0 {
      ScanMarksOther(nodes, p, rects, vis, k - 1, d);
    }
  }

  /**
   * A visible aligned child is counted: once it has been seen, the count
   * of aligned children is at least 1, and so is that of growing children
   * when it grows. This is what keeps placement's divisions by the count
   * and by the number of growing children away from 0.
   */
  lemma {:induction false} ScanCounts(nodes: seq<Node>, p: int, rects: seq<Rect>, j: int, k: int)
    requires IsParent(nodes, p) && ChildrenIn(nodes, p) && |rects| == |nodes| && 0 <= j < k <= |Children(nodes, p)|
    requires ScanVisible(nodes, p, rects, j) && nodes[Children(nodes, p)[j]].rect.isNone
    ensures ScanFold(nodes, p, rects, k).count >= 1
    ensures GrowsMain(nodes[p].kind, nodes[Children(nodes, p)[j]]) ==> ScanFold(nodes, p, rects, k).grow >= 1
    decreases k
  {
    if k > j + 1 {
      ScanCounts(nodes, p, rects, j, k - 1);
    }
  }

  /** The line the second loop places aligned children on: the totals capped by the content size. */
  function LineOf(nodes: seq<Node>, p: int, rects: seq<Rect>): (l: Line)
    requires IsParent(nodes, p) && ChildrenIn(nodes, p) && |rects| == |nodes|
    ensures l.unit == (if nodes[p].kind.isVertical then 1 else 2)
    ensures l.count == ScanFold(nodes, p, rects, |Children(nodes, p)|).count
    ensures l.growCount == ScanFold(nodes, p, rects, |Children(nodes, p)|).grow
    ensures l.alignMain <= l.maxMain
  {
    var k := nodes[p].kind;
    var max := MaxSizeGet(k, rects[p]);
    var s := ScanFold(nodes, p, rects, |Children(nodes, p)|);
    if k.isVertical then
      Line(k.align, k.pos, k.hasGap, 1, s.count, s.grow, max.h, max.w, Min(s.alignH, max.h), ChildYGet(k), ChildXGet(k))
    else
      Line(k.align, k.pos, k.hasGap, 2, s.count, s.grow, max.w, max.h, Min(s.alignW, max.w), ChildXGet(k), ChildYGet(k))
  }

  /** An aligned child seen along the parent's direction. */
  function ItemOf(k: Kind, child: Node, size: Rect): (it: Item)
    requires k.ParentWindow?
    ensures it.growMain == GrowsMain(k, child)
  {
    if k.isVertical then Item(size.h, size.w, child.isAtomic, child.isContain, child.hGrow, child.wGrow)
    else Item(size.w, size.h, child.isAtomic, child.isContain, child.wGrow, child.hGrow)
  }

  /** A slot turned back into a rect relative to the parent. */
  function SlotRect(k: Kind, s: Slot): (r: Rect)
    requires k.ParentWindow?
    ensures !r.isNone
    ensures k.isVertical ==> r.y == s.mainPos && r.h == s.mainLen && r.x == s.crossPos && r.w == s.crossLen
    ensures !k.isVertical ==> r.x == s.mainPos && r.w == s.mainLen && r.y == s.crossPos && r.h == s.crossLen
  {
    if k.isVertical then Rect(s.crossLen, s.mainLen, s.crossPos, s.mainPos, false)
    else Rect(s.mainLen, s.crossLen, s.mainPos, s.crossPos, false)
  }

  /** A rect moved by the position of the parent's rect. */
  function Moved(r: Rect, parent: Rect): Rect
  {
    r.(x := r.x + parent.x, y := r.y + parent.y)
  }

  /** The frame and the cursor (`rect`, `align_index`, `grow_index`) threaded through the second loop. */
  datatype Placing = Placing(fr: Frame, cursor: Cursor)

  datatype Resolved = Resolved(rect: Rect, next: Cursor)

  /**
   * The rect of visible child `j`, relative to the parent, and the cursor
   * after it: an aligned child is placed on the line, a fixed-rect child
   * resolves its rect against the parent's current size.
   */
  function ChildRect(nodes: seq<Node>, rects0: seq<Rect>, p: int, fr: Frame, cursor: Cursor, j: int): (r: Resolved)
    requires IsParent(nodes, p) && ChildrenIn(nodes, p) && |rects0| == |nodes| && Complete(nodes, fr)
    requires 0 <= j < |Children(nodes, p)| && ScanVisible(nodes, p, rects0, j)
    ensures !nodes[Children(nodes, p)[j]].rect.isNone ==> r.next == cursor
  {
    var k := nodes[p].kind;
    var c := Children(nodes, p)[j];
    if nodes[c].rect.isNone then
      ScanCounts(nodes, p, rects0, j, |Children(nodes, p)|);
      var placed := PlaceChild(LineOf(nodes, p, rects0), ItemOf(k, nodes[c], fr.rects[c]), cursor);
      Resolved(SlotRect(k, placed.slot), placed.next)
    else
      Resolved(RectGet(nodes[c].rect, fr.rects[p].w, fr.rects[p].h), cursor)
  }

  /**
   * One step of the second loop on child `j`: an invisible child is hidden
   * with its subtree; a visible one gets its rect, and is hidden with its
   * subtree when that rect has no width or no height, or is made visible,
   * moved into the parent and has its own children laid out.
   */
  function PlaceStep(nodes: seq<Node>, rects0: seq<Rect>, p: int, pl: Placing, j: int): (r: Placing)
    requires Tree(nodes) && IsParent(nodes, p) && |rects0| == |nodes| && Complete(nodes, pl.fr)
    requires 0 <= j < |Children(nodes, p)|
    ensures Complete(nodes, r.fr)
    decreases |nodes| - p, 0
  {
    TreeChildrenIn(nodes, p);
    var c := Children(nodes, p)[j];
    if !ScanVisible(nodes, p, rects0, j) then
      Placing(HideTree(nodes, pl.fr, c), pl.cursor)
    else
      var res := ChildRect(nodes, rects0, p, pl.fr, pl.cursor, j);
      var written := pl.fr.(rects := pl.fr.rects[c := res.rect]);
      if res.rect.w == 0 || res.rect.h == 0 then
        Placing(HideTree(nodes, written, c), res.next)
      else
        var shown := Frame(written.rects[c := Moved(res.rect, written.rects[p])], written.visible[c := true]);
        Placing(if IsParent(nodes, c) then ChildrenRects(nodes, shown, c) else shown, res.next)
  }

  /** The second loop over the first `k` children of `p`, `rects0` being the sizes the first loop read. */
  function PlaceList(nodes: seq<Node>, rects0: seq<Rect>, p: int, fr: Frame, k: int): (r: Placing)
    requires Tree(nodes) && IsParent(nodes, p) && |rects0| == |nodes| && Complete(nodes, fr)
    requires 0 <= k <= |Children(nodes, p)|
    ensures Complete(nodes, r.fr)
    decreases |nodes| - p, 1, k
  {
    if k == 0 then Placing(fr, Cursor(0, 0, 0))
    else PlaceStep(nodes, rects0, p, PlaceList(nodes, rects0, p, fr, k - 1), k - 1)
  }

  /** `tui_children_rect_calc`: the first loop, then the second. */
  function ChildrenRects(nodes: seq<Node>, fr: Frame, p: int): (r: Frame)
    requires Tree(nodes) && IsParent(nodes, p) && Complete(nodes, fr)
    ensures Complete(nodes, r)
    decreases |nodes| - p, 2
  {
    TreeChildrenIn(nodes, p);
    var n := |Children(nodes, p)|;
    var marked := fr.(visible := ScanMarks(nodes, p, fr.rects, fr.visible, n));
    PlaceList(nodes, fr.rects, p, marked, n).fr
  }

  /** Laying out the children of `p` touches no window outside the strict subtree of `p`. */
  lemma {:induction false} ChildrenRectsFrame(nodes: seq<Node>, fr: Frame, p: int, d: int)
    requires Tree(nodes) && IsParent(nodes, p) && Complete(nodes, fr) && 0 <= d < |nodes|
    requires !Desc(nodes, p, d) || d == p
    ensures Same(ChildrenRects(nodes, fr, p), fr, d)
    decreases |nodes| - p, 2
  {
    TreeChildrenIn(nodes, p);
    var cs := Children(nodes, p);
    var marked := fr.(visible := ScanMarks(nodes, p, fr.rects, fr.visible, |cs|));
    DescViaParent(nodes, p, d);
    ScanMarksOther(nodes, p, fr.rects, fr.visible, |cs|, d);
    StrictDescIsUnderChildren(nodes, p, d);
    assert cs[..|cs|] == cs;
    PlaceListFrame(nodes, fr.rects, p, marked, |cs|, d);
  }

  lemma {:induction false} PlaceListFrame(nodes: seq<Node>, rects0: seq<Rect>, p: int, fr: Frame, k: int, d: int)
    requires Tree(nodes) && IsParent(nodes, p) && |rects0| == |nodes| && Complete(nodes, fr)
    requires 0 <= k <= |Children(nodes, p)| && 0 <= d < |nodes|
    requires !UnderSome(nodes, Children(nodes, p)[..k], d)
    ensures Same(PlaceList(nodes, rects0, p, fr, k).fr, fr, d)
    decreases |nodes| - p, 1, k
  {
    if k > 0 {
      var cs := Children(nodes, p);
      assert cs[..k] == cs[..k - 1] + [cs[k - 1]];
      UnderSomeSnoc(nodes, cs[..k - 1], cs[k - 1], d);
      PlaceListFrame(nodes, rects0, p, fr, k - 1, d);
      PlaceStepFrame(nodes, rects0, p, PlaceList(nodes, rects0, p, fr, k - 1), k - 1, d);
    }
  }

  lemma {:induction false} PlaceStepFrame(nodes: seq<Node>, rects0: seq<Rect>, p: int, pl: Placing, j: int, d: int)
    requires Tree(nodes) && IsParent(nodes, p) && |rects0| == |nodes| && Complete(nodes, pl.fr)
    requires 0 <= j < |Children(nodes, p)| && 0 <= d < |nodes|
    requires !Desc(nodes, Children(nodes, p)[j], d)
    ensures Same(PlaceStep(nodes, rects0, p, pl, j).fr, pl.fr, d)
    decreases |nodes| - p, 0
  {
    TreeChildrenIn(nodes, p);
    var c := Children(nodes, p)[j];
    if !ScanVisible(nodes, p, rects0, j) {
      HideTreeSpec(nodes, pl.fr, c, d);
    } else {
      var res := ChildRect(nodes, rects0, p, pl.fr, pl.cursor, j);
      var written := pl.fr.(rects := pl.fr.rects[c := res.rect]);
      if res.rect.w == 0 || res.rect.h == 0 {
        HideTreeSpec(nodes, written, c, d);
      } else if IsParent(nodes, c) {
        var shown := Frame(written.rects[c := Moved(res.rect, written.rects[p])], written.visible[c := true]);
        ChildrenRectsFrame(nodes, shown, c, d);
      }
    }
  }

  /** A window that is visible is not hidden and has a width and a height. */
  predicate VisibleOk(nodes: seq<Node>, fr: Frame, d: int)
    requires Complete(nodes, fr) && 0 <= d < |nodes|
  {
    fr.visible[d] ==> !nodes[d].isHidden && fr.rects[d].w != 0 && fr.rects[d].h != 0
  }

  /** A window that is visible has a visible parent, when it has one. */
  predicate ParentShown(nodes: seq<Node>, fr: Frame, d: int)
    requires Complete(nodes, fr) && 0 <= d < |nodes|
  {
    fr.visible[d] && 0 <= nodes[d].parent < |nodes| ==> fr.visible[nodes[d].parent]
  }

  /** A window above the parent of `d`, or that parent itself, is strictly above `d`. */
  lemma DescViaParent(nodes: seq<Node>, a: int, d: int)
    requires Tree(nodes) && 0 <= d < |nodes|
    ensures nodes[d].parent != NULL && Desc(nodes, a, nodes[d].parent) ==> Desc(nodes, a, d) && a != d
    ensures nodes[d].parent == a && a != NULL ==> Desc(nodes, a, d) && a != d
  {
    if nodes[d].parent != NULL && Desc(nodes, a, nodes[d].parent) {
      DescLe(nodes, a, nodes[d].parent);
    }
  }

  /**
   * After laying out the children of `p`, every window strictly below `p`
   * that is visible is not hidden, has a width and a height, and has a
   * visible parent unless that parent is `p`.
   */
  lemma {:induction false} ChildrenRectsSound(nodes: seq<Node>, fr: Frame, p: int, d: int)
    requires Tree(nodes) && IsParent(nodes, p) && Complete(nodes, fr) && 0 <= d < |nodes|
    requires Desc(nodes, p, d) && d != p
    ensures VisibleOk(nodes, ChildrenRects(nodes, fr, p), d)
    ensures nodes[d].parent != p ==> ParentShown(nodes, ChildrenRects(nodes, fr, p), d)
    decreases |nodes| - p, 2
  {
    TreeChildrenIn(nodes, p);
    var cs := Children(nodes, p);
    var marked := fr.(visible := ScanMarks(nodes, p, fr.rects, fr.visible, |cs|));
    StrictDescIsUnderChildren(nodes, p, d);
    assert cs[..|cs|] == cs;
    PlaceListSound(nodes, fr.rects, p, marked, |cs|, d);
  }

  lemma {:induction false} PlaceListSound(nodes: seq<Node>, rects0: seq<Rect>, p: int, fr: Frame, k: int, d: int)
    requires Tree(nodes) && IsParent(nodes, p) && |rects0| == |nodes| && Complete(nodes, fr)
    requires 0 <= k <= |Children(nodes, p)| && 0 <= d < |nodes|
    requires UnderSome(nodes, Children(nodes, p)[..k], d)
    ensures VisibleOk(nodes, PlaceList(nodes, rects0, p, fr, k).fr, d)
    ensures nodes[d].parent != p ==> ParentShown(nodes, PlaceList(nodes, rects0, p, fr, k).fr, d)
    decreases |nodes| - p, 1, k
  {
    var cs := Children(nodes, p);
    assert cs[..k] == cs[..k - 1] + [cs[k - 1]];
    UnderSomeSnoc(nodes, cs[..k - 1], cs[k - 1], d);
    var before := PlaceList(nodes, rects0, p, fr, k - 1);
    if Desc(nodes, cs[k - 1], d) {
      PlaceStepSound(nodes, rects0, p, before, k - 1, d);
    } else {
      PlaceListSound(nodes, rects0, p, fr, k - 1, d);
      PlaceStepFrame(nodes, rects0, p, before, k - 1, d);
      var q := nodes[d].parent;
      if 0 <= q < |nodes| && q != p {
        DescViaParent(nodes, cs[k - 1], d);
        PlaceStepFrame(nodes, rects0, p, before, k - 1, q);
      }
    }
  }

  lemma {:induction false} PlaceStepSound(nodes: seq<Node>, rects0: seq<Rect>, p: int, pl: Placing, j: int, d: int)
    requires Tree(nodes) && IsParent(nodes, p) && |rects0| == |nodes| && Complete(nodes, pl.fr)
    requires 0 <= j < |Children(nodes, p)| && 0 <= d < |nodes|
    requires Desc(nodes, Children(nodes, p)[j], d)
    ensures VisibleOk(nodes, PlaceStep(nodes, rects0, p, pl, j).fr, d)
    ensures nodes[d].parent != p ==> ParentShown(nodes, PlaceStep(nodes, rects0, p, pl, j).fr, d)
    decreases |nodes| - p, 0
  {
    TreeChildrenIn(nodes, p);
    assert ChildrenOk(nodes, p);
    var c := Children(nodes, p)[j];
    if !ScanVisible(nodes, p, rects0, j) {
      HideTreeSpec(nodes, pl.fr, c, d);
    } else {
      var res := ChildRect(nodes, rects0, p, pl.fr, pl.cursor, j);
      var written := pl.fr.(rects := pl.fr.rects[c := res.rect]);
      if res.rect.w == 0 || res.rect.h == 0 {
        HideTreeSpec(nodes, written, c, d);
      } else {
        var shown := Frame(written.rects[c := Moved(res.rect, written.rects[p])], written.visible[c := true]);
        if !IsParent(nodes, c) {
          SizePass.DescOnlySelf(nodes, c);
        } else if d == c {
          ChildrenRectsFrame(nodes, shown, c, c);
        } else {
          ChildrenRectsSound(nodes, shown, c, d);
          ChildrenRectsFrame(nodes, shown, c, c);
        }
      }
    }
  }

  /**
   * Once a parent's children are laid out, an invisible child has an
   * invisible subtree: no window below it is visible.
   */
  lemma {:induction false} InvisibleSubtree(nodes: seq<Node>, fr: Frame, p: int, c: int, d: int)
    requires Tree(nodes) && IsParent(nodes, p) && Complete(nodes, fr) && 0 <= c < |nodes| && 0 <= d < |nodes|
    requires nodes[c].parent == p && Desc(nodes, c, d)
    requires !ChildrenRects(nodes, fr, p).visible[c]
    ensures !ChildrenRects(nodes, fr, p).visible[d]
    decreases d
  {
    if d != c {
      var q := nodes[d].parent;
      DescLe(nodes, c, q);
      InvisibleSubtree(nodes, fr, p, c, q);
      DescOfChild(nodes, p, c, d);
      ChildrenRectsSound(nodes, fr, p, d);
    }
  }

  /** Later steps of the second loop leave a child not yet reached as it was. */
  lemma LaterChildUntouched(nodes: seq<Node>, rects0: seq<Rect>, p: int, fr: Frame, k: int, j: int)
    requires Tree(nodes) && IsParent(nodes, p) && |rects0| == |nodes| && Complete(nodes, fr)
    requires 0 <= k <= j < |Children(nodes, p)|
    ensures Same(PlaceList(nodes, rects0, p, fr, k).fr, fr, Children(nodes, p)[j])
  {
    TreeChildrenIn(nodes, p);
    assert ChildrenOk(nodes, p);
    var cs := Children(nodes, p);
    if UnderSome(nodes, cs[..k], cs[j]) {
      var i := UnderSomeWitness(nodes, cs[..k], cs[j]);
      SiblingsDisjoint(nodes, p, cs[j], cs[i], cs[j]);
      assert false;
    }
    PlaceListFrame(nodes, rects0, p, fr, k, cs[j]);
  }

  /** Placing child `k` leaves the subtree of an earlier child `j` as it was. */
  lemma LaterStepKeeps(nodes: seq<Node>, rects0: seq<Rect>, p: int, fr: Frame, j: int, k: int, d: int)
    requires Tree(nodes) && IsParent(nodes, p) && |rects0| == |nodes| && Complete(nodes, fr)
    requires 0 <= j < k < |Children(nodes, p)| && 0 <= d < |nodes| && Desc(nodes, Children(nodes, p)[j], d)
    ensures Same(PlaceList(nodes, rects0, p, fr, k + 1).fr, PlaceList(nodes, rects0, p, fr, k).fr, d)
  {
    TreeChildrenIn(nodes, p);
    assert ChildrenOk(nodes, p);
    var cs := Children(nodes, p);
    SiblingsDisjoint(nodes, p, cs[j], cs[k], d);
    PlaceStepFrame(nodes, rects0, p, PlaceList(nodes, rects0, p, fr, k), k, d);
  }

  /** Once child `j` has been placed, later steps leave its subtree as that step left it. */
  lemma {:induction false} EarlierChildKept(nodes: seq<Node>, rects0: seq<Rect>, p: int, fr: Frame, j: int, k: int, d: int)
    requires Tree(nodes) && IsParent(nodes, p) && |rects0| == |nodes| && Complete(nodes, fr)
    requires 0 <= j < k <= |Children(nodes, p)| && 0 <= d < |nodes| && Desc(nodes, Children(nodes, p)[j], d)
    ensures Same(PlaceList(nodes, rects0, p, fr, k).fr, PlaceList(nodes, rects0, p, fr, j + 1).fr, d)
    decreases k
  {
    if k > j + 1 {
      EarlierChildKept(nodes, rects0, p, fr, j, k - 1, d);
      LaterStepKeeps(nodes, rects0, p, fr, j, k - 1, d);
    }
  }

  /**
   * A child the first loop finds invisible (hidden, or atomic and not
   * fitting beside the aligned children before it) ends up invisible with
   * its whole subtree.
   */
  lemma ScanHiddenSubtree(nodes: seq<Node>, fr: Frame, p: int, j: int, d: int)
    requires Tree(nodes) && IsParent(nodes, p) && ChildrenIn(nodes, p) && Complete(nodes, fr)
    requires 0 <= j < |Children(nodes, p)| && 0 <= d < |nodes| && Desc(nodes, Children(nodes, p)[j], d)
    requires !ScanVisible(nodes, p, fr.rects, j)
    ensures !ChildrenRects(nodes, fr, p).visible[d]
  {
    var cs := Children(nodes, p);
    var marked := fr.(visible := ScanMarks(nodes, p, fr.rects, fr.visible, |cs|));
    var before := PlaceList(nodes, fr.rects, p, marked, j);
    EarlierChildKept(nodes, fr.rects, p, marked, j, |cs|, d);
    assert PlaceList(nodes, fr.rects, p, marked, j + 1).fr == HideTree(nodes, before.fr, cs[j]);
    HideTreeSpec(nodes, before.fr, cs[j], d);
  }

  /** Whether visible aligned child `j`, placed at `cursor`, would reach past the content's far edge. */
  function Overflows(nodes: seq<Node>, rects0: seq<Rect>, p: int, fr: Frame, cursor: Cursor, j: int): bool
    requires IsParent(nodes, p) && ChildrenIn(nodes, p) && |rects0| == |nodes| && Complete(nodes, fr)
    requires 0 <= j < |Children(nodes, p)| && ScanVisible(nodes, p, rects0, j)
    requires nodes[Children(nodes, p)[j]].rect.isNone
  {
    ScanCounts(nodes, p, rects0, j, |Children(nodes, p)|);
    var c := Children(nodes, p)[j];
    var l := LineOf(nodes, p, rects0);
    var s := MainSpan(l, ItemOf(nodes[p].kind, nodes[c], fr.rects[c]), cursor);
    s.pos + s.len > l.maxMain + l.mainStart
  }

  /**
   * An atomic aligned child that would reach past the content's far edge
   * gets length 0 along the parent's direction and is made invisible with
   * its whole subtree.
   */
  lemma AtomicOverflowStep(nodes: seq<Node>, rects0: seq<Rect>, p: int, pl: Placing, j: int, d: int)
    requires Tree(nodes) && IsParent(nodes, p) && ChildrenIn(nodes, p) && |rects0| == |nodes| && Complete(nodes, pl.fr)
    requires 0 <= j < |Children(nodes, p)| && 0 <= d < |nodes|
    requires ScanVisible(nodes, p, rects0, j)
    requires nodes[Children(nodes, p)[j]].rect.isNone && nodes[Children(nodes, p)[j]].isAtomic
    requires Overflows(nodes, rects0, p, pl.fr, pl.cursor, j)
    requires Desc(nodes, Children(nodes, p)[j], d)
    ensures !PlaceStep(nodes, rects0, p, pl, j).fr.visible[d]
    ensures var r := PlaceStep(nodes, rects0, p, pl, j).fr.rects[Children(nodes, p)[j]];
      if nodes[p].kind.isVertical then r.h == 0 else r.w == 0
  {
    var c := Children(nodes, p)[j];
    ScanCounts(nodes, p, rects0, j, |Children(nodes, p)|);
    PlaceClamp(LineOf(nodes, p, rects0), ItemOf(nodes[p].kind, nodes[c], pl.fr.rects[c]), pl.cursor);
    var res := ChildRect(nodes, rects0, p, pl.fr, pl.cursor, j);
    assert nodes[p].kind.isVertical ==> res.rect.h == 0;
    assert !nodes[p].kind.isVertical ==> res.rect.w == 0;
    HideTreeSpec(nodes, pl.fr.(rects := pl.fr.rects[c := res.rect]), c, d);
    assert PlaceStep(nodes, rects0, p, pl, j).fr == HideTree(nodes, pl.fr.(rects := pl.fr.rects[c := res.rect]), c);
  }

  /**
   * `tui_children_rect_calc` on parent `p`: the first loop sets the
   * children's visibility and counts the aligned ones, the second places
   * them one by one.
   */
  method ChildrenRectCalc(tui: Tui, p: int)
    requires tui.Arena() && IsParent(tui.nodes, p)
    modifies tui`rects, tui`visible
    ensures tui.Arena()
    ensures Frame(tui.rects, tui.visible) == ChildrenRects(tui.nodes, old(Frame(tui.rects, tui.visible)), p)
    decreases |tui.nodes| - p, 3
  {
    ghost var fr0 := Frame(tui.rects, tui.visible);
    var line := ScanChildren(tui, p);
    PlaceChildren(tui, p, fr0, line);
  }

  /** The second loop of `tui_children_rect_calc`: every child of `p` placed in order. */
  method PlaceChildren(tui: Tui, p: int, ghost fr0: Frame, line: Line)
    requires tui.Arena() && IsParent(tui.nodes, p) && Complete(tui.nodes, fr0)
    requires ChildrenIn(tui.nodes, p) && line == LineOf(tui.nodes, p, fr0.rects) && tui.rects == fr0.rects
    requires tui.visible == ScanMarks(tui.nodes, p, fr0.rects, fr0.visible, |Children(tui.nodes, p)|)
    modifies tui`rects, tui`visible
    ensures tui.Arena()
    ensures Frame(tui.rects, tui.visible) == PlaceList(tui.nodes, fr0.rects, p, old(Frame(tui.rects, tui.visible)), |Children(tui.nodes, p)|).fr
    decreases |tui.nodes| - p, 2
  {
    var cs := Children(tui.nodes, p);
    ghost var marked := Frame(tui.rects, tui.visible);
    var cursor := Cursor(0, 0, 0);
    var index := 0;
    while index < |cs|
      invariant 0 <= index <= |cs|
      invariant tui.Arena()
      invariant Placing(Frame(tui.rects, tui.visible), cursor) == PlaceList(tui.nodes, fr0.rects, p, marked, index)
    {
      cursor := PlaceNext(tui, p, fr0, marked, line, index, cursor);
      index := index + 1;
    }
  }

  /** One round of the second loop of `tui_children_rect_calc`: child `j` placed after the first `j`. */
  method PlaceNext(tui: Tui, p: int, ghost fr0: Frame, ghost marked: Frame, line: Line, j: int, cursor: Cursor)
    returns (next: Cursor)
    requires tui.Arena() && IsParent(tui.nodes, p) && Complete(tui.nodes, fr0) && Complete(tui.nodes, marked)
    requires 0 <= j < |Children(tui.nodes, p)| && line == LineOf(tui.nodes, p, fr0.rects)
    requires marked.visible == ScanMarks(tui.nodes, p, fr0.rects, fr0.visible, |Children(tui.nodes, p)|)
    requires Placing(Frame(tui.rects, tui.visible), cursor) == PlaceList(tui.nodes, fr0.rects, p, marked, j)
    modifies tui`rects, tui`visible
    ensures tui.Arena()
    ensures Placing(Frame(tui.rects, tui.visible), next) == PlaceList(tui.nodes, fr0.rects, p, marked, j + 1)
    decreases |tui.nodes| - p, 1
  {
    LaterChildUntouched(tui.nodes, fr0.rects, p, marked, j, j);
    ScanMarksAt(tui.nodes, p, fr0.rects, fr0.visible, |Children(tui.nodes, p)|, j);
    next := PlaceChildAt(tui, p, fr0.rects, line, j, cursor);
  }

  /**
   * The first loop of `tui_children_rect_calc`: every child's visibility,
   * and the line the aligned ones will be placed on.
   */
  method ScanChildren(tui: Tui, p: int) returns (line: Line)
    requires tui.Arena() && IsParent(tui.nodes, p)
    modifies tui`visible
    ensures tui.Arena() && ChildrenIn(tui.nodes, p)
    ensures tui.visible == ScanMarks(tui.nodes, p, tui.rects, old(tui.visible), |Children(tui.nodes, p)|)
    ensures line == LineOf(tui.nodes, p, tui.rects)
  {
    var nodes, rects, visible := tui.nodes, tui.rects, tui.visible;
    TreeChildrenIn(nodes, p);
    var kind := nodes[p].kind;
    var cs := Children(nodes, p);
    var max := MaxSizeGet(kind, rects[p]);
    var alignW, alignH, count, grow := 0, 0, 0, 0;
    var index := 0;
    while index < |cs|
      invariant 0 <= index <= |cs|
      invariant Scan(alignW, alignH, count, grow) == ScanFold(nodes, p, rects, index)
      invariant visible == ScanMarks(nodes, p, rects, tui.visible, index)
    {
      var child := nodes[cs[index]];
      var size := rects[cs[index]];
      if !child.rect.isNone {
        visible := visible[cs[index] := !child.isHidden];
      } else if child.isHidden {
        visible := visible[cs[index] := false];
      } else if kind.isVertical {
        if child.isAtomic && (alignH + size.h > max.h || size.w > max.w) {
          visible := visible[cs[index] := false];
        } else {
          visible := visible[cs[index] := true];
          count := count + 1;
          alignH := alignH + size.h;
          alignW := Max(alignW, size.w);
          if child.hGrow {
            grow := grow + 1;
          }
        }
      } else {
        if child.isAtomic && (alignW + size.w > max.w || size.h > max.h) {
          visible := visible[cs[index] := false];
        } else {
          visible := visible[cs[index] := true];
          count := count + 1;
          alignW := alignW + size.w;
          alignH := Max(alignH, size.h);
          if child.wGrow {
            grow := grow + 1;
          }
        }
      }
      index := index + 1;
    }
    tui.visible := visible;
    alignW := Min(alignW, max.w);
    alignH := Min(alignH, max.h);
    if kind.isVertical {
      line := Line(kind.align, kind.pos, kind.hasGap, 1, count, grow, max.h, max.w, alignH, ChildYGet(kind), ChildXGet(kind));
    } else {
      line := Line(kind.align, kind.pos, kind.hasGap, 2, count, grow, max.w, max.h, alignW, ChildXGet(kind), ChildYGet(kind));
    }
  }

  /**
   * One pass of the second loop of `tui_children_rect_calc` on child `j`,
   * `rects0` being the sizes the first loop read; returns the cursor for
   * the next child.
   */
  method PlaceChildAt(tui: Tui, p: int, ghost rects0: seq<Rect>, line: Line, j: int, cursor: Cursor) returns (next: Cursor)
    requires tui.Arena() && IsParent(tui.nodes, p) && ChildrenIn(tui.nodes, p) && |rects0| == |tui.nodes|
    requires 0 <= j < |Children(tui.nodes, p)| && line == LineOf(tui.nodes, p, rects0)
    requires tui.visible[Children(tui.nodes, p)[j]] == ScanVisible(tui.nodes, p, rects0, j)
    modifies tui`rects, tui`visible
    ensures tui.Arena()
    ensures Placing(Frame(tui.rects, tui.visible), next) ==
            PlaceStep(tui.nodes, rects0, p, Placing(old(Frame(tui.rects, tui.visible)), cursor), j)
    decreases |tui.nodes| - p, 0
  {
    TreeChildrenIn(tui.nodes, p);
    var kind := tui.nodes[p].kind;
    var c := Children(tui.nodes, p)[j];
    var child := tui.nodes[c];
    next := cursor;
    if !tui.visible[c] {
      SetInvisible(tui, c);
      return;
    }
    var r;
    if child.rect.isNone {
      ScanCounts(tui.nodes, p, rects0, j, |Children(tui.nodes, p)|);
      var placed := PlaceChild(line, ItemOf(kind, child, tui.rects[c]), cursor);
      r := SlotRect(kind, placed.slot);
      next := placed.next;
    } else {
      var parentRect := tui.rects[p];
      r := RectGet(child.rect, parentRect.w, parentRect.h);
    }
    tui.rects := tui.rects[c := r];
    if r.w == 0 || r.h == 0 {
      SetInvisible(tui, c);
    } else {
      tui.visible := tui.visible[c := true];
      tui.rects := tui.rects[c := Moved(r, tui.rects[p])];
      if IsParent(tui.nodes, c) {
        ChildrenRectCalc(tui, c);
      }
    }
  }

  /**
   * `tui_window_rect_calc` on window `id` inside a screen of `w` by `h`: a
   * hidden window is hidden with its subtree; a fixed rect is resolved
   * against the screen, while an unset rect keeps the measured size; a
   * window with no width or no height is hidden with its subtree, any other
   * is made visible and has its children laid out.
   */
  function WindowRect(nodes: seq<Node>, fr: Frame, id: int, w: int, h: int): (r: Frame)
    requires Tree(nodes) && 0 <= id < |nodes| && Complete(nodes, fr)
    ensures Complete(nodes, r)
  {
    if nodes[id].isHidden then HideTree(nodes, fr, id)
    else
      var placed := if !nodes[id].rect.isNone then fr.(rects := fr.rects[id := RectGet(nodes[id].rect, w, h)]) else fr;
      if placed.rects[id].w == 0 || placed.rects[id].h == 0 then HideTree(nodes, placed, id)
      else
        var shown := placed.(visible := placed.visible[id := true]);
        if IsParent(nodes, id) then ChildrenRects(nodes, shown, id) else shown
  }

  /** Laying out a window touches no window outside its subtree. */
  lemma WindowRectFrame(nodes: seq<Node>, fr: Frame, id: int, w: int, h: int, d: int)
    requires Tree(nodes) && 0 <= id < |nodes| && Complete(nodes, fr) && 0 <= d < |nodes|
    requires !Desc(nodes, id, d)
    ensures Same(WindowRect(nodes, fr, id, w, h), fr, d)
  {
    var placed := if !nodes[id].rect.isNone then fr.(rects := fr.rects[id := RectGet(nodes[id].rect, w, h)]) else fr;
    if nodes[id].isHidden {
      HideTreeSpec(nodes, fr, id, d);
    } else if placed.rects[id].w == 0 || placed.rects[id].h == 0 {
      HideTreeSpec(nodes, placed, id, d);
    } else if IsParent(nodes, id) {
      ChildrenRectsFrame(nodes, placed.(visible := placed.visible[id := true]), id, d);
    }
  }

  /**
   * After laying out a window, every window of its subtree that is visible
   * is not hidden, has a width and a height, and, below the window itself,
   * has a visible parent.
   */
  lemma WindowRectSound(nodes: seq<Node>, fr: Frame, id: int, w: int, h: int, d: int)
    requires Tree(nodes) && 0 <= id < |nodes| && Complete(nodes, fr) && 0 <= d < |nodes|
    requires Desc(nodes, id, d)
    ensures VisibleOk(nodes, WindowRect(nodes, fr, id, w, h), d)
    ensures d != id ==> ParentShown(nodes, WindowRect(nodes, fr, id, w, h), d)
  {
    var placed := if !nodes[id].rect.isNone then fr.(rects := fr.rects[id := RectGet(nodes[id].rect, w, h)]) else fr;
    if nodes[id].isHidden {
      HideTreeSpec(nodes, fr, id, d);
    } else if placed.rects[id].w == 0 || placed.rects[id].h == 0 {
      HideTreeSpec(nodes, placed, id, d);
    } else {
      var shown := placed.(visible := placed.visible[id := true]);
      if !IsParent(nodes, id) {
        SizePass.DescOnlySelf(nodes, id);
      } else {
        ChildrenRectsFrame(nodes, shown, id, id);
        if d != id {
          ChildrenRectsSound(nodes, shown, id, d);
        }
      }
    }
  }

  /** `tui_windows_rect_calc` over the first `k` windows of `ws`, in order. */
  function WindowsRects(nodes: seq<Node>, fr: Frame, ws: seq<int>, k: int, w: int, h: int): (r: Frame)
    requires Tree(nodes) && Complete(nodes, fr) && 0 <= k <= |ws|
    requires forall j :: 0 <= j < |ws| ==> 0 <= ws[j] < |nodes|
    ensures Complete(nodes, r)
  {
    if k == 0 then fr
    else WindowRect(nodes, WindowsRects(nodes, fr, ws, k - 1, w, h), ws[k - 1], w, h)
  }

  /** Laying out a list of windows touches no window outside their subtrees. */
  lemma {:induction false} WindowsRectsFrame(nodes: seq<Node>, fr: Frame, ws: seq<int>, k: int, w: int, h: int, d: int)
    requires Tree(nodes) && Complete(nodes, fr) && 0 <= k <= |ws| && 0 <= d < |nodes|
    requires forall j :: 0 <= j < |ws| ==> 0 <= ws[j] < |nodes|
    requires !UnderSome(nodes, ws[..k], d)
    ensures Same(WindowsRects(nodes, fr, ws, k, w, h), fr, d)
  {
    if k > 0 {
      assert ws[..k] == ws[..k - 1] + [ws[k - 1]];
      UnderSomeSnoc(nodes, ws[..k - 1], ws[k - 1], d);
      WindowsRectsFrame(nodes, fr, ws, k - 1, w, h, d);
      WindowRectFrame(nodes, WindowsRects(nodes, fr, ws, k - 1, w, h), ws[k - 1], w, h, d);
    }
  }

  /**
   * After laying out a list of parentless windows, every window below one
   * of them that is visible is not hidden, has a width and a height, and
   * has a visible parent when it has a parent.
   */
  lemma {:induction false} WindowsRectsSound(nodes: seq<Node>, fr: Frame, ws: seq<int>, k: int, w: int, h: int, d: int)
    requires Tree(nodes) && Complete(nodes, fr) && 0 <= k <= |ws| && 0 <= d < |nodes|
    requires forall j :: 0 <= j < |ws| ==> 0 <= ws[j] < |nodes| && nodes[ws[j]].parent == NULL
    requires UnderSome(nodes, ws[..k], d)
    ensures VisibleOk(nodes, WindowsRects(nodes, fr, ws, k, w, h), d)
    ensures ParentShown(nodes, WindowsRects(nodes, fr, ws, k, w, h), d)
  {
    assert ws[..k] == ws[..k - 1] + [ws[k - 1]];
    UnderSomeSnoc(nodes, ws[..k - 1], ws[k - 1], d);
    var before := WindowsRects(nodes, fr, ws, k - 1, w, h);
    if Desc(nodes, ws[k - 1], d) {
      WindowRectSound(nodes, before, ws[k - 1], w, h, d);
    } else {
      WindowsRectsSound(nodes, fr, ws, k - 1, w, h, d);
      WindowRectFrame(nodes, before, ws[k - 1], w, h, d);
      var q := nodes[d].parent;
      if 0 <= q < |nodes| {
        DescViaParent(nodes, ws[k - 1], d);
        WindowRectFrame(nodes, before, ws[k - 1], w, h, q);
      }
    }
  }

  /**
   * `tui_rect_calc`: the toolkit's windows, then the active menu's
   * windows (`menuWindows`, empty without an active menu), inside a screen
   * of `w` by `h`.
   */
  function RectCalcAll(nodes: seq<Node>, fr: Frame, windows: seq<int>, menuWindows: seq<int>, w: int, h: int): (r: Frame)
    requires Tree(nodes) && Complete(nodes, fr)
    requires forall j :: 0 <= j < |windows| ==> 0 <= windows[j] < |nodes|
    requires forall j :: 0 <= j < |menuWindows| ==> 0 <= menuWindows[j] < |nodes|
    ensures Complete(nodes, r)
  {
    WindowsRects(nodes, WindowsRects(nodes, fr, windows, |windows|, w, h), menuWindows, |menuWindows|, w, h)
  }

  /** `s[..|s|]` is `s`, so "below one of the first |s| windows" is "below one of them". */
  lemma UnderSomeAll(nodes: seq<Node>, ws: seq<int>, d: int)
    requires 0 <= d < |nodes|
    ensures UnderSome(nodes, ws[..|ws|], d) == UnderSome(nodes, ws, d)
  {
    assert ws[..|ws|] == ws;
  }

  /**
   * What the rect pass guarantees: below the toolkit's and the active
   * menu's windows, a visible window is not hidden, has a width and a
   * height, and has a visible parent when it has one; so an invisible
   * window has an invisible subtree. Every other window is left as it was.
   */
  lemma RectCalcSound(nodes: seq<Node>, fr: Frame, windows: seq<int>, menuWindows: seq<int>, w: int, h: int, d: int)
    requires Tree(nodes) && Complete(nodes, fr) && 0 <= d < |nodes|
    requires forall j :: 0 <= j < |windows| ==> 0 <= windows[j] < |nodes| && nodes[windows[j]].parent == NULL
    requires forall j :: 0 <= j < |menuWindows| ==> 0 <= menuWindows[j] < |nodes| && nodes[menuWindows[j]].parent == NULL
    ensures UnderSome(nodes, windows, d) || UnderSome(nodes, menuWindows, d) ==>
      VisibleOk(nodes, RectCalcAll(nodes, fr, windows, menuWindows, w, h), d) &&
      ParentShown(nodes, RectCalcAll(nodes, fr, windows, menuWindows, w, h), d)
    ensures !UnderSome(nodes, windows, d) && !UnderSome(nodes, menuWindows, d) ==>
      Same(RectCalcAll(nodes, fr, windows, menuWindows, w, h), fr, d)
  {
    var first := WindowsRects(nodes, fr, windows, |windows|, w, h);
    UnderSomeAll(nodes, windows, d);
    UnderSomeAll(nodes, menuWindows, d);
    if UnderSome(nodes, menuWindows, d) {
      WindowsRectsSound(nodes, first, menuWindows, |menuWindows|, w, h, d);
    } else {
      WindowsRectsFrame(nodes, first, menuWindows, |menuWindows|, w, h, d);
      if UnderSome(nodes, windows, d) {
        WindowsRectsSound(nodes, fr, windows, |windows|, w, h, d);
        var q := nodes[d].parent;
        if 0 <= q < |nodes| {
          UnderSomeAll(nodes, menuWindows, q);
          if UnderSome(nodes, menuWindows, q) {
            var j := UnderSomeWitness(nodes, menuWindows, q);
            DescViaParent(nodes, menuWindows[j], d);
            UnderSomeOf(nodes, menuWindows, j, d);
            assert false;
          }
          WindowsRectsFrame(nodes, first, menuWindows, |menuWindows|, w, h, q);
        }
      } else {
        WindowsRectsFrame(nodes, fr, windows, |windows|, w, h, d);
      }
    }
  }

  /** Following visible parents up from a visible window never reaches an invisible one. */
  lemma {:induction false} VisibleAncestors(nodes: seq<Node>, fr: Frame, windows: seq<int>, menuWindows: seq<int>, w: int, h: int, a: int, d: int)
    requires Tree(nodes) && Complete(nodes, fr) && 0 <= d < |nodes|
    requires forall j :: 0 <= j < |windows| ==> 0 <= windows[j] < |nodes| && nodes[windows[j]].parent == NULL
    requires forall j :: 0 <= j < |menuWindows| ==> 0 <= menuWindows[j] < |nodes| && nodes[menuWindows[j]].parent == NULL
    requires UnderSome(nodes, windows, d) || UnderSome(nodes, menuWindows, d)
    requires Desc(nodes, a, d) && RectCalcAll(nodes, fr, windows, menuWindows, w, h).visible[d]
    ensures 0 <= a < |nodes| && RectCalcAll(nodes, fr, windows, menuWindows, w, h).visible[a]
    decreases d
  {
    RectCalcSound(nodes, fr, windows, menuWindows, w, h, d);
    if d != a {
      var q := nodes[d].parent;
      if UnderSome(nodes, windows, d) {
        var j := UnderSomeWitness(nodes, windows, d);
        UnderSomeOf(nodes, windows, j, q);
      } else {
        var j := UnderSomeWitness(nodes, menuWindows, d);
        UnderSomeOf(nodes, menuWindows, j, q);
      }
      VisibleAncestors(nodes, fr, windows, menuWindows, w, h, a, q);
    }
  }

  /** `tui_window_rect_calc` on window `id`. */
  method WindowRectCalc(tui: Tui, id: int, w: int, h: int)
    requires tui.Arena() && 0 <= id < |tui.nodes|
    modifies tui`rects, tui`visible
    ensures tui.Arena()
    ensures Frame(tui.rects, tui.visible) == WindowRect(tui.nodes, old(Frame(tui.rects, tui.visible)), id, w, h)
  {
    var node := tui.nodes[id];
    if node.isHidden {
      SetInvisible(tui, id);
      return;
    }
    if !node.rect.isNone {
      tui.rects := tui.rects[id := RectGet(node.rect, w, h)];
    }
    if tui.rects[id].w == 0 || tui.rects[id].h == 0 {
      SetInvisible(tui, id);
    } else {
      tui.visible := tui.visible[id := true];
      if IsParent(tui.nodes, id) {
        ChildrenRectCalc(tui, id);
      }
    }
  }

  /** `tui_windows_rect_calc`: every window of `ws`, in order. */
  method WindowsRectCalc(tui: Tui, ws: seq<int>, w: int, h: int)
    requires tui.Arena()
    requires forall j :: 0 <= j < |ws| ==> 0 <= ws[j] < |tui.nodes|
    modifies tui`rects, tui`visible
    ensures tui.Arena()
    ensures Frame(tui.rects, tui.visible) == WindowsRects(tui.nodes, old(Frame(tui.rects, tui.visible)), ws, |ws|, w, h)
  {
    ghost var fr := Frame(tui.rects, tui.visible);
    var index := 0;
    while index < |ws|
      invariant 0 <= index <= |ws|
      invariant tui.Arena()
      invariant Frame(tui.rects, tui.visible) == WindowsRects(tui.nodes, fr, ws, index, w, h)
    {
      ghost var before := Frame(tui.rects, tui.visible);
      WindowRectCalc(tui, ws[index], w, h);
      assert WindowsRects(tui.nodes, fr, ws, index + 1, w, h) == WindowRect(tui.nodes, before, ws[index], w, h);
      index := index + 1;
    }
  }

  /** `tui_rect_calc`: the toolkit's windows, then the active menu's, inside the screen size. */
  method RectCalc(tui: Tui)
    requires tui.Arena() && tui.Starts()
    modifies tui`rects, tui`visible
    ensures tui.Arena()
    ensures Frame(tui.rects, tui.visible) ==
            RectCalcAll(tui.nodes, old(Frame(tui.rects, tui.visible)), tui.windows, tui.MenuWindows(), tui.size.w, tui.size.h)
  {
    var w := tui.size.w;
    var h := tui.size.h;
    WindowsRectCalc(tui, tui.windows, w, h);
    if tui.menu != NULL {
      assert tui.menus[tui.menu].windows == tui.MenuWindows();
      WindowsRectCalc(tui, tui.menus[tui.menu].windows, w, h);
    } else {
      WindowsRectCalc(tui, [], w, h);
    }
  }

}
