/**
 * The window tree. Windows live in one arena, `nodes`, and refer to each
 * other by index, `NULL` (-1) standing for a missing reference: a window's
 * parent and menu, a parent's children, a menu's windows, and the active
 * window and menu of the toolkit. A child is always created after its
 * parent, so its index is larger; this is what makes every walk up or down
 * the tree terminate.
 *
 * The per-frame results of layout are kept beside the arena, one entry per
 * window: `rects` (the calculated rect `_rect`), `visible` (`_is_visable`)
 * and `texts` (the text of a text window with its escapes removed).
 */
module Windows {
  import opened Base

  /** Position of content across the axis: 0, 1 or 2 halves of the free space. */
  datatype Pos = PosStart | PosCenter | PosEnd

  function PosValue(p: Pos): (v: int)
    ensures 0 <= v <= 2
  {
    match p
    case PosStart => 0
    case PosCenter => 1
    case PosEnd => 2
  }

  /** Alignment of children along the axis; the first three are the positions 0 to 2. */
  datatype Align = AlignStart | AlignCenter | AlignEnd | AlignBetween | AlignAround | AlignEvenly

  function AlignValue(a: Align): (v: int)
    ensures 0 <= v <= 5
    ensures v < 3 <==> a.AlignStart? || a.AlignCenter? || a.AlignEnd?
  {
    match a
    case AlignStart => 0
    case AlignCenter => 1
    case AlignEnd => 2
    case AlignBetween => 3
    case AlignAround => 4
    case AlignEvenly => 5
  }

  /** What a window holds: children, a string, or a grid of cells. */
  datatype Kind =
    | ParentWindow(children: seq<int>, isVertical: bool, hasBorder: bool, hasShadow: bool,
                   hasPadding: bool, hasGap: bool, pos: Pos, align: Align)
    | TextWindow(str: seq<char>, isSecret: bool)
    | GridWindow(size: Size, hasCells: bool)

  /**
   * A window. A missing name is `None`; `key` says whether the window has a
   * key hook (what a hook does with a key is user code, given to the event
   * handling as a parameter).
   */
  datatype Node = Node(name: Option<seq<char>>, kind: Kind,
                       isAtomic: bool, isHidden: bool, isInteract: bool, isContain: bool,
                       wGrow: bool, hGrow: bool, rect: Rect, color: Color,
                       parent: int, menu: int, key: bool)

  datatype Menu = Menu(name: seq<char>, color: Color, windows: seq<int>, key: bool)

  predicate IsParent(nodes: seq<Node>, p: int)
  {
    0 <= p < |nodes| && nodes[p].kind.ParentWindow?
  }

  function Children(nodes: seq<Node>, p: int): seq<int>
    requires IsParent(nodes, p)
  {
    nodes[p].kind.children
  }

  /**
   * The arena is a forest: every parent reference points to an earlier
   * parent window that lists the child among its children, and a parent's
   * children are distinct windows that name it as their parent.
   */
  ghost predicate Tree(nodes: seq<Node>)
  {
    (forall i {:trigger nodes[i].parent} :: 0 <= i < |nodes| ==> -1 <= nodes[i].parent < i) &&
    (forall i {:trigger Up(nodes, i)} :: 0 <= i < |nodes| && Up(nodes, i) != NULL ==>
       IsParent(nodes, Up(nodes, i)) && i in Children(nodes, Up(nodes, i))) &&
    (forall p :: IsParent(nodes, p) ==> ChildrenOk(nodes, p))
  }

  /**
   * The parent of window `i`. Facts about a window's parent hang on this
   * name rather than on the field itself, so that they are drawn only for
   * the windows a proof asks about.
   */
  function Up(nodes: seq<Node>, i: int): int
    requires 0 <= i < |nodes|
  {
    nodes[i].parent
  }

  ghost predicate ChildrenOk(nodes: seq<Node>, p: int)
    requires IsParent(nodes, p)
  {
    var cs := Children(nodes, p);
    (forall j :: 0 <= j < |cs| ==> p < cs[j] < |nodes| && nodes[cs[j]].parent == p) &&
    (forall j, k :: 0 <= j < k < |cs| ==> cs[j] != cs[k])
  }

  /** A window with a parent is listed among the children of that parent window. */
  lemma Linked(nodes: seq<Node>, i: int)
    requires Tree(nodes) && 0 <= i < |nodes| && nodes[i].parent != NULL
    ensures IsParent(nodes, nodes[i].parent) && i in Children(nodes, nodes[i].parent)
  {
    assert Up(nodes, i) == nodes[i].parent;
  }

  /** Every child of parent `p` is a window of the arena. */
  predicate ChildrenIn(nodes: seq<Node>, p: int)
    requires IsParent(nodes, p)
  {
    forall j :: 0 <= j < |Children(nodes, p)| ==> 0 <= Children(nodes, p)[j] < |nodes|
  }

  /** In a forest every child comes after its parent in the arena. */
  lemma TreeChildrenIn(nodes: seq<Node>, p: int)
    requires Tree(nodes) && IsParent(nodes, p)
    ensures ChildrenIn(nodes, p)
    ensures forall j :: 0 <= j < |Children(nodes, p)| ==> p < Children(nodes, p)[j] < |nodes|
  {
    assert ChildrenOk(nodes, p);
  }

  /** `d` is `a` or lies below `a`: following parent references from `d` reaches `a`. */
  ghost predicate Desc(nodes: seq<Node>, a: int, d: int)
    requires 0 <= d < |nodes|
    decreases d
  {
    d == a || (0 <= nodes[d].parent < d && Desc(nodes, a, nodes[d].parent))
  }

  lemma {:induction false} DescLe(nodes: seq<Node>, a: int, d: int)
    requires 0 <= d < |nodes| && Desc(nodes, a, d)
    ensures a <= d
    decreases d
  {
    if d != a {
      DescLe(nodes, a, nodes[d].parent);
    }
  }

  /** Everything below a child lies below its parent. */
  lemma {:induction false} DescOfChild(nodes: seq<Node>, p: int, c: int, d: int)
    requires 0 <= c < |nodes| && 0 <= d < |nodes| && 0 <= nodes[c].parent < c && nodes[c].parent == p
    requires Desc(nodes, c, d)
    ensures Desc(nodes, p, d) && d != p
    decreases d
  {
    DescLe(nodes, c, d);
    if d != c {
      DescOfChild(nodes, p, c, nodes[d].parent);
    }
  }

  /** The subtrees of two different children of one parent are disjoint. */
  lemma {:induction false} SiblingsDisjoint(nodes: seq<Node>, p: int, c1: int, c2: int, d: int)
    requires 0 <= c1 < |nodes| && 0 <= c2 < |nodes| && 0 <= d < |nodes|
    requires p < c1 && p < c2 && c1 != c2
    requires nodes[c1].parent == p && nodes[c2].parent == p
    requires Desc(nodes, c1, d)
    ensures !Desc(nodes, c2, d)
    decreases d
  {
    if d == c1 {
      if Desc(nodes, c2, d) {
        DescLe(nodes, c2, p);
      }
    } else if d == c2 {
      DescLe(nodes, c1, p);
    } else {
      SiblingsDisjoint(nodes, p, c1, c2, nodes[d].parent);
    }
  }

  /** Two windows without parents have disjoint subtrees. */
  lemma {:induction false} RootsDisjoint(nodes: seq<Node>, r1: int, r2: int, d: int)
    requires 0 <= r1 < |nodes| && 0 <= r2 < |nodes| && 0 <= d < |nodes| && r1 != r2
    requires nodes[r1].parent == NULL && nodes[r2].parent == NULL
    requires Desc(nodes, r1, d)
    ensures !Desc(nodes, r2, d)
    decreases d
  {
    if d != r1 && d != r2 {
      RootsDisjoint(nodes, r1, r2, nodes[d].parent);
    }
  }

  /** `d` lies in the subtree of one of the windows `ws`. */
  ghost predicate UnderSome(nodes: seq<Node>, ws: seq<int>, d: int)
    requires 0 <= d < |nodes|
    decreases |ws|
  {
    |ws| > 0 && (Desc(nodes, ws[|ws| - 1], d) || UnderSome(nodes, ws[..|ws| - 1], d))
  }

  lemma UnderSomeSnoc(nodes: seq<Node>, ws: seq<int>, w: int, d: int)
    requires 0 <= d < |nodes|
    ensures UnderSome(nodes, ws + [w], d) <==> Desc(nodes, w, d) || UnderSome(nodes, ws, d)
  {
    assert (ws + [w])[..|ws|] == ws;
  }

  lemma {:induction false} UnderSomeWitness(nodes: seq<Node>, ws: seq<int>, d: int) returns (j: int)
    requires 0 <= d < |nodes| && UnderSome(nodes, ws, d)
    ensures 0 <= j < |ws| && Desc(nodes, ws[j], d)
    decreases |ws|
  {
    if Desc(nodes, ws[|ws| - 1], d) {
      j := |ws| - 1;
    } else {
      j := UnderSomeWitness(nodes, ws[..|ws| - 1], d);
    }
  }

  lemma {:induction false} UnderSomeOf(nodes: seq<Node>, ws: seq<int>, j: int, d: int)
    requires 0 <= d < |nodes| && 0 <= j < |ws| && Desc(nodes, ws[j], d)
    ensures UnderSome(nodes, ws, d)
    decreases |ws|
  {
    if j < |ws| - 1 {
      UnderSomeOf(nodes, ws[..|ws| - 1], j, d);
    }
  }

  /** The windows strictly below a parent are exactly the windows below one of its children. */
  lemma {:induction false} StrictDescIsUnderChildren(nodes: seq<Node>, p: int, d: int)
    requires Tree(nodes) && IsParent(nodes, p) && 0 <= d < |nodes|
    ensures (Desc(nodes, p, d) && d != p) <==> UnderSome(nodes, Children(nodes, p), d)
    decreases d
  {
    var cs := Children(nodes, p);
    assert ChildrenOk(nodes, p);
    if UnderSome(nodes, cs, d) {
      var j := UnderSomeWitness(nodes, cs, d);
      DescOfChild(nodes, p, cs[j], d);
    }
    if Desc(nodes, p, d) && d != p {
      var q := nodes[d].parent;
      if q == p {
        Linked(nodes, d);
        var j :| 0 <= j < |cs| && cs[j] == d;
        UnderSomeOf(nodes, cs, j, d);
      } else {
        StrictDescIsUnderChildren(nodes, p, q);
        var j := UnderSomeWitness(nodes, cs, q);
        UnderSomeOf(nodes, cs, j, d);
      }
    }
  }

  /** The toolkit: its window arena, menus, focus and per-frame layout results. */
  class Tui {
    var size: Size
    var nodes: seq<Node>
    var menus: seq<Menu>
    var windows: seq<int>
    var menu: int
    var window: int
    var color: Color
    var key: bool
    var rects: seq<Rect>
    var visible: seq<bool>
    var texts: seq<seq<char>>

    /** The arena is a forest and every per-window result has one entry per window. */
    ghost predicate Arena()
      reads this`nodes, this`rects, this`visible, this`texts
    {
      Tree(nodes) && |rects| == |nodes| && |visible| == |nodes| && |texts| == |nodes|
    }

    /**
     * The toolkit's own windows and every menu's windows are parentless
     * windows of the arena, and every reference is NULL or in range.
     */
    ghost predicate Refs()
      reads this`nodes, this`menus, this`windows, this`menu, this`window
    {
      (forall i :: 0 <= i < |windows| ==> 0 <= windows[i] < |nodes| && nodes[windows[i]].parent == NULL) &&
      (forall m, i :: 0 <= m < |menus| && 0 <= i < |menus[m].windows| ==>
         0 <= menus[m].windows[i] < |nodes| && nodes[menus[m].windows[i]].parent == NULL) &&
      (forall i :: 0 <= i < |nodes| ==> nodes[i].menu == NULL || 0 <= nodes[i].menu < |menus|) &&
      (menu == NULL || 0 <= menu < |menus|) &&
      (window == NULL || 0 <= window < |nodes|)
    }

    /** The toolkit is well formed: its arena, and every reference into it. */
    ghost predicate Valid()
      reads this
    {
      Arena() && Refs()
    }

    /** The windows of the active menu, none when no menu is active. */
    function MenuWindows(): seq<int>
      reads this`menus, this`menu
    {
      if 0 <= menu < |menus| then menus[menu].windows else []
    }

    /** The windows every pass starts from: the toolkit's own, then the active menu's. */
    function Roots(): seq<int>
      reads this`windows, this`menus, this`menu
    {
      windows + MenuWindows()
    }

    /**
     * What the layout passes need of the references: the active menu is NULL
     * or a menu, and the toolkit's windows and the active menu's windows are
     * parentless windows of the arena.
     */
    ghost predicate Starts()
      reads this`nodes, this`windows, this`menus, this`menu
    {
      (menu == NULL || 0 <= menu < |menus|) &&
      (forall j :: 0 <= j < |windows| ==> 0 <= windows[j] < |nodes| && nodes[windows[j]].parent == NULL) &&
      (forall j :: 0 <= j < |MenuWindows()| ==> 0 <= MenuWindows()[j] < |nodes| && nodes[MenuWindows()[j]].parent == NULL)
    }

    /** A well-formed toolkit has what the layout passes need. */
    lemma ValidStarts()
      requires Valid()
      ensures Starts()
    {
      if 0 <= menu < |menus| {
        forall j | 0 <= j < |menus[menu].windows|
          ensures 0 <= menus[menu].windows[j] < |nodes| && nodes[menus[menu].windows[j]].parent == NULL
        {
        }
      }
    }

    /** Every starting window is a parentless window of the arena. */
    lemma RootsIn()
      requires Starts()
      ensures forall j :: 0 <= j < |Roots()| ==> 0 <= Roots()[j] < |nodes| && nodes[Roots()[j]].parent == NULL
    {
      var rs := Roots();
      forall j | 0 <= j < |rs|
        ensures 0 <= rs[j] < |nodes| && nodes[rs[j]].parent == NULL
      {
        if j >= |windows| {
          assert rs[j] == MenuWindows()[j - |windows|];
        }
      }
    }
  }
}
