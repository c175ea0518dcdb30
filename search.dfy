/**
 * Window lookup by path (`tui_window_window_search` and its relatives). A
 * path is a list of segments separated by single spaces; a segment names a
 * window among the windows searched, and the segment `.` means the parent
 * of the current window (or, from a parentless window, the windows of its
 * menu or of the toolkit). The first window whose name matches a segment
 * is taken, and the rest of the path is searched from it.
 *
 * The search reads the arena, the menus and the toolkit's windows; it is a
 * family of functions on a `Focus.Scene`, mutually recursive and
 * terminating because every recursive call either consumes a segment or
 * moves from a window to its list of children.
 */
module Search {
  import opened Base
  import opened Windows
  import opened Focus

  /** The position of the first space in `p`, or -1. */
  function Space(p: seq<char>): (i: int)
    ensures -1 <= i < |p|
    ensures i == -1 <==> ' ' !in p
    ensures i >= 0 ==> p[i] == ' ' && ' ' !in p[..i]
    decreases |p|
  {
    if |p| == 0 then -1
    else if p[0] == ' ' then 0
    else
      var i := Space(p[1..]);
      assert forall k :: 1 <= k < |p| ==> p[k] == p[1..][k - 1];
      if i == -1 then -1
      else
        assert p[..i + 1] == [p[0]] + p[1..][..i];
        i + 1
  }

  /** The first segment of a path: everything before the first space. */
  function Head(p: seq<char>): (h: seq<char>)
    ensures ' ' !in h && |h| <= |p|
  {
    var i := Space(p);
    if i == -1 then p else p[..i]
  }

  /** The path after the first space, `None` when there is no space. */
  function Tail(p: seq<char>): (t: Option<seq<char>>)
    ensures t.None? <==> ' ' !in p
    ensures t.Some? ==> p == Head(p) + [' '] + t.value && |t.value| < |p|
  {
    var i := Space(p);
    if i == -1 then None
    else
      assert p == p[..i] + [' '] + p[i + 1..];
      Some(p[i + 1..])
  }

  /** A path made of a segment without spaces, a space and a rest splits back into the two. */
  lemma SplitJoin(h: seq<char>, rest: seq<char>)
    requires ' ' !in h
    ensures Head(h + [' '] + rest) == h && Tail(h + [' '] + rest) == Some(rest)
  {
    var p := h + [' '] + rest;
    assert p[..|h|] == h;
    assert p[|h|] == ' ';
    IndexOfSpace(p, |h|);
  }

  /** The first space is at `i` when `p[i]` is a space and none comes before it. */
  lemma IndexOfSpace(p: seq<char>, i: int)
    requires 0 <= i < |p| && p[i] == ' ' && ' ' !in p[..i]
    ensures Space(p) == i
  {
  }

  /** Window `w` has the name `n`. */
  predicate Named(nodes: seq<Node>, w: int, n: seq<char>)
  {
    0 <= w < |nodes| && nodes[w].name == Some(n)
  }

  /** The segment `.`. */
  predicate IsUp(h: seq<char>)
  {
    h == ['.']
  }

  /**
   * `tui_windows_window_search`: the first window of `ws` named like the
   * first segment; the whole path when that was the last segment, else
   * the rest of the path searched from it. NULL when no window matches.
   */
  function WindowsSearch(s: Scene, ws: seq<int>, p: seq<char>): (r: int)
    requires SceneOk(s) && AllIn(s.nodes, ws)
    ensures r == NULL || 0 <= r < |s.nodes|
    decreases |p|, 0, |ws|
  {
    if |ws| == 0 then NULL
    else if Named(s.nodes, ws[0], Head(p)) then
      match Tail(p)
      case None => ws[0]
      case Some(rest) => WindowSearch(s, ws[0], rest)
    else WindowsSearch(s, ws[1..], p)
  }

  /** `tui_window_search`: a path from the toolkit's own windows; it cannot start with `.`. */
  function TuiSearch(s: Scene, p: seq<char>): (r: int)
    requires SceneOk(s)
    ensures r == NULL || 0 <= r < |s.nodes|
    ensures IsUp(Head(p)) ==> r == NULL
    decreases |p|, 1, 0
  {
    if IsUp(Head(p)) then NULL
    else
      RootListsIn(s, Active(NULL, NULL));
      WindowsSearch(s, s.windows, p)
  }

  /** `tui_menu_window_search`: a path from the windows of menu `m`; it cannot start with `.`. */
  function MenuSearch(s: Scene, m: int, p: seq<char>): (r: int)
    requires SceneOk(s) && 0 <= m < |s.menus|
    ensures r == NULL || 0 <= r < |s.nodes|
    ensures IsUp(Head(p)) ==> r == NULL
    decreases |p|, 1, 0
  {
    if IsUp(Head(p)) then NULL
    else
      RootListsIn(s, Active(NULL, m));
      WindowsSearch(s, s.menus[m].windows, p)
  }

  /**
   * `tui_window_window_search`: the path from window `w`. The empty path
   * and the NULL window give `w` itself. A `.` segment goes to the parent,
   * or, from a parentless window, on to the windows of its menu, or of the
   * toolkit; any other segment is looked up among the children of a parent
   * window, and finds nothing in a text or grid window.
   */
  function WindowSearch(s: Scene, w: int, p: seq<char>): (r: int)
    requires SceneOk(s) && -1 <= w < |s.nodes|
    ensures r == NULL || 0 <= r < |s.nodes|
    ensures |p| == 0 ==> r == w
    decreases |p|, 1, 0
  {
    if w == NULL || |p| == 0 then w
    else if IsUp(Head(p)) then
      match Tail(p)
      case None => s.nodes[w].parent
      case Some(rest) =>
        if s.nodes[w].parent != NULL then WindowSearch(s, s.nodes[w].parent, rest)
        else if s.nodes[w].menu != NULL then MenuSearch(s, s.nodes[w].menu, rest)
        else TuiSearch(s, rest)
    else if IsParent(s.nodes, w) then
      TreeChildrenIn(s.nodes, w);
      WindowsSearch(s, Children(s.nodes, w), p)
    else NULL
  }

  /**
   * A single segment `n` finds a window of `ws` exactly when one of them is
   * named `n`, and then it finds the first such window.
   */
  lemma {:induction false} WindowsSearchName(s: Scene, ws: seq<int>, n: seq<char>)
    requires SceneOk(s) && AllIn(s.nodes, ws) && ' ' !in n
    ensures WindowsSearch(s, ws, n) != NULL <==> exists j :: 0 <= j < |ws| && Named(s.nodes, ws[j], n)
    ensures forall j :: 0 <= j < |ws| && Named(s.nodes, ws[j], n) && (forall k :: 0 <= k < j ==> !Named(s.nodes, ws[k], n)) ==>
              WindowsSearch(s, ws, n) == ws[j]
    decreases |ws|
  {
    if |ws| > 0 {
      assert Head(n) == n && Tail(n) == None;
      if !Named(s.nodes, ws[0], n) {
        WindowsSearchName(s, ws[1..], n);
        assert forall j :: 1 <= j < |ws| ==> ws[j] == ws[1..][j - 1];
        if exists j :: 0 <= j < |ws| && Named(s.nodes, ws[j], n) {
          var j :| 0 <= j < |ws| && Named(s.nodes, ws[j], n);
          assert Named(s.nodes, ws[1..][j - 1], n);
        }
      }
    }
  }

  /**
   * A name without spaces, other than `.`, looked up from a parent window
   * finds its first child of that name, and nothing when no child has it.
   */
  lemma ChildByName(s: Scene, w: int, n: seq<char>)
    requires SceneOk(s) && IsParent(s.nodes, w) && |n| > 0 && ' ' !in n && !IsUp(n)
    ensures WindowSearch(s, w, n) != NULL <==> exists j :: 0 <= j < |Children(s.nodes, w)| && Named(s.nodes, Children(s.nodes, w)[j], n)
    ensures forall j :: 0 <= j < |Children(s.nodes, w)| && Named(s.nodes, Children(s.nodes, w)[j], n) &&
                        (forall k :: 0 <= k < j ==> !Named(s.nodes, Children(s.nodes, w)[k], n)) ==>
              WindowSearch(s, w, n) == Children(s.nodes, w)[j]
  {
    TreeChildrenIn(s.nodes, w);
    assert Head(n) == n;
    WindowsSearchName(s, Children(s.nodes, w), n);
  }

  /** The path `.` from a window is its parent, NULL for a parentless window. */
  lemma UpIsParent(s: Scene, w: int)
    requires SceneOk(s) && 0 <= w < |s.nodes|
    ensures WindowSearch(s, w, ['.']) == s.nodes[w].parent
  {
    assert Space(['.']) == -1;
  }

  /**
   * Following a path segment by segment: searching `h rest` from a list of
   * windows is searching `rest` from the window `h` finds among them.
   */
  lemma {:induction false} WindowsSearchCompose(s: Scene, ws: seq<int>, h: seq<char>, rest: seq<char>)
    requires SceneOk(s) && AllIn(s.nodes, ws) && ' ' !in h
    ensures WindowsSearch(s, ws, h + [' '] + rest) == WindowSearch(s, WindowsSearch(s, ws, h), rest)
    decreases |ws|
  {
    SplitJoin(h, rest);
    assert Head(h) == h && Tail(h) == None;
    if |ws| > 0 && !Named(s.nodes, ws[0], h) {
      WindowsSearchCompose(s, ws[1..], h, rest);
    }
  }

  /**
   * Following a path segment by segment from a window: searching `h rest`
   * is searching `rest` from where `h` leads, for a non-empty segment `h`
   * that is not `.` or is `.` from a window with a parent.
   */
  lemma WindowSearchCompose(s: Scene, w: int, h: seq<char>, rest: seq<char>)
    requires SceneOk(s) && 0 <= w < |s.nodes| && |h| > 0 && ' ' !in h
    requires IsUp(h) ==> s.nodes[w].parent != NULL
    ensures WindowSearch(s, w, h + [' '] + rest) == WindowSearch(s, WindowSearch(s, w, h), rest)
  {
    SplitJoin(h, rest);
    assert Head(h) == h && Tail(h) == None;
    if !IsUp(h) && IsParent(s.nodes, w) {
      TreeChildrenIn(s.nodes, w);
      WindowsSearchCompose(s, Children(s.nodes, w), h, rest);
    }
  }

  /** `tui_window_window_text_search`: the window the path leads to, when it is a text window. */
  function TextSearch(s: Scene, w: int, p: seq<char>): (r: int)
    requires SceneOk(s) && -1 <= w < |s.nodes|
    ensures r == NULL || (r == WindowSearch(s, w, p) && s.nodes[r].kind.TextWindow?)
    ensures WindowSearch(s, w, p) != NULL && s.nodes[WindowSearch(s, w, p)].kind.TextWindow? ==> r == WindowSearch(s, w, p)
  {
    var r := WindowSearch(s, w, p);
    if r != NULL && s.nodes[r].kind.TextWindow? then r else NULL
  }

  /** `tui_window_window_parent_search`: the window the path leads to, when it is a parent window. */
  function ParentSearch(s: Scene, w: int, p: seq<char>): (r: int)
    requires SceneOk(s) && -1 <= w < |s.nodes|
    ensures r == NULL || (r == WindowSearch(s, w, p) && IsParent(s.nodes, r))
    ensures WindowSearch(s, w, p) != NULL && IsParent(s.nodes, WindowSearch(s, w, p)) ==> r == WindowSearch(s, w, p)
  {
    var r := WindowSearch(s, w, p);
    if r != NULL && s.nodes[r].kind.ParentWindow? then r else NULL
  }

  /** `tui_window_window_grid_search`: the window the path leads to, when it is a grid window. */
  function GridSearch(s: Scene, w: int, p: seq<char>): (r: int)
    requires SceneOk(s) && -1 <= w < |s.nodes|
    ensures r == NULL || (r == WindowSearch(s, w, p) && s.nodes[r].kind.GridWindow?)
    ensures WindowSearch(s, w, p) != NULL && s.nodes[WindowSearch(s, w, p)].kind.GridWindow? ==> r == WindowSearch(s, w, p)
  {
    var r := WindowSearch(s, w, p);
    if r != NULL && s.nodes[r].kind.GridWindow? then r else NULL
  }

  /**
   * `tui_menu_window_search_set`: 1 when the path finds nothing from the
   * windows of menu `m`; otherwise 0, and the window found is activated.
   */
  method MenuWindowSearchSet(tui: Tui, m: int, p: seq<char>) returns (code: int)
    requires Focused(tui) && 0 <= m < |tui.menus|
    modifies tui`window, tui`menu
    ensures ActiveOk(SceneOf(tui), ActiveOf(tui))
    ensures var w := MenuSearch(SceneOf(tui), m, p);
            (w == NULL ==> code == 1 && ActiveOf(tui) == old(ActiveOf(tui))) &&
            (w != NULL ==> code == 0 && ActiveOf(tui) == SetWindow(SceneOf(tui), old(ActiveOf(tui)), w))
  {
    var w := MenuSearch(SceneOf(tui), m, p);
    if w == NULL {
      return 1;
    }
    WindowSet(tui, w);
    return 0;
  }
}
