/**
 * Focus and key events. A key goes to the active window, then up its
 * parent chain, then to the active menu, then to the toolkit (`tui_event`).
 * Activating a window or a menu (`tui_window_set`, `tui_menu_set`) and the
 * tab keys (`tui_tab_forward`, `tui_tab_backward`) move the active window
 * and menu, `tui->window` and `tui->menu`.
 *
 * What a user hook does with a key is not part of the toolkit: the key
 * hooks are parameters, total functions from the handle and the key to
 * "handled", consulted only where the window, menu or toolkit has a hook.
 * The enter and exit hooks have no effect on the focus and are left out.
 *
 * Each operation is a function on values (`Scene`, `Active`) and a method
 * on the toolkit proved to have the same effect.
 */
module Focus {
  import opened Base
  import opened Windows

  const KEY_TAB: int := 9
  const KEY_RTAB: int := 353

  /** The active window and the active menu, `NULL` when there is none. */
  datatype Active = Active(window: int, menu: int)

  /** What the focus operations read: the arena, visibility, the menus and the toolkit's windows. */
  datatype Scene = Scene(nodes: seq<Node>, visible: seq<bool>, menus: seq<Menu>, windows: seq<int>)

  /** The arena is a forest and the toolkit's windows, the menus' windows and the windows' menus are in range. */
  ghost predicate SceneOk(s: Scene)
  {
    Tree(s.nodes) && ListsOk(s)
  }

  /** What the focus operations need besides the forest: every handle they follow is in range. */
  ghost predicate ListsOk(s: Scene)
  {
    |s.visible| == |s.nodes| &&
    (forall j :: 0 <= j < |s.windows| ==> 0 <= s.windows[j] < |s.nodes|) &&
    (forall m, j :: 0 <= m < |s.menus| && 0 <= j < |s.menus[m].windows| ==> 0 <= s.menus[m].windows[j] < |s.nodes|) &&
    (forall i :: 0 <= i < |s.nodes| ==> s.nodes[i].menu == NULL || 0 <= s.nodes[i].menu < |s.menus|)
  }

  predicate ActiveOk(s: Scene, a: Active)
  {
    (a.window == NULL || 0 <= a.window < |s.nodes|) && (a.menu == NULL || 0 <= a.menu < |s.menus|)
  }

  function SceneOf(tui: Tui): Scene
    reads tui`nodes, tui`visible, tui`menus, tui`windows
  {
    Scene(tui.nodes, tui.visible, tui.menus, tui.windows)
  }

  function ActiveOf(tui: Tui): Active
    reads tui`window, tui`menu
  {
    Active(tui.window, tui.menu)
  }

  /** The toolkit's scene and focus are well formed. */
  ghost predicate Focused(tui: Tui)
    reads tui`nodes, tui`visible, tui`menus, tui`windows, tui`window, tui`menu
  {
    SceneOk(SceneOf(tui)) && ActiveOk(SceneOf(tui), ActiveOf(tui))
  }

  /** A well-formed toolkit has a well-formed scene and focus. */
  lemma ValidFocused(tui: Tui)
    requires tui.Valid()
    ensures Focused(tui)
  {
    var s := SceneOf(tui);
    forall m, j | 0 <= m < |s.menus| && 0 <= j < |s.menus[m].windows|
      ensures 0 <= s.menus[m].windows[j] < |s.nodes|
    {
      assert s.menus[m].windows[j] == tui.menus[m].windows[j];
    }
  }

  // ---------------------------------------------------------------- events

  /**
   * Whether a window on the way up from `w` (itself, its parent, ...) takes
   * the key: it has a key hook and the hook returns true.
   */
  function Bubble(nodes: seq<Node>, w: int, key: int, hook: (int, int) -> bool): bool
    requires Tree(nodes) && -1 <= w < |nodes|
    decreases w + 1
  {
    if w == NULL then false
    else (nodes[w].key && hook(w, key)) || Bubble(nodes, nodes[w].parent, key, hook)
  }

  /** The walk up from `w` reaches exactly the windows `w` lies below (or is). */
  lemma {:induction false} BubbleAncestor(nodes: seq<Node>, w: int, key: int, hook: (int, int) -> bool)
    requires Tree(nodes) && 0 <= w < |nodes|
    ensures Bubble(nodes, w, key, hook) <==>
            exists a :: 0 <= a < |nodes| && Desc(nodes, a, w) && nodes[a].key && hook(a, key)
    decreases w
  {
    var p := nodes[w].parent;
    if nodes[w].key && hook(w, key) {
      assert Desc(nodes, w, w);
    } else if p == NULL {
      forall a | 0 <= a < |nodes| && Desc(nodes, a, w)
        ensures a == w
      {
      }
    } else {
      BubbleAncestor(nodes, p, key, hook);
      if Bubble(nodes, p, key, hook) {
        var a :| 0 <= a < |nodes| && Desc(nodes, a, p) && nodes[a].key && hook(a, key);
        assert Desc(nodes, a, w);
      }
    }
  }

  /**
   * `tui_event`: the key is handled by the first hook that takes it, trying
   * the active window and its ancestors, then the active menu, then the
   * toolkit.
   */
  method Event(tui: Tui, key: int, windowHook: (int, int) -> bool, menuHook: (int, int) -> bool, tuiHook: int -> bool)
    returns (handled: bool)
    requires Focused(tui)
    ensures handled <==>
            (tui.window != NULL &&
             exists a :: 0 <= a < |tui.nodes| && Desc(tui.nodes, a, tui.window) && tui.nodes[a].key && windowHook(a, key)) ||
            (tui.menu != NULL && tui.menus[tui.menu].key && menuHook(tui.menu, key)) ||
            (tui.key && tuiHook(key))
  {
    var nodes := tui.nodes;
    var window := tui.window;
    ghost var taken := tui.window != NULL && Bubble(nodes, tui.window, key, windowHook);
    if tui.window != NULL {
      BubbleAncestor(nodes, tui.window, key, windowHook);
    }
    while window != NULL
      invariant -1 <= window < |nodes|
      invariant taken == Bubble(nodes, window, key, windowHook)
      decreases window + 1
    {
      if nodes[window].key && windowHook(window, key) {
        return true;
      }
      window := nodes[window].parent;
    }
    var menu := tui.menu;
    if menu != NULL && tui.menus[menu].key && menuHook(menu, key) {
      return true;
    }
    if tui.key && tuiHook(key) {
      return true;
    }
    return false;
  }

  // ------------------------------------------------------ activating windows

  /**
   * `tui_window_set`: activating a hidden window or the active one changes
   * nothing; otherwise `w` becomes the active window and, when it belongs
   * to a menu, that menu becomes the active menu.
   */
  function SetWindow(s: Scene, a: Active, w: int): (b: Active)
    requires 0 <= w < |s.nodes| == |s.visible|
    ensures s.visible[w] ==> b.window == w
    ensures !s.visible[w] || a.window == w ==> b == a
    ensures a.window != w && s.visible[w] && s.nodes[w].menu != NULL ==> b.menu == s.nodes[w].menu
    ensures s.nodes[w].menu == NULL ==> b.menu == a.menu
    ensures ListsOk(s) && ActiveOk(s, a) ==> ActiveOk(s, b)
  {
    if a.window != w && s.visible[w] then
      Active(w, if s.nodes[w].menu != NULL then s.nodes[w].menu else a.menu)
    else a
  }

  method WindowSet(tui: Tui, w: int)
    requires 0 <= w < |tui.nodes| == |tui.visible|
    modifies tui`window, tui`menu
    ensures ActiveOf(tui) == SetWindow(SceneOf(tui), old(ActiveOf(tui)), w)
  {
    if tui.window != w && tui.visible[w] {
      tui.window := w;
      if tui.nodes[w].menu != NULL {
        tui.menu := tui.nodes[w].menu;
      }
    }
  }

  /** Activating the same window twice is activating it once. */
  lemma SetWindowTwice(s: Scene, a: Active, w: int)
    requires 0 <= w < |s.nodes| == |s.visible|
    ensures SetWindow(s, SetWindow(s, a, w), w) == SetWindow(s, a, w)
  {
  }

  /**
   * Whether activating menu `m` also picks a window: there is no active
   * window, or the active one belongs to another menu.
   */
  predicate Foreign(s: Scene, a: Active, m: int)
    requires ActiveOk(s, a)
  {
    a.window == NULL || (s.nodes[a.window].menu != NULL && s.nodes[a.window].menu != m)
  }

  /**
   * `tui_menu_set`: `m` becomes the active menu and, when the active
   * window is foreign to it, its first window is activated. `None` is the
   * NULL dereference of the source, which reads the windows of the NULL
   * menu when asked to pick a window for it.
   */
  function SetMenu(s: Scene, a: Active, m: int): (r: Option<Active>)
    requires ListsOk(s) && ActiveOk(s, a) && (m == NULL || 0 <= m < |s.menus|)
    ensures r.None? <==> a.menu != m && m == NULL && Foreign(s, a, m)
    ensures a.menu == m ==> r == Some(a)
    ensures a.menu != m && !Foreign(s, a, m) ==> r == Some(Active(a.window, m))
    ensures r.Some? ==> ActiveOk(s, r.value)
  {
    if a.menu == m then Some(a)
    else
      var b := a.(menu := m);
      if Foreign(s, a, m) then
        if m == NULL then None
        else if |s.menus[m].windows| > 0 then Some(SetWindow(s, b, s.menus[m].windows[0]))
        else Some(b)
      else Some(b)
  }

  /**
   * After activating a menu whose windows belong to it, that menu is
   * active, and a foreign active window gives way to the menu's first
   * window when that one is visible.
   */
  lemma SetMenuActivates(s: Scene, a: Active, m: int)
    requires ListsOk(s) && ActiveOk(s, a) && 0 <= m < |s.menus|
    requires forall j :: 0 <= j < |s.menus[m].windows| ==> s.nodes[s.menus[m].windows[j]].menu in {NULL, m}
    ensures SetMenu(s, a, m).Some? && SetMenu(s, a, m).value.menu == m
    ensures a.menu != m && Foreign(s, a, m) && |s.menus[m].windows| > 0 && s.visible[s.menus[m].windows[0]] ==>
            SetMenu(s, a, m).value.window == s.menus[m].windows[0]
  {
    if a.menu != m && Foreign(s, a, m) && |s.menus[m].windows| > 0 {
      var w := s.menus[m].windows[0];
      assert s.nodes[w].menu in {NULL, m};
    }
  }

  /** Activating the active menu again changes nothing. */
  lemma SetMenuTwice(s: Scene, a: Active, m: int)
    requires ListsOk(s) && ActiveOk(s, a) && (m == NULL || 0 <= m < |s.menus|)
    requires SetMenu(s, a, m).Some? && SetMenu(s, a, m).value.menu == m
    ensures SetMenu(s, SetMenu(s, a, m).value, m) == SetMenu(s, a, m)
  {
  }

  /** `tui_menu_set`, for the menus the source can activate without reading the NULL menu. */
  method MenuSet(tui: Tui, m: int)
    requires Focused(tui) && (m == NULL || 0 <= m < |tui.menus|)
    requires SetMenu(SceneOf(tui), ActiveOf(tui), m).Some?
    modifies tui`window, tui`menu
    ensures ActiveOk(SceneOf(tui), ActiveOf(tui))
    ensures ActiveOf(tui) == SetMenu(SceneOf(tui), old(ActiveOf(tui)), m).value
  {
    if tui.menu == m {
      return;
    }
    ghost var a := ActiveOf(tui);
    tui.menu := m;
    var window := tui.window;
    if window == NULL || (tui.nodes[window].menu != NULL && tui.nodes[window].menu != m) {
      var ws := tui.menus[m].windows;
      if |ws| > 0 {
        WindowSet(tui, ws[0]);
      }
    }
  }

  // ----------------------------------------------------------- window lists

  /** `tui_window_index_get` as a value: the first position of `w` in `ws`, or -1. */
  function IndexOf(ws: seq<int>, w: int): (r: int)
    ensures -1 <= r < |ws|
    ensures r == -1 <==> w !in ws
    ensures r >= 0 ==> ws[r] == w && w !in ws[..r]
    decreases |ws|
  {
    if |ws| == 0 then -1
    else if ws[|ws| - 1] == w && w !in ws[..|ws| - 1] then |ws| - 1
    else
      assert ws[..|ws| - 1] + [ws[|ws| - 1]] == ws;
      var r := IndexOf(ws[..|ws| - 1], w);
      assert r >= 0 ==> ws[..r] == ws[..|ws| - 1][..r];
      r
  }

  /** The first position of a window is the position of its first occurrence. */
  lemma IndexUnique(ws: seq<int>, w: int, r: int)
    requires 0 <= r < |ws| && ws[r] == w && w !in ws[..r]
    ensures IndexOf(ws, w) == r
  {
  }

  /** `tui_window_index_get`: a linear search from the front. */
  method IndexGet(ws: seq<int>, w: int) returns (r: int)
    ensures r == IndexOf(ws, w)
  {
    r := 0;
    while r < |ws|
      invariant 0 <= r <= |ws| && w !in ws[..r]
    {
      if ws[r] == w {
        IndexUnique(ws, w, r);
        return;
      }
      assert ws[..r + 1] == ws[..r] + [ws[r]];
      r := r + 1;
    }
    assert ws[..r] == ws;
    r := -1;
  }

  /** A window tabbing can stop at: a visible, interactive window. */
  predicate Stop(s: Scene, w: int)
  {
    0 <= w < |s.nodes| && w < |s.visible| && s.visible[w] && s.nodes[w].isInteract
  }

  /** The position of the first window of `ws` tabbing can stop at, or -1. */
  function FirstStop(s: Scene, ws: seq<int>): (r: int)
    ensures -1 <= r < |ws|
    ensures r == -1 <==> forall k :: 0 <= k < |ws| ==> !Stop(s, ws[k])
    ensures r >= 0 ==> Stop(s, ws[r]) && forall k :: 0 <= k < r ==> !Stop(s, ws[k])
    decreases |ws|
  {
    if |ws| == 0 then -1
    else if Stop(s, ws[0]) then 0
    else
      var r := FirstStop(s, ws[1..]);
      assert forall k :: 1 <= k < |ws| ==> ws[k] == ws[1..][k - 1];
      if r == -1 then -1 else r + 1
  }

  /** The position of the last window of `ws` tabbing can stop at, or -1. */
  function LastStop(s: Scene, ws: seq<int>): (r: int)
    ensures -1 <= r < |ws|
    ensures r == -1 <==> forall k :: 0 <= k < |ws| ==> !Stop(s, ws[k])
    ensures r >= 0 ==> Stop(s, ws[r]) && forall k :: r < k < |ws| ==> !Stop(s, ws[k])
    decreases |ws|
  {
    if |ws| == 0 then -1
    else if Stop(s, ws[|ws| - 1]) then |ws| - 1
    else
      var r := LastStop(s, ws[..|ws| - 1]);
      assert forall k :: 0 <= k < |ws| - 1 ==> ws[k] == ws[..|ws| - 1][k];
      r
  }

  /** `tui_windows_tab_forward` as a value: the focus after activating the first stop of `ws`, if any. */
  function SearchForward(s: Scene, a: Active, ws: seq<int>): Option<Active>
    requires |s.nodes| == |s.visible|
  {
    var i := FirstStop(s, ws);
    if i == -1 then None else Some(SetWindow(s, a, ws[i]))
  }

  /** `tui_windows_tab_backward` as a value: the focus after activating the last stop of `ws`, if any. */
  function SearchBackward(s: Scene, a: Active, ws: seq<int>): Option<Active>
    requires |s.nodes| == |s.visible|
  {
    var i := LastStop(s, ws);
    if i == -1 then None else Some(SetWindow(s, a, ws[i]))
  }

  /** Every entry of `ws` is a window of the arena. */
  predicate AllIn(nodes: seq<Node>, ws: seq<int>)
  {
    forall j :: 0 <= j < |ws| ==> 0 <= ws[j] < |nodes|
  }

  /** `tui_windows_tab_forward`: the first stop of `ws` is activated. */
  method WindowsTabForward(tui: Tui, ws: seq<int>) returns (moved: bool)
    requires |tui.nodes| == |tui.visible| && AllIn(tui.nodes, ws)
    modifies tui`window, tui`menu
    ensures SceneOf(tui) == old(SceneOf(tui))
    ensures var r := SearchForward(SceneOf(tui), old(ActiveOf(tui)), ws);
            moved == r.Some? && ActiveOf(tui) == if moved then r.value else old(ActiveOf(tui))
  {
    var i := 0;
    while i < |ws|
      invariant 0 <= i <= |ws|
      invariant forall k :: 0 <= k < i ==> !Stop(SceneOf(tui), ws[k])
      invariant ActiveOf(tui) == old(ActiveOf(tui))
    {
      var w := ws[i];
      if tui.visible[w] && tui.nodes[w].isInteract {
        assert Stop(SceneOf(tui), ws[i]);
        WindowSet(tui, w);
        return true;
      }
      i := i + 1;
    }
    return false;
  }

  /** `tui_windows_tab_backward`: the last stop of `ws` is activated. */
  method WindowsTabBackward(tui: Tui, ws: seq<int>) returns (moved: bool)
    requires |tui.nodes| == |tui.visible| && AllIn(tui.nodes, ws)
    modifies tui`window, tui`menu
    ensures SceneOf(tui) == old(SceneOf(tui))
    ensures var r := SearchBackward(SceneOf(tui), old(ActiveOf(tui)), ws);
            moved == r.Some? && ActiveOf(tui) == if moved then r.value else old(ActiveOf(tui))
  {
    var i := |ws|;
    while i > 0
      invariant 0 <= i <= |ws|
      invariant forall k :: i <= k < |ws| ==> !Stop(SceneOf(tui), ws[k])
      invariant ActiveOf(tui) == old(ActiveOf(tui))
    {
      i := i - 1;
      var w := ws[i];
      if tui.visible[w] && tui.nodes[w].isInteract {
        assert Stop(SceneOf(tui), ws[i]);
        WindowSet(tui, w);
        return true;
      }
    }
    return false;
  }

  // ------------------------------------------------------------------ tabs

  /**
   * The outcome of a tab key: whether the focus moved and the focus after
   * it, or `NullMenu` where the source reads the windows of the NULL menu.
   */
  datatype Tab = Tab(moved: bool, active: Active) | NullMenu

  /**
   * The outcome of the climb through the active window's ancestors: the
   * focus found in some parent's children, the root window the climb
   * reached without finding one, or `Lost` when a window is missing from
   * its parent's children.
   */
  datatype Climb = Found(active: Active) | Reached(root: int) | Lost

  /** A tab that moves lands on a stop; one that does not changes nothing. */
  ghost predicate Lands(s: Scene, a: Active, t: Tab)
  {
    (t.Tab? && t.moved ==> Stop(s, t.active.window) && ActiveOk(s, t.active)) &&
    (t.Tab? && !t.moved ==> t.active == a)
  }

  /** `SetWindow` on a stop lands there. */
  lemma SearchLands(s: Scene, a: Active, ws: seq<int>)
    requires ListsOk(s) && ActiveOk(s, a)
    ensures SearchForward(s, a, ws).Some? ==> Stop(s, SearchForward(s, a, ws).value.window) && ActiveOk(s, SearchForward(s, a, ws).value)
    ensures SearchBackward(s, a, ws).Some? ==> Stop(s, SearchBackward(s, a, ws).value.window) && ActiveOk(s, SearchBackward(s, a, ws).value)
  {
  }

  /** The parent of a window is NULL or a parent window. */
  lemma ParentOf(s: Scene, w: int)
    requires SceneOk(s) && 0 <= w < |s.nodes|
    ensures s.nodes[w].parent == NULL || IsParent(s.nodes, s.nodes[w].parent)
  {
    if s.nodes[w].parent != NULL {
      Linked(s.nodes, w);
    }
  }

  /** The windows the roots are listed in: the active menu's, or the toolkit's own. */
  function RootList(s: Scene, a: Active): seq<int>
    requires ActiveOk(s, a)
  {
    if a.menu != NULL then s.menus[a.menu].windows else s.windows
  }

  /** The root lists hold windows of the arena. */
  lemma RootListsIn(s: Scene, a: Active)
    requires ListsOk(s) && ActiveOk(s, a)
    ensures AllIn(s.nodes, s.windows) && AllIn(s.nodes, RootList(s, a))
    ensures a.menu != NULL ==> AllIn(s.nodes, s.menus[a.menu].windows)
  {
    if a.menu != NULL {
      var ws := s.menus[a.menu].windows;
      forall j | 0 <= j < |ws|
        ensures 0 <= ws[j] < |s.nodes|
      {
      }
    }
  }

  /**
   * The climb of `tui_tab_forward`: in parent `p`, the first stop among
   * the children after `w` (all of them when `w` is not one of them), else
   * on from `p` in its own parent, until a root is reached.
   */
  function ClimbForward(s: Scene, a: Active, w: int, p: int): (c: Climb)
    requires SceneOk(s) && ActiveOk(s, a)
    requires p == NULL || IsParent(s.nodes, p)
    ensures c.Found? ==> Stop(s, c.active.window) && ActiveOk(s, c.active)
    ensures !c.Lost?
    decreases p + 1
  {
    if p == NULL then Reached(w)
    else
      var cs := Children(s.nodes, p);
      var i := IndexOf(cs, w) + 1;
      SearchLands(s, a, cs[i..]);
      if i < |cs| && SearchForward(s, a, cs[i..]).Some? then Found(SearchForward(s, a, cs[i..]).value)
      else
        ParentOf(s, p);
        ClimbForward(s, a, p, s.nodes[p].parent)
  }

  /**
   * The last stage of `tui_tab_forward`, from the root `w` the climb
   * reached: the first stop among the later windows of its list, else the
   * wrap-around.
   */
  function RootForward(s: Scene, a: Active, w: int): (t: Tab)
    requires ListsOk(s) && ActiveOk(s, a)
    ensures Lands(s, a, t)
  {
    var ws := RootList(s, a);
    var i := IndexOf(ws, w);
    SearchLands(s, a, ws[i + 1..]);
    if i == -1 then Tab(false, a)
    else if i + 1 < |ws| && SearchForward(s, a, ws[i + 1..]).Some? then Tab(true, SearchForward(s, a, ws[i + 1..]).value)
    else WrapForward(s, a)
  }

  /**
   * The wrap-around of `tui_tab_forward`: the first stop among the
   * toolkit's windows, else among the active menu's, whose windows it
   * reads even when there is no active menu.
   */
  function WrapForward(s: Scene, a: Active): (t: Tab)
    requires ListsOk(s) && ActiveOk(s, a)
    ensures Lands(s, a, t)
  {
    SearchLands(s, a, s.windows);
    if SearchForward(s, a, s.windows).Some? then Tab(true, SearchForward(s, a, s.windows).value)
    else if a.menu == NULL then NullMenu
    else
      SearchLands(s, a, s.menus[a.menu].windows);
      if SearchForward(s, a, s.menus[a.menu].windows).Some? then Tab(true, SearchForward(s, a, s.menus[a.menu].windows).value)
      else Tab(false, a)
  }

  /**
   * `tui_tab_forward`: from the active window (into its children when it
   * is a parent), the next stop in tree order, wrapping around to the
   * toolkit's windows and then the active menu's.
   */
  function Forward(s: Scene, a: Active): (t: Tab)
    requires SceneOk(s) && ActiveOk(s, a)
    ensures Lands(s, a, t)
    ensures a.window == NULL ==> t == Tab(false, a)
  {
    if a.window == NULL then Tab(false, a)
    else
      ParentOf(s, a.window);
      var c :=
        if IsParent(s.nodes, a.window) then ClimbForward(s, a, NULL, a.window)
        else ClimbForward(s, a, a.window, s.nodes[a.window].parent);
      match c
      case Found(b) => Tab(true, b)
      case Reached(r) => RootForward(s, a, r)
      case Lost => Tab(false, a)
  }

  /**
   * The climb of `tui_tab_backward`: in parent `p`, the last stop among
   * the children before `w`, else on from `p` in its own parent, until a
   * root is reached; a `w` missing from `p`'s children ends the search.
   */
  function ClimbBackward(s: Scene, a: Active, w: int, p: int): (c: Climb)
    requires SceneOk(s) && ActiveOk(s, a)
    requires p == NULL || IsParent(s.nodes, p)
    ensures c.Found? ==> Stop(s, c.active.window) && ActiveOk(s, c.active)
    decreases p + 1
  {
    if p == NULL then Reached(w)
    else
      var cs := Children(s.nodes, p);
      var i := IndexOf(cs, w);
      if i == -1 then Lost
      else
        SearchLands(s, a, cs[..i]);
        if SearchBackward(s, a, cs[..i]).Some? then Found(SearchBackward(s, a, cs[..i]).value)
        else
          ParentOf(s, p);
          ClimbBackward(s, a, p, s.nodes[p].parent)
  }

  /**
   * The last stage of `tui_tab_backward`, from the root `w` the climb
   * reached: the last stop among the earlier windows of its list, else the
   * wrap-around.
   */
  function RootBackward(s: Scene, a: Active, w: int): (t: Tab)
    requires ListsOk(s) && ActiveOk(s, a)
    ensures Lands(s, a, t)
  {
    var ws := RootList(s, a);
    var i := IndexOf(ws, w);
    if i == -1 then Tab(false, a)
    else
      SearchLands(s, a, ws[..i]);
      if SearchBackward(s, a, ws[..i]).Some? then Tab(true, SearchBackward(s, a, ws[..i]).value)
      else WrapBackward(s, a)
  }

  /**
   * The wrap-around of `tui_tab_backward`: the last stop among the
   * toolkit's windows, else among the active menu's, whose windows it
   * reads even when there is no active menu.
   */
  function WrapBackward(s: Scene, a: Active): (t: Tab)
    requires ListsOk(s) && ActiveOk(s, a)
    ensures Lands(s, a, t)
  {
    SearchLands(s, a, s.windows);
    if SearchBackward(s, a, s.windows).Some? then Tab(true, SearchBackward(s, a, s.windows).value)
    else if a.menu == NULL then NullMenu
    else
      SearchLands(s, a, s.menus[a.menu].windows);
      if SearchBackward(s, a, s.menus[a.menu].windows).Some? then Tab(true, SearchBackward(s, a, s.menus[a.menu].windows).value)
      else Tab(false, a)
  }

  /**
   * `tui_tab_backward`: from the active window, the previous stop among
   * its earlier siblings, then among those of each ancestor, wrapping
   * around to the toolkit's windows and then the active menu's.
   */
  function Backward(s: Scene, a: Active): (t: Tab)
    requires SceneOk(s) && ActiveOk(s, a)
    ensures Lands(s, a, t)
    ensures a.window == NULL ==> t == Tab(false, a)
  {
    if a.window == NULL then Tab(false, a)
    else
      ParentOf(s, a.window);
      match ClimbBackward(s, a, a.window, s.nodes[a.window].parent)
      case Found(b) => Tab(true, b)
      case Reached(r) => RootBackward(s, a, r)
      case Lost => Tab(false, a)
  }

  /** `tui_tab_event`: the tab key tabs forward, the reverse tab key backward, any other key does nothing. */
  function TabKey(s: Scene, a: Active, key: int): (t: Tab)
    requires SceneOk(s) && ActiveOk(s, a)
    ensures Lands(s, a, t)
    ensures key != KEY_TAB && key != KEY_RTAB ==> t == Tab(false, a)
  {
    if key == KEY_TAB then Forward(s, a)
    else if key == KEY_RTAB then Backward(s, a)
    else Tab(false, a)
  }


  /** `tui_tab_forward`, on a toolkit whose tab does not read the NULL menu. */
  method TabForward(tui: Tui) returns (moved: bool)
    requires Focused(tui)
    requires Forward(SceneOf(tui), ActiveOf(tui)) != NullMenu
    modifies tui`window, tui`menu
    ensures ActiveOk(SceneOf(tui), ActiveOf(tui))
    ensures Forward(SceneOf(tui), old(ActiveOf(tui))) == Tab(moved, ActiveOf(tui))
  {
    ghost var s := SceneOf(tui);
    var window := tui.window;
    if window == NULL {
      return false;
    }
    var parent := NULL;
    if tui.nodes[window].kind.ParentWindow? {
      parent := window;
      window := NULL;
    } else {
      parent := tui.nodes[window].parent;
      if parent != NULL {
        Linked(tui.nodes, window);
      }
    }
    var root;
    moved, root := ClimbTabForward(tui, s, window, parent);
    if !moved {
      moved := RootTabForward(tui, s, root);
    }
  }

  /** The climb of `tui_tab_forward` from `window` in `parent`. */
  method ClimbTabForward(tui: Tui, ghost s: Scene, window: int, parent: int) returns (moved: bool, root: int)
    requires s == SceneOf(tui) && SceneOk(s) && ActiveOk(s, ActiveOf(tui))
    requires parent == NULL || IsParent(s.nodes, parent)
    modifies tui`window, tui`menu
    ensures moved ==> ClimbForward(s, old(ActiveOf(tui)), window, parent) == Found(ActiveOf(tui))
    ensures !moved ==> ActiveOf(tui) == old(ActiveOf(tui)) && ClimbForward(s, ActiveOf(tui), window, parent) == Reached(root)
  {
    ghost var a := ActiveOf(tui);
    var nodes := tui.nodes;
    var w, p := window, parent;
    while p != NULL
      invariant p == NULL || IsParent(nodes, p)
      invariant ActiveOf(tui) == a
      invariant ClimbForward(s, a, w, p) == ClimbForward(s, a, window, parent)
      decreases p + 1
    {
      moved := ChildrenTabForward(tui, s, w, p);
      if moved {
        return moved, w;
      }
      ParentOf(s, p);
      w := p;
      p := nodes[p].parent;
    }
    return false, w;
  }

  /** One parent of the climb of `tui_tab_forward`: the children of `parent` after `window`. */
  method ChildrenTabForward(tui: Tui, ghost s: Scene, window: int, parent: int) returns (moved: bool)
    requires s == SceneOf(tui) && SceneOk(s) && ActiveOk(s, ActiveOf(tui)) && IsParent(s.nodes, parent)
    modifies tui`window, tui`menu
    ensures s.nodes[parent].parent == NULL || IsParent(s.nodes, s.nodes[parent].parent)
    ensures !moved ==> ActiveOf(tui) == old(ActiveOf(tui))
    ensures ClimbForward(s, old(ActiveOf(tui)), window, parent) ==
            if moved then Found(ActiveOf(tui)) else ClimbForward(s, old(ActiveOf(tui)), parent, s.nodes[parent].parent)
  {
    var cs := tui.nodes[parent].kind.children;
    ClimbForwardStep(s, ActiveOf(tui), window, parent);
    var i := IndexGet(cs, window);
    i := i + 1;
    moved := false;
    if i < |cs| {
      moved := WindowsTabForward(tui, cs[i..]);
    }
  }

  /** One parent of the climb of `tui_tab_forward`, unfolded. */
  lemma ClimbForwardStep(s: Scene, a: Active, w: int, p: int)
    requires SceneOk(s) && ActiveOk(s, a) && IsParent(s.nodes, p)
    ensures s.nodes[p].parent == NULL || IsParent(s.nodes, s.nodes[p].parent)
    ensures AllIn(s.nodes, Children(s.nodes, p)[IndexOf(Children(s.nodes, p), w) + 1..])
    ensures var r := SearchForward(s, a, Children(s.nodes, p)[IndexOf(Children(s.nodes, p), w) + 1..]);
            ClimbForward(s, a, w, p) == if r.Some? then Found(r.value) else ClimbForward(s, a, p, s.nodes[p].parent)
  {
    ParentOf(s, p);
    TreeChildrenIn(s.nodes, p);
    var cs := Children(s.nodes, p);
    var i := IndexOf(cs, w) + 1;
    forall j | 0 <= j < |cs[i..]|
      ensures 0 <= cs[i..][j] < |s.nodes|
    {
      assert cs[i..][j] == cs[i + j];
    }
    if i == |cs| {
      assert FirstStop(s, cs[i..]) == -1;
    }
  }

  /** The search of `tui_tab_forward` among the root windows, from the root `window`. */
  method RootTabForward(tui: Tui, ghost s: Scene, window: int) returns (moved: bool)
    requires s == SceneOf(tui) && ListsOk(s) && ActiveOk(s, ActiveOf(tui))
    requires RootForward(s, ActiveOf(tui), window) != NullMenu
    modifies tui`window, tui`menu
    ensures RootForward(s, old(ActiveOf(tui)), window) == Tab(moved, ActiveOf(tui))
  {
    ghost var a := ActiveOf(tui);
    RootForwardStep(s, a, window);
    var menu := tui.menu;
    var ws := if menu != NULL then tui.menus[menu].windows else tui.windows;
    assert ws == RootList(s, a);
    var i := IndexGet(ws, window);
    if i == -1 {
      return false;
    }
    i := i + 1;
    if i < |ws| {
      moved := WindowsTabForward(tui, ws[i..]);
      if moved {
        return;
      }
    } else {
      assert FirstStop(s, ws[i..]) == -1;
    }
    assert SearchForward(s, a, ws[i..]).None? && ActiveOf(tui) == a;
    moved := WrapTabForward(tui, s);
  }

  /** The search among the root windows of `tui_tab_forward`, unfolded. */
  lemma RootForwardStep(s: Scene, a: Active, w: int)
    requires ListsOk(s) && ActiveOk(s, a)
    ensures var ws := RootList(s, a);
            var i := IndexOf(ws, w);
            var r := SearchForward(s, a, ws[i + 1..]);
            AllIn(s.nodes, ws[i + 1..]) &&
            RootForward(s, a, w) == if i == -1 then Tab(false, a) else if r.Some? then Tab(true, r.value) else WrapForward(s, a)
  {
    RootListsIn(s, a);
  }

  /** The wrap-around of `tui_tab_forward`. */
  method WrapTabForward(tui: Tui, ghost s: Scene) returns (moved: bool)
    requires s == SceneOf(tui) && ListsOk(s) && ActiveOk(s, ActiveOf(tui))
    requires WrapForward(s, ActiveOf(tui)) != NullMenu
    modifies tui`window, tui`menu
    ensures WrapForward(s, old(ActiveOf(tui))) == Tab(moved, ActiveOf(tui))
  {
    RootListsIn(s, ActiveOf(tui));
    moved := WindowsTabForward(tui, tui.windows);
    if moved {
      return;
    }
    moved := WindowsTabForward(tui, tui.menus[tui.menu].windows);
  }

  /** `tui_tab_backward`, on a toolkit whose tab does not read the NULL menu. */
  method TabBackward(tui: Tui) returns (moved: bool)
    requires Focused(tui)
    requires Backward(SceneOf(tui), ActiveOf(tui)) != NullMenu
    modifies tui`window, tui`menu
    ensures ActiveOk(SceneOf(tui), ActiveOf(tui))
    ensures Backward(SceneOf(tui), old(ActiveOf(tui))) == Tab(moved, ActiveOf(tui))
  {
    ghost var s := SceneOf(tui);
    var window := tui.window;
    if window == NULL {
      return false;
    }
    var parent := tui.nodes[window].parent;
    if parent != NULL {
      Linked(tui.nodes, window);
    }
    var root, lost;
    moved, lost, root := ClimbTabBackward(tui, s, window, parent);
    if !moved && !lost {
      moved := RootTabBackward(tui, s, root);
    }
  }

  /** The climb of `tui_tab_backward` from `window` in `parent`. */
  method ClimbTabBackward(tui: Tui, ghost s: Scene, window: int, parent: int) returns (moved: bool, lost: bool, root: int)
    requires s == SceneOf(tui) && SceneOk(s) && ActiveOk(s, ActiveOf(tui))
    requires parent == NULL || IsParent(s.nodes, parent)
    modifies tui`window, tui`menu
    ensures moved ==> ClimbBackward(s, old(ActiveOf(tui)), window, parent) == Found(ActiveOf(tui))
    ensures !moved ==> ActiveOf(tui) == old(ActiveOf(tui)) &&
                       ClimbBackward(s, ActiveOf(tui), window, parent) == if lost then Lost else Reached(root)
  {
    ghost var a := ActiveOf(tui);
    var nodes := tui.nodes;
    var w, p := window, parent;
    while p != NULL
      invariant p == NULL || IsParent(nodes, p)
      invariant ActiveOf(tui) == a
      invariant ClimbBackward(s, a, w, p) == ClimbBackward(s, a, window, parent)
      decreases p + 1
    {
      moved, lost := ChildrenTabBackward(tui, s, w, p);
      if moved || lost {
        return moved, lost, w;
      }
      ParentOf(s, p);
      w := p;
      p := nodes[p].parent;
    }
    return false, false, w;
  }

  /** One parent of the climb of `tui_tab_backward`: the children of `parent` before `window`. */
  method ChildrenTabBackward(tui: Tui, ghost s: Scene, window: int, parent: int) returns (moved: bool, lost: bool)
    requires s == SceneOf(tui) && SceneOk(s) && ActiveOk(s, ActiveOf(tui)) && IsParent(s.nodes, parent)
    modifies tui`window, tui`menu
    ensures s.nodes[parent].parent == NULL || IsParent(s.nodes, s.nodes[parent].parent)
    ensures !moved ==> ActiveOf(tui) == old(ActiveOf(tui))
    ensures ClimbBackward(s, old(ActiveOf(tui)), window, parent) ==
            if moved then Found(ActiveOf(tui))
            else if lost then Lost
            else ClimbBackward(s, old(ActiveOf(tui)), parent, s.nodes[parent].parent)
  {
    var cs := tui.nodes[parent].kind.children;
    ClimbBackwardStep(s, ActiveOf(tui), window, parent);
    var i := IndexGet(cs, window);
    if i == -1 {
      return false, true;
    }
    moved := WindowsTabBackward(tui, cs[..i]);
    lost := false;
  }

  /** One parent of the climb of `tui_tab_backward`, unfolded. */
  lemma ClimbBackwardStep(s: Scene, a: Active, w: int, p: int)
    requires SceneOk(s) && ActiveOk(s, a) && IsParent(s.nodes, p)
    ensures s.nodes[p].parent == NULL || IsParent(s.nodes, s.nodes[p].parent)
    ensures var i := IndexOf(Children(s.nodes, p), w);
            var r := SearchBackward(s, a, Children(s.nodes, p)[..if i == -1 then 0 else i]);
            AllIn(s.nodes, Children(s.nodes, p)[..if i == -1 then 0 else i]) &&
            ClimbBackward(s, a, w, p) ==
            if i == -1 then Lost else if r.Some? then Found(r.value) else ClimbBackward(s, a, p, s.nodes[p].parent)
  {
    ParentOf(s, p);
    TreeChildrenIn(s.nodes, p);
  }

  /** The search of `tui_tab_backward` among the root windows, from the root `window`. */
  method RootTabBackward(tui: Tui, ghost s: Scene, window: int) returns (moved: bool)
    requires s == SceneOf(tui) && ListsOk(s) && ActiveOk(s, ActiveOf(tui))
    requires RootBackward(s, ActiveOf(tui), window) != NullMenu
    modifies tui`window, tui`menu
    ensures RootBackward(s, old(ActiveOf(tui)), window) == Tab(moved, ActiveOf(tui))
  {
    RootBackwardStep(s, ActiveOf(tui), window);
    var menu := tui.menu;
    var ws := if menu != NULL then tui.menus[menu].windows else tui.windows;
    var i := IndexGet(ws, window);
    if i == -1 {
      return false;
    }
    moved := WindowsTabBackward(tui, ws[..i]);
    if moved {
      return;
    }
    moved := WrapTabBackward(tui, s);
  }

  /** The search among the root windows of `tui_tab_backward`, unfolded. */
  lemma RootBackwardStep(s: Scene, a: Active, w: int)
    requires ListsOk(s) && ActiveOk(s, a)
    ensures var ws := RootList(s, a);
            var i := IndexOf(ws, w);
            var r := SearchBackward(s, a, ws[..if i == -1 then 0 else i]);
            AllIn(s.nodes, ws[..if i == -1 then 0 else i]) &&
            RootBackward(s, a, w) == if i == -1 then Tab(false, a) else if r.Some? then Tab(true, r.value) else WrapBackward(s, a)
  {
    RootListsIn(s, a);
  }

  /** The wrap-around of `tui_tab_backward`. */
  method WrapTabBackward(tui: Tui, ghost s: Scene) returns (moved: bool)
    requires s == SceneOf(tui) && ListsOk(s) && ActiveOk(s, ActiveOf(tui))
    requires WrapBackward(s, ActiveOf(tui)) != NullMenu
    modifies tui`window, tui`menu
    ensures WrapBackward(s, old(ActiveOf(tui))) == Tab(moved, ActiveOf(tui))
  {
    RootListsIn(s, ActiveOf(tui));
    moved := WindowsTabBackward(tui, tui.windows);
    if moved {
      return;
    }
    moved := WindowsTabBackward(tui, tui.menus[tui.menu].windows);
  }

  /** `tui_tab_event`. */
  method TabEvent(tui: Tui, key: int) returns (moved: bool)
    requires Focused(tui)
    requires TabKey(SceneOf(tui), ActiveOf(tui), key) != NullMenu
    modifies tui`window, tui`menu
    ensures ActiveOk(SceneOf(tui), ActiveOf(tui))
    ensures TabKey(SceneOf(tui), old(ActiveOf(tui)), key) == Tab(moved, ActiveOf(tui))
  {
    if key == KEY_TAB {
      moved := TabForward(tui);
    } else if key == KEY_RTAB {
      moved := TabBackward(tui);
    } else {
      moved := false;
    }
  }

  /**
   * Tabbing forward from a window that is not a parent lands on the first
   * stop among its later siblings, when there is one.
   */
  lemma ForwardNextSibling(s: Scene, a: Active, j: int)
    requires SceneOk(s) && ActiveOk(s, a) && a.window != NULL && !IsParent(s.nodes, a.window)
    requires IsParent(s.nodes, s.nodes[a.window].parent)
    requires var cs := Children(s.nodes, s.nodes[a.window].parent);
             IndexOf(cs, a.window) < j < |cs| && Stop(s, cs[j]) &&
             forall l :: IndexOf(cs, a.window) < l < j ==> !Stop(s, cs[l])
    ensures Forward(s, a) == Tab(true, SetWindow(s, a, Children(s.nodes, s.nodes[a.window].parent)[j]))
  {
    var cs := Children(s.nodes, s.nodes[a.window].parent);
    var i := IndexOf(cs, a.window) + 1;
    FirstStopAt(s, cs[i..], j - i);
  }

  /** Tabbing forward from a parent window lands on its first child that is a stop, when there is one. */
  lemma ForwardIntoChildren(s: Scene, a: Active, j: int)
    requires SceneOk(s) && ActiveOk(s, a) && a.window != NULL && IsParent(s.nodes, a.window)
    requires var cs := Children(s.nodes, a.window);
             0 <= j < |cs| && Stop(s, cs[j]) && forall l :: 0 <= l < j ==> !Stop(s, cs[l])
    ensures Forward(s, a) == Tab(true, SetWindow(s, a, Children(s.nodes, a.window)[j]))
  {
    var cs := Children(s.nodes, a.window);
    TreeChildrenIn(s.nodes, a.window);
    assert NULL !in cs;
    assert cs[0..] == cs;
    FirstStopAt(s, cs, j);
  }

  /**
   * Tabbing backward from a window with a parent lands on the last stop
   * among its earlier siblings, when there is one.
   */
  lemma BackwardPrevSibling(s: Scene, a: Active, j: int)
    requires SceneOk(s) && ActiveOk(s, a) && a.window != NULL
    requires IsParent(s.nodes, s.nodes[a.window].parent)
    requires var cs := Children(s.nodes, s.nodes[a.window].parent);
             0 <= j < IndexOf(cs, a.window) && Stop(s, cs[j]) &&
             forall l :: j < l < IndexOf(cs, a.window) ==> !Stop(s, cs[l])
    ensures Backward(s, a) == Tab(true, SetWindow(s, a, Children(s.nodes, s.nodes[a.window].parent)[j]))
  {
    var cs := Children(s.nodes, s.nodes[a.window].parent);
    var i := IndexOf(cs, a.window);
    LastStopAt(s, cs[..i], j);
  }

  /**
   * `ws` is a flat tab order for menu `m`: distinct root windows that are
   * not parents and belong to no menu or to `m`.
   */
  predicate FlatList(s: Scene, ws: seq<int>, m: int)
  {
    (forall j :: 0 <= j < |ws| ==>
       0 <= ws[j] < |s.nodes| && s.nodes[ws[j]].parent == NULL && !s.nodes[ws[j]].kind.ParentWindow? &&
       (s.nodes[ws[j]].menu == NULL || s.nodes[ws[j]].menu == m)) &&
    (forall j, k :: 0 <= j < k < |ws| ==> ws[j] != ws[k])
  }

  /**
   * Tabbing backward undoes tabbing forward among flat root windows: from
   * a stop of the list the roots are taken from (the active menu's
   * windows, or the toolkit's when no menu is active), the forward tab
   * moves, possibly wrapping around and possibly onto the same window,
   * and the backward tab from there brings the focus back. With an active
   * menu, the toolkit's own windows must hold no stop, since both
   * wrap-arounds look there first.
   */
  lemma FlatTabRoundTrip(s: Scene, a: Active)
    requires SceneOk(s) && ActiveOk(s, a) && FlatList(s, RootList(s, a), a.menu)
    requires a.menu != NULL ==> forall k :: 0 <= k < |s.windows| ==> !Stop(s, s.windows[k])
    requires a.window in RootList(s, a) && Stop(s, a.window)
    ensures Forward(s, a).Tab? && Forward(s, a).moved
    ensures Backward(s, Forward(s, a).active) == Tab(true, a)
  {
    var i := IndexOf(RootList(s, a), a.window);
    assert Forward(s, a) == RootForward(s, a, a.window);
    if FirstStop(s, RootList(s, a)[i + 1..]) >= 0 {
      FlatTabOnward(s, a, i);
    } else {
      FlatTabWrap(s, a, i);
    }
  }

  /** The round trip when a later root window is a stop. */
  lemma FlatTabOnward(s: Scene, a: Active, i: int)
    requires ListsOk(s) && ActiveOk(s, a) && FlatList(s, RootList(s, a), a.menu)
    requires 0 <= i < |RootList(s, a)| && a.window == RootList(s, a)[i] && Stop(s, a.window)
    requires IndexOf(RootList(s, a), a.window) == i && FirstStop(s, RootList(s, a)[i + 1..]) >= 0
    ensures RootForward(s, a, a.window).Tab? && RootForward(s, a, a.window).moved
    ensures var b := RootForward(s, a, a.window).active;
      ActiveOk(s, b) && b.window != NULL && s.nodes[b.window].parent == NULL && RootBackward(s, b, b.window) == Tab(true, a)
  {
    var ws := RootList(s, a);
    var f := FirstStop(s, ws[i + 1..]);
    var j := i + 1 + f;
    assert ws[i + 1..][f] == ws[j];
    var b := SetWindow(s, a, ws[j]);
    assert b == Active(ws[j], a.menu);
    assert SearchForward(s, a, ws[i + 1..]) == Some(b);
    assert RootForward(s, a, a.window) == Tab(true, b);
    assert RootList(s, b) == ws;
    IndexUnique(ws, ws[j], j);
    forall l | i < l < j
      ensures !Stop(s, ws[..j][l])
    {
      assert ws[..j][l] == ws[i + 1..][l - i - 1];
    }
    LastStopAt(s, ws[..j], i);
    assert SearchBackward(s, b, ws[..j]) == Some(a);
  }

  /** The round trip when no later root window is a stop and the tab wraps around. */
  lemma FlatTabWrap(s: Scene, a: Active, i: int)
    requires ListsOk(s) && ActiveOk(s, a) && FlatList(s, RootList(s, a), a.menu)
    requires a.menu != NULL ==> forall k :: 0 <= k < |s.windows| ==> !Stop(s, s.windows[k])
    requires 0 <= i < |RootList(s, a)| && a.window == RootList(s, a)[i] && Stop(s, a.window)
    requires IndexOf(RootList(s, a), a.window) == i && FirstStop(s, RootList(s, a)[i + 1..]) == -1
    ensures RootForward(s, a, a.window).Tab? && RootForward(s, a, a.window).moved
    ensures var b := RootForward(s, a, a.window).active;
      ActiveOk(s, b) && b.window != NULL && s.nodes[b.window].parent == NULL && RootBackward(s, b, b.window) == Tab(true, a)
  {
    var ws := RootList(s, a);
    var g := FirstStop(s, ws);
    assert g <= i;
    var b := SetWindow(s, a, ws[g]);
    assert b.window == ws[g] && b.menu == a.menu;
    if a.menu != NULL {
      assert FirstStop(s, s.windows) == -1 && LastStop(s, s.windows) == -1;
    }
    assert WrapForward(s, a) == Tab(true, b);
    assert RootForward(s, a, a.window) == Tab(true, b);
    assert RootList(s, b) == ws;
    IndexUnique(ws, ws[g], g);
    assert SearchBackward(s, b, ws[..g]).None?;
    forall l | i < l < |ws|
      ensures !Stop(s, ws[l])
    {
      assert ws[l] == ws[i + 1..][l - i - 1];
    }
    LastStopAt(s, ws, i);
    assert WrapBackward(s, b) == Tab(true, a);
  }

  /** The first stop is the one with no stop before it. */
  lemma FirstStopAt(s: Scene, ws: seq<int>, j: int)
    requires 0 <= j < |ws| && Stop(s, ws[j]) && forall l :: 0 <= l < j ==> !Stop(s, ws[l])
    ensures FirstStop(s, ws) == j
  {
  }

  /** The last stop is the one with no stop after it. */
  lemma LastStopAt(s: Scene, ws: seq<int>, j: int)
    requires 0 <= j < |ws| && Stop(s, ws[j]) && forall l :: j < l < |ws| ==> !Stop(s, ws[l])
    ensures LastStop(s, ws) == j
  {
  }
}
