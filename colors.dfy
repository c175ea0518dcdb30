/**
 * Colour resolution: filling the transparent channels of a colour from the
 * already resolved colour above it (`tui_color_inherit`), and the bounded
 * cache that maps a resolved colour to a backend colour pair
 * (`tui_color_pair_get` over `COLOR_CACHE` and `pair_count`).
 */
module Colors {
  import opened Base

  /**
   * `tui_color_inherit`: a colour without a "none" channel is kept; otherwise
   * every "none" channel is taken from one source colour: the resolved
   * colour of the given window when there is one, else that of the active
   * menu when there is one, else the root's colour.
   */
  function ColorInherit(color: Color, window: Option<Color>, menu: Option<Color>, root: Color): (c: Color)
    ensures IsOpaque(color) ==> c == color
    ensures color.fg != COLOR_NONE ==> c.fg == color.fg
    ensures color.bg != COLOR_NONE ==> c.bg == color.bg
  {
    if IsOpaque(color) then color
    else
      var from := if window.Some? then window.value else if menu.Some? then menu.value else root;
      Color(if color.fg == COLOR_NONE then from.fg else color.fg,
            if color.bg == COLOR_NONE then from.bg else color.bg)
  }

  /** The source colour a transparent channel is taken from. */
  function InheritSource(window: Option<Color>, menu: Option<Color>, root: Color): Color
  {
    if window.Some? then window.value else if menu.Some? then menu.value else root
  }

  /**
   * Each "none" channel of the colour ends up as that channel of the
   * source, and the window is preferred to the menu, the menu to the root.
   */
  lemma InheritChannels(color: Color, window: Option<Color>, menu: Option<Color>, root: Color)
    ensures var c := ColorInherit(color, window, menu, root);
      var from := InheritSource(window, menu, root);
      (color.fg == COLOR_NONE ==> c.fg == from.fg) && (color.bg == COLOR_NONE ==> c.bg == from.bg)
    ensures window.Some? ==> InheritSource(window, menu, root) == window.value
    ensures window.None? && menu.Some? ==> InheritSource(window, menu, root) == menu.value
    ensures window.None? && menu.None? ==> InheritSource(window, menu, root) == root
  {
  }

  /** Resolving twice against the same source changes nothing more. */
  lemma InheritIdempotent(color: Color, window: Option<Color>, menu: Option<Color>, root: Color)
    ensures var c := ColorInherit(color, window, menu, root);
      var from := InheritSource(window, menu, root);
      IsOpaque(from) ==> IsOpaque(c) && ColorInherit(c, window, menu, root) == c
  {
  }

  /**
   * The resolved colour at the bottom of a chain of nested windows whose
   * requested colours are `reqs` (outermost first), the outermost one being
   * resolved against `top`: each level inherits from the level above it,
   * as the render pass does from parent to child.
   */
  function ResolveChain(top: Color, reqs: seq<Color>): Color
    decreases |reqs|
  {
    if reqs == [] then top
    else ColorInherit(reqs[|reqs| - 1], Some(ResolveChain(top, reqs[..|reqs| - 1])), None, top)
  }

  /** The nearest non-"none" foreground from the bottom of the chain up, else the top's. */
  function NearestFg(top: Color, reqs: seq<Color>): int
    decreases |reqs|
  {
    if reqs == [] then top.fg
    else if reqs[|reqs| - 1].fg != COLOR_NONE then reqs[|reqs| - 1].fg
    else NearestFg(top, reqs[..|reqs| - 1])
  }

  function NearestBg(top: Color, reqs: seq<Color>): int
    decreases |reqs|
  {
    if reqs == [] then top.bg
    else if reqs[|reqs| - 1].bg != COLOR_NONE then reqs[|reqs| - 1].bg
    else NearestBg(top, reqs[..|reqs| - 1])
  }

  /** Each channel of a nested window resolves to the nearest level that sets it. */
  lemma {:induction false} ResolveChainNearest(top: Color, reqs: seq<Color>)
    ensures ResolveChain(top, reqs) == Color(NearestFg(top, reqs), NearestBg(top, reqs))
    decreases |reqs|
  {
    if reqs != [] {
      ResolveChainNearest(top, reqs[..|reqs| - 1]);
    }
  }

  /** A window that inherits everything, at any depth, resolves to the top colour exactly. */
  lemma {:induction false} ResolveChainTransparent(top: Color, reqs: seq<Color>)
    requires forall i :: 0 <= i < |reqs| ==> reqs[i] == Color(COLOR_NONE, COLOR_NONE)
    ensures ResolveChain(top, reqs) == top
    decreases |reqs|
  {
    if reqs != [] {
      ResolveChainTransparent(top, reqs[..|reqs| - 1]);
    }
  }

  /** Under an opaque top colour every nested window resolves to an opaque colour. */
  lemma {:induction false} ResolveChainOpaque(top: Color, reqs: seq<Color>)
    requires IsOpaque(top)
    ensures IsOpaque(ResolveChain(top, reqs))
    decreases |reqs|
  {
    if reqs != [] {
      ResolveChainOpaque(top, reqs[..|reqs| - 1]);
    }
  }

  /** Three transparent levels under an opaque root colour resolve to the root colour. */
  lemma ThreeLevelsExample(root: Color)
    ensures ResolveChain(root, [Color(0, 0), Color(0, 0), Color(0, 0)]) == root
  {
    ResolveChainTransparent(root, [Color(0, 0), Color(0, 0), Color(0, 0)]);
  }

  /**
   * The active menu's colour is resolved with no window, so it inherits from
   * the active menu, which is itself: from its own colour of the previous
   * frame. A menu created with a "none" channel starts with a resolved
   * "none" channel and keeps it, whatever the root colour is.
   */
  lemma MenuKeepsNone(menuColor: Color, previous: Color, root: Color)
    requires menuColor.fg == COLOR_NONE && previous.fg == COLOR_NONE
    ensures ColorInherit(menuColor, None, Some(previous), root).fg == COLOR_NONE
  {
  }

  /** Number of slots of `COLOR_CACHE`. */
  const CACHE_SIZE: int := 128

  /**
   * The first pair in `[1, count)` whose cached colour is `color`, or 0 when
   * there is none: the search loop of `tui_color_pair_get`.
   */
  function Lookup(cache: seq<Color>, count: int, color: Color): (pair: int)
    requires count <= |cache|
    ensures pair == 0 || (1 <= pair < count && cache[pair] == color)
    ensures pair != 0 ==> forall k :: 1 <= k < pair ==> cache[k] != color
    ensures pair == 0 ==> forall k :: 1 <= k < count ==> cache[k] != color
    decreases count
  {
    if count <= 1 then 0
    else
      var p := Lookup(cache, count - 1, color);
      if p != 0 then p else if cache[count - 1] == color then count - 1 else 0
  }

  /** After a miss has been stored in the next slot, the same colour is found there. */
  lemma LookupAfterStore(cache: seq<Color>, count: int, color: Color)
    requires 1 <= count < |cache|
    requires Lookup(cache, count, color) == 0
    ensures Lookup(cache[count := color], count + 1, color) == count
  {
    var c' := cache[count := color];
    assert forall k :: 1 <= k < count ==> c'[k] == cache[k];
  }

  /** A lookup that hits is unaffected by storing a colour in a later slot. */
  lemma LookupStable(cache: seq<Color>, count: int, color: Color, other: Color)
    requires 1 <= count < |cache|
    requires Lookup(cache, count, color) != 0
    ensures Lookup(cache[count := other], count + 1, color) == Lookup(cache, count, color)
  {
    var c' := cache[count := other];
    assert forall k :: 1 <= k < count ==> c'[k] == cache[k];
  }

  /**
   * The slot the source writes a new pair to: it refuses only once
   * `pair_count` reaches `COLORS`, the backend's number of colours, and
   * otherwise writes slot `pair_count` of the 128-slot cache.
   */
  function StoreSlotAsWritten(pairCount: int, colors: int): Option<int>
  {
    if pairCount >= colors then None else Some(pairCount)
  }

  /**
   * On any backend with more colours than `COLOR_CACHE` has slots, every
   * new colour pair from the 128th on (pair_count from 128 up to the
   * backend's limit) is written past the end of the cache.
   */
  lemma CacheOverflowAsWritten(colors: int, pairCount: int)
    requires CACHE_SIZE <= pairCount < colors
    ensures StoreSlotAsWritten(pairCount, colors) == Some(pairCount)
    ensures StoreSlotAsWritten(pairCount, colors).value >= CACHE_SIZE
  {
  }

  /** Pair numbers stop at the backend's limit and at the cache's size, whichever is smaller. */
  function PairLimit(colors: int): (limit: int)
    ensures limit <= CACHE_SIZE && limit <= colors
  {
    Min(colors, CACHE_SIZE)
  }

  /** The pair cache: `COLOR_CACHE` and `pair_count`, for a backend with `colors` colours. */
  class PairCache {
    var cache: array<Color>
    var pairCount: int
    const colors: int

    ghost predicate Valid()
      reads this
    {
      cache.Length == CACHE_SIZE && 1 <= pairCount <= Max(1, PairLimit(colors))
    }

    /** The cache as at program start: no pair besides the reserved pair 0. */
    constructor (colors: int)
      ensures Valid() && this.colors == colors && pairCount == 1 && fresh(cache)
    {
      this.colors := colors;
      cache := new Color[CACHE_SIZE](_ => Color(COLOR_NONE, COLOR_NONE));
      pairCount := 1;
    }

    /**
     * `tui_color_pair_get`, bounded by `PairLimit`. A hit returns the cached
     * pair. A miss with pairs left takes the next pair number; the backend's
     * registration (`init_pair`) is the outcome `registered`: when it fails
     * the number is still used up, the slot is not written and 0 (the
     * default pair) is returned. With no pairs left the answer is 0.
     */
    method PairGet(color: Color, registered: bool) returns (pair: int)
      requires Valid()
      modifies this`pairCount, cache
      ensures Valid() && cache == old(cache)
      ensures pair == 0 || (1 <= pair < pairCount && cache[pair] == color)
      ensures var hit := Lookup(old(cache[..]), old(pairCount), color);
        if hit != 0 then
          pair == hit && pairCount == old(pairCount) && cache[..] == old(cache[..])
        else if old(pairCount) >= PairLimit(colors) then
          pair == 0 && pairCount == old(pairCount) && cache[..] == old(cache[..])
        else
          pairCount == old(pairCount) + 1 &&
          (registered ==> pair == old(pairCount) && cache[..] == old(cache[..])[old(pairCount) := color]) &&
          (!registered ==> pair == 0 && cache[..] == old(cache[..]))
    {
      // Pair 0 is reserved
      pair := 1;
      while pair < pairCount
        invariant 1 <= pair <= pairCount
        invariant Lookup(cache[..], pair, color) == 0
      {
        if cache[pair] == color {
          return;
        }
        pair := pair + 1;
      }
      if pairCount >= PairLimit(colors) {
        return 0;
      }
      var newPair := pairCount;
      pairCount := pairCount + 1;
      if !registered {
        return 0;
      }
      cache[newPair] := color;
      pair := newPair;
    }
  }
}
