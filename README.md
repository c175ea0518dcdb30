# tui.h in Dafny

This project models the core of `tui.h`, a single-header ncurses widget
library written in C. It covers the library's integer and array logic, which
sits between the user's window tree and the terminal:

- text reflow: the greedy word wrap, the width search and the per-line widths;
- the inline `ESC [ … m` escapes: the plain text and the SGR codes the renderer reads;
- colour inheritance and the ncurses colour-pair cache;
- the two layout passes: sizes bottom-up, then rects and visibility top-down;
- focus: key bubbling, window and menu activation, and tabbing;
- the Input, List and Grid widgets;
- the path search over window names.

The window tree is an arena. The class `Windows.Tui` holds:

- `nodes: seq<Node>`, one entry per `tui_window_t`;
- integer handles, with `-1` standing for `NULL`;
- the per-frame results `rects` (`_rect`), `visible` (`_is_visable`) and `texts` (the plain text of a text window).

Every child is stored after its parent. The toolkit's windows, the menus and
their window lists are sequences of handles.

The library's loops are `method`s proved equal to recursive specification
functions. The properties are proved as lemmas about those functions. The
stateful parts are methods that change the `Tui` fields, or the fields of
`Colors.PairCache`, `Input.Field`, `List.Selection` and `Grid.Cells`:

- the layout passes;
- `tui_window_set`, `tui_menu_set` and tabbing;
- the pair cache;
- the input buffer (an `array<char>`);
- the list index;
- the grid's square array.

The modules follow the library's sections:

- `Base`: sizes, rects, colours, and C integer division;
- `Reflow`;
- `Escape`;
- `Colors`;
- `Windows`: the arena and the `Tui` class;
- `Placement`: the geometry of one parent;
- `SizePass`;
- `RectPass`;
- `Focus`;
- `Search`;
- `Input`;
- `List`;
- `Grid`.

User hooks are parameters. A key hook is a function from a window (or menu,
or the toolkit) and a key to `bool`. The ncurses call `init_pair` is a
boolean outcome handed to the cache method. The terminal size is a pair of
integers handed to the layout passes.

## Model

| member | source | states |
|---|---|---|
| Base.CDiv | tui.h:1907-1928 | C's `/` on `int` truncates toward zero, so the remainder has the sign of the dividend (Dafny's own division is Euclidean). |
| Base.HalfShift | tui.h:1989-2009 | `(int)(v + k/2.f * s)` for k in {0, 1, 2}, read as exact arithmetic: the sum is a multiple of one half, truncated toward zero. This agrees with the single-precision float only while `|2v + k·s| < 2^24`. |
| Base.NewlineCount | tui.h:1034-1080 | Counts the line feeds of a string, bounded by its length. |
| Reflow.TextHGet | tui.h:938-992 | The greedy wrap loop computes the wrapped height of the specification function: 0 for the empty text or width 0, -1 when a word reaches the width with no new space since the last break. |
| Reflow.HeightFromBound | tui.h:954-990 | A wrap that does not fail ends with at least the lines counted so far. |
| Reflow.WrapHeightRange | tui.h:938-992 | The height is 0 exactly for the empty text or width 0; otherwise it is -1 or at least 1. |
| Reflow.HeightFromNoWrap | tui.h:954-990 | While the width is never reached, only the line feeds add lines. |
| Reflow.WrapHeightWide | tui.h:938-992 | At a width of at least the text's length the height is one more than the number of line feeds. |
| Reflow.WrapHeightExamples | tui.h:938-992 | "hello world" is 2 lines at width 5, and cannot be wrapped (-1) at width 4. |
| Reflow.TextWGet | tui.h:997-1029 | The binary search returns `MinWidth`, the smallest positive width at which the text wraps in at most `h` lines (`Reflow.MinWidthLeast`, `Reflow.MinWidthFits`), or the text's length when no smaller width fits. |
| Reflow.SearchWidthBounds | tui.h:1004-1026 | Each halving step keeps the answer in [0, length], at least 1 for a non-empty text, and fitting in `h` lines when it is below the length. |
| Reflow.MinWidthBounds | tui.h:997-1029 | The width lies in [0, length], is at least 1 for a non-empty text, and any width below the length wraps without failure in at most `h` lines. |
| Reflow.MinWidthFits | tui.h:997-1029 | When `h` leaves room for every line feed, the chosen width always wraps the text in at most `h` lines. |
| Reflow.LastSpaceMono | tui.h:954-962 | The last space before a position never moves back as the position advances. |
| Reflow.HeightScanNewline | tui.h:954-970 | Inside a line, the wrap loop runs to the line's first line feed within reach and goes on after it with one more line. |
| Reflow.HeightScanEnd | tui.h:954-990 | A last line with no line feed that fits the width ends the loop with the lines counted so far. |
| Reflow.HeightScanWrap | tui.h:954-990 | A line with no line feed within the width goes back to its last space and goes on after it with one more line, or fails when that space is the one the previous wrap went back to. |
| Reflow.NoSpaceFails | tui.h:971-983 | Reaching the width with no space since the last break fails the wrap with -1. |
| Reflow.HeightLines | tui.h:954-990 | From any line start, the loop's height is the number of lines of the line-by-line wrap `Reflow.WrapLines` (each line ends at its first line feed, else at its last space within width + 1 columns), and -1 exactly when that wrap finds no space to break at. |
| Reflow.HeightLinesStuck | tui.h:976-983 | A line with neither a line feed nor a usable space within reach fails both wraps. |
| Reflow.WrapHeightLines | tui.h:938-992 | The wrapped height is the number of lines of the line-by-line wrap, and -1 exactly when it fails. |
| Reflow.WrapLinesMono | tui.h:938-992 | Widening the lines, or starting further on, never makes the wrap fail and never adds a line. |
| Reflow.FitsMono | tui.h:997-1029 | A text that fits in `h` lines at some width still fits at every larger width, which is what the binary search relies on. |
| Reflow.SearchWidthLeast | tui.h:1004-1026 | When no width below `left` fits, no width below the search's answer fits. |
| Reflow.MinWidthLeast | tui.h:997-1029 | No positive width below the chosen one fits in `h` lines. |
| Reflow.WidthsFrom | tui.h:1041-1079 | The line-width loop from any state writes only into the `h` slots: the result keeps length `h`. What it writes from a line start is `Reflow.WidthsLines`. |
| Reflow.TextWsGet | tui.h:1034-1080 | For a non-empty text, the first `WrapHeight` slots receive the widths of the lines wrapped at the minimum width, and the other slots keep their values. The empty text changes nothing. This needs one more slot than there are line feeds. |
| Reflow.WidthsScanFeed | tui.h:1041-1062 | Inside a line, the loop runs to the line's first line feed, stores the line's width in slot `y` and goes on with slot `y + 1`. |
| Reflow.WidthsScanEnd | tui.h:1041-1079 | A last line without a line feed that fits the width stores its full length. |
| Reflow.WidthsScanWrap | tui.h:1041-1079 | A line with no line feed within the width stores its width up to its last space and goes on after that space. |
| Reflow.WidthsLines | tui.h:1041-1079 | From any line start, the loop writes the widths of the line-by-line wrap into the slots from `y` on, and leaves every other slot unchanged. |
| Reflow.WrapLinesWidths | tui.h:1054-1068 | Every line of a successful wrap at width `w` is between 0 and `w` columns wide. |
| Reflow.LineWidthsLines | tui.h:1034-1080 | For a non-empty text with a slot per line feed, the first `WrapHeight` slots hold the line widths at the minimum width, each between 0 and that width, and the other slots keep their values. The empty text changes nothing. |
| Reflow.WrapLinesWide | tui.h:954-990 | At a width no line reaches, the wrap breaks only at line feeds: the lines are the pieces between them. |
| Reflow.SegmentsCount | tui.h:1034-1080 | A text has one piece between line feeds more than it has line feeds. |
| Reflow.WidthsWide | tui.h:1041-1079 | At a width of at least the text's length, the slots receive the lengths of the pieces between line feeds, one per line, and the rest keep their values. |
| Reflow.LineWidthsExample | tui.h:1034-1080 | "hello world" at height 2 is width 5 with line widths 5 and 5. |
| Reflow.NoBreakFails | tui.h:976-983 | Without a space or line feed, a line that reaches the width fails the wrap. |
| Reflow.WordTooLong | tui.h:976-983 | A single word longer than a positive width cannot be wrapped. |
| Reflow.LeadingSpaceIsNoBreak | tui.h:950-952 | A space at index 0 is not a break: " ab" cannot be wrapped at width 2, while "x ab" wraps into 2 lines. |
| Escape.SkipEscape | tui.h:1260-1272 | Skipping an escape never lengthens the string and strictly shortens a non-empty one. |
| Escape.TextExtract | tui.h:1242-1277 | The copy loop yields exactly the plain text: every byte outside `ESC … m`, in order. |
| Escape.EscapeEnd | tui.h:1260-1272 | The scan stops on the first 'm' at or after the start, or at the end of the string. |
| Escape.PlainKeeps | tui.h:1268-1271 | A byte other than ESC is kept in front of the plain text of the rest. |
| Escape.SkipEscapeRun | tui.h:1260-1272 | Bytes other than 'm' are skipped one by one. |
| Escape.PlainAfterEscape | tui.h:1260-1272 | An escape that ends on its first 'm', or at the end of the string, contributes nothing. |
| Escape.SkipEscapeSuffix | tui.h:1260-1272 | Skipping an escape leaves a suffix of the string. |
| Escape.PlainShape | tui.h:1242-1277 | The plain text holds no ESC, is no longer than the string, and holds only the string's characters. |
| Escape.PlainIdentity | tui.h:1242-1277 | A string without ESC is unchanged. |
| Escape.PlainPrefix | tui.h:1242-1277 | Text before an escape is kept, in order. |
| Escape.SkipUnterminated | tui.h:1260-1272 | Skipping an escape that has no 'm' leaves nothing. |
| Escape.PlainUnterminated | tui.h:1242-1277 | An unterminated escape swallows the rest of the string. |
| Escape.SkipTerminated | tui.h:1260-1272 | Skipping `ESC body m`, with no 'm' in the body, leaves what follows. |
| Escape.PlainDropsEscape | tui.h:1242-1277 | A complete escape `ESC body m` is removed, and the text on both sides is kept. |
| Escape.PlainStyled | tui.h:1242-1277 | A word between a colour escape and a reset escape comes out as the word alone. |
| Escape.PlainExample | tui.h:1242-1277 | "\033[31mred\033[0m" becomes "red". |
| Escape.EscapeBody | tui.h:1098-1119 | The body after `ESC [` is free of 'm' and is a prefix of the text after the lead. |
| Escape.AnsiExtract | tui.h:1098-1119 | The extractor returns the escape body that starts two characters after ESC, and leaves the index on its 'm', or at the end when there is none. |
| Escape.EscapeBodyPrefix | tui.h:1098-1119 | A 'm'-free prefix followed by 'm' or the end is the escape body. |
| Escape.AnsiColor | tui.h:1126-1162 | SGR (ECMA-48 section 8.3.117) as the renderer reads it: 0 resets to the window's colour, 30-37 set the foreground to code-30, 40-47 set the background to code-40, and every other code keeps the colour. |
| Escape.AnsiPaletteShift | tui.h:1126-1162 | Code 30 gives foreground 0, which is the "none" colour; 31 gives black; the empty escape resets. |
| Colors.ColorInherit | tui.h:446-482 | A colour with no "none" channel is kept. Otherwise every "none" channel comes from a single source: the window, else the menu, else the root. |
| Colors.InheritChannels | tui.h:446-482 | Channel by channel: a set channel is kept, and a "none" channel takes the source's channel, with the window preferred to the menu and the menu to the root. |
| Colors.InheritIdempotent | tui.h:446-482 | Resolving a second time against the same source changes nothing. |
| Colors.ResolveChainNearest | tui.h:446-482 | Along a chain of nested windows, each channel resolves to the nearest level that sets it. |
| Colors.ResolveChainTransparent | tui.h:446-482 | Windows that inherit everything resolve to the top colour at any depth. |
| Colors.ResolveChainOpaque | tui.h:446-482 | Under an opaque top colour every nested window resolves to an opaque colour. |
| Colors.ThreeLevelsExample | tui.h:446-482 | Three transparent levels under an opaque root give the root colour. |
| Colors.MenuKeepsNone | tui.h:446-482 | The menu's colour inherits from itself, so a "none" channel it starts with survives whatever the root colour is. |
| Colors.Lookup | tui.h:410-419 | The search loop returns 0 or a pair in [1, count) whose cached colour matches, and no earlier pair matches. |
| Colors.LookupAfterStore | tui.h:420-440 | After a miss is stored in the next slot, the same colour is found there. |
| Colors.LookupStable | tui.h:410-440 | A hit is unaffected by storing another colour in a later slot. |
| Colors.CacheOverflowAsWritten | tui.h:399-438 | On any backend with more colours than the cache has slots, every pair from the 128th on is stored at a slot past the end of `COLOR_CACHE`. |
| Colors.PairLimit | tui.h:399-438 | The corrected bound is the smaller of `COLORS` and the cache size, so every stored slot is inside the cache. |
| Colors.PairCache.constructor | tui.h:399-402 | The cache starts empty, with pair 0 reserved. |
| Colors.PairCache.PairGet | tui.h:407-441 | A hit returns the cached pair. A miss with pairs left uses up the next pair number, and when the backend registers it, caches the colour and returns it. A failed registration and a full cache return the default pair 0. |
| Windows.PosValue | tui.h:261-266 | START, CENTER and END are 0, 1 and 2 halves of the free space. |
| Windows.AlignValue | tui.h:287-295 | The first three alignments are the positions 0 to 2; BETWEEN, AROUND and EVENLY are the other three. |
| Windows.Linked | tui.h:200-221 | A window with a parent is listed among that parent's children. |
| Windows.TreeChildrenIn | tui.h:334-346 | Every child is stored after its parent. |
| Windows.DescLe | tui.h:334-346 | A window below another one is stored at or after it. |
| Windows.DescOfChild | tui.h:334-346 | Everything below a child is below its parent. |
| Windows.SiblingsDisjoint | tui.h:334-346 | The subtrees of two different children of one parent are disjoint. |
| Windows.RootsDisjoint | tui.h:200-221 | Two parentless windows have disjoint subtrees. |
| Windows.StrictDescIsUnderChildren | tui.h:334-346 | The windows strictly below a parent are exactly those below one of its children. |
| Windows.Tui.ValidStarts | tui.h:375-388 | A well-formed toolkit's window lists and active menu are what the layout passes need. |
| Windows.Tui.RootsIn | tui.h:375-388 | The toolkit's windows and the menus' windows are parentless windows of the arena. |
| Placement.DecorW | tui.h:1606-1631 | The decorations take at most 8 columns: padding 4, border 2 and shadow 2. |
| Placement.DecorH | tui.h:1606-1631 | The decorations take at most 5 rows: padding 2, border 2 and shadow 1. |
| Placement.MaxSizeGet | tui.h:2111-2138 | The content size is the parent's size less its decorations. |
| Placement.ChildXGet | tui.h:1694-1709 | The content's left inset is at most 3: border 1 and padding 2. |
| Placement.ChildYGet | tui.h:1674-1689 | The content's top inset is at most 2: border 1 and padding 1. |
| Placement.ContentBox | tui.h:1674-2138 | The inset, the content size and the far-side decorations add up to the parent's size on each axis, and the shadow takes room only on the right and the bottom. |
| Placement.RectGet | tui.h:2058-2081 | The result is non-negative. A size of 0 or less, or a negative position, becomes max(0, parent + value). Positive sizes and non-negative positions are kept. |
| Placement.RectGetStable | tui.h:2058-2081 | A resolved rect with a positive size resolves to itself again. A zero size does not, since zero means the parent's size. |
| Placement.ChildSpan | tui.h:1714-1735 | Across the axis a child takes the whole content when it is a contain window or grows that way. Otherwise it keeps its own size, capped by the content. |
| Placement.EvenShareValue | tui.h:1907-1928 | Share i is total / n, plus one for the first total mod n items. |
| Placement.SumSharesPrefix | tui.h:1907-1928 | The first k shares add up to k times the quotient plus min(k, remainder). |
| Placement.EvenSharesSum | tui.h:1907-1928 | The n shares add up to exactly the total. |
| Placement.BetweenGapAsWritten | tui.h:1963-1975 | As written, the BETWEEN gap divides the free space by `align_count - 1`, which is undefined for a lone child. |
| Placement.BetweenLoneChildAsWritten | tui.h:1963-1975 | A lone aligned child under BETWEEN reaches the division by zero whatever the free space. |
| Placement.BetweenGap | tui.h:1963-1975 | Corrected: a lone child gets no gap, and otherwise the gap is as written. |
| Placement.PlaceChild | tui.h:1891-2038 | One child's slot and the next cursor. A child reaching past the far edge is cut to end there, or given length 0 when atomic. Across the axis the child is shifted by `pos` halves of the room beside it. |
| Placement.PlaceClamp | tui.h:2016-2026 | A child that fits keeps its length. A non-atomic child never ends past the content's far edge. An atomic child that does not fit gets 0. |
| Placement.PlaceCross | tui.h:2011-2031 | Across the axis the child stays inside the content and is no larger than it. It fills the content when it is a contain window or grows that way. START puts it at the start, END flush with the end, and CENTER between the two. |
| Placement.PlaceEvenly | tui.h:1907-1928 | Under EVENLY, child i gets its even share of the content less the gaps, whatever its own size. |
| Placement.PlaceGrow | tui.h:1929-1953 | A growing child gets its own size plus its share, by grow index, of the free space less the gaps. |
| Placement.BetweenExample | tui.h:1963-1975 | Widths 3 and 4 in a row of 10 under BETWEEN put the second child at x = 6, with or without the gap flag. |
| Placement.EvenlyExample | tui.h:1907-1928 | Widths 1 and 2 in a row of 10 under EVENLY give 4 and 4 with the gap and 5 and 5 without it. |
| Placement.BetweenLoneChildAtStart | tui.h:1963-1975 | Corrected: a lone child under BETWEEN is placed as under START. |
| SizePass.TextSize | tui.h:1463-1492 | A fixed rect gives its size clamped at 0. A non-empty text is wrapped at the screen width and gets its narrowest width for that height. An empty text takes one cell. |
| SizePass.GridSize | tui.h:1499-1521 | No size without cells; the configured grid size for an unset rect; otherwise the fixed rect clamped at 0. |
| SizePass.SizeStep | tui.h:1556-1592 | A non-contain child stretches the extent by its size, and a fixed-rect child by its far corner. An aligned child adds along the axis and, unless it is a contain window, stretches the aligned size across it. |
| SizePass.GapTotal | tui.h:1594-1604 | The gaps take one row or two columns between each two aligned children. |
| SizePass.ParentExtent | tui.h:1594-1631 | Corrected: the size is the larger of the children's extent and the aligned size plus the gaps and the decorations. |
| SizePass.SizeT | tui.h:1600-1604 | A `size_t` value is the integer modulo 2^64. |
| SizePass.ToInt | tui.h:1600-1604 | A `size_t` stored into an `int` keeps its low 32 bits, read as two's complement. |
| SizePass.ParentExtentAsWritten | tui.h:1594-1631 | The size with the gap term computed as written. Its contract says only that the result is a size; `SizePass.GapWrapAsWritten` shows the wrap. |
| SizePass.GapWrapAsWritten | tui.h:1594-1604 | A horizontal parent with a gap and a border, whose only child has the fixed rect 1 x 1, comes out 1 column wide instead of 2. |
| SizePass.GapAddAgrees | tui.h:1594-1604 | With an aligned child and sizes that fit in `int`, the size as written equals the corrected size. |
| SizePass.ChildSizes | tui.h:1533-1538 | The measured sizes of the first k children, in order. |
| SizePass.ChildSizesAt | tui.h:1533-1538 | Entry j of the measured sizes is child j's measure. |
| SizePass.ParentSize | tui.h:1530-1632 | A fixed rect clamped at 0; the empty size without children; otherwise the fold over the children plus the gaps and the decorations. |
| SizePass.SizeFold | tui.h:1556-1592 | The fold over the first k children counts at most k aligned children. |
| SizePass.SizeFoldCovers | tui.h:1556-1592 | The fold's extent covers every non-contain child and the far corner of every fixed-rect child. |
| SizePass.ParentCoversChildren | tui.h:1530-1632 | A parent sized by its children is at least as large as each non-contain child and reaches every fixed-rect child's far corner. |
| SizePass.AlignedCount | tui.h:1556-1592 | The number of aligned children among the first k, at most k. |
| SizePass.SizeFoldStacks | tui.h:1556-1592 | Along the axis the fold's length is the sum of the aligned children's lengths, and its count is their number. |
| SizePass.ParentFitsAligned | tui.h:1530-1632 | Along its axis a parent sized by its children is at least its aligned children end to end, plus the gaps and the decorations. |
| SizePass.UnwrappableText | tui.h:1463-1492 | A text window with a word wider than the screen gets height -1 and width equal to the text's length. |
| SizePass.MinWidthAtNoHeight | tui.h:1463-1492 | At height -1 the width search keeps its starting answer, which is the text's length. |
| SizePass.HeightAtLeastMinusOne | tui.h:1463-1492 | The wrapped height is never below -1. |
| SizePass.WrappedTextFits | tui.h:1463-1492 | A text that wraps at the screen width gets that many lines, and a width between 1 and its length at which it still fits in them. |
| SizePass.Measures | tui.h:1639-1658 | One measure per window of the arena, each the window's `Measure`. |
| SizePass.ChildMeasures | tui.h:1533-1538 | The children's measured sizes, in order. |
| SizePass.MeasureParent | tui.h:1530-1632 | A parent measures to the fold over its children's measured sizes. |
| SizePass.SizeTree | tui.h:1639-1658 | Sizing a subtree keeps one entry per window; `SizePass.SizeTreeSpec` says which entries change. |
| SizePass.SizeList | tui.h:1663-1669 | Sizing a list of subtrees keeps one entry per window; `SizePass.SizeListSpec` says which entries change. |
| SizePass.SizeTreeSpec | tui.h:1639-1658 | Sizing a subtree writes the measure into every window below it, and the plain text into every text window below it, and keeps every other entry. |
| SizePass.SizeListSpec | tui.h:1663-1669 | Sizing a list of subtrees does so for every window below one of them. |
| SizePass.DescOnlySelf | tui.h:334-346 | Only the window itself lies below a window that is not a parent. |
| SizePass.DescAboveIsParent | tui.h:334-346 | A window strictly above another one is a parent window. |
| SizePass.ChildrenSized | tui.h:1533-1538 | After the child loop, each child's entry is its measure. |
| SizePass.SizeCalc | tui.h:1639-1658 | The method leaves exactly the entries of the subtree specification `SizePass.SizeTree`. |
| SizePass.ParentSizeCalc | tui.h:1530-1632 | The method leaves exactly the entries of `SizePass.SizeTree` for the parent: its children's subtrees, then the fold. |
| SizePass.ChildrenSizeCalc | tui.h:1533-1538 | The child loop leaves exactly the entries of `SizePass.SizeList` over the children, in order. |
| SizePass.ParentRect | tui.h:1540-1631 | The method computes the parent's size as `SizePass.ParentSize` does from its children's entries. |
| SizePass.WindowsSizeCalc | tui.h:1663-1669 | The method leaves exactly the entries of `SizePass.SizeList` over the list. |
| SizePass.SizeCalcAll | tui.h:2343-2353 | The method leaves exactly the entries of `SizePass.SizeList` over the toolkit's windows, then the active menu's. |
| SizePass.SizeListPrefix | tui.h:1663-1669 | Sizing the first k windows reads no window after them. |
| SizePass.SizeListAppend | tui.h:2343-2353 | Sizing two lists one after the other is sizing their concatenation. |
| SizePass.SizeCalcAllSpec | tui.h:2343-2353 | After the size pass every window below a toolkit or active-menu window holds its measure, and every other window keeps its entry. |
| SizePass.SizeListTwice | tui.h:2343-2353 | The size pass is idempotent. |
| RectPass.HideTree | tui.h:2088-2106 | Hiding keeps one visibility entry per window and every rect. |
| RectPass.HideList | tui.h:2088-2106 | Hiding a list of subtrees keeps one visibility entry per window and every rect. |
| RectPass.HideTreeSpec | tui.h:2088-2106 | Hiding a window makes exactly its subtree invisible. |
| RectPass.HideListSpec | tui.h:2088-2106 | After hiding a list of subtrees, a window is visible exactly when it was visible and lies below none of them. |
| RectPass.SetInvisible | tui.h:2088-2106 | The recursive method leaves exactly the visibility of `RectPass.HideTree`. |
| RectPass.ScanChild | tui.h:2154-2220 | Only a child that is not hidden can be visible. Only visible aligned children are counted, once, and growing ones also in the grow count. An atomic aligned child counted fits beside those counted before it. |
| RectPass.ScanFold | tui.h:2154-2220 | The first loop counts at most as many growing children as aligned ones. |
| RectPass.ScanMarks | tui.h:2154-2220 | The first loop leaves one visibility entry per window. |
| RectPass.ScanMarksAt | tui.h:2154-2220 | Every child seen carries the visibility the loop gave it. |
| RectPass.ScanMarksOther | tui.h:2154-2220 | The first loop changes no window but the parent's children. |
| RectPass.ScanCounts | tui.h:2154-2220 | A visible aligned child makes the aligned count, and the grow count when it grows, at least 1. This keeps the placement divisions away from 0. |
| RectPass.LineOf | tui.h:2219-2220 | The line carries the gap unit (1 row or 2 columns) and the first loop's counts, and its aligned length is capped by the content. |
| RectPass.ItemOf | tui.h:2228-2269 | The item grows exactly when the child grows along the parent's direction. |
| RectPass.SlotRect | tui.h:2228-2269 | The slot's position and length go on the parent's axis, and its cross position and length on the other. |
| RectPass.ChildRect | tui.h:2228-2269 | A fixed-rect child leaves the cursor where it was; only aligned children advance it. |
| RectPass.PlaceStep | tui.h:2228-2269 | One step keeps one entry per window. `RectPass.PlaceStepFrame` and `RectPass.PlaceStepSound` state what it changes. |
| RectPass.PlaceList | tui.h:2228-2269 | The second loop keeps one entry per window. `RectPass.PlaceListFrame` and `RectPass.PlaceListSound` state what it changes. |
| RectPass.ChildrenRects | tui.h:2145-2270 | The two loops keep one entry per window. `RectPass.ChildrenRectsFrame` and `RectPass.ChildrenRectsSound` state what they change. |
| RectPass.ChildrenRectsFrame | tui.h:2145-2270 | Laying out a parent's children changes no window outside its strict subtree. |
| RectPass.PlaceListFrame | tui.h:2228-2269 | The second loop changes no window outside the parent's strict subtree. |
| RectPass.PlaceStepFrame | tui.h:2228-2269 | Placing one child changes no window outside that child's subtree. |
| RectPass.DescViaParent | tui.h:334-346 | A window above the parent of d, or that parent itself, is strictly above d. |
| RectPass.ChildrenRectsSound | tui.h:2145-2270 | After the layout, every visible window strictly below the parent is not hidden, has a width and a height, and has a visible parent unless its parent is the one being laid out. |
| RectPass.PlaceListSound | tui.h:2228-2269 | The same guarantee holds for the children placed so far. |
| RectPass.PlaceStepSound | tui.h:2228-2269 | The same guarantee holds for the subtree of the child just placed. |
| RectPass.InvisibleSubtree | tui.h:2145-2270 | An invisible child has no visible window below it. |
| RectPass.LaterChildUntouched | tui.h:2228-2269 | Children not yet reached keep their entries. |
| RectPass.LaterStepKeeps | tui.h:2228-2269 | Placing child k keeps the subtree of an earlier child j. |
| RectPass.EarlierChildKept | tui.h:2228-2269 | Once placed, a child's subtree keeps what its step gave it. |
| RectPass.ScanHiddenSubtree | tui.h:2154-2220 | A child that the first loop finds invisible ends up invisible with its whole subtree. |
| RectPass.AtomicOverflowStep | tui.h:2016-2026 | An atomic aligned child that would reach past the far edge gets length 0, and it is invisible with its whole subtree. |
| RectPass.ChildrenRectCalc | tui.h:2145-2270 | The method leaves exactly the frame of `RectPass.ChildrenRects`. |
| RectPass.PlaceChildren | tui.h:2228-2269 | The second loop's method leaves exactly the result of `RectPass.PlaceList` over every child. |
| RectPass.PlaceNext | tui.h:2228-2269 | One round leaves exactly the result of `RectPass.PlaceList` over the first j + 1 children. |
| RectPass.ScanChildren | tui.h:2154-2220 | The first loop's method leaves the visibility of `RectPass.ScanMarks` and returns `RectPass.LineOf`. |
| RectPass.PlaceChildAt | tui.h:2228-2269 | The method leaves exactly the frame and cursor of `RectPass.PlaceStep` for child j. |
| RectPass.WindowRect | tui.h:2278-2307 | Laying out a window keeps one entry per window. `RectPass.WindowRectFrame` and `RectPass.WindowRectSound` state what it changes. |
| RectPass.WindowRectFrame | tui.h:2278-2307 | Laying out a window changes no window outside its subtree. |
| RectPass.WindowRectSound | tui.h:2278-2307 | Every visible window of the subtree is not hidden and has a width and a height. Below the window itself, it also has a visible parent. |
| RectPass.WindowsRects | tui.h:2312-2318 | Laying out a list keeps one entry per window. `RectPass.WindowsRectsFrame` and `RectPass.WindowsRectsSound` state what it changes. |
| RectPass.WindowsRectsFrame | tui.h:2312-2318 | A list's layout changes no window outside the lists' subtrees. |
| RectPass.WindowsRectsSound | tui.h:2312-2318 | Below a list of parentless windows, a visible window is not hidden, has a width and a height, and has a visible parent. |
| RectPass.RectCalcAll | tui.h:2325-2338 | The whole rect pass keeps one entry per window. `RectPass.RectCalcSound` states what it guarantees. |
| RectPass.RectCalcSound | tui.h:2325-2338 | After the pass, a visible window below a starting window is shown with a size and has visible ancestors. So an invisible window has an invisible subtree. Every other window keeps its entries. |
| RectPass.VisibleAncestors | tui.h:2325-2338 | Following visible parents up from a visible window never reaches an invisible one. |
| RectPass.WindowRectCalc | tui.h:2278-2307 | The method leaves exactly the frame of `RectPass.WindowRect`. |
| RectPass.WindowsRectCalc | tui.h:2312-2318 | The method leaves exactly the frame of `RectPass.WindowsRects` over the whole list. |
| RectPass.RectCalc | tui.h:2325-2338 | The method leaves exactly the frame of `RectPass.RectCalcAll` over the toolkit's and the active menu's windows. |
| Focus.ValidFocused | tui.h:375-388 | A well-formed toolkit has a well-formed scene, and its active window and menu are in range. |
| Focus.BubbleAncestor | tui.h:906-933 | The walk up from w reaches exactly the windows w lies below, or w itself. |
| Focus.Event | tui.h:906-933 | The key is handled exactly when the hook of the active window or of one of its ancestors takes it, or the active menu's hook, or the toolkit's. |
| Focus.SetWindow | tui.h:3503-3526 | Activating a hidden window or the active one changes nothing. Otherwise w becomes active, and so does its menu when it has one. |
| Focus.WindowSet | tui.h:3503-3526 | The method updates the active window and menu as the specification does. |
| Focus.SetWindowTwice | tui.h:3503-3526 | Activating the same window twice is activating it once. |
| Focus.SetMenu | tui.h:3535-3569 | The menu becomes active. When the active window is foreign to it, the menu's first window is activated. Reading the NULL menu's windows is the outcome `None`. |
| Focus.SetMenuActivates | tui.h:3535-3569 | Afterwards the menu is active. A foreign active window gives way to the menu's first window when that window is visible. |
| Focus.SetMenuTwice | tui.h:3535-3569 | Activating the active menu again changes nothing. |
| Focus.MenuSet | tui.h:3535-3569 | The method updates the focus as the specification does. |
| Focus.IndexOf | tui.h:3664-3675 | The index is the first position of w in the list, or -1 when w is absent. |
| Focus.IndexUnique | tui.h:3664-3675 | The index of the first occurrence is the first position. |
| Focus.IndexGet | tui.h:3664-3675 | The linear search returns the first position. |
| Focus.FirstStop | tui.h:3680-3695 | The first position where tabbing can stop, with none before it, or -1. |
| Focus.LastStop | tui.h:3797-3812 | The last position where tabbing can stop, with none after it, or -1. |
| Focus.WindowsTabForward | tui.h:3680-3695 | Activates the first stop of the list, reporting whether there is one; the windows themselves are unchanged. |
| Focus.WindowsTabBackward | tui.h:3797-3812 | Activates the last stop of the list, reporting whether there is one; the windows themselves are unchanged. |
| Focus.SearchLands | tui.h:3503-3526 | A search that finds a window lands on a stop with a consistent focus. |
| Focus.ParentOf | tui.h:200-221 | The parent is NULL or a parent window. |
| Focus.RootListsIn | tui.h:375-388 | The root lists hold windows of the arena. |
| Focus.ClimbForward | tui.h:3722-3740 | A climb that finds a window lands on a stop with a consistent focus, and the forward climb never loses its place. |
| Focus.RootForward | tui.h:3742-3779 | Searching the later root windows lands on a stop, or changes nothing. |
| Focus.WrapForward | tui.h:3781-3791 | The wrap-around lands on a stop, or changes nothing. Reading the windows of a missing active menu is the outcome `NullMenu`. |
| Focus.Forward | tui.h:3700-3792 | Tabbing forward lands on a stop or changes nothing, and does nothing without an active window. |
| Focus.ClimbBackward | tui.h:3828-3846 | A climb that finds a window lands on a stop with a consistent focus. |
| Focus.RootBackward | tui.h:3848-3879 | Searching the earlier root windows lands on a stop, or changes nothing. |
| Focus.WrapBackward | tui.h:3884-3894 | The backward wrap-around lands on a stop, or changes nothing, apart from the `NullMenu` outcome. |
| Focus.Backward | tui.h:3817-3895 | Tabbing backward lands on a stop or changes nothing. |
| Focus.TabKey | tui.h:3900-3915 | Lands on a stop or changes nothing, and keys other than tab and reverse tab change nothing. |
| Focus.TabForward | tui.h:3700-3792 | The method leaves the focus that `Focus.Forward` gives, and keeps it consistent. |
| Focus.ClimbTabForward | tui.h:3722-3740 | The climb loop ends with the focus `Focus.ClimbForward` finds, or, unchanged, at the root it reaches. |
| Focus.ChildrenTabForward | tui.h:3722-3740 | Searching the children after w either finds the climb's result, or leaves the focus and continues the climb from the parent. |
| Focus.ClimbForwardStep | tui.h:3722-3740 | The forward climb in p is the search among p's children after w, else the climb from p in its own parent. |
| Focus.RootTabForward | tui.h:3742-3779 | The method leaves the focus that `Focus.RootForward` gives. |
| Focus.RootForwardStep | tui.h:3742-3779 | The forward root search is the search among the later root windows, else the wrap-around; a window missing from the root list changes nothing. |
| Focus.WrapTabForward | tui.h:3781-3791 | The method leaves the focus that `Focus.WrapForward` gives. |
| Focus.TabBackward | tui.h:3817-3895 | The method leaves the focus that `Focus.Backward` gives, and keeps it consistent. |
| Focus.ClimbTabBackward | tui.h:3828-3846 | The climb loop ends with the focus `Focus.ClimbBackward` finds, or, unchanged, at the root it reaches. |
| Focus.ChildrenTabBackward | tui.h:3828-3846 | Searching the children before w either finds the climb's result, or leaves the focus and continues the climb from the parent. |
| Focus.ClimbBackwardStep | tui.h:3828-3846 | The backward climb in p is the search among p's children before w, else the climb from p in its own parent. |
| Focus.RootTabBackward | tui.h:3848-3879 | The method leaves the focus that `Focus.RootBackward` gives. |
| Focus.RootBackwardStep | tui.h:3848-3879 | The backward root search is the search among the earlier root windows, else the wrap-around. |
| Focus.WrapTabBackward | tui.h:3884-3894 | The method leaves the focus that `Focus.WrapBackward` gives. |
| Focus.TabEvent | tui.h:3900-3915 | The method leaves the focus that `Focus.TabKey` gives, and keeps it consistent. |
| Focus.ForwardNextSibling | tui.h:3700-3740 | From a window that is not a parent, tabbing forward lands on the first later sibling that is a stop, when there is one. |
| Focus.ForwardIntoChildren | tui.h:3700-3720 | From a parent window, tabbing forward lands on its first child that is a stop, when there is one. |
| Focus.BackwardPrevSibling | tui.h:3817-3846 | From a window with a parent, tabbing backward lands on the last earlier sibling that is a stop, when there is one. |
| Focus.FlatTabRoundTrip | tui.h:3700-3895 | Among flat root windows, tabbing forward from a stop moves, and tabbing backward from where it lands restores the original focus, with or without a wrap-around. |
| Focus.FlatTabOnward | tui.h:3742-3879 | The round trip when a later root window is a stop: forward lands on the first one, and backward from it finds the start again. |
| Focus.FlatTabWrap | tui.h:3742-3894 | The round trip when the forward tab wraps around to the first stop: backward from it wraps around to the last stop, which is the start. |
| Focus.FirstStopAt | tui.h:3680-3695 | The first stop is the stop with no stop before it. |
| Focus.LastStopAt | tui.h:3797-3812 | The last stop is the stop with no stop after it. |
| Search.Space | tui.h:3982-4019 | The first space of the path, with none before it, or -1. |
| Search.Head | tui.h:3982-4019 | The first segment holds no space and is no longer than the path. |
| Search.Tail | tui.h:3982-4019 | There is no rest exactly when the path has no space. Otherwise the path is the head, a space and the rest, and the rest is shorter. |
| Search.SplitJoin | tui.h:3982-4019 | "h rest", with h free of spaces, splits back into h and rest. |
| Search.IndexOfSpace | tui.h:3982-4019 | The first space is at i when p[i] is a space and none comes before it. |
| Search.WindowsSearch | tui.h:3922-3943 | The result is NULL or a window of the arena. `Search.WindowsSearchName` and `Search.WindowsSearchCompose` state which window. |
| Search.TuiSearch | tui.h:3948-3960 | The result is NULL or a window, and a path starting with `.` finds nothing. |
| Search.MenuSearch | tui.h:3965-3977 | The result is NULL or a window, and a path starting with `.` finds nothing. |
| Search.WindowSearch | tui.h:3982-4019 | The result is NULL or a window, and the empty path gives w itself. `Search.UpIsParent`, `Search.ChildByName` and `Search.WindowSearchCompose` state the rest. |
| Search.WindowsSearchName | tui.h:3922-3943 | A single segment finds a window exactly when one is named like it, and then the first such window. |
| Search.ChildByName | tui.h:3982-4019 | A name other than `.` finds a parent's first child of that name, or nothing. |
| Search.UpIsParent | tui.h:3982-4019 | The path `.` is the parent, and NULL for a parentless window. |
| Search.WindowsSearchCompose | tui.h:3922-3943 | Searching "h rest" from a list is searching rest from the window that h finds. |
| Search.WindowSearchCompose | tui.h:3982-4019 | Searching "h rest" from a window is searching rest from where h leads. |
| Search.TextSearch | tui.h:4024-4034 | The window the path leads to when it is a text window, and NULL otherwise. |
| Search.ParentSearch | tui.h:4039-4049 | The window the path leads to when it is a parent window, and NULL otherwise. |
| Search.GridSearch | tui.h:4054-4064 | The window the path leads to when it is a grid window, and NULL otherwise. |
| Search.MenuWindowSearchSet | tui.h:4069-4081 | Returns 1 and keeps the focus when the path finds nothing from the menu. Otherwise it returns 0 and activates the window found, as `Focus.SetWindow` does. |
| Input.Add | tui.h:3176-3217 | Succeeds exactly when the buffer has room and the key is printable. On success the key is inserted at the cursor, the rest moves up, and the cursor advances. On failure nothing changes. |
| Input.Del | tui.h:3222-3244 | Succeeds exactly when the cursor is past 0. On success the character before the cursor is removed and the cursor steps back. On failure nothing changes. |
| Input.Right | tui.h:3249-3268 | Moves the cursor right exactly when focused and not at the end. The text is kept. |
| Input.Left | tui.h:3273-3299 | Moves the cursor left exactly when focused and past 0. The text is kept. |
| Input.Key | tui.h:3304-3322 | The arrows move the cursor and keep the text, backspace deletes, and any other key is added. A rejected key changes nothing. Unfocused, only edits succeed. |
| Input.ViewFits | tui.h:3075-3155 | The visible string and its NUL fit the `size + 6` bytes allocated for it. |
| Input.PrintableNoEscape | tui.h:3176-3217 | Printable text, and every slice of it, holds no ESC. |
| Input.ViewPlain | tui.h:3075-3105 | Stripping the blink escape from the visible string gives back the whole text, plus the cursor space at the end. |
| Input.AddThenDel | tui.h:3176-3244 | Adding a key and deleting it restores text, cursor and scroll. |
| Input.DelThenAdd | tui.h:3176-3244 | Deleting a character and typing it again restores the state. |
| Input.RightThenLeft | tui.h:3249-3299 | A step right and a step left cancel out. |
| Input.ShiftRight | tui.h:3191-3194 | The loop moves the bytes from the cursor up one place and keeps every other byte. |
| Input.ShiftLeft | tui.h:3230-3233 | The loop moves the bytes after the cursor down one place and keeps every other byte. |
| Input.Field.constructor | tui.h:3110-3155 | The text is empty, cursor and scroll are 0, and the visible string is computed. |
| Input.Field.StringUpdate | tui.h:3075-3105 | The visible string is the view of the current text, cursor and focus. |
| Input.Field.SymbolAdd | tui.h:3176-3217 | The buffer method leaves exactly the state and result of `Input.Add` and keeps the field valid. |
| Input.Field.SymbolDel | tui.h:3222-3244 | The buffer method leaves exactly the state and result of `Input.Del` and keeps the field valid. |
| Input.Field.ScrollRight | tui.h:3249-3268 | The method matches `Input.Right`. |
| Input.Field.ScrollLeft | tui.h:3273-3299 | The method matches `Input.Left`. |
| Input.Field.Event | tui.h:3304-3322 | The method matches `Input.Key`, and the visible string is refreshed when the key is handled. |
| List.FirstShown | tui.h:3422-3437 | The nearest shown item at or after lo, or None exactly when there is none. |
| List.LastShown | tui.h:3442-3457 | The nearest shown item before hi, or None exactly when there is none. |
| List.Update | tui.h:3348-3380 | Nothing when the selection is shown. Otherwise the result is a shown item, or None when no item is shown. |
| List.ForwardThenBack | tui.h:3422-3457 | A step forward and then a step back return to a shown item. |
| List.BackThenForward | tui.h:3422-3457 | A step back and then a step forward return to a shown item. |
| List.UpdateSettles | tui.h:3348-3380 | A second update changes nothing. |
| List.Selection.constructor | tui.h:3385-3403 | No items, with index 0. |
| List.Selection.ItemAdd | tui.h:3327-3341 | Appends the item and returns 0. |
| List.Selection.ScrollForward | tui.h:3422-3437 | Moves to the nearest shown item after the index, or returns false and keeps the index. |
| List.Selection.ScrollBackward | tui.h:3442-3457 | Moves to the nearest shown item before the index, or returns false and keeps the index. |
| List.Selection.ItemUpdate | tui.h:3348-3380 | Keeps a shown selection. Otherwise it searches forward first, then backward, as `List.Update` does. |
| List.Selection.Event | tui.h:3462-3494 | Down, or right in a horizontal list, and tab scroll forward. Up, or left, and reverse tab scroll backward. Other keys are not handled. |
| Grid.Index | tui.h:3018-3029 | A position exists exactly when (x, y) lies in the grid, and it is inside the square array. |
| Grid.RowMajorBound | tui.h:3018-3029 | `y * w + x` lies in [0, w * h) for a square of the grid. |
| Grid.RowsAtLeast | tui.h:3018-3029 | d ≥ 1 whole rows cover at least one row. |
| Grid.EarlierRow | tui.h:3018-3029 | Every square of an earlier row comes before every square of a later one. |
| Grid.IndexInjective | tui.h:3018-3029 | Different squares have different positions. |
| Grid.IndexOnto | tui.h:3018-3029 | Every slot is the position of the square (i mod w, i div w). |
| Grid.MergeIdempotent | tui.h:3047-3068 | Modifying twice with the same square is modifying once. |
| Grid.MergeFull | tui.h:3034-3068 | A square that sets every part replaces the old one, as a set does. |
| Grid.MergeBlank | tui.h:3047-3068 | A blank square changes nothing. |
| Grid.Cells.constructor | tui.h:2677-2720 | A blank grid of the configured size. |
| Grid.Cells.Resize | tui.h:2647-2672 | A non-positive size gives 1 and keeps the grid. Otherwise the result is 0 and a fresh blank grid of that size. |
| Grid.Cells.SquareSet | tui.h:3034-3042 | Only the square at (x, y) is replaced, and only when it lies in the grid. |
| Grid.Cells.SquareModify | tui.h:3047-3068 | Only the square at (x, y) changes, to the merge of old and new, and only when it lies in the grid. |
| Grid.Create | tui.h:2677-2720 | No grid (NULL) exactly for a non-positive size. Otherwise a fresh blank grid of that size. |

## Left out

- ncurses: window creation, resizing, `wgetch` and `getmaxx` are not modelled. `init_pair` becomes the boolean `registered`, and the terminal size becomes the parameters `w` and `h` of the passes.
- Drawing is not modelled. This covers borders, shadows, text and grid rendering, and `tui_render`. Text and grid centring use float shifts.
- `tui_start` and `tui_resize` are not modelled: they are the blocking key loop and the terminal-size queries.
- Construction is not modelled: `tui_create`, `tui_menu_create` and the `tui_*_create` window constructors. The append functions (tui.h:2725-2770) are modelled only as the arena's shape: parents are stored before their children.
- Destruction is not modelled: `tui_delete`, the `*_free` functions, `tui_input_delete` and `tui_list_delete`. Neither are malloc or realloc failures.
- User hook bodies (`enter`, `exit`, `init`, `update`, `render`, `free`) are not modelled. Key hooks are parameters, and only their boolean results matter.
- Input.Fits: the state invariant fixes `scroll` at 0. The initial value is 0, and the only assignment lowers it to at most the cursor, so any other value is unreachable.
- Input.Field: the `tui` back-pointer is the `active` parameter, the active window of the toolkit.
- List.Selection.ItemUpdate requires non-NULL items and a non-empty list, because `tui_list_item_update` reads every item it visits without a NULL check, and with no items it reads `items[item_index]` of a NULL array (tui.h:3350).
- Grid.Index and Grid.Cells.Resize do not model the `int` overflow of `w * h` for huge grids (tui.h:3018-3029 and the `square_count` product at tui.h:2656).
- Base.HalfShift and Base.CDiv model the float shifts and float quotients of the placement code (tui.h:1815-2031) as exact. That holds while `|2v + k·s| < 2^24` for a shift and while both operands of a quotient stay below 2^24, which is always so at terminal scale. Above that the single-precision sum rounds: v = 8388609, k = 1, s = 1 gives 8388610 in the source and 8388609 here.
- Grid.Create models only the grid part of `_tui_window_grid_create`. A failure is NULL; the window head is not modelled.
- Focus.TabForward, Focus.TabBackward and Focus.TabEvent require that the search does not reach the NULL-menu dereference. The specification functions return that case as `NullMenu`.
- Focus.MenuSet requires an outcome other than `None`. `tui_menu_set(tui, NULL)` dereferences the NULL menu when it must pick a window.
- Search: the NULL search string is not modelled. Paths are sequences.
- SizePass.SizeCalcAll takes the measured sizes as a ghost argument, tied to `SizePass.Measures` by its precondition.
- Reflow.TextWsGet requires the `ws` array that its caller sizes by the wrapped height. Under that precondition the last-line store at tui.h:1074-1077, which has no `y < h` check, stays inside the array.
- SizePass.ParentSize, SizePass.ParentRect, SizePass.SizeCalc and SizePass.SizeCalcAll use the corrected `SizePass.ParentExtent`. They do not reproduce the `size_t` wrap at tui.h:1600-1604: for a horizontal parent with a gap, a border and only a fixed 1 x 1 child they give width 2 where the source gives 1 (the tui.h:1594-1604 finding below).
- Placement.PlaceChild and RectPass.ChildRect use the corrected `Placement.BetweenGap` through `Placement.MainSpan`. A lone BETWEEN child is placed as under START, where the source divides by zero at tui.h:1812-1822 and tui.h:1963-1975 (the two BETWEEN findings below).
- Colors.PairCache.PairGet uses the corrected bound `Colors.PairLimit`. The original overflow is the first finding below.

## Findings

| source | as written | input that shows it | evidently intended | confidence | as-written member | corrected member |
|---|---|---|---|---|---|---|
| tui.h:399-438 | `COLOR_CACHE` has 128 slots, but pair numbers are allowed up to `COLORS - 1` | a 256-colour terminal, after 127 distinct colours: pair 128 is written at `COLOR_CACHE[128]` | stop allocating at the smaller of `COLORS` and the cache size | not executed | Colors.CacheOverflowAsWritten | Colors.PairCache.PairGet |
| tui.h:1963-1975 | the horizontal BETWEEN gap divides by `align_count - 1` | a parent with align BETWEEN and one aligned child: division by 0.0, and an undefined float-to-int conversion | a lone child placed as under START | not executed | Placement.BetweenLoneChildAsWritten | Placement.BetweenLoneChildAtStart |
| tui.h:1812-1822 | the vertical BETWEEN gap divides by `align_count - 1` in the same way | a vertical parent with align BETWEEN and one aligned child: division by 0.0, and an undefined float-to-int conversion | a lone child placed as under START | not executed | Placement.BetweenLoneChildAsWritten | Placement.BetweenLoneChildAtStart |
| tui.h:1594-1604 | `(align_count - 1)` is computed in `size_t`, so with no aligned child it wraps to 2^64 - 1 | a horizontal parent with a gap and a border, whose only child has the fixed rect 1 x 1: width 1 instead of 2 | no gap term without aligned children | not executed | SizePass.GapWrapAsWritten | SizePass.ParentExtent |
