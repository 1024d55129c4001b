# UIDropMenu — a verified model

This project models `UIDropMenu`, the drop-down menu control of the P3LX user
interface library. The menu is bound to a `DiscreteParameter`: an integer value in
`[0, range)` with optional option labels. While closed, the menu shows one box,
one row (`closedHeight`) tall. When it expands, it grows to one header row plus one
row per option. It grows downward (`Direction.DOWN`) or upward (`Direction.UP`).
Pointer presses, pointer moves and keys drive it. It mirrors the parameter's
value into its `highlight` field through the parameter's change callback.

The model has three modules:

- `MenuGeometry` (`Geometry.dfy`) holds the pure arithmetic:
  - the hit test that maps a local y-coordinate to a row index or -1;
  - Java's truncating `(int)` cast;
  - the expanded bounding box;
  - the `textY` / `lineY` / `highlightY` offsets of the draw callback;
  - the rows the draw callback's label loop paints.

  Its lemmas tie the draw geometry to the hit test, for points inside the box
  (`0 <= y < height`). There, the highlighted row of index `i` is exactly the band
  of points that hit-tests to `i`, the header row hit-tests to -1, and every hit is
  -1 or a valid value. Inside the closed box, every hit is -1. Outside the box the
  hit test is not bounded by the option count. The first point below an expanded
  DOWN box hits index `range`. Just above an UP box (`-closedHeight < y < 0`), the
  truncating cast gives row 0. Further above it, the hit is -1 or below.
- `Parameters` (`Parameter.dfy`) holds `DiscreteParameter` as a small class with
  `value`, `range`, `options` and a listener set. Its contracts say only what the
  menu relies on.
- `DropMenu` (`DropMenu.dfy`) holds the `UIDropMenu` class. Its fields are
  `parameter`, `expanded`, `direction`, `highlight`, `options` and the box
  `x`/`y`/`width`/`height`, plus the constants `closedY` and `closedHeight`
  captured at construction. The `Valid()` predicate is the object invariant: the
  menu is subscribed to its parameter, and while closed the box equals the closed
  box exactly. The `Coherent()` predicate says that while expanded, the box is the
  expanded box for the current direction and range, and `highlight` is a valid
  value. Presses and key input always keep or establish `Coherent()`. A pointer
  move keeps it when the pointer is inside the box. A move outside the box can set
  `highlight` to an index past the last option, as the source does.

Coordinates are integers. The parameter notifies its listeners only when its value
changes. Its mutators (`SetValue`, `Increment`, `Decrement`) therefore report
whether the value changed. When the menu itself mutates the parameter, it runs its
own `OnParameterChanged` synchronously, right after the mutation and only on a
change. A step at an end of the range that leaves the value unchanged therefore
leaves `highlight` unchanged.

`onMousePressed` commits `highlight`, not the freshly computed `selected` index
(`src/heronarts/p3lx/ui/component/UIDropMenu.java:205`). The model does the same.
Because of that, a press commits the row under the pointer only if a hover over
that row came first. `HoverThenPress` proves that case. The other case is a press
on an option row with no move before it, for example straight after expanding.
That press commits the highlight, which expansion set to the current value, so the
value does not change, although the pointer is over another row. The model keeps
this behaviour of the code rather than committing the row under the pointer.

## Model

| member | source | states |
|---|---|---|
| MenuGeometry.TruncDiv | src/heronarts/p3lx/ui/component/UIDropMenu.java:188-194 | the `(int)` cast of the quotient truncates toward zero: for a non-negative dividend `q*b <= a < (q+1)*b`, for a negative one `(q-1)*b < a <= q*b` |
| MenuGeometry.SelectedIndex | src/heronarts/p3lx/ui/component/UIDropMenu.java:182-196 | DOWN: -1 iff `y < closedHeight`, otherwise the unique row `r >= 0` with `closedHeight*(r+1) <= y < closedHeight*(r+2)`, that is `(y - closedHeight) / closedHeight`. UP, for `y >= 0`: -1 iff `y >= height - closedHeight`, otherwise the unique row `r >= 0` with `closedHeight*r <= y < closedHeight*(r+1)`, that is `y / closedHeight`. UP with `-closedHeight < y < 0` off the header: 0, from the truncating cast; UP with `y <= -closedHeight` off the header: at most -1. The two branches are the helpers `MenuGeometry.DownIndex` (lines 190-194) and `MenuGeometry.UpIndex` (lines 184-188), whose contracts carry the same clauses |
| MenuGeometry.ExpandedBounds | src/heronarts/p3lx/ui/component/UIDropMenu.java:169-174 | the expanded box is `closedHeight*(range+1)` tall and keeps the header row where the closed box was: DOWN keeps the top at `closedY`, UP keeps the bottom at `closedY + closedHeight`; stated through `MenuGeometry.HeaderTop`, the top of the header row inside a box (lines 123/128, 172), which puts the header row at `closedY` |
| MenuGeometry.DrawLayout | src/heronarts/p3lx/ui/component/UIDropMenu.java:118-132 | the header text is drawn at the header row's local top; the separating line sits below the header (DOWN) or on its top edge (UP); the text position is stated through `MenuGeometry.HeaderTop` (lines 123/128), whose contract keeps the header row inside any box at least one row tall |
| MenuGeometry.LabelRows | src/heronarts/p3lx/ui/component/UIDropMenu.java:149-159 | the label loop paints one row per option; the label of option `i` is drawn at the top of the row the highlight rectangle covers for `i`, and exactly the highlighted option uses the emphasis colour |
| MenuGeometry.ClosedHitIsNone | src/heronarts/p3lx/ui/component/UIDropMenu.java:182-196 | while closed (height one row), every point of the box hit-tests to -1, in both directions |
| MenuGeometry.ExpandedHitInRange | src/heronarts/p3lx/ui/component/UIDropMenu.java:182-196 | while expanded, every point `0 <= y < height` hit-tests to -1 or to an index in `[0, range)` |
| MenuGeometry.HighlightRowHitsIndex | src/heronarts/p3lx/ui/component/UIDropMenu.java:124-130 | every point of the row the draw callback highlights for index `i` hit-tests back to `i` (rendering and hit test agree) |
| MenuGeometry.HitLiesInHighlightRow | src/heronarts/p3lx/ui/component/UIDropMenu.java:124-130 | inside the expanded box, a point that hit-tests to an index `r >= 0` lies in the row the draw callback highlights for `r` (the converse of `HighlightRowHitsIndex`) |
| MenuGeometry.BelowBoxHitsPastLastRow | src/heronarts/p3lx/ui/component/UIDropMenu.java:190-194 | the hit test is not clamped to the option count: the first point below an expanded DOWN box hits index `range` |
| MenuGeometry.HeaderRowHitsNone | src/heronarts/p3lx/ui/component/UIDropMenu.java:123-128 | every point of the header row the value text is drawn in hit-tests to -1 |
| Parameters.DiscreteParameter.SetValue | src/heronarts/p3lx/ui/component/UIDropMenu.java:205 | the value stays in `[0, range)`, an in-range argument is stored exactly, and the result reports whether the value changed (when listeners are notified) |
| Parameters.DiscreteParameter.Increment | src/heronarts/p3lx/ui/component/UIDropMenu.java:231 | the value stays in `[0, range)` and becomes `value + 1` below the top end; the result reports whether the value changed |
| Parameters.DiscreteParameter.Decrement | src/heronarts/p3lx/ui/component/UIDropMenu.java:234 | the value stays in `[0, range)` and becomes `value - 1` above the bottom end; the result reports whether the value changed |
| Parameters.DiscreteParameter.AddListener | src/heronarts/p3lx/ui/component/UIDropMenu.java:70 | the listener set gains the new listener and nothing else changes |
| Parameters.DiscreteParameter.RemoveListener | src/heronarts/p3lx/ui/component/UIDropMenu.java:66 | the listener set loses the listener and nothing else changes |
| DropMenu.UIDropMenu.constructor | src/heronarts/p3lx/ui/component/UIDropMenu.java:57-62 | captures `closedY`/`closedHeight` from the initial box, starts closed with direction DOWN and highlight -1, takes the parameter's labels, and subscribes to the parameter |
| DropMenu.UIDropMenu.SetParameter | src/heronarts/p3lx/ui/component/UIDropMenu.java:64-72 | removes the menu from the old parameter's listeners, adds it to the new one's, takes the new labels, and leaves `expanded`, `highlight`, direction and box unchanged; rebinding to a parameter with the same range keeps `Coherent()` |
| DropMenu.UIDropMenu.OnParameterChanged | src/heronarts/p3lx/ui/component/UIDropMenu.java:74-77 | `highlight` becomes the bound value and nothing else changes; `Coherent()` is preserved |
| DropMenu.UIDropMenu.SetDirection | src/heronarts/p3lx/ui/component/UIDropMenu.java:85-88 | only the direction changes; while closed this keeps `Coherent()` |
| DropMenu.UIDropMenu.SetOptions | src/heronarts/p3lx/ui/component/UIDropMenu.java:96-99 | only the labels change |
| DropMenu.UIDropMenu.SetExpanded | src/heronarts/p3lx/ui/component/UIDropMenu.java:166-180 | asking for the current state changes nothing. Expanding sets `highlight` to the value and `height` to `closedHeight*(range+1)`. Expanding moves `y` to `closedY - closedHeight*range` for UP and leaves `y` alone for DOWN. Collapsing restores `closedY`/`closedHeight` exactly and keeps `highlight`. Every transition ends `Coherent()` |
| DropMenu.UIDropMenu.ToggleExpanded | src/heronarts/p3lx/ui/component/UIDropMenu.java:162-164 | flips `expanded`, ends `Coherent()`, re-syncs the highlight when it expands and keeps it when it collapses |
| DropMenu.UIDropMenu.OnMousePressed | src/heronarts/p3lx/ui/component/UIDropMenu.java:198-209 | a press on a closed menu expands it without touching the value. A press on an expanded menu always collapses it to the closed box. Over an option row, it commits the old `highlight`. When that is in range, the value becomes it and `highlight` equals the value afterwards. When the commit changes the value, the callback sets `highlight` to it; otherwise `highlight` is kept. Over the header, value and highlight are unchanged |
| DropMenu.UIDropMenu.OnMouseMoved | src/heronarts/p3lx/ui/component/UIDropMenu.java:211-218 | a valid hit becomes the highlight and -1 keeps the old one. While closed, a move inside the box changes nothing. Inside the box, `Coherent()` is preserved |
| DropMenu.UIDropMenu.OnKeyPressed | src/heronarts/p3lx/ui/component/UIDropMenu.java:220-236 | exactly Enter, Space, Escape, Down and Up are consumed. Enter/Space toggle. Escape closes, and while already closed it changes nothing. Down/Up step the value, leaving expansion and box alone. The highlight becomes the new value when the step changes it and is kept when the step leaves the value unchanged. Any other key changes nothing |
| DropMenu.ToggleTwice | src/heronarts/p3lx/ui/component/UIDropMenu.java:162-178 | two toggles from closed restore the exact closed box, with the highlight re-synced to the value |
| DropMenu.HoverThenPress | src/heronarts/p3lx/ui/component/UIDropMenu.java:199-218 | on a coherent expanded menu, hovering an option row and pressing there commits that row's index, collapses, and leaves `highlight` equal to the value |

## Left out

- Drawing (`src/heronarts/p3lx/ui/component/UIDropMenu.java:107-160`) is not modelled: the `PGraphics` calls, theme colours, fonts, text alignment, the disclosure glyph and the label strings themselves. Only the `textY`/`lineY`/`highlightY` arithmetic (`DrawLayout`) and the row positions and emphasis of the label loop (`LabelRows`) are modelled.
- `redraw()`, `getFocusSize()` and the `UIFocus` interface are host-framework hooks and are not modelled. `consumeKeyEvent()` is the boolean result `consumed` of `OnKeyPressed`.
- `setPosition` / `setSize` of the host component are plain assignments to `y` and `height`. The host's reflow of sibling components is not modelled.
- Coordinates are integers, not Java `float`s. Fractional pointer positions and floating-point rounding are not modelled. The truncating `(int)` cast is modelled exactly for quotients within Java's `int` range, negative ones included; its saturation at `Integer.MAX_VALUE` / `Integer.MIN_VALUE` beyond that range is not modelled.
- A non-positive row height is excluded (`closedHeight > 0`). With a zero height the source would divide by `0.0`.
- `DiscreteParameter` internals are not part of this model. How `setValue` treats an out-of-range argument, and whether `increment`/`decrement` wrap or clamp at the ends, is the parameter's own policy. The contracts only promise a value in `[0, range)` and the exact result away from the ends.
- Parameters.DiscreteParameter.SetValue: the parameter does not dispatch the change notification itself. It reports whether the value changed, and the menu method that mutated it then calls this menu's `OnParameterChanged`. Other subscribers' callbacks are not modelled.
- Keys are the enum `Key` rather than Java AWT key codes.
- The length of the label array against `range` is not checked, as in the source. Labels only feed rendering, which is left out.
- A `null` parameter passed to the constructor or to `setParameter` (a `NullPointerException` in the source) is not modelled: the parameter is a non-null reference.
