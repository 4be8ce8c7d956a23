# okui: state-machine attribute algebra and integer rectangles

This project is a Dafny model of two value-level parts of the okui UI toolkit.

**The `statemachine` markup element** (`include/okui/ml/elements/StateMachine.h`).
A state's attributes form a map from attribute name to an ordered list of
value components, and each component carries a coefficient. While a
transition is in flight, the element blends two states with this algebra:
`operator*` scales every coefficient by a weight, and `operator+` merges two
attribute sets. The model is in `state_machine_element.dfy`, module
`StateMachineElement`:

- `Attributes` is a class with the `values` map as its field.
- `Times` (`operator*`) and `Plus` (`operator+`) loop over the map's names
  as the C++ does.
- Each method is proved against the functions `Scale`, `MergeResult` and
  `MergeReceiver`, and the lemmas about those functions state the algebra's
  laws.
- `Plus` follows the code as written: a name that only the right operand has
  is inserted into the receiver's own map, not into the returned set.
- The element's `StateMachine` wrapper keeps the trigger flag and the
  delegate. It is modelled as a class.

**`Rectangle<int>`**, as the tests in `ui/tests/Rectangle.cpp` fix it. This
is module `Geometry` in `rectangle.dfy`. A rectangle is a value
`(x, y, width, height)`. `Contains` is half-open: `[x, x+width) × [y, y+height)`.
`Intersects` means the two rectangles overlap with positive width and
positive height. `Intersection` is the overlap region, or the default
rectangle `(0,0,0,0)` when there is none. The header that implements
`Rectangle` is not part of this model. The positive-overlap rule used here is
one definition consistent with the tests; the tests do not fix every case
(see `Geometry.Intersects` under "## Left out"). The definitions are proved
against every test assertion and against the general rules: a common point exists exactly when the rectangles intersect,
and the intersection covers exactly the points both operands cover.

## Model

| member | source | states |
|---|---|---|
| `StateMachineElement.ScaleComponents` | include/okui/ml/elements/StateMachine.h:74-77 | the scaled list has the same length and order as the input; each component keeps its non-coefficient part, and its coefficient is the original times the factor |
| `StateMachineElement.ScaleVector` | include/okui/ml/elements/StateMachine.h:73-77 | the copy-then-multiply-in-place loop produces exactly the pointwise-scaled list |
| `StateMachineElement.Scale` | include/okui/ml/elements/StateMachine.h:70-80 | the scaled set has exactly the operand's attribute names; each list keeps its length and order, and only coefficients change, each multiplied by the factor |
| `StateMachineElement.Attributes.Times` | include/okui/ml/elements/StateMachine.h:70-80 | `operator*` returns a fresh set equal to `Scale(values, k)`; it has no modifies clause, so the operand is left unchanged |
| `StateMachineElement.ScaleComponentsByOne` | include/okui/ml/elements/StateMachine.h:76 | scaling a component list by 1 returns it unchanged |
| `StateMachineElement.ScaleByOne` | include/okui/ml/elements/StateMachine.h:70-80 | scaling an attribute set by 1 is the identity |
| `StateMachineElement.ScaleComponentsCompose` | include/okui/ml/elements/StateMachine.h:76 | scaling a list by k1 and then by k2 equals scaling it once by k1*k2 |
| `StateMachineElement.ScaleCompose` | include/okui/ml/elements/StateMachine.h:70-80 | `Scale(Scale(A, k1), k2) == Scale(A, k1*k2)` |
| `StateMachineElement.MergeResult` | include/okui/ml/elements/StateMachine.h:82-91 | the returned set has exactly the left operand's names; each holds the left components followed by the right ones, or only the left ones when the right operand lacks the name |
| `StateMachineElement.MergeReceiver` | include/okui/ml/elements/StateMachine.h:93-97 | after the merge, the left operand keeps every entry it had, unchanged, and also holds every right-only entry, unmodified |
| `StateMachineElement.Attributes.Plus` | include/okui/ml/elements/StateMachine.h:82-100 | `operator+` returns a fresh set equal to `MergeResult` of the old maps; the receiver's map becomes `MergeReceiver` of them; the right operand's map is unchanged |
| `StateMachineElement.MergeWithEmpty` | include/okui/ml/elements/StateMachine.h:82-99 | merging with an empty right operand returns the left operand and leaves it unchanged |
| `StateMachineElement.MergeIntoEmpty` | include/okui/ml/elements/StateMachine.h:82-99 | merging into an empty left operand returns an empty set, and the receiver becomes a copy of the right operand |
| `StateMachineElement.MergeWithSelf` | include/okui/ml/elements/StateMachine.h:82-99 | `a + a` doubles every list and leaves `a` unchanged |
| `StateMachineElement.MergeTwice` | include/okui/ml/elements/StateMachine.h:93-97 | after one merge, merging again with the same right operand returns each right-only name with the right components twice, because the first merge inserted them into the receiver |
| `StateMachineElement.IntendedMerge` | include/okui/ml/elements/StateMachine.h:82-100 | the corrected merge: every name of either operand; left components before right ones where both define a name |
| `StateMachineElement.IntendedMergeIdentity` | include/okui/ml/elements/StateMachine.h:82-100 | the empty set is a left and a right identity of the corrected merge |
| `StateMachineElement.ScaleComponentsConcat` | include/okui/ml/elements/StateMachine.h:74-77 | scaling the concatenation of two lists gives the two scaled lists concatenated |
| `StateMachineElement.IntendedMergeScales` | include/okui/ml/elements/StateMachine.h:70-100 | scaling distributes over the corrected merge |
| `StateMachineElement.AsWrittenVsIntended` | include/okui/ml/elements/StateMachine.h:82-100 | the as-written result agrees with the corrected merge on every name it has; it equals the corrected merge if and only if every right name is also a left name; the receiver ends with the corrected merge's names |
| `StateMachineElement.BlendAsWrittenDropsNewAttributes` | include/okui/ml/elements/StateMachine.h:93-97 | for a blend from an empty set towards `{opacity: [1.0]}` at weight 0.5, the as-written merge returns the empty set and the corrected merge returns `{opacity: [0.5]}` |
| `StateMachineElement.Attributes.constructor` | include/okui/ml/elements/StateMachine.h:71 | a newly declared attribute set (`Attributes ret;`, also at line 83) has an empty `values` map |
| `StateMachineElement.StateMachine.constructor` | include/okui/ml/elements/StateMachine.h:109-112 | the constructor stores the initial state and the trigger flag, `false` by default; it starts with no delegate |
| `StateMachineElement.StateMachine.SetDelegate` | include/okui/ml/elements/StateMachine.h:119 | the delegate becomes the given one; no other field changes |
| `StateMachineElement.DefaultMachineHasNoTrigger` | include/okui/ml/elements/StateMachine.h:109-112 | a machine built with the default trigger argument reports no trigger for any id |
| `StateMachineElement.TriggerMachineTriggersOnDefinedStates` | include/okui/ml/elements/StateMachine.h:125 | a machine built with `trigger = true` reports a trigger for an id if and only if the id is a defined state |
| `Geometry.DefaultRectangle` | ui/tests/Rectangle.cpp:16-22 | the default rectangle is (0,0,0,0) and contains no point |
| `Geometry.Origin` | ui/tests/Rectangle.cpp:24-28 | the origin lies inside the rectangle exactly when the rectangle has positive width and height |
| `Geometry.Contains` | ui/tests/Rectangle.cpp:36-46 | half-open containment in [x, x+width) × [y, y+height); a rectangle that contains any point has positive width and height |
| `Geometry.Intersects` | ui/tests/Rectangle.cpp:48-99 | the x ranges and the y ranges overlap with positive length, so both rectangles have positive width and height; `IntersectsIffCommonPoint` proves this is the same as having a common point |
| `Geometry.Size` | ui/tests/Rectangle.cpp:30-34 | origin plus size gives the first coordinates past the right and bottom edges |
| `Geometry.Intersection` | ui/tests/Rectangle.cpp:48-106 | with no overlap the result is the default rectangle; with overlap it has positive width and height; either way it contains a point exactly when both operands do |
| `Geometry.IntersectsIffCommonPoint` | ui/tests/Rectangle.cpp:48-99 | two rectangles intersect if and only if some point lies in both |
| `Geometry.IntersectionCommutes` | ui/tests/Rectangle.cpp:48-106 | `intersects` and `intersection` do not depend on the operands' order |
| `Geometry.EdgeContactDoesNotIntersect` | ui/tests/Rectangle.cpp:63-69 | rectangles that only touch along an edge do not intersect, and their intersection is the default rectangle |
| `Geometry.EmptyIntersectsNothing` | ui/tests/Rectangle.cpp:93-99 | a rectangle with zero height or width intersects nothing, even a rectangle with the same origin, and its intersection with anything is the default rectangle |
| `Geometry.NestedIntersectionIsInner` | ui/tests/Rectangle.cpp:101-106 | a non-empty rectangle lying inside another intersects it, and the intersection is the inner rectangle itself |
| `Geometry.ConstructionCases` | ui/tests/Rectangle.cpp:8-34 | construction stores x, y, width and height as given; the default is (0,0,0,0); `origin` is (1,2) and `size` is (3,4) for (1,2,3,4) |
| `Geometry.ContainsCases` | ui/tests/Rectangle.cpp:36-46 | for (1,2,3,4): (1,2) and (2,3) are inside; (5,10), (1,10), (4,6), (4,3) and (2,6) are outside |
| `Geometry.IntersectionCases` | ui/tests/Rectangle.cpp:48-106 | every `intersects` and `intersection` assertion of the `intersection` test holds |

## Left out

- The generic animation engine `okui::StateMachine<State>` is not part of this model. Its `drive`, `state`, `setState`, `reset` and `hasState` are only forwarded at include/okui/ml/elements/StateMachine.h:120-124; their bodies are in a header that is not part of this model. `hasState` is modelled as membership in `stateIds`. That field stands for the engine's state table and is a constructor argument, because the table is filled elsewhere.
- `StateMachine::update` and `StateMachine::apply` (lines 115-116), and `Element::initialize` and `Element::update` (lines 60-61), are declared only. `initialize` receives the element's XML markup.
- `Element::id`, `Element::stateMachine`, the `stateDefinitions` map and the element-type factory `create` are plain accessors or storage with no behaviour to prove.
- `ValueComponent`: only its coefficient is modelled. Everything else in a component is an opaque type parameter `P` that the algebra carries unchanged.
- Coefficients are `real`. IEEE double rounding in `operator*` is not modelled.
- The names in `values` are `string`s. The source's keys are `string_view`s into storage whose lifetime is not modelled.
- `Attributes.Times` and `Attributes.Plus` visit the names in an order the verifier chooses, as `unordered_map` iteration order is unspecified. The results do not depend on that order.
- `Attributes.Plus` snapshots the right operand's map before its loops. When the right operand is the receiver itself (`a + a`), the C++ loop over `other.values` inserts nothing, so reading the snapshot is equivalent.
- `Geometry.Intersects`: for rectangles of zero or negative width or height the tests do not fix the answer; treating them as intersecting nothing is a modelling choice. For example, the zero-height (0,5,10,0) inside (0,0,10,10) does not intersect here, while the common edge test `a.x < b.x+b.width && b.x < a.x+a.width && ...` would say it does. The one degenerate case the tests fix is the zero-height rectangle sharing an origin with a larger one (ui/tests/Rectangle.cpp:93-99), which does not intersect under both definitions.
- `Geometry.Contains`, `Geometry.Intersects`, `Geometry.Intersection`: coordinates and sums are unbounded integers. If the `Rectangle` header computes `x + width` in C++ `int`, that sum can overflow near `INT_MAX`; the model does not capture such overflow.
- The other files of the repository are not part of this model: window and platform code, menus, text views and buttons.

## Findings

| source | as written | input that shows it | evidently intended | confidence | as-written member | corrected member |
|---|---|---|---|---|---|---|
| include/okui/ml/elements/StateMachine.h:93-97 | `operator+` inserts each name that only the right operand has into the left operand's own `values`, not into `ret.values`. The returned set keeps only the left operand's names. In a blend `from * (1-t) + to * t` the left operand is a temporary, so those entries are lost. | `{}` * 0.5 + `{opacity: [1.0]}` * 0.5 returns `{}` | the result holds `{opacity: [0.5]}`: right-only names appear in the result unmodified, so the empty set is an identity on both sides | medium (the blending caller is not part of this model); not executed | `StateMachineElement.BlendAsWrittenDropsNewAttributes` | `StateMachineElement.IntendedMerge` |

`Attributes.Plus` keeps the behaviour as written, because it models the code.
`IntendedMerge` is the corrected merge. `IntendedMergeIdentity` and
`IntendedMergeScales` prove its laws. `AsWrittenVsIntended` relates the two
merges.
