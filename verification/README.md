# Fixed-position layout element proxy, modelled in Dafny

Open MCT's fixed-position layout places boxes, lines, text and images on a
canvas. Each placed item is a raw element record (`x`, `y`, `width`,
`height`, an optional second endpoint `x2`/`y2` for lines, `stroke`, and the
`useGrid` flag saying whether the numbers are grid units or pixels). The
records live in one ordered array shared by the view. The `ElementProxy`
is a short-lived view over one record, its index in that array and the
layout grid size. It offers:

- z-ordering (`order`) and removal (`remove`), both guarded by the identity
  check `elements[index] === element`;
- switching between pixel and grid units (`setUnits`, `convertCoordsTo`);
- the active grid size and the minimum size in the current unit
  (`getGridSize`, `setGridSize`, `getMinWidth`, `getMinHeight`);
- position, size and stroke accessors. The `x`/`y` setters clamp to be
  non-negative.

The project has five modules:

- `Splice` (`splice.dfy`) has array splicing and the "move one entry"
  composition, with its position-by-position reference definition.
- `Rounding` (`rounding.dfy`) has the clamp, `Math.round(p / g)` as
  `(2p + g) / 2g` and `Math.ceil(n / g)` as `(n + g - 1) / g` under floor
  division.
- `LayoutElement` (`layout_element.dfy`) has the record, the grid size and the
  accessor/mutator cells.
- `ElementProxy` (`element_proxy.dfy`) has the proxy's operations.
- `ProxyLaws` (`proxy_laws.dfy`) has the laws that relate several calls, plus
  worked scenarios.

Object identity is an `id` on each record: entries with equal ids are the
same object. The shared array is threaded explicitly. The operations that
may change it take the array as an argument and hand back the array
afterwards: `order`, `setUnits`, `convertCoordsTo` and the `stroke` write
return a `Step` (proxy and array), the numeric cells return an `Access`
(a `Step` and the cell's value), and `remove` returns the new array alone.
An in-place mutation of the element object is written by `Commit`. It
updates the proxy's copy and every array entry with the same id.

Behaviour of the code that the model keeps:

- `convertCoordsTo` scales by the held grid size, not by `getGridSize()`.
- It takes the minimum size from the element's flag as that flag stands when
  it is called. Under `setUnits`, that flag has already been flipped.
- A direct `convertCoordsTo('grid')` on a pixel-mode element therefore uses
  the 10-pixel minimum as a grid-unit minimum
  (`DirectGridConversionUsesPixelMinimum`).
- The endpoint is converted only when both `x2` and `y2` are truthy. A line
  whose `x2` is 0 keeps `y2` in pixels while the rest of the record moves to
  grid units (`ZeroEndpointStaysInPixels`).
- `top` has delta +infinity and `bottom` has -infinity, so after clamping
  `top` moves the element to the last index and `bottom` to index 0. `top`
  is therefore a no-op on the last element and `bottom` on the first
  (`OrderNoOpLaws`).
- `up` is delta +1: on index 2 of `[A, B, C, D]` it gives `[A, B, D, C]`
  with index 3 (`OrderUpScenario`).

## Model

| member | source | states |
|---|---|---|
| Splice.RemoveAt | platform/features/layout/src/elements/ElementProxy.js:147 | `splice(i, 1)` shortens the array by one. Entries before `i` keep their place, later ones shift down, and the multiset loses exactly the removed entry. |
| Splice.InsertAt | platform/features/layout/src/elements/ElementProxy.js:149 | `splice(i, 0, x)` puts `x` at `i` and shifts later entries up. The multiset gains exactly `x`. |
| Splice.RemoveInsertAt | platform/features/layout/src/elements/ElementProxy.js:147-149 | Removing at `i` what was just inserted at `i` restores the array. |
| Splice.Move | platform/features/layout/src/elements/ElementProxy.js:147-149 | Moving an entry keeps the length and the multiset, and the moved entry is at the target. |
| Splice.MoveIsPointwise | platform/features/layout/src/elements/ElementProxy.js:147-149 | The two splices agree position by position with the independent `Source` map of a move. |
| Splice.MoveKeepsOthers | platform/features/layout/src/elements/ElementProxy.js:147-149 | Taking the moved entry out of the result gives the input with that entry taken out. |
| Splice.MoveTargets | platform/features/layout/src/elements/ElementProxy.js:147-149 | Every other entry is found at its target position, and targets strictly increase, so no two others swap. |
| Splice.MoveAdjacent | platform/features/layout/src/elements/ElementProxy.js:147-149 | Moving an entry by one place swaps it with its neighbour and touches nothing else. |
| Rounding.Clamp | platform/features/layout/src/elements/ElementProxy.js:40-42 | The clamped value is non-negative, at least the input, and is either the input or 0. |
| Rounding.Round | platform/features/layout/src/elements/ElementProxy.js:213-214 | `r * g` is the multiple of `g` nearest to `p`, and a tie goes to the larger one, as with `Math.round`. |
| Rounding.RoundsToUnique | platform/features/layout/src/elements/ElementProxy.js:213-214 | At most one integer meets the nearest-multiple condition, so the condition determines the rounded value. |
| Rounding.RoundOfMultiple | platform/features/layout/src/elements/ElementProxy.js:204-214 | An exact multiple `x * g` rounds back to `x`. |
| Rounding.CeilDiv | platform/features/layout/src/elements/ElementProxy.js:253 | The result is the least count `r` with `r * g >= n`, which is `Math.ceil(n / g)`. |
| LayoutElement.Normalize | platform/features/layout/src/elements/ElementProxy.js:88-123 | The `x`/`y` cells store a non-negative value: the input when it is non-negative and 0 when it is negative. The `width`/`height` cells store the input unchanged. |
| LayoutElement.Truthy | platform/features/layout/src/elements/ElementProxy.js:208 | A number is truthy exactly when it is present and non-zero, negative numbers included. An absent number and 0 are falsy. |
| LayoutElement.HasEndpoint | platform/features/layout/src/elements/ElementProxy.js:208-217 | The endpoint test passes exactly when both `x2` and `y2` are present and non-zero, whatever their sign. It fails when either is missing or 0. |
| LayoutElement.Put | platform/features/layout/src/elements/ElementProxy.js:88-123 | A write stores the normalized value in the bound field and leaves every other field unchanged. |
| LayoutElement.PutLaws | platform/features/layout/src/elements/ElementProxy.js:88-123 | Writing back an already normalized value changes nothing, and a repeated identical write equals a single one. |
| ElementProxy.Orders | platform/features/layout/src/elements/ElementProxy.js:28-33 | `top` alone gives +infinity, `up` alone +1, `down` alone -1 and `bottom` alone -infinity. Every other key gives delta 0, and finite deltas lie in -1..1. |
| ElementProxy.Desired | platform/features/layout/src/elements/ElementProxy.js:140-143 | The target is a valid index, or 0 for an empty array. +infinity goes to the last index and -infinity to 0. An in-range `index + delta` is taken as is, and one out of range is cut to the nearest end. |
| ElementProxy.GetGridSize | platform/features/layout/src/elements/ElementProxy.js:230-238 | Grid mode gives the held grid size. Pixel mode gives `[1, 1]`. |
| ElementProxy.GetMinWidth | platform/features/layout/src/elements/ElementProxy.js:252-255 | The result is the least unit count covering 10 pixels at the active grid width. It is at least 1, and exactly 10 in pixel mode. |
| ElementProxy.GetMinHeight | platform/features/layout/src/elements/ElementProxy.js:261-263 | The result is the least unit count covering 10 pixels at the active grid height. It is at least 1, and exactly 10 in pixel mode. |
| ElementProxy.NewProxy | platform/features/layout/src/elements/ElementProxy.js:61-128 | The constructor stores the element, index and grid size and mirrors `useGrid`. It builds exactly one handle from the construction-time minimum size (at least 1) and the active grid size. |
| ElementProxy.SetGridSize | platform/features/layout/src/elements/ElementProxy.js:244-246 | Only the held grid size changes. The handles keep the grid size they were built with. |
| ElementProxy.Guard | platform/features/layout/src/elements/ElementProxy.js:145-161 | The identity check fails on an index past the end of the array and on an index holding another object. When it passes, the element is present in the array. |
| ElementProxy.Order | platform/features/layout/src/elements/ElementProxy.js:135-154 | The length and multiset are preserved. When the target differs from the index and the index is not stale, the element lands at the target and the proxy's index becomes the target. Otherwise the proxy and the array are unchanged. A non-stale proxy stays non-stale. |
| ElementProxy.Remove | platform/features/layout/src/elements/ElementProxy.js:159-164 | With the identity check passing, exactly the entry at the index is dropped and later entries shift down. With it failing, the array is unchanged. |
| ElementProxy.ReplaceById | platform/features/layout/src/elements/ElementProxy.js:200-204 | Writing a field of the shared element object is seen at every array position holding that object, and at no other position. The length is unchanged. |
| ElementProxy.Commit | platform/features/layout/src/elements/ElementProxy.js:183-186 | An in-place write to the element object replaces the proxy's record, is seen through the array, and keeps the identity check's outcome. |
| ElementProxy.ReplaceTwice | platform/features/layout/src/elements/ElementProxy.js:183-186 | Two successive writes to the same object leave the array as the second write alone would. |
| ElementProxy.ToPixels | platform/features/layout/src/elements/ElementProxy.js:203-211 | Positions and sizes are multiplied by the held grid size, and the endpoint only when both halves are truthy. Identity, stroke and flag are unchanged. |
| ElementProxy.ToGrid | platform/features/layout/src/elements/ElementProxy.js:212-220 | Positions become the nearest grid line. Sizes are snapped and raised to the given minimum. The endpoint is snapped only when both halves are truthy and is otherwise untouched. Non-negative positions stay non-negative. |
| ElementProxy.ConvertCoordsTo | platform/features/layout/src/elements/ElementProxy.js:198-222 | `'px'` and `'grid'` apply the conversion with the held grid size and the current minimum, writing through to every array entry of the same object. After `'grid'` the width and height are at least the minimum size. Any other unit is a no-op. |
| ElementProxy.SetUnits | platform/features/layout/src/elements/ElementProxy.js:181-189 | The flag changes exactly on a real change of system, to the requested unit. Otherwise nothing changes. A switch to pixels leaves the record scaled by the layout grid with the flag off. A switch to grid leaves it snapped with the minimum taken in grid units (`Math.ceil(10 / g)`) and the flag on. After a switch every array entry that is the element holds the new record, and the identity check's outcome is kept. |
| ElementProxy.AccessField | platform/features/layout/src/elements/ElementProxy.js:88-123 | A read returns the field and changes nothing. A write stores and returns the normalized value, never negative for `x`/`y`. The new record is the old one with only that field written, and every array entry that is the element holds it. The identity check's outcome is kept. |
| ElementProxy.SetStroke | platform/features/layout/src/elements/ElementProxy.js:105 | The stroke is stored as given and nothing else in the record changes. |
| ProxyLaws.OrderKeepsOthersInOrder | platform/features/layout/src/elements/ElementProxy.js:145-153 | After a reorder, the other siblings keep their relative order. Removing the moved element from both arrays gives equal sequences, each other entry sits at its shifted position, and shifted positions are strictly increasing. |
| ProxyLaws.Others | platform/features/layout/src/elements/ElementProxy.js:145-153 | Reference definition of "the other siblings, in order": the array with every entry that is the given object filtered out. No entry of the result is that object, and it is no longer than the array. |
| ProxyLaws.OthersConcat | platform/features/layout/src/elements/ElementProxy.js:145-153 | Filtering out one object distributes over concatenation. |
| ProxyLaws.OthersRemoveAt | platform/features/layout/src/elements/ElementProxy.js:147 | Splicing out an entry that is the object leaves the filtered sequence unchanged. |
| ProxyLaws.OthersInsertBetween | platform/features/layout/src/elements/ElementProxy.js:149 | Putting the object between two parts leaves the filtered sequence unchanged. |
| ProxyLaws.OrderPreservesOthers | platform/features/layout/src/elements/ElementProxy.js:135-154 | For every direction, whether or not `order` acts, the siblings other than the element stay in their relative order. |
| ProxyLaws.RemovePreservesOthers | platform/features/layout/src/elements/ElementProxy.js:159-164 | `remove` keeps the siblings other than the element in their relative order. |
| ProxyLaws.IndexOf | platform/features/layout/src/elements/ElementProxy.js:145 | The first position of an object in the array, or none. It returns the position of an entry that is the object, with no earlier entry being it. With no result, no entry is the object. |
| ProxyLaws.GuardIsPosition | platform/features/layout/src/elements/ElementProxy.js:145-161 | In an array without repeated objects, the identity check passes exactly when the proxy's index is the object's position. |
| ProxyLaws.OrderUpDownSwap | platform/features/layout/src/elements/ElementProxy.js:135-153 | `up` on a non-last element swaps it with its upper neighbour. `down` on a non-first element swaps it with its lower neighbour. |
| ProxyLaws.OrderNoOpLaws | platform/features/layout/src/elements/ElementProxy.js:139-145 | `top` on the last element, `bottom` on the first and any unknown direction leave proxy and array unchanged. |
| ProxyLaws.OrderTopBottomEnds | platform/features/layout/src/elements/ElementProxy.js:139-153 | On a non-stale proxy, `top` moves the element to the last index and `bottom` to index 0. |
| ProxyLaws.RemoveDropsElement | platform/features/layout/src/elements/ElementProxy.js:159-164 | In an array without repeated objects, a removal leaves no entry that is the removed object and keeps the array free of repeats. |
| ProxyLaws.RemovalMakesLaterProxiesStale | platform/features/layout/src/elements/ElementProxy.js:145-164 | Suppose another proxy removed an entry at or below this proxy's index. Then this proxy fails the identity check, and its `remove` and `order` change nothing. |
| ProxyLaws.SetUnitsIdempotent | platform/features/layout/src/elements/ElementProxy.js:181-189 | A second identical `setUnits` call changes nothing. |
| ProxyLaws.GridPixelGridRoundTrip | platform/features/layout/src/elements/ElementProxy.js:203-220 | Grid to pixels and back restores positions and the endpoint exactly. Sizes only grow, and only to the grid minimum. With sizes at or above the minimum, the proxy and any coherent array are fully restored. |
| ProxyLaws.ScaleThenSnap | platform/features/layout/src/elements/ElementProxy.js:204-220 | Snapping a record scaled by the same grid gives the record back exactly, except that a size below the minimum is raised to it. |
| ProxyLaws.EndpointScalesWithItself | platform/features/layout/src/elements/ElementProxy.js:208-217 | Scaling by a positive grid size keeps the endpoint's truthiness, so both directions take the same branch. |
| ProxyLaws.PixelGridPixelDrift | platform/features/layout/src/elements/ElementProxy.js:203-216 | Pixels to grid and back moves each position by at most half a grid unit and leaves each size at least 10 pixels. |
| ProxyLaws.SetUnitsKeepsPositionsNonNegative | platform/features/layout/src/elements/ElementProxy.js:204-214 | Unit switching keeps non-negative positions non-negative. |
| ProxyLaws.SetGridSizeLaws | platform/features/layout/src/elements/ElementProxy.js:230-263 | After `setGridSize`, the active grid and the minimum sizes follow the new size in grid mode. In pixel mode they stay `[1, 1]` and 10. |
| ProxyLaws.AccessReadAfterWrite | platform/features/layout/src/elements/ElementProxy.js:88-97 | Reading a cell after writing returns the normalized value, so a negative `x`/`y` reads back as 0. |
| ProxyLaws.SnapScenario | platform/features/layout/src/elements/ElementProxy.js:181-216 | With grid `[10, 10]`, `{x: 25, y: 35, width: 47, height: 12}` in pixels becomes `{x: 3, y: 4, width: 5, height: 1}` in grid units. |
| ProxyLaws.OrderUpScenario | platform/features/layout/src/elements/ElementProxy.js:135-153 | `up` on index 2 of `[A, B, C, D]` gives `[A, B, D, C]` and index 3. |
| ProxyLaws.ZeroEndpointStaysInPixels | platform/features/layout/src/elements/ElementProxy.js:208-219 | A line with `x2 = 0` keeps `y2 = 30` unconverted while `x` moves to grid units. |
| ProxyLaws.NegativeEndpointIsConverted | platform/features/layout/src/elements/ElementProxy.js:217-219 | A line whose `x2`/`y2` are both non-zero, one negative, has its endpoint snapped by `setUnits('grid')`: `35, -45` at grid 10 become `4, -4`, since `Math.round(-4.5)` is `-4`. |
| ProxyLaws.DirectGridConversionUsesPixelMinimum | platform/features/layout/src/elements/ElementProxy.js:198-216 | A direct `convertCoordsTo('grid')` on a pixel-mode element raises sizes to 10 grid units and leaves the flag alone. |

## Left out

- `AccessorMutator.js` and `ResizeHandle.js` are not part of this model. The cells are modelled from their use at construction: read with no argument, otherwise write the normalized value and return it. A handle is only the record of what it was built with: element, minimum size, grid size. Its drag and resize arithmetic is not modelled.
- `handles()` returns the stored handle list. It is the `resizeHandles` field of the proxy record, with no separate function.
- The persisting, re-rendering view around the proxy is not modelled. That view supplies the array and grid size and stores the array after each call.
- JavaScript number semantics are not modelled: floating point, `NaN`, `undefined` fields, non-integer or non-positive grid sizes. Coordinates are integers, grid sizes positive integers, and the endpoint an explicit optional value.
- A direction that names an inherited object property (`'toString'`, `'constructor'`) is not modelled. There the `ORDERS` lookup yields a function, `index + delta` becomes a string, and the target index is `NaN`. On a non-stale proxy the code then still acts, because `NaN !== index`: it splices the element out, `splice(NaN, 0, element)` reinserts it at index 0, and the proxy's index becomes `NaN` (`ElementProxy.js` lines 139-152). The model treats every key outside the table as delta 0, so for these keys it predicts a no-op where the code moves the element to the front.
- `useGrid` is a boolean here. The strict `=== true` / `=== false` tests of `setUnits` also make a missing flag a no-op for both keys, and that case is not modelled.
- `stroke` reads and writes whole optional strings. The model does not look inside colour values.
- The grid size is held by value. A view mutating the shared grid-size array in place, rather than calling `setGridSize`, is not modelled.
- The proxy's mirrored `useGrid` is stored at construction and, as in the code, never updated.
- The summary-widget test-data manager, the move action and the locator controller are UI and persistence wiring outside this component. They are not modelled.
