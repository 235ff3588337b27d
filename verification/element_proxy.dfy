/** The element proxy of a fixed-position layout: a transient view of one
    raw element, its index in the shared sibling array and the layout grid
    size, offering z-ordering, removal, unit switching and the minimum-size
    helpers.

    The sibling array is shared mutable state in the JavaScript code. Here
    it is threaded explicitly: every operation that may change it takes it
    as an argument and hands back the array afterwards, inside a `Step` (or
    the `Step` of an `Access` for the numeric cells), or alone for `Remove`.
    Mutating the element object in place is modelled by `Commit`, which
    updates the proxy's record and every array entry with the same
    identity. */
module ElementProxy {
  import opened Rounding
  import opened LayoutElement
  import Splice

  /** An index change requested by a direction key; the infinite deltas of
      `top` and `bottom` are kept symbolic. */
  datatype Delta = PlusInfinity | By(k: int) | MinusInfinity

  /** The `ORDERS` table, with `|| 0` turning a missing key into delta 0. */
  function Orders(o: string): (d: Delta)
    ensures d == By(0) <==> o != "top" && o != "up" && o != "down" && o != "bottom"
    ensures d.By? ==> -1 <= d.k <= 1
    ensures o == "top" <==> d.PlusInfinity?
    ensures o == "bottom" <==> d.MinusInfinity?
    ensures o == "up" <==> d == By(1)
    ensures o == "down" <==> d == By(-1)
  {
    if o == "top" then PlusInfinity
    else if o == "up" then By(1)
    else if o == "down" then By(-1)
    else if o == "bottom" then MinusInfinity
    else By(0)
  }

  /** `Math.max(Math.min(index + delta, length - 1), 0)`. */
  function Desired(index: int, delta: Delta, length: nat): (d: nat)
    ensures length > 0 ==> d < length
    ensures length == 0 ==> d == 0
    ensures delta.PlusInfinity? && length > 0 ==> d == length - 1
    ensures delta.MinusInfinity? ==> d == 0
    ensures delta.By? && 0 <= index + delta.k < length ==> d == index + delta.k
    ensures delta.By? && length > 0 && index + delta.k >= length ==> d == length - 1
    ensures delta.By? && index + delta.k < 0 ==> d == 0
  {
    var upper := length as int - 1;
    match delta
    case PlusInfinity => if upper < 0 then 0 else upper
    case MinusInfinity => 0
    case By(k) =>
      var capped := if index + k < upper then index + k else upper;
      if capped < 0 then 0 else capped
  }

  /** A resize handle as constructed: the element it is bound to, the
      minimum size and the grid size it was given. */
  datatype ResizeHandle = ResizeHandle(elementId: nat, minWidth: int, minHeight: int, gridSize: GridSize)

  /** The proxy's own state. `useGrid` is the mirror of the element's flag
      taken at construction; the element's own flag is the live one. */
  datatype Proxy = Proxy(
    element: Element,
    index: nat,
    gridSize: GridSize,
    useGrid: bool,
    resizeHandles: seq<ResizeHandle>)

  /** The proxy and the shared sibling array after an operation. */
  datatype Step = Step(proxy: Proxy, elements: seq<Element>)

  /** `getGridSize()`: the layout grid in grid mode, one pixel per unit in
      pixel mode. */
  function GetGridSize(p: Proxy): (g: GridSize)
    ensures p.element.useGrid ==> g == p.gridSize
    ensures !p.element.useGrid ==> g.gx == 1 && g.gy == 1
  {
    if p.element.useGrid then p.gridSize else UnitGrid
  }

  /** `getMinWidth()`: the 10-pixel floor in the element's current unit,
      rounded up. */
  function GetMinWidth(p: Proxy): (r: int)
    ensures r >= 1
    ensures r * GetGridSize(p).gx >= MIN_WIDTH
    ensures (r - 1) * GetGridSize(p).gx < MIN_WIDTH
    ensures !p.element.useGrid ==> r == MIN_WIDTH
  {
    CeilDivPositive(MIN_WIDTH, GetGridSize(p).gx);
    CeilDiv(MIN_WIDTH, GetGridSize(p).gx)
  }

  /** `getMinHeight()`: the 10-pixel floor in the element's current unit,
      rounded up. */
  function GetMinHeight(p: Proxy): (r: int)
    ensures r >= 1
    ensures r * GetGridSize(p).gy >= MIN_HEIGHT
    ensures (r - 1) * GetGridSize(p).gy < MIN_HEIGHT
    ensures !p.element.useGrid ==> r == MIN_HEIGHT
  {
    CeilDivPositive(MIN_HEIGHT, GetGridSize(p).gy);
    CeilDiv(MIN_HEIGHT, GetGridSize(p).gy)
  }

  /** The constructor: wires the element, index and grid size, and builds
      the single resize handle from the construction-time minimum size and
      active grid size. The sibling array is not stored: it is the array
      threaded through the operations below. */
  function NewProxy(element: Element, index: nat, gridSize: GridSize): (p: Proxy)
    ensures p.element == element && p.index == index && p.gridSize == gridSize
    ensures p.useGrid == element.useGrid
    ensures |p.resizeHandles| == 1
    ensures p.resizeHandles[0].elementId == element.id
    ensures p.resizeHandles[0].minWidth == GetMinWidth(p) >= 1
    ensures p.resizeHandles[0].minHeight == GetMinHeight(p) >= 1
    ensures p.resizeHandles[0].gridSize == (if element.useGrid then gridSize else UnitGrid)
  {
    var bare := Proxy(element, index, gridSize, element.useGrid, []);
    bare.(resizeHandles := [ResizeHandle(element.id, GetMinWidth(bare), GetMinHeight(bare), GetGridSize(bare))])
  }

  /** `setGridSize(g)`: only the held grid size changes; the handles keep
      the grid size they were built with. */
  function SetGridSize(p: Proxy, g: GridSize): (r: Proxy)
    ensures r.gridSize == g
    ensures r.element == p.element && r.index == p.index && r.useGrid == p.useGrid
    ensures r.resizeHandles == p.resizeHandles
  {
    p.(gridSize := g)
  }

  /** The identity check `elements[index] === element`: it fails on an
      index past the end and on an index holding another object. */
  predicate Guard(p: Proxy, s: seq<Element>): (r: bool)
    ensures r ==> exists i :: 0 <= i < |s| && s[i].id == p.element.id
    ensures p.index >= |s| ==> !r
    ensures p.index < |s| && s[p.index].id != p.element.id ==> !r
  {
    p.index < |s| && s[p.index].id == p.element.id
  }

  /** Whether `order(o)` changes anything: the clamped target differs from
      the current index and the index is not stale. */
  predicate OrderActs(p: Proxy, s: seq<Element>, o: string)
  {
    Desired(p.index, Orders(o), |s|) != p.index && Guard(p, s)
  }

  /** `order(o)`: splice the element out and back in at the clamped target. */
  function Order(p: Proxy, s: seq<Element>, o: string): (r: Step)
    ensures |r.elements| == |s| && multiset(r.elements) == multiset(s)
    ensures r.proxy == p.(index := r.proxy.index)
    ensures OrderActs(p, s, o) ==> r.proxy.index == Desired(p.index, Orders(o), |s|)
    ensures OrderActs(p, s, o) ==> r.proxy.index < |s| && r.elements[r.proxy.index] == s[p.index]
    ensures !OrderActs(p, s, o) ==> r == Step(p, s)
    ensures Guard(p, s) ==> Guard(r.proxy, r.elements)
  {
    var d := Desired(p.index, Orders(o), |s|);
    if d != p.index && Guard(p, s) then
      Step(p.(index := d), Splice.Move(s, p.index, d))
    else
      Step(p, s)
  }

  /** `remove()`: splice the element out if the index is not stale. */
  function Remove(p: Proxy, s: seq<Element>): (r: seq<Element>)
    ensures Guard(p, s) ==> |r| == |s| - 1 && multiset(r) + multiset{s[p.index]} == multiset(s)
    ensures Guard(p, s) ==> forall k :: 0 <= k < p.index ==> r[k] == s[k]
    ensures Guard(p, s) ==> forall k :: p.index <= k < |r| ==> r[k] == s[k + 1]
    ensures !Guard(p, s) ==> r == s
  {
    if Guard(p, s) then Splice.RemoveAt(s, p.index) else s
  }

  /** Every entry that is the object `e` (same id) now holds `e`'s contents. */
  function ReplaceById(s: seq<Element>, e: Element): (r: seq<Element>)
    ensures |r| == |s|
    ensures forall i :: 0 <= i < |s| ==> r[i] == (if s[i].id == e.id then e else s[i])
  {
    seq(|s|, i requires 0 <= i < |s| => if s[i].id == e.id then e else s[i])
  }

  /** An in-place mutation of the proxy's element object, seen both through
      the proxy and through the sibling array. */
  function Commit(p: Proxy, s: seq<Element>, e: Element): (r: Step)
    requires e.id == p.element.id
    ensures r.proxy == p.(element := e)
    ensures r.elements == ReplaceById(s, e)
    ensures Guard(p, s) <==> Guard(r.proxy, r.elements)
  {
    Step(p.(element := e), ReplaceById(s, e))
  }

  /** Replacing the same object twice keeps only the second contents. */
  lemma ReplaceTwice(s: seq<Element>, a: Element, b: Element)
    requires a.id == b.id
    ensures ReplaceById(ReplaceById(s, a), b) == ReplaceById(s, b)
  {
  }

  /** The `'px'` branch of `convertCoordsTo`: every coordinate multiplied by
      the layout grid size; the endpoint only when both halves are truthy. */
  function ToPixels(e: Element, g: GridSize): (r: Element)
    ensures r.id == e.id && r.stroke == e.stroke && r.useGrid == e.useGrid
    ensures r.x == e.x * g.gx && r.width == e.width * g.gx
    ensures r.y == e.y * g.gy && r.height == e.height * g.gy
    ensures HasEndpoint(e) ==> r.x2 == Some(e.x2.value * g.gx) && r.y2 == Some(e.y2.value * g.gy)
    ensures !HasEndpoint(e) ==> r.x2 == e.x2 && r.y2 == e.y2
  {
    var moved := e.(x := e.x * g.gx, y := e.y * g.gy, width := e.width * g.gx, height := e.height * g.gy);
    if HasEndpoint(e) then
      moved.(x2 := Some(e.x2.value * g.gx), y2 := Some(e.y2.value * g.gy))
    else
      moved
  }

  /** The `'grid'` branch of `convertCoordsTo`: positions snapped to the
      nearest grid line, sizes snapped and then raised to the minimum, the
      endpoint snapped only when both halves are truthy. */
  function ToGrid(e: Element, g: GridSize, minWidth: int, minHeight: int): (r: Element)
    ensures r.id == e.id && r.stroke == e.stroke && r.useGrid == e.useGrid
    ensures RoundsTo(e.x, g.gx, r.x) && RoundsTo(e.y, g.gy, r.y)
    ensures r.width >= minWidth && r.width >= Round(e.width, g.gx)
    ensures r.width == minWidth || RoundsTo(e.width, g.gx, r.width)
    ensures r.height >= minHeight && r.height >= Round(e.height, g.gy)
    ensures r.height == minHeight || RoundsTo(e.height, g.gy, r.height)
    ensures HasEndpoint(e) ==> r.x2.Some? && r.y2.Some?
    ensures HasEndpoint(e) ==> RoundsTo(e.x2.value, g.gx, r.x2.value) && RoundsTo(e.y2.value, g.gy, r.y2.value)
    ensures !HasEndpoint(e) ==> r.x2 == e.x2 && r.y2 == e.y2
    ensures e.x >= 0 ==> r.x >= 0
    ensures e.y >= 0 ==> r.y >= 0
  {
    RoundNonNegative(e.x, g.gx);
    RoundNonNegative(e.y, g.gy);
    var w := Round(e.width, g.gx);
    var h := Round(e.height, g.gy);
    var snapped := e.(
      x := Round(e.x, g.gx),
      y := Round(e.y, g.gy),
      width := if w < minWidth then minWidth else w,
      height := if h < minHeight then minHeight else h);
    if HasEndpoint(e) then
      snapped.(x2 := Some(Round(e.x2.value, g.gx)), y2 := Some(Round(e.y2.value, g.gy)))
    else
      snapped
  }

  /** `convertCoordsTo(unit)`. It scales by the held grid size (not by
      `getGridSize()`), and takes the minimum size from the element's
      current flag before converting. Any other unit is a no-op. */
  function ConvertCoordsTo(p: Proxy, s: seq<Element>, unit: string): (r: Step)
    ensures r.proxy == p.(element := r.proxy.element)
    ensures r.proxy.element.id == p.element.id && r.proxy.element.useGrid == p.element.useGrid
    ensures unit == "px" || unit == "grid" ==> r.elements == ReplaceById(s, r.proxy.element)
    ensures unit == "px" ==> r.proxy.element == ToPixels(p.element, p.gridSize)
    ensures unit == "grid" ==> r.proxy.element == ToGrid(p.element, p.gridSize, GetMinWidth(p), GetMinHeight(p))
    ensures unit == "grid" ==> r.proxy.element.width >= GetMinWidth(r.proxy)
    ensures unit == "grid" ==> r.proxy.element.height >= GetMinHeight(r.proxy)
    ensures unit != "px" && unit != "grid" ==> r == Step(p, s)
  {
    var g := p.gridSize;
    var minWidth := GetMinWidth(p);
    var minHeight := GetMinHeight(p);
    if unit == "px" then
      Commit(p, s, ToPixels(p.element, g))
    else if unit == "grid" then
      Commit(p, s, ToGrid(p.element, g, minWidth, minHeight))
    else
      Step(p, s)
  }

  /** Whether `setUnits(key)` is a real change of coordinate system. */
  predicate Switches(p: Proxy, key: string)
  {
    (key == "px" && p.element.useGrid) || (key == "grid" && !p.element.useGrid)
  }

  /** `setUnits(key)`: on a real change, flip the element's flag and then
      convert once to the requested unit; otherwise do nothing. */
  function SetUnits(p: Proxy, s: seq<Element>, key: string): (r: Step)
    ensures Switches(p, key) <==> r.proxy.element.useGrid != p.element.useGrid
    ensures Switches(p, key) ==> r.proxy.element.useGrid == (key == "grid")
    ensures !Switches(p, key) ==> r == Step(p, s)
    ensures r.proxy == p.(element := r.proxy.element)
    ensures r.proxy.element.id == p.element.id
    ensures Guard(p, s) <==> Guard(r.proxy, r.elements)
    ensures Switches(p, key) && key == "grid" ==>
      r.proxy.element.width >= GetMinWidth(r.proxy) && r.proxy.element.height >= GetMinHeight(r.proxy)
    ensures Switches(p, key) && key == "px" ==>
      r.proxy.element == ToPixels(p.element, p.gridSize).(useGrid := false)
    ensures Switches(p, key) && key == "grid" ==>
      r.proxy.element == ToGrid(p.element, p.gridSize,
        CeilDiv(MIN_WIDTH, p.gridSize.gx), CeilDiv(MIN_HEIGHT, p.gridSize.gy)).(useGrid := true)
    ensures Switches(p, key) ==> r.elements == ReplaceById(s, r.proxy.element)
  {
    if key == "px" && p.element.useGrid then
      var flipped := Commit(p, s, p.element.(useGrid := false));
      var r := ConvertCoordsTo(flipped.proxy, flipped.elements, "px");
      ReplaceTwice(s, flipped.proxy.element, r.proxy.element);
      r
    else if key == "grid" && !p.element.useGrid then
      var flipped := Commit(p, s, p.element.(useGrid := true));
      var r := ConvertCoordsTo(flipped.proxy, flipped.elements, "grid");
      ReplaceTwice(s, flipped.proxy.element, r.proxy.element);
      r
    else
      Step(p, s)
  }

  /** The result of calling an accessor/mutator cell: the state afterwards
      and the value it returns. */
  datatype Access = Access(state: Step, value: int)

  /** The `x`, `y`, `width` and `height` cells: with no argument they read
      the field; with one they store the normalized value into the element
      object and return what was stored. */
  function AccessField(p: Proxy, s: seq<Element>, f: Field, arg: Option<int>): (r: Access)
    ensures arg.None? ==> r.state == Step(p, s) && r.value == Get(p.element, f)
    ensures arg.Some? ==> r.value == Normalize(f, arg.value) && Get(r.state.proxy.element, f) == r.value
    ensures arg.Some? && (f.X? || f.Y?) ==> r.value >= 0
    ensures arg.Some? ==> forall f' :: f' != f ==> Get(r.state.proxy.element, f') == Get(p.element, f')
    ensures r.state.proxy.element.useGrid == p.element.useGrid
    ensures r.state.proxy == p.(element := r.state.proxy.element)
    ensures Guard(p, s) <==> Guard(r.state.proxy, r.state.elements)
    ensures arg.Some? ==> r.state.proxy.element == Put(p.element, f, arg.value)
    ensures arg.Some? ==> r.state.elements == ReplaceById(s, r.state.proxy.element)
  {
    match arg
    case None => Access(Step(p, s), Get(p.element, f))
    case Some(v) =>
      var e := Put(p.element, f, v);
      Access(Commit(p, s, e), Get(e, f))
  }

  /** The `stroke` cell's write: stored as given, nothing else changes. */
  function SetStroke(p: Proxy, s: seq<Element>, stroke: string): (r: Step)
    ensures r.proxy.element == p.element.(stroke := Some(stroke))
    ensures r.proxy == p.(element := r.proxy.element)
    ensures r.elements == ReplaceById(s, r.proxy.element)
  {
    Commit(p, s, p.element.(stroke := Some(stroke)))
  }
}
