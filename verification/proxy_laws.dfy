/** Laws of the element proxy that relate several calls: what reordering
    does to the other siblings, when a stale index turns operations into
    no-ops, how unit switching round-trips, and worked scenarios of
    reordering and unit switching. */
module ProxyLaws {
  import opened Rounding
  import opened LayoutElement
  import opened ElementProxy
  import Splice

  /** No two entries of the sibling array are the same object. */
  ghost predicate UniqueIds(s: seq<Element>)
  {
    forall i, j :: 0 <= i < j < |s| ==> s[i].id != s[j].id
  }

  /** Every entry that is the object `e` holds `e`'s current contents. */
  ghost predicate Coherent(s: seq<Element>, e: Element)
  {
    forall i :: 0 <= i < |s| && s[i].id == e.id ==> s[i] == e
  }

  // ---------------------------------------------------------------- ordering

  /** A reorder keeps every other sibling in its relative order: each lands
      at its shifted position, shifted positions increase with the old
      ones, and dropping the moved element from before and after leaves the
      same sequence. */
  lemma OrderKeepsOthersInOrder(p: Proxy, s: seq<Element>, o: string)
    requires OrderActs(p, s, o)
    ensures var r := Order(p, s, o);
      Splice.RemoveAt(r.elements, r.proxy.index) == Splice.RemoveAt(s, p.index)
    ensures var r := Order(p, s, o);
      forall k :: 0 <= k < |s| && k != p.index ==>
        Splice.Target(p.index, r.proxy.index, k) < |s| && r.elements[Splice.Target(p.index, r.proxy.index, k)] == s[k]
    ensures var r := Order(p, s, o);
      forall a, b :: 0 <= a < b < |s| && a != p.index && b != p.index ==>
        Splice.Target(p.index, r.proxy.index, a) < Splice.Target(p.index, r.proxy.index, b)
  {
    var d := Order(p, s, o).proxy.index;
    Splice.MoveKeepsOthers(s, p.index, d);
    Splice.MoveTargets(s, p.index, d);
  }

  /** Reference definition of "the other siblings, in order": the array
      with every entry that is the object `id` filtered out. */
  function Others(s: seq<Element>, id: nat): (r: seq<Element>)
    ensures |r| <= |s|
    ensures forall k :: 0 <= k < |r| ==> r[k].id != id
  {
    if |s| == 0 then []
    else (if s[0].id == id then [] else [s[0]]) + Others(s[1..], id)
  }

  /** Filtering distributes over concatenation. */
  lemma {:induction false} OthersConcat(a: seq<Element>, b: seq<Element>, id: nat)
    ensures Others(a + b, id) == Others(a, id) + Others(b, id)
  {
    if |a| == 0 {
      assert a + b == b;
    } else {
      assert (a + b)[0] == a[0];
      assert (a + b)[1..] == a[1..] + b;
      OthersConcat(a[1..], b, id);
    }
  }

  /** Splicing out an entry that is the object `id` leaves the others as
      they were. */
  lemma OthersRemoveAt(s: seq<Element>, i: nat, id: nat)
    requires i < |s| && s[i].id == id
    ensures Others(Splice.RemoveAt(s, i), id) == Others(s, id)
  {
    assert s == (s[..i] + [s[i]]) + s[i + 1..];
    assert Splice.RemoveAt(s, i) == s[..i] + s[i + 1..];
    OthersConcat(s[..i] + [s[i]], s[i + 1..], id);
    OthersConcat(s[..i], [s[i]], id);
    OthersConcat(s[..i], s[i + 1..], id);
    assert Others([s[i]], id) == [];
  }

  /** Putting an entry that is the object `id` between two parts leaves
      the others as they were. */
  lemma OthersInsertBetween(front: seq<Element>, x: Element, back: seq<Element>)
    ensures Others(front + [x] + back, x.id) == Others(front + back, x.id)
  {
    OthersConcat(front + [x], back, x.id);
    OthersConcat(front, [x], x.id);
    assert Others([x], x.id) == [];
    OthersConcat(front, back, x.id);
  }

  /** `order` keeps every other sibling in its relative order, whatever the
      direction and whether or not it acts. */
  lemma OrderPreservesOthers(p: Proxy, s: seq<Element>, o: string)
    ensures Others(Order(p, s, o).elements, p.element.id) == Others(s, p.element.id)
  {
    if OrderActs(p, s, o) {
      var i, d := p.index, Desired(p.index, Orders(o), |s|);
      var t := Splice.RemoveAt(s, i);
      OthersRemoveAt(s, i, p.element.id);
      assert t == t[..d] + t[d..];
      OthersInsertBetween(t[..d], s[i], t[d..]);
    }
  }

  /** `remove` keeps every other sibling in its relative order. */
  lemma RemovePreservesOthers(p: Proxy, s: seq<Element>)
    ensures Others(Remove(p, s), p.element.id) == Others(s, p.element.id)
  {
    if Guard(p, s) {
      OthersRemoveAt(s, p.index, p.element.id);
    }
  }

  /** The first position of the object `id` in the array, if any. */
  function IndexOf(s: seq<Element>, id: nat): (r: Option<nat>)
    ensures r.Some? ==> r.value < |s| && s[r.value].id == id
    ensures r.Some? ==> forall k :: 0 <= k < r.value ==> s[k].id != id
    ensures r.None? ==> forall k :: 0 <= k < |s| ==> s[k].id != id
  {
    if |s| == 0 then None
    else if s[0].id == id then Some(0)
    else match IndexOf(s[1..], id)
      case None => None
      case Some(k) => Some(k + 1)
  }

  /** Without repeated objects, the identity check passes exactly when the
      proxy's index is where its element is. */
  lemma GuardIsPosition(p: Proxy, s: seq<Element>)
    requires UniqueIds(s)
    ensures Guard(p, s) <==> IndexOf(s, p.element.id) == Some(p.index)
  {
  }

  /** `up` on an element that is not last swaps it with its upper
      neighbour; `down` on one that is not first swaps it with its lower
      neighbour. */
  lemma OrderUpDownSwap(p: Proxy, s: seq<Element>)
    requires Guard(p, s)
    ensures p.index + 1 < |s| ==>
      var r := Order(p, s, "up");
      r.proxy.index == p.index + 1 &&
      r.elements == s[p.index := s[p.index + 1]][p.index + 1 := s[p.index]]
    ensures p.index > 0 ==>
      var r := Order(p, s, "down");
      r.proxy.index == p.index - 1 &&
      r.elements == s[p.index := s[p.index - 1]][p.index - 1 := s[p.index]]
  {
    var i := p.index;
    if i + 1 < |s| {
      assert Desired(i, Orders("up"), |s|) == i + 1;
      Splice.MoveAdjacent(s, i, i + 1);
    }
    if i > 0 {
      assert Desired(i, Orders("down"), |s|) == i - 1;
      Splice.MoveAdjacent(s, i, i - 1);
    }
  }

  /** `top` on the last element, `bottom` on the first element and any
      unknown direction leave the array and the proxy unchanged. */
  lemma OrderNoOpLaws(p: Proxy, s: seq<Element>, o: string)
    ensures p.index == |s| - 1 ==> Order(p, s, "top") == Step(p, s)
    ensures p.index == 0 ==> Order(p, s, "bottom") == Step(p, s)
    ensures o != "top" && o != "up" && o != "down" && o != "bottom" ==> Order(p, s, o) == Step(p, s)
  {
  }

  /** `top` and `bottom` on a non-stale proxy of a non-empty array land at
      the last and the first index. */
  lemma OrderTopBottomEnds(p: Proxy, s: seq<Element>)
    requires Guard(p, s)
    ensures var r := Order(p, s, "top"); r.proxy.index == |s| - 1 && r.elements[|s| - 1] == s[p.index]
    ensures var r := Order(p, s, "bottom"); r.proxy.index == 0 && r.elements[0] == s[p.index]
  {
  }

  /** Removal by a proxy leaves an array without that object and still
      without repeated objects. */
  lemma RemoveDropsElement(p: Proxy, s: seq<Element>)
    requires UniqueIds(s) && Guard(p, s)
    ensures forall k :: 0 <= k < |Remove(p, s)| ==> Remove(p, s)[k].id != p.element.id
    ensures UniqueIds(Remove(p, s))
  {
    var r := Remove(p, s);
    forall k | 0 <= k < |r|
      ensures r[k].id != p.element.id
    {
      if k >= p.index {
        assert r[k] == s[k + 1];
      }
    }
    forall i, j | 0 <= i < j < |r|
      ensures r[i].id != r[j].id
    {
      var i' := if i < p.index then i else i + 1;
      var j' := if j < p.index then j else j + 1;
      assert r[i] == s[i'] && r[j] == s[j'];
    }
  }

  /** Stale-index safety: once another proxy has removed an entry at or
      below this proxy's index, this proxy's `remove` and `order` change
      nothing. */
  lemma RemovalMakesLaterProxiesStale(p: Proxy, q: Proxy, s: seq<Element>, o: string)
    requires UniqueIds(s) && Guard(p, s) && Guard(q, s) && q.index <= p.index
    ensures var s' := Remove(q, s); !Guard(p, s')
    ensures var s' := Remove(q, s); Remove(p, s') == s' && Order(p, s', o) == Step(p, s')
  {
    var s' := Remove(q, s);
    if p.index < |s'| {
      assert s'[p.index] == s[p.index + 1];
    }
  }

  // ----------------------------------------------------------- unit switching

  /** A repeated identical `setUnits` call adds nothing to the first. */
  lemma SetUnitsIdempotent(p: Proxy, s: seq<Element>, key: string)
    ensures var r := SetUnits(p, s, key);
      SetUnits(r.proxy, r.elements, key) == r
  {
  }

  /** Writing back the contents an object already has changes no entry. */
  lemma ReplaceCoherent(s: seq<Element>, e: Element)
    requires Coherent(s, e)
    ensures ReplaceById(s, e) == s
  {
  }

  /** Grid to pixels and back: positions and the endpoint come back exactly;
      a size comes back unchanged unless it was below the grid minimum, in
      which case it is raised to that minimum. With sizes at or above the
      minimum the whole state comes back. */
  lemma GridPixelGridRoundTrip(p: Proxy, s: seq<Element>)
    requires p.element.useGrid
    ensures var m := SetUnits(p, s, "px");
      var r := SetUnits(m.proxy, m.elements, "grid");
      var e, e' := p.element, r.proxy.element;
      && e'.x == e.x && e'.y == e.y && e'.x2 == e.x2 && e'.y2 == e.y2
      && e'.width >= e.width && e'.width >= GetMinWidth(p)
      && (e'.width == e.width || e'.width == GetMinWidth(p))
      && e'.height >= e.height && e'.height >= GetMinHeight(p)
      && (e'.height == e.height || e'.height == GetMinHeight(p))
    ensures var m := SetUnits(p, s, "px");
      var r := SetUnits(m.proxy, m.elements, "grid");
      p.element.width >= GetMinWidth(p) && p.element.height >= GetMinHeight(p) ==>
        r.proxy == p && (Coherent(s, p.element) ==> r.elements == s)
  {
    var e := p.element;
    var g := p.gridSize;
    var m := SetUnits(p, s, "px");
    var r := SetUnits(m.proxy, m.elements, "grid");
    var mw, mh := CeilDiv(MIN_WIDTH, g.gx), CeilDiv(MIN_HEIGHT, g.gy);
    assert GetMinWidth(p) == mw && GetMinHeight(p) == mh;
    ScaleThenSnap(e, g, mw, mh, true);
    var back := e.(width := if e.width < mw then mw else e.width,
                   height := if e.height < mh then mh else e.height);
    assert r.proxy.element == back;
    assert r.elements == ReplaceById(m.elements, back);
    if e.width >= mw && e.height >= mh {
      assert back == e;
      ReplaceTwice(s, m.proxy.element, back);
      if Coherent(s, e) {
        ReplaceCoherent(s, e);
      }
    }
  }

  /** Snapping a record that was scaled by the same grid gives back the
      record, with each size raised to the given minimum where it falls
      short; the flag written in between is kept. */
  lemma ScaleThenSnap(e: Element, g: GridSize, mw: int, mh: int, u: bool)
    ensures ToGrid(ToPixels(e, g).(useGrid := u), g, mw, mh) ==
      e.(useGrid := u,
         width := if e.width < mw then mw else e.width,
         height := if e.height < mh then mh else e.height)
  {
    var pe := ToPixels(e, g).(useGrid := u);
    var b := ToGrid(pe, g, mw, mh);
    RoundOfMultiple(e.x, g.gx);
    RoundOfMultiple(e.y, g.gy);
    RoundOfMultiple(e.width, g.gx);
    RoundOfMultiple(e.height, g.gy);
    assert b.x == e.x && b.y == e.y;
    assert b.width == (if e.width < mw then mw else e.width);
    assert b.height == (if e.height < mh then mh else e.height);
    if HasEndpoint(e) {
      RoundOfMultiple(e.x2.value, g.gx);
      RoundOfMultiple(e.y2.value, g.gy);
      EndpointScalesWithItself(e, g);
      assert b.x2 == e.x2 && b.y2 == e.y2;
    } else {
      EndpointScalesWithItself(e, g);
      assert b.x2 == e.x2 && b.y2 == e.y2;
    }
  }

  /** Scaling by a positive grid size neither creates nor removes a truthy
      endpoint. */
  lemma EndpointScalesWithItself(e: Element, g: GridSize)
    ensures HasEndpoint(ToPixels(e, g)) <==> HasEndpoint(e)
  {
    if HasEndpoint(e) {
      NonZeroProduct(e.x2.value, g.gx);
      NonZeroProduct(e.y2.value, g.gy);
    }
  }

  lemma NonZeroProduct(v: int, g: Pos)
    requires v != 0
    ensures v * g != 0
  {
    if v > 0 {
      MulAtLeastOne(v, g);
    } else {
      MulAtLeastOne(-v, g);
      assert v * g == -((-v) * g);
    }
  }

  /** Pixels to grid and back: each position moves by at most half a grid
      unit, and each size ends at least at the 10-pixel floor. */
  lemma PixelGridPixelDrift(p: Proxy, s: seq<Element>)
    requires !p.element.useGrid
    ensures var m := SetUnits(p, s, "grid");
      var r := SetUnits(m.proxy, m.elements, "px");
      var e, e' := p.element, r.proxy.element;
      && -(p.gridSize.gx as int) < 2 * (e'.x - e.x) <= p.gridSize.gx
      && -(p.gridSize.gy as int) < 2 * (e'.y - e.y) <= p.gridSize.gy
      && e'.width >= MIN_WIDTH && e'.height >= MIN_HEIGHT
  {
    var g := p.gridSize;
    var m := SetUnits(p, s, "grid");
    var ge := m.proxy.element;
    var r := SetUnits(m.proxy, m.elements, "px");
    assert r.proxy.element == ToPixels(ge.(useGrid := false), g);
    SnapDrift(p.element.x, g.gx, ge.x);
    SnapDrift(p.element.y, g.gy, ge.y);
    MulMonotone(GetMinWidth(m.proxy), ge.width, g.gx);
    MulMonotone(GetMinHeight(m.proxy), ge.height, g.gy);
  }

  /** A snapped coordinate scaled back lies within half a unit of the original. */
  lemma SnapDrift(v: int, g: Pos, r: int)
    requires RoundsTo(v, g, r)
    ensures -(g as int) < 2 * (r * g - v) <= g
  {
    assert 2 * r * g == 2 * (r * g);
  }

  lemma MulMonotone(a: int, b: int, g: Pos)
    requires a <= b
    ensures a * g <= b * g
  {
    if a < b {
      MulAtLeastOne(b - a, g);
      assert b * g - a * g == (b - a) * g;
    }
  }

  /** Conversions in either direction keep non-negative positions
      non-negative, so the clamp of the position setters survives them. */
  lemma SetUnitsKeepsPositionsNonNegative(p: Proxy, s: seq<Element>, key: string)
    requires p.element.x >= 0 && p.element.y >= 0
    ensures var r := SetUnits(p, s, key); r.proxy.element.x >= 0 && r.proxy.element.y >= 0
  {
    var r := SetUnits(p, s, key);
    if key == "px" && p.element.useGrid {
      assert r.proxy.element == ToPixels(p.element.(useGrid := false), p.gridSize);
      MulMonotone(0, p.element.x, p.gridSize.gx);
      MulMonotone(0, p.element.y, p.gridSize.gy);
    }
  }

  // --------------------------------------------------------------- grid size

  /** The held grid size only matters in grid mode: after `setGridSize`
      the active grid and minimum sizes follow the new size in grid mode and
      stay at one pixel and 10 pixels in pixel mode. */
  lemma SetGridSizeLaws(p: Proxy, g: GridSize)
    ensures var q := SetGridSize(p, g);
      GetGridSize(q) == (if p.element.useGrid then g else UnitGrid)
    ensures var q := SetGridSize(p, g);
      p.element.useGrid ==> GetMinWidth(q) == CeilDiv(MIN_WIDTH, g.gx) && GetMinHeight(q) == CeilDiv(MIN_HEIGHT, g.gy)
    ensures var q := SetGridSize(p, g);
      !p.element.useGrid ==> GetMinWidth(q) == MIN_WIDTH && GetMinHeight(q) == MIN_HEIGHT
  {
  }

  // ---------------------------------------------------------------- accessors

  /** Reading a cell right after writing it returns the normalized value:
      a negative position reads back as 0. */
  lemma AccessReadAfterWrite(p: Proxy, s: seq<Element>, f: Field, v: int)
    ensures var w := AccessField(p, s, f, Some(v)).state;
      AccessField(w.proxy, w.elements, f, None).value == Normalize(f, v)
    ensures var w := AccessField(p, s, f, Some(v)).state;
      (f.X? || f.Y?) && v < 0 ==> AccessField(w.proxy, w.elements, f, None).value == 0
  {
  }

  // ---------------------------------------------------------------- scenarios

  /** Grid size [10, 10]; {x: 25, y: 35, width: 47, height: 12} in pixels
      switched to grid units becomes {x: 3, y: 4, width: 5, height: 1}. */
  lemma SnapScenario()
    ensures var e := Element(7, 25, 35, 47, 12, None, None, None, false);
      var p := Proxy(e, 0, GridSize(10, 10), false, []);
      var r := SetUnits(p, [e], "grid").proxy.element;
      r.x == 3 && r.y == 4 && r.width == 5 && r.height == 1 && r.useGrid
  {
    var e := Element(7, 25, 35, 47, 12, None, None, None, false);
    var p := Proxy(e, 0, GridSize(10, 10), false, []);
    var flipped := Commit(p, [e], e.(useGrid := true));
    assert GetMinWidth(flipped.proxy) == 1 && GetMinHeight(flipped.proxy) == 1;
    var c := ConvertCoordsTo(flipped.proxy, flipped.elements, "grid");
    assert c.proxy.element == ToGrid(e.(useGrid := true), GridSize(10, 10), 1, 1);
  }

  /** `up` on the element at index 2 of [A, B, C, D] gives [A, B, D, C] and
      moves the proxy's index to 3. */
  lemma OrderUpScenario()
    ensures var a := Element(0, 0, 0, 1, 1, None, None, None, false);
      var b := a.(id := 1);
      var c := a.(id := 2);
      var d := a.(id := 3);
      var r := Order(Proxy(c, 2, GridSize(8, 8), false, []), [a, b, c, d], "up");
      r.elements == [a, b, d, c] && r.proxy.index == 3
  {
    var a := Element(0, 0, 0, 1, 1, None, None, None, false);
    var b, c, d := a.(id := 1), a.(id := 2), a.(id := 3);
    assert Splice.RemoveAt([a, b, c, d], 2) == [a, b, d];
  }

  /** The endpoint is converted only when both halves are truthy: a line
      whose `x2` is 0 keeps its `y2` in pixels while the rest of the record
      moves to grid units. */
  lemma ZeroEndpointStaysInPixels()
    ensures var e := Element(1, 20, 20, 40, 10, Some(0), Some(30), None, false);
      var r := SetUnits(NewProxy(e, 0, GridSize(10, 10)), [e], "grid").proxy.element;
      r.useGrid && r.x == 2 && r.x2 == Some(0) && r.y2 == Some(30)
  {
    RoundsToUnique(20, 10, Round(20, 10), 2);
  }

  /** A line whose endpoint halves are both non-zero, one of them negative,
      has its endpoint snapped with the rest of the record; `-45 / 10`
      rounds half up to `-4`. */
  lemma NegativeEndpointIsConverted()
    ensures var e := Element(1, 20, 20, 40, 10, Some(35), Some(-45), None, false);
      var r := SetUnits(NewProxy(e, 0, GridSize(10, 10)), [e], "grid").proxy.element;
      r.useGrid && r.x == 2 && r.x2 == Some(4) && r.y2 == Some(-4)
  {
    RoundsToUnique(20, 10, Round(20, 10), 2);
    RoundsToUnique(35, 10, Round(35, 10), 4);
    RoundsToUnique(-45, 10, Round(-45, 10), -4);
  }

  /** `convertCoordsTo('grid')` called directly on a pixel-mode element
      takes the pixel-mode minimum of 10 as a grid-unit minimum. */
  lemma DirectGridConversionUsesPixelMinimum()
    ensures var e := Element(1, 0, 0, 47, 12, None, None, None, false);
      var r := ConvertCoordsTo(NewProxy(e, 0, GridSize(10, 10)), [e], "grid").proxy.element;
      r.width == 10 && r.height == 10 && !r.useGrid
  {
  }
}
