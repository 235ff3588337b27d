/** The raw element record of a fixed-position layout, as stored in the
    view configuration, and the accessor/mutator cells that read and write
    its fields. */
module LayoutElement {
  import opened Rounding

  datatype Option<T> = None | Some(value: T)

  /** Minimum rendered width and height of an element, in pixels. */
  const MIN_WIDTH: int := 10
  const MIN_HEIGHT: int := 10

  /** The layout grid size `[x, y]`: pixels per grid unit along each axis. */
  datatype GridSize = GridSize(gx: Pos, gy: Pos)

  /** The pixel grid that pixel-mode elements measure in. */
  const UnitGrid: GridSize := GridSize(1, 1)

  /** One placed element. `id` stands for the object's identity: two entries
      with the same id are the same object. `useGrid` says whether the
      numeric fields are in grid units (true) or pixels (false); `x2`/`y2`
      are the second endpoint, present on lines only. */
  datatype Element = Element(
    id: nat,
    x: int,
    y: int,
    width: int,
    height: int,
    x2: Option<int>,
    y2: Option<int>,
    stroke: Option<string>,
    useGrid: bool)

  /** JavaScript truthiness of an optional number: present and non-zero,
      negative numbers included. */
  predicate Truthy(v: Option<int>): (r: bool)
    ensures v.None? ==> !r
    ensures v == Some(0) ==> !r
    ensures r ==> v.Some? && v.value != 0
    ensures v.Some? && v.value != 0 ==> r
  {
    v.Some? && v.value != 0
  }

  /** The `element.x2 && element.y2` test that gates endpoint conversion. */
  predicate HasEndpoint(e: Element): (r: bool)
    ensures r ==> e.x2.Some? && e.y2.Some? && e.x2.value != 0 && e.y2.value != 0
    ensures e.x2.None? || e.y2.None? || e.x2 == Some(0) || e.y2 == Some(0) ==> !r
    ensures e.x2.Some? && e.y2.Some? && e.x2.value != 0 && e.y2.value != 0 ==> r
  {
    Truthy(e.x2) && Truthy(e.y2)
  }

  /** The numeric fields an accessor/mutator cell can be bound to. */
  datatype Field = X | Y | Width | Height

  function Get(e: Element, f: Field): int
  {
    match f
    case X => e.x
    case Y => e.y
    case Width => e.width
    case Height => e.height
  }

  /** The normalizer of each cell: positions are clamped to be
      non-negative, sizes are written as given. */
  function Normalize(f: Field, value: int): (r: int)
    ensures f.X? || f.Y? ==> r >= 0 && (value >= 0 ==> r == value)
    ensures (f.X? || f.Y?) && value < 0 ==> r == 0
    ensures f.Width? || f.Height? ==> r == value
  {
    if f.X? || f.Y? then Clamp(value) else value
  }

  /** Writing through a cell: the normalized value lands in the bound
      field and nothing else in the record changes. */
  function Put(e: Element, f: Field, value: int): (r: Element)
    ensures Get(r, f) == Normalize(f, value)
    ensures forall f' :: f' != f ==> Get(r, f') == Get(e, f')
    ensures r.id == e.id && r.x2 == e.x2 && r.y2 == e.y2
    ensures r.stroke == e.stroke && r.useGrid == e.useGrid
  {
    var v := Normalize(f, value);
    match f
    case X => e.(x := v)
    case Y => e.(y := v)
    case Width => e.(width := v)
    case Height => e.(height := v)
  }

  /** Writing a value read back from a cell changes nothing when the
      stored value is already normalized, and a second identical write
      adds nothing to the first. */
  lemma PutLaws(e: Element, f: Field, value: int)
    ensures Get(e, f) == Normalize(f, Get(e, f)) ==> Put(e, f, Get(e, f)) == e
    ensures Put(Put(e, f, value), f, value) == Put(e, f, value)
  {
    match f
    case X =>
    case Y =>
    case Width =>
    case Height =>
  }
}
