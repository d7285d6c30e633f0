/** CovStructure's third pass: the value with the selected serial is flattened as its
    events arrive and placed cell by cell. */
module CovBlocks {
  import opened Options
  import opened Arithmetic
  import opened Coordinates
  import opened JsonEvents
  import opened JsonPasses
  import opened JsonNodes
  import opened CovValues

  const MAX_BLOCK_INDEX_NESTING := 128

  type Palette = map<int, PaletteEntry>

  /** What the pass is given; `resolve` looks an entry up in the registry. */
  datatype Target = Target(selected: nat, size: Size, volume: nat, palette: Palette, resolve: PaletteEntry -> RuntimeId)

  /** What the pass has done: elements met, non-air elements counted, cells placed. */
  datatype Blocks = Blocks(index: nat, nonAir: nat, placed: map<BlockPos, RuntimeId>)

  const NOTHING := Blocks(0, 0, map[])

  datatype Role = Normal | TargetArray(depth: nat) | Entry(builder: Builder)

  /** A flattened element: a scalar, or an entry object. */
  datatype Element = ScalarElement(scalar: Scalar) | EntryElement(builder: Builder)

  predicate Divisible(t: Target) {
    t.size.width > 0 && t.size.height > 0 && t.size.length > 0
      && t.volume == t.size.width * t.size.height * t.size.length
  }

  /** x runs fastest, then z, then y. */
  function CellOf(t: Target, index: nat): BlockPos
    requires Divisible(t)
  {
    BlockPos(index % t.size.width, index / (t.size.width * t.size.length), index / t.size.width % t.size.length)
  }

  function Place(t: Target, b: Blocks, runtime: RuntimeId): Blocks
    requires Divisible(t)
  {
    if b.index >= t.volume then b else b.(placed := b.placed[CellOf(t, b.index) := runtime])
  }

  function EmitScalar(t: Target, b: Blocks, scalar: Scalar): Blocks
    requires Divisible(t)
  {
    var id := Integral(scalar);
    var counted :=
      if id.Some? && id.value in t.palette && NonAir(t.palette[id.value]) then
        var c := b.(nonAir := b.nonAir + 1);
        if id.value != -1 && b.index < t.volume then Place(t, c, t.resolve(t.palette[id.value])) else c
      else b;
    counted.(index := counted.index + 1)
  }

  function EmitEntry(t: Target, b: Blocks, builder: Builder): Blocks
    requires Divisible(t)
  {
    var entry := builder.Decode();
    var counted :=
      if NonAir(entry) then
        var c := b.(nonAir := b.nonAir + 1);
        if b.index < t.volume then Place(t, c, t.resolve(entry)) else c
      else b;
    counted.(index := counted.index + 1)
  }

  function Emit(t: Target, b: Blocks, e: Element): Blocks
    requires Divisible(t)
  {
    match e
    case ScalarElement(scalar) => EmitScalar(t, b, scalar)
    case EntryElement(builder) => EmitEntry(t, b, builder)
  }

  function EmitAll(t: Target, b: Blocks, elements: seq<Element>): Blocks
    requires Divisible(t)
  {
    if elements == [] then b else Emit(t, EmitAll(t, b, elements[..|elements| - 1]), elements[|elements| - 1])
  }

  function Begin(t: Target, b: Blocks, parent: Option<Parent<Role>>, serial: nat,
      head: Head): Option<Begun<Blocks, Role>>
    requires Divisible(t)
  {
    var role := if parent.Some? then parent.value.role else Normal;
    if serial == t.selected then
      match head
      case ArrayHead => Some(Begun(b, role, TargetArray(0)))
      case ObjectHead => Some(Begun(b, role, Entry(BLANK)))
      case ScalarHead(scalar) => Some(Begun(EmitScalar(t, b, scalar), role, Normal))
    else
      match role
      case Normal => Some(Begun(b, role, Normal))
      case Entry(builder) => Some(Begun(b, Entry(builder.Consume(parent.value.key, ScalarOfHead(head))), Normal))
      case TargetArray(depth) =>
        if depth + 1 > MAX_BLOCK_INDEX_NESTING then None
        else
          match head
          case ArrayHead => Some(Begun(b, role, TargetArray(depth + 1)))
          case ObjectHead => Some(Begun(b, role, Entry(BLANK)))
          case ScalarHead(scalar) => Some(Begun(EmitScalar(t, b, scalar), role, Normal))
  }

  function End(t: Target, b: Blocks, role: Role, head: Head): Blocks
    requires Divisible(t)
  {
    if role.Entry? && head == ObjectHead then EmitEntry(t, b, role.builder) else b
  }

  function PassOf(t: Target): Pass<Blocks, Role>
    requires Divisible(t)
  {
    Pass((b, parent, serial, head) => Begin(t, b, parent, serial, head), (b, role, head) => End(t, b, role, head))
  }

  // The tree-based reading.

  /** The elements of an array, `depth` arrays down; too deep a nesting has none. */
  function FlattenItems(items: seq<Json>, depth: nat): Option<seq<Element>>
    decreases items, 1
  {
    if items == [] then Some([])
    else
      var before := FlattenItems(items[..|items| - 1], depth);
      if before == None || depth + 1 > MAX_BLOCK_INDEX_NESTING then None
      else
        var last := Flatten(items[|items| - 1], depth + 1);
        if last == None then None else Some(before.value + last.value)
  }

  function Flatten(v: Json, depth: nat): Option<seq<Element>>
    decreases v, 0
  {
    match v
    case Leaf(scalar) => Some([ScalarElement(scalar)])
    case Object(members) => Some([EntryElement(EntryOf(BLANK, members))])
    case Array(items) => FlattenItems(items, depth)
  }

  function Emitted(t: Target, b: Blocks, elements: Option<seq<Element>>): Option<Blocks>
    requires Divisible(t)
  {
    if elements == None then None else Some(EmitAll(t, b, elements.value))
  }

  // Inside the selected value.

  lemma IdlesOutside(t: Target)
    requires Divisible(t)
    ensures Sleeps(PassOf(t), Normal, t.selected) && Idles(PassOf(t), Normal, t.selected)
  {
    hide EmitScalar, EmitEntry;
  }

  /** The members of an entry are consumed; what they contain is not looked at. */
  lemma {:induction false} WalkEntry(t: Target, b: Blocks, builder: Builder, n: nat, members: seq<Member>)
    requires Divisible(t) && t.selected <= n
    ensures var w := WalkMembers(PassOf(t), b, Parent(Entry(builder), ""), n, members);
      w.Some? && w.value.acc == b && w.value.parent.value.role == Entry(EntryOf(builder, members))
  {
    hide Walk, PassOf, Builder.Consume;
    if members != [] {
      var init, last := members[..|members| - 1], members[|members| - 1];
      WalkEntry(t, b, builder, n, init);
      var before := WalkMembers(PassOf(t), b, Parent(Entry(builder), ""), n, init);
      WalkEntryMember(t, b, EntryOf(builder, init), last.key, n + CountMembers(init), last.value);
    }
  }

  lemma WalkEntryMember(t: Target, b: Blocks, builder: Builder, key: string, n: nat, v: Json)
    requires Divisible(t) && t.selected <= n
    ensures Walk(PassOf(t), b, Some(Parent(Entry(builder), key)), n, v)
      == Some(Walked(b, Some(Parent(Entry(builder.Consume(key, ScalarOf(v))), key))))
  {
    hide Builder.Consume, EmitScalar, EmitEntry, Idles, Sleeps;
    IdlesOutside(t);
    match v
    case Leaf(_) =>
    case Array(items) => WalkIdleItems(PassOf(t), Normal, t.selected, b, Parent(Normal, ""), n + 1, items);
    case Object(members) => WalkIdleMembers(PassOf(t), Normal, t.selected, b, Parent(Normal, ""), n + 1, members);
  }

  /** A value inside the selected array emits its elements in order. */
  lemma {:induction false} WalkElement(t: Target, b: Blocks, depth: nat, n: nat, v: Json)
    requires Divisible(t) && t.selected <= n
    ensures var parent, blocks := Some(Parent(TargetArray(depth), "")),
        if depth + 1 > MAX_BLOCK_INDEX_NESTING then None else Emitted(t, b, Flatten(v, depth + 1));
      Walk(PassOf(t), b, parent, n, v) == if blocks == None then None else Some(Walked(blocks.value, parent))
    decreases v, 0
  {
    hide Walk, WalkItems, WalkMembers, PassOf, EmitAll;
    WalkStep(PassOf(t), b, Some(Parent(TargetArray(depth), "")), n, v);
    BeginElement(t, b, depth, n, v);
    match v
    case Leaf(scalar) => EmitOne(t, b, ScalarElement(scalar));
    case Array(items) =>
      if depth + 1 <= MAX_BLOCK_INDEX_NESTING {
        WalkElements(t, b, depth + 1, n + 1, items);
      }
    case Object(members) =>
      WalkEntry(t, b, BLANK, n + 1, members);
      EmitOne(t, b, EntryElement(EntryOf(BLANK, members)));
  }

  /** How an element begins inside the selected array, and how containers end. */
  lemma BeginElement(t: Target, b: Blocks, depth: nat, n: nat, v: Json)
    requires Divisible(t) && t.selected <= n
    ensures var role := TargetArray(depth);
      PassOf(t).begin(b, Some(Parent(role, "")), n + 1, HeadOf(v))
      == if depth + 1 > MAX_BLOCK_INDEX_NESTING then None
        else
          match v
          case Leaf(scalar) => Some(Begun(EmitScalar(t, b, scalar), role, Normal))
          case Array(_) => Some(Begun(b, role, TargetArray(depth + 1)))
          case Object(_) => Some(Begun(b, role, Entry(BLANK)))
    ensures forall c, d :: PassOf(t).end(c, TargetArray(d), ArrayHead) == c
    ensures forall c, builder :: PassOf(t).end(c, Entry(builder), ObjectHead) == EmitEntry(t, c, builder)
    ensures forall c :: PassOf(t).end(c, Normal, ArrayHead) == c && PassOf(t).end(c, Normal, ObjectHead) == c
  {
    hide EmitScalar, EmitEntry;
  }

  lemma EmitOne(t: Target, b: Blocks, e: Element)
    requires Divisible(t)
    ensures EmitAll(t, b, [e]) == Emit(t, b, e)
  {
    assert [e][..0] == [];
  }

  lemma {:induction false} EmitBoth(t: Target, b: Blocks, first: seq<Element>, second: seq<Element>)
    requires Divisible(t)
    ensures EmitAll(t, b, first + second) == EmitAll(t, EmitAll(t, b, first), second)
  {
    hide Emit;
    if second == [] {
      assert first + second == first;
    } else {
      EmitBoth(t, b, first, second[..|second| - 1]);
      assert (first + second)[..|first + second| - 1] == first + second[..|second| - 1];
    }
  }

  lemma {:induction false} WalkElements(t: Target, b: Blocks, depth: nat, n: nat, items: seq<Json>)
    requires Divisible(t) && t.selected <= n
    ensures var parent, blocks := Parent(TargetArray(depth), ""), Emitted(t, b, FlattenItems(items, depth));
      WalkItems(PassOf(t), b, parent, n, items) == if blocks == None then None
        else Some(Walked(blocks.value, Some(parent)))
    decreases items, 1
  {
    hide Walk, PassOf, Emit, EmitAll;
    EmitNone(t, b);
    if items != [] {
      var init, last := items[..|items| - 1], items[|items| - 1];
      WalkElements(t, b, depth, n, init);
      var before, flat := FlattenItems(init, depth), Flatten(last, depth + 1);
      if before.Some? {
        WalkElement(t, EmitAll(t, b, before.value), depth, n + CountItems(init), last);
        if flat.Some? {
          EmitBoth(t, b, before.value, flat.value);
        }
      }
    }
  }

  lemma EmitNone(t: Target, b: Blocks)
    requires Divisible(t)
    ensures EmitAll(t, b, []) == b
  {
  }

  /** The selected value itself. */
  lemma WalkSelected(t: Target, b: Blocks, v: Json)
    requires Divisible(t) && t.selected > 0
    ensures var after := Emitted(t, b, Flatten(v, 0));
      Walk(PassOf(t), b, None, t.selected - 1, v) == if after == None then None else Some(Walked(after.value, None))
  {
    hide Walk, WalkItems, WalkMembers, PassOf, EmitAll;
    var n := t.selected;
    WalkStep(PassOf(t), b, None, n - 1, v);
    BeginSelected(t, b, v);
    BeginElement(t, b, 0, n, v);
    match v
    case Leaf(scalar) => EmitOne(t, b, ScalarElement(scalar));
    case Array(items) => WalkElements(t, b, 0, n, items);
    case Object(members) =>
      WalkEntry(t, b, BLANK, n, members);
      EmitOne(t, b, EntryElement(EntryOf(BLANK, members)));
  }

  lemma BeginSelected(t: Target, b: Blocks, v: Json)
    requires Divisible(t) && t.selected > 0
    ensures PassOf(t).begin(b, None, t.selected, HeadOf(v))
      == match v
        case Leaf(scalar) => Some(Begun(EmitScalar(t, b, scalar), Normal, Normal))
        case Array(_) => Some(Begun(b, Normal, TargetArray(0)))
        case Object(_) => Some(Begun(b, Normal, Entry(BLANK)))
  {
    hide EmitScalar, EmitEntry;
  }

  /** The third pass is the flattening of the selected node. */
  lemma PassFlattens(t: Target, root: Json)
    requires Divisible(t) && 1 <= t.selected && NodeAt(root, t.selected).Some?
    ensures Outcome(PassOf(t), NOTHING, root)
      == if Depth(root) > MAX_NESTING then None else Emitted(t, NOTHING, Flatten(NodeAt(root, t.selected).value, 0))
  {
    hide Walk, PassOf, Emitted, Idles, Sleeps;
    IdlesOutside(t);
    PassSelects(PassOf(t), Normal, t.selected, NOTHING, root);
    WalkSelected(t, NOTHING, NodeAt(root, t.selected).value);
  }

  // What the cells then hold.

  /** The element counts as a non-air block. */
  predicate Counts(t: Target, e: Element) {
    match e
    case ScalarElement(scalar) =>
      var id := Integral(scalar); id.Some? && id.value in t.palette && NonAir(t.palette[id.value])
    case EntryElement(builder) => NonAir(builder.Decode())
  }

  /** The block it stands for: index -1 is counted but never placed. */
  function BlockOf(t: Target, e: Element): Option<RuntimeId> {
    if !Counts(t, e) then None
    else
      match e
      case ScalarElement(scalar) =>
        var id := Integral(scalar).value; if id == -1 then None else Some(t.resolve(t.palette[id]))
      case EntryElement(builder) => Some(t.resolve(builder.Decode()))
  }

  /** The elements placed so far and nothing else, each in its own cell. */
  ghost predicate Holds(t: Target, b: Blocks, elements: seq<Element>)
    requires Divisible(t)
  {
    && b.index == |elements|
    && (forall k | 0 <= k < |elements| && k < t.volume ::
      BlockOf(t, elements[k]) == if CellOf(t, k) in b.placed then Some(b.placed[CellOf(t, k)]) else None)
    && (forall c | c in b.placed :: exists k :: 0 <= k < |elements| && k < t.volume && c == CellOf(t, k))
  }

  lemma EmitStep(t: Target, b: Blocks, e: Element)
    requires Divisible(t)
    ensures var after := Emit(t, b, e);
      && after.index == b.index + 1 && after.nonAir == b.nonAir + (if Counts(t, e) then 1 else 0)
      && after.placed
        == if b.index < t.volume
          && BlockOf(t, e).Some? then b.placed[CellOf(t, b.index) := BlockOf(t, e).value] else b.placed
  {
    hide CellOf;
  }

  /** Every element below the volume is in the cell of its index, unless it is air;
      no other cell is touched. */
  lemma {:induction false} PlacedExactly(t: Target, elements: seq<Element>)
    requires Divisible(t)
    ensures Holds(t, EmitAll(t, NOTHING, elements), elements)
  {
    if elements != [] {
      var init, last := elements[..|elements| - 1], elements[|elements| - 1];
      PlacedExactly(t, init);
      OneMorePlaced(t, EmitAll(t, NOTHING, init), init, last);
      assert init + [last] == elements;
    }
  }

  lemma OneMorePlaced(t: Target, b: Blocks, init: seq<Element>, last: Element)
    requires Divisible(t) && Holds(t, b, init)
    ensures Holds(t, Emit(t, b, last), init + [last])
    ensures |init| < t.volume ==> CellOf(t, |init|) !in b.placed
  {
    hide CellOf, BlockOf, Emit;
    EmitStep(t, b, last);
    forall k | 0 <= k < |init| && k < t.volume && |init| < t.volume
      ensures CellOf(t, k) != CellOf(t, |init|)
    {
      CellsAreDistinct(t, k, |init|);
    }
    var elements := init + [last];
    forall c | c in Emit(t, b, last).placed
      ensures exists k :: 0 <= k < |elements| && k < t.volume && c == CellOf(t, k)
    {
      if c in b.placed {
        var k :| 0 <= k < |init| && k < t.volume && c == CellOf(t, k);
        assert 0 <= k < |elements|;
      } else {
        assert c == CellOf(t, |init|);
      }
    }
  }

  lemma CellsAreDistinct(t: Target, j: nat, k: nat)
    requires Divisible(t) && j < t.volume && k < t.volume && j != k
    ensures CellOf(t, j) != CellOf(t, k)
  {
    CellGivesIndex(t, j);
    CellGivesIndex(t, k);
  }

  /** The index of a cell, and that cells below the volume are in bounds. */
  lemma CellGivesIndex(t: Target, k: nat)
    requires Divisible(t) && k < t.volume
    ensures var c := CellOf(t, k);
      && 0 <= c.x < t.size.width && 0 <= c.y < t.size.height && 0 <= c.z < t.size.length
      && k == (c.y * t.size.length + c.z) * t.size.width + c.x
  {
    assert 0 < t.size.width * t.size.length;
    DivideTwice(k, t.size.width, t.size.length);
    QuotientBelow(k, t.size.width * t.size.length, t.size.height);
  }

  lemma DivideTwice(k: nat, w: nat, l: nat)
    requires 0 < w && 0 < l && 0 < w * l
    ensures k / (w * l) == k / w / l
  {
    var q, x := k / w, k % w;
    var r, z := q / l, q % l;
    RowBelow(x, z, w, l);
    Recompose(k, w);
    Recompose(q, l);
    Combine(k, q, x, r, z, w, l);
    UniqueQuotient(k, w * l, r, z * w + x);
  }

  lemma Combine(k: nat, q: nat, x: nat, r: nat, z: nat, w: nat, l: nat)
    requires k == q * w + x && q == r * l + z
    ensures k == r * (w * l) + (z * w + x)
  {
    Distribute(r, l, z, w);
  }

  lemma Distribute(r: nat, l: nat, z: nat, w: nat)
    ensures (r * l + z) * w == r * (w * l) + z * w
  {
  }

  lemma RowBelow(x: nat, z: nat, w: nat, l: nat)
    requires x < w && z < l
    ensures z * w + x < w * l
  {
    Multiples(z, l, w);
  }

  lemma QuotientBelow(k: nat, d: nat, h: nat)
    requires 0 < d && k < h * d
    ensures k / d < h
  {
    if h <= k / d {
      Multiples(h, k / d, d);
    }
  }

  /** The non-air count is the number of placed blocks exactly when nothing counted
      lies past the volume or has index -1; it is never smaller. */
  lemma {:induction false} CountMatchesExactlyWhen(t: Target, elements: seq<Element>)
    requires Divisible(t)
    ensures var b := EmitAll(t, NOTHING, elements);
      && |b.placed| <= b.nonAir
      && (|b.placed| == b.nonAir <==>
        forall k | 0 <= k < |elements| && Counts(t, elements[k]) :: k < t.volume && BlockOf(t, elements[k]).Some?)
  {
    hide Counts, BlockOf, CellOf, Holds, Emit;
    if elements == [] {
    } else {
      var init, last := elements[..|elements| - 1], elements[|elements| - 1];
      CountMatchesExactlyWhen(t, init);
      PlacedExactly(t, init);
      var before := EmitAll(t, NOTHING, init);
      IndexCounts(t, init);
      OneMorePlaced(t, before, init, last);
      CountStep(t, before, last);
      assert forall k | 0 <= k < |init| :: elements[k] == init[k];
    }
  }

  /** A concrete case: index -1 is counted and never placed. */
  lemma MinusOneIsMiscounted(t: Target)
    requires Divisible(t) && -1 in t.palette && NonAir(t.palette[-1])
    ensures var b := EmitAll(t, NOTHING, [ScalarElement(Integer(-1))]); b.nonAir == 1 && b.placed == map[]
  {
    assert EmitAll(t, NOTHING, []) == NOTHING;
  }

  lemma {:induction false} IndexCounts(t: Target, elements: seq<Element>)
    requires Divisible(t)
    ensures EmitAll(t, NOTHING, elements).index == |elements|
  {
    PlacedExactly(t, elements);
  }

  lemma CountStep(t: Target, b: Blocks, e: Element)
    requires Divisible(t) && (b.index < t.volume ==> CellOf(t, b.index) !in b.placed)
    ensures var after := Emit(t, b, e);
      && |after.placed| == |b.placed| + (if b.index < t.volume && BlockOf(t, e).Some? then 1 else 0)
      && after.nonAir == b.nonAir + (if Counts(t, e) then 1 else 0) && (BlockOf(t, e).Some? ==> Counts(t, e))
  {
    hide CellOf, Emit;
    EmitStep(t, b, e);
  }
}
