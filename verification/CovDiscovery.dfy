/** CovStructure's first pass: the dimensions, and the serial numbers of the values
    the later passes look for. */
module CovDiscoveries {
  import opened Options
  import opened Coordinates
  import opened JsonEvents
  import opened JsonPasses
  import opened JsonNodes
  import opened CovValues

  datatype Kind = ScalarKind | ArrayKind | ObjectKind

  datatype Child = Child(isObject: bool, blockPalette: Option<nat>)

  datatype Candidate = Candidate(kind: Kind, children: map<string, Child>)

  type Layouts = map<nat, Candidate>

  datatype Selection = Selection(isObject: bool, palette: Option<nat>, blockIndices: Option<nat>, blocks: Option<nat>)
  {
    function Take(key: string, serial: nat): Selection {
      if key == "palette" then this.(palette := Some(serial))
      else if key == "block_indices" then this.(blockIndices := Some(serial))
      else if key == "blocks" then this.(blocks := Some(serial))
      else this
    }
  }

  const UNSELECTED := Selection(false, None, None, None)

  /** `DiscoveryResult`. */
  datatype Discovery = Discovery(
    rootIsObject: bool, size: Option<seq<int>>, dimensions: Option<seq<int>>, rootPalette: Option<nat>,
    structure: Selection, layouts: Layouts)
  {
    function SetChild(serial: nat, key: string, child: Child): Discovery {
      if serial !in layouts then this
      else this.(layouts := layouts[serial := layouts[serial].(children := layouts[serial].children[key := child])])
    }
  }

  const UNDISCOVERED := Discovery(false, None, None, None, UNSELECTED, map[])

  datatype Role =
    | Normal
    | Root
    | Structure
    | SizeArray
    | DimensionsArray
    | PaletteRaw(serial: nat)
    | PaletteChild(serial: nat, key: string)

  function KindOfHead(head: Head): Kind {
    match head
    case ScalarHead(_) => ScalarKind
    case ArrayHead => ArrayKind
    case ObjectHead => ObjectKind
  }

  /** A dimension is captured if it is a whole number of 32 bits. */
  function Captured(head: Head): seq<int> {
    var value := if head.ScalarHead? then Integral(head.scalar) else None;
    if value.Some? && IsInt32(value.value) then [value.value] else []
  }

  function BeginInRoot(d: Discovery, key: string, serial: nat, head: Head): (Discovery, Role) {
    if key == "size" then (d.(size := Some([])), if head == ArrayHead then SizeArray else Normal)
    else if key == "dimensions" then (d.(dimensions := Some([])), if head == ArrayHead then DimensionsArray else Normal)
    else if key == "structure" then
      (d.(structure := UNSELECTED.(isObject := head == ObjectHead)), if head == ObjectHead then Structure else Normal)
    else if key == "palette" then
      (d.(rootPalette := Some(serial), layouts := d.layouts[serial := Candidate(KindOfHead(head), map[])]),
        if head == ObjectHead then PaletteRaw(serial) else Normal)
    else (d, Normal)
  }

  function BeginInStructure(d: Discovery, key: string, serial: nat, head: Head): (Discovery, Role) {
    var taken := d.(structure := d.structure.Take(key, serial));
    if key == "palette" then
      (taken.(layouts := d.layouts[serial := Candidate(KindOfHead(head), map[])]),
        if head == ObjectHead then PaletteRaw(serial) else Normal)
    else (taken, Normal)
  }

  function BeginInside(d: Discovery, parent: Parent<Role>, serial: nat, head: Head): (Discovery, Role) {
    match parent.role
    case Normal => (d, Normal)
    case Root => BeginInRoot(d, parent.key, serial, head)
    case Structure => BeginInStructure(d, parent.key, serial, head)
    case SizeArray => (d.(size := Some((if d.size.Some? then d.size.value else []) + Captured(head))), Normal)
    case DimensionsArray =>
      (d.(dimensions := Some((if d.dimensions.Some? then d.dimensions.value else []) + Captured(head))), Normal)
    case PaletteRaw(palette) =>
      (d.SetChild(palette, parent.key, Child(head == ObjectHead, None)),
        if head == ObjectHead then PaletteChild(palette, parent.key) else Normal)
    case PaletteChild(palette, child) =>
      if parent.key == "block_palette" && palette in d.layouts && child in d.layouts[palette].children then
        (d.SetChild(palette, child,
          d.layouts[palette].children[child].(blockPalette := if head == ArrayHead then Some(serial) else None)),
            Normal)
      else (d, Normal)
  }

  function Begin(d: Discovery, parent: Option<Parent<Role>>, serial: nat, head: Head): Begun<Discovery, Role> {
    if parent == None then Begun(d.(rootIsObject := head == ObjectHead), Normal, if head == ObjectHead then Root
    else Normal)
    else
      var (after, child) := BeginInside(d, parent.value, serial, head);
      Begun(after, parent.value.role, child)
  }

  function DiscoveryPass(): Pass<Discovery, Role> {
    Pass((d, parent, serial, head) => Some(Begin(d, parent, serial, head)), (d, role, head) => d)
  }

  // The tree-based reading.

  function KindOf(v: Json): Kind {
    KindOfHead(HeadOf(v))
  }

  function DimensionsIn(items: seq<Json>): seq<int> {
    if items == [] then [] else DimensionsIn(items[..|items| - 1]) + Captured(HeadOf(items[|items| - 1]))
  }

  function DimensionsOf(v: Json): seq<int> {
    if v.Array? then DimensionsIn(v.items) else []
  }

  /** The serial of the last "block_palette", if that is an array. */
  function BlockPaletteOf(members: seq<Member>, base: nat): Option<nat> {
    var found := LastAt(members, base, "block_palette");
    if found.Some? && found.value.value.Array? then Some(found.value.serial) else None
  }

  function ChildOf(v: Json, serial: nat): Child {
    Child(v.Object?, if v.Object? then BlockPaletteOf(v.members, serial) else None)
  }

  function ChildrenOf(children: map<string, Child>, members: seq<Member>, base: nat): map<string, Child> {
    if members == [] then children
    else
      var init, last := members[..|members| - 1], members[|members| - 1];
      ChildrenOf(children, init, base)[last.key := ChildOf(last.value, base + CountMembers(init) + 1)]
  }

  function CandidateOf(v: Json, serial: nat): Candidate {
    Candidate(KindOf(v), if v.Object? then ChildrenOf(map[], v.members, serial) else map[])
  }

  function StructureLayouts(layouts: Layouts, members: seq<Member>, base: nat): Layouts {
    if members == [] then layouts
    else
      var init, last := members[..|members| - 1], members[|members| - 1];
      var before, serial := StructureLayouts(layouts, init, base), base + CountMembers(init) + 1;
      if last.key == "palette" then before[serial := CandidateOf(last.value, serial)] else before
  }

  function SelectionIn(selection: Selection, members: seq<Member>, base: nat): Selection {
    if members == [] then selection
    else
      var init, last := members[..|members| - 1], members[|members| - 1];
      SelectionIn(selection, init, base).Take(last.key, base + CountMembers(init) + 1)
  }

  /** What one member of the root adds. */
  function RootMember(d: Discovery, key: string, v: Json, serial: nat): Discovery {
    if key == "size" then d.(size := Some(DimensionsOf(v)))
    else if key == "dimensions" then d.(dimensions := Some(DimensionsOf(v)))
    else if key == "structure" then
      if v.Object? then
        d.(structure := SelectionIn(UNSELECTED.(isObject := true), v.members, serial),
          layouts := StructureLayouts(d.layouts, v.members, serial))
      else d.(structure := UNSELECTED)
    else if key == "palette"
      then d.(rootPalette := Some(serial), layouts := d.layouts[serial := CandidateOf(v, serial)])
    else d
  }

  function RootMembers(d: Discovery, members: seq<Member>, base: nat): Discovery {
    if members == [] then d
    else
      var init, last := members[..|members| - 1], members[|members| - 1];
      RootMember(RootMembers(d, init, base), last.key, last.value, base + CountMembers(init) + 1)
  }

  // The walk is the fold.

  lemma SleepsInNormal()
    ensures Sleeps(DiscoveryPass(), Normal, 0)
  {
  }

  /** The contents of a container nobody is interested in. */
  lemma WalkIgnored(d: Discovery, n: nat, v: Json)
    ensures v.Array? ==>
      WalkItems(DiscoveryPass(), d, Parent(Normal, ""), n, v.items) == Some(Walked(d, Some(Parent(Normal, ""))))
    ensures v.Object? ==>
      var w := WalkMembers(DiscoveryPass(), d, Parent(Normal, ""), n, v.members); w.Some? && w.value.acc == d
  {
    hide Sleeps, Walk, WalkItems, WalkMembers, DiscoveryPass;
    SleepsInNormal();
    match v
    case Leaf(_) =>
    case Array(items) => WalkIdleItems(DiscoveryPass(), Normal, 0, d, Parent(Normal, ""), n, items);
    case Object(members) => WalkIdleMembers(DiscoveryPass(), Normal, 0, d, Parent(Normal, ""), n, members);
  }

  /** A value whose role stays normal only begins. */
  lemma WalkPlain(d: Discovery, parent: Parent<Role>, n: nat, v: Json)
    requires BeginInside(d, parent, n + 1, HeadOf(v)).1 == Normal
    ensures Walk(DiscoveryPass(), d, Some(parent), n, v)
      == Some(Walked(BeginInside(d, parent, n + 1, HeadOf(v)).0, Some(parent)))
  {
    hide Walk, WalkItems, WalkMembers, BeginInside;
    WalkStep(DiscoveryPass(), d, Some(parent), n, v);
    WalkIgnored(BeginInside(d, parent, n + 1, HeadOf(v)).0, n + 1, v);
  }

  lemma {:induction false} WalkSize(d: Discovery, n: nat, items: seq<Json>, sofar: seq<int>)
    requires d.size == Some(sofar)
    ensures WalkItems(DiscoveryPass(), d, Parent(SizeArray, ""), n, items)
      == Some(Walked(d.(size := Some(sofar + DimensionsIn(items))), Some(Parent(SizeArray, ""))))
  {
    hide Walk, DiscoveryPass, Captured;
    if items == [] {
      assert sofar + [] == sofar;
    } else {
      var init, last := items[..|items| - 1], items[|items| - 1];
      WalkSize(d, n, init, sofar);
      WalkPlain(d.(size := Some(sofar + DimensionsIn(init))), Parent(SizeArray, ""), n + CountItems(init), last);
      assert sofar + DimensionsIn(init) + Captured(HeadOf(last)) == sofar + DimensionsIn(items);
    }
  }

  lemma {:induction false} WalkDimensions(d: Discovery, n: nat, items: seq<Json>, sofar: seq<int>)
    requires d.dimensions == Some(sofar)
    ensures WalkItems(DiscoveryPass(), d, Parent(DimensionsArray, ""), n, items)
      == Some(Walked(d.(dimensions := Some(sofar + DimensionsIn(items))), Some(Parent(DimensionsArray, ""))))
  {
    hide Walk, DiscoveryPass, Captured;
    if items == [] {
      assert sofar + [] == sofar;
    } else {
      var init, last := items[..|items| - 1], items[|items| - 1];
      WalkDimensions(d, n, init, sofar);
      WalkPlain(d.(dimensions := Some(sofar + DimensionsIn(init))), Parent(DimensionsArray, ""), n + CountItems(init),
        last);
      assert sofar + DimensionsIn(init) + Captured(HeadOf(last)) == sofar + DimensionsIn(items);
    }
  }

  /** A later "block_palette" replaces an earlier one. */
  function LaterBlockPalette(before: Option<nat>, members: seq<Member>, base: nat): Option<nat> {
    if LastAt(members, base, "block_palette") == None then before else BlockPaletteOf(members, base)
  }

  lemma {:induction false} WalkPaletteChild(d: Discovery, palette: nat, key: string, n: nat, members: seq<Member>)
    requires palette in d.layouts && key in d.layouts[palette].children
    ensures var child := d.layouts[palette].children[key];
      var after := d.SetChild(palette, key, child.(blockPalette := LaterBlockPalette(child.blockPalette, members, n)));
      var w := WalkMembers(DiscoveryPass(), d, Parent(PaletteChild(palette, key), ""), n, members);
      w.Some? && w.value.acc == after && w.value.parent.value.role == PaletteChild(palette, key)
  {
    hide Walk, DiscoveryPass;
    var child := d.layouts[palette].children[key];
    if members == [] {
      assert d.layouts[palette].children[key := child] == d.layouts[palette].children;
      assert d.layouts[palette := d.layouts[palette]] == d.layouts;
    } else {
      var init, last := members[..|members| - 1], members[|members| - 1];
      WalkPaletteChild(d, palette, key, n, init);
      var before := d.SetChild(palette, key, child.(blockPalette := LaterBlockPalette(child.blockPalette, init, n)));
      var parent := Parent(PaletteChild(palette, key), last.key);
      WalkPlain(before, parent, n + CountMembers(init), last.value);
      SetTwice(d, palette, key, child.(blockPalette := LaterBlockPalette(child.blockPalette, init, n)),
        child.(blockPalette := if last.value.Array? then Some(n + CountMembers(init) + 1) else None));
    }
  }

  lemma SetTwice(d: Discovery, palette: nat, key: string, first: Child, second: Child)
    requires palette in d.layouts
    ensures d.SetChild(palette, key, first).SetChild(palette, key, second) == d.SetChild(palette, key, second)
    ensures var once := d.SetChild(palette, key, first);
      palette in once.layouts && key in once.layouts[palette].children && once.layouts[palette].children[key] == first
  {
    var once := d.SetChild(palette, key, first);
    assert once.layouts[palette].children[key := second] == d.layouts[palette].children[key := second];
    assert once.SetChild(palette, key, second).layouts == d.SetChild(palette, key, second).layouts;
  }

  function WithChildren(d: Discovery, palette: nat, children: map<string, Child>): Discovery
    requires palette in d.layouts
  {
    d.(layouts := d.layouts[palette := d.layouts[palette].(children := children)])
  }

  lemma WalkPaletteMember(d: Discovery, palette: nat, key: string, n: nat, v: Json)
    requires palette in d.layouts
    ensures var parent := Some(Parent(PaletteRaw(palette), key));
      Walk(DiscoveryPass(), d, parent, n, v) == Some(Walked(d.SetChild(palette, key, ChildOf(v, n + 1)), parent))
  {
    if v.Object? {
      hide Walk, WalkMembers, Discovery.SetChild;
      var parent := Some(Parent(PaletteRaw(palette), key));
      var begun := d.SetChild(palette, key, Child(true, None));
      WalkStep(DiscoveryPass(), d, parent, n, v);
      SetTwice(d, palette, key, Child(true, None), ChildOf(v, n + 1));
      WalkPaletteChild(begun, palette, key, n + 1, v.members);
    } else {
      hide Walk, DiscoveryPass, Discovery.SetChild;
      WalkPlain(d, Parent(PaletteRaw(palette), key), n, v);
    }
  }

  lemma {:induction false} WalkPaletteRaw(d: Discovery, palette: nat, n: nat, members: seq<Member>)
    requires palette in d.layouts
    ensures var w := WalkMembers(DiscoveryPass(), d, Parent(PaletteRaw(palette), ""), n, members);
      && w.Some? && w.value.parent.value.role == PaletteRaw(palette)
      && w.value.acc == WithChildren(d, palette, ChildrenOf(d.layouts[palette].children, members, n))
  {
    hide Walk, DiscoveryPass, ChildOf;
    if members == [] {
      assert d.layouts[palette := d.layouts[palette]] == d.layouts;
    } else {
      var init, last := members[..|members| - 1], members[|members| - 1];
      WalkPaletteRaw(d, palette, n, init);
      var before := WithChildren(d, palette, ChildrenOf(d.layouts[palette].children, init, n));
      WalkPaletteMember(before, palette, last.key, n + CountMembers(init), last.value);
      assert before.SetChild(palette, last.key, ChildOf(last.value, n + CountMembers(init) + 1)).layouts
        == WithChildren(d, palette, ChildrenOf(d.layouts[palette].children, members, n)).layouts;
    }
  }

  /** A palette value, in the root or in the structure. */
  lemma WalkPalette(d: Discovery, parent: Parent<Role>, n: nat, v: Json, taken: Discovery)
    requires parent.key == "palette" && (parent.role == Root || parent.role == Structure)
    requires taken == if parent.role == Root then d.(rootPalette := Some(n + 1))
      else d.(structure := d.structure.Take("palette", n + 1))
    ensures Walk(DiscoveryPass(), d, Some(parent), n, v)
      == Some(Walked(taken.(layouts := d.layouts[n + 1 := CandidateOf(v, n + 1)]), Some(parent)))
  {
    if v.Object? {
      hide Walk, WalkMembers, ChildrenOf;
      var begun := taken.(layouts := d.layouts[n + 1 := Candidate(ObjectKind, map[])]);
      WalkStep(DiscoveryPass(), d, Some(parent), n, v);
      WalkPaletteRaw(begun, n + 1, n + 1, v.members);
      assert WithChildren(begun, n + 1, ChildrenOf(map[], v.members, n + 1)).layouts
        == d.layouts[n + 1 := CandidateOf(v, n + 1)];
    } else {
      hide Walk, DiscoveryPass;
      WalkPlain(d, parent, n, v);
    }
  }

  lemma {:induction false} WalkStructure(d: Discovery, n: nat, members: seq<Member>)
    ensures var w := WalkMembers(DiscoveryPass(), d, Parent(Structure, ""), n, members);
      && w.Some? && w.value.parent.value.role == Structure
      && w.value.acc
        == d.(structure := SelectionIn(d.structure, members, n), layouts := StructureLayouts(d.layouts, members, n))
  {
    hide Walk, DiscoveryPass, CandidateOf;
    if members != [] {
      var init, last := members[..|members| - 1], members[|members| - 1];
      WalkStructure(d, n, init);
      var before := d.(structure := SelectionIn(d.structure, init, n), layouts := StructureLayouts(d.layouts, init, n));
      var m := n + CountMembers(init);
      if last.key == "palette" {
        WalkPalette(before, Parent(Structure, last.key), m, last.value,
          before.(structure := before.structure.Take("palette", m + 1)));
      } else {
        WalkPlain(before, Parent(Structure, last.key), m, last.value);
      }
    }
  }

  lemma WalkRootMember(d: Discovery, key: string, n: nat, v: Json)
    ensures Walk(DiscoveryPass(), d, Some(Parent(Root, key)), n, v)
      == Some(Walked(RootMember(d, key, v, n + 1), Some(Parent(Root, key))))
  {
    hide Walk, WalkItems, WalkMembers, CandidateOf, StructureLayouts, SelectionIn;
    var parent := Parent(Root, key);
    if key == "size" && v.Array? {
      WalkStep(DiscoveryPass(), d, Some(parent), n, v);
      WalkSize(d.(size := Some([])), n + 1, v.items, []);
      assert [] + DimensionsIn(v.items) == DimensionsIn(v.items);
    } else if key == "dimensions" && v.Array? {
      WalkStep(DiscoveryPass(), d, Some(parent), n, v);
      WalkDimensions(d.(dimensions := Some([])), n + 1, v.items, []);
      assert [] + DimensionsIn(v.items) == DimensionsIn(v.items);
    } else if key == "structure" && v.Object? {
      WalkStep(DiscoveryPass(), d, Some(parent), n, v);
      WalkStructure(d.(structure := UNSELECTED.(isObject := true)), n + 1, v.members);
    } else if key == "palette" {
      WalkPalette(d, parent, n, v, d.(rootPalette := Some(n + 1)));
    } else {
      WalkPlain(d, parent, n, v);
    }
  }

  lemma {:induction false} WalkRootMembers(d: Discovery, n: nat, members: seq<Member>)
    ensures var w := WalkMembers(DiscoveryPass(), d, Parent(Root, ""), n, members);
      w.Some? && w.value.parent.value.role == Root && w.value.acc == RootMembers(d, members, n)
  {
    hide Walk, DiscoveryPass, RootMember;
    if members != [] {
      var init, last := members[..|members| - 1], members[|members| - 1];
      WalkRootMembers(d, n, init);
      WalkRootMember(RootMembers(d, init, n), last.key, n + CountMembers(init), last.value);
    }
  }

  /** The first pass over a whole document. */
  function Discovered(root: Json): Discovery {
    if root.Object? then RootMembers(UNDISCOVERED.(rootIsObject := true), root.members, 1) else UNDISCOVERED
  }

  lemma PassDiscovers(root: Json)
    ensures Outcome(DiscoveryPass(), UNDISCOVERED, root) == if Depth(root) > MAX_NESTING then None
      else Some(Discovered(root))
  {
    hide Walk, WalkItems, WalkMembers, RootMembers;
    WalkStep(DiscoveryPass(), UNDISCOVERED, None, 0, root);
    match root
    case Leaf(_) =>
    case Array(_) => WalkIgnored(UNDISCOVERED, 1, root);
    case Object(members) => WalkRootMembers(UNDISCOVERED.(rootIsObject := true), 1, members);
  }

  // What was discovered, member by key.

  function SerialOf(found: Option<Located>): Option<nat> {
    if found == None then None else Some(found.value.serial)
  }

  /** A structure's selection names the last members. */
  lemma {:induction false} SelectionIsLast(selection: Selection, members: seq<Member>, base: nat)
    requires selection.palette == None && selection.blockIndices == None && selection.blocks == None
    ensures SelectionIn(selection, members, base)
      == Selection(
          selection.isObject, SerialOf(LastAt(members, base, "palette")),
            SerialOf(LastAt(members, base, "block_indices")),
          SerialOf(LastAt(members, base, "blocks")))
  {
    if members != [] {
      SelectionIsLast(selection, members[..|members| - 1], base);
    }
  }

  /** The layout of a located palette was recorded and not replaced. */
  predicate Recorded(layouts: Layouts, found: Option<Located>) {
    found.Some? ==>
      found.value.serial in layouts
      && layouts[found.value.serial] == CandidateOf(found.value.value, found.value.serial)
  }

  predicate UpTo(layouts: Layouts, last: nat) {
    forall serial :: serial in layouts ==> serial <= last
  }

  lemma {:induction false} StructureRecorded(layouts: Layouts, members: seq<Member>, base: nat)
    requires UpTo(layouts, base)
    ensures var after := StructureLayouts(layouts, members, base);
      && UpTo(after, base + CountMembers(members)) && Recorded(after, LastAt(members, base, "palette"))
      && forall serial :: serial in layouts ==> serial in after && after[serial] == layouts[serial]
  {
    hide CandidateOf;
    if members != [] {
      var init, last := members[..|members| - 1], members[|members| - 1];
      StructureRecorded(layouts, init, base);
      LocatedNode(init, base, "palette");
      CountIsPositive(last.value);
    }
  }

  /** The structure's members, if the last "structure" is an object. */
  function StructurePalette(structure: Option<Located>): Option<Located> {
    if structure.Some? && structure.value.value.Object? then
      LastAt(structure.value.value.members, structure.value.serial, "palette")
    else None
  }

  function SelectionOf(structure: Option<Located>): Selection {
    if structure.Some? && structure.value.value.Object? then
      SelectionIn(UNSELECTED.(isObject := true), structure.value.value.members, structure.value.serial)
    else UNSELECTED
  }

  function DimensionsAt(found: Option<Located>): Option<seq<int>> {
    if found == None then None else Some(DimensionsOf(found.value.value))
  }

  ghost predicate Finds(d: Discovery, members: seq<Member>, base: nat) {
    && d.rootIsObject
    && d.size == DimensionsAt(LastAt(members, base, "size"))
    && d.dimensions == DimensionsAt(LastAt(members, base, "dimensions"))
    && d.rootPalette == SerialOf(LastAt(members, base, "palette"))
    && d.structure == SelectionOf(LastAt(members, base, "structure"))
    && UpTo(d.layouts, base + CountMembers(members))
    && Recorded(d.layouts, LastAt(members, base, "palette"))
    && Recorded(d.layouts, StructurePalette(LastAt(members, base, "structure")))
  }

  /** The first pass finds, for every key it looks for, the last member with it. */
  lemma {:induction false} DiscoveryFindsLast(members: seq<Member>, base: nat)
    ensures Finds(RootMembers(UNDISCOVERED.(rootIsObject := true), members, base), members, base)
  {
    hide CandidateOf, SelectionIn, DimensionsOf, StructureLayouts, RootMember, Finds;
    if members == [] {
      FindsNothing(base);
    } else {
      var init, last := members[..|members| - 1], members[|members| - 1];
      DiscoveryFindsLast(init, base);
      FindsOneMore(RootMembers(UNDISCOVERED.(rootIsObject := true), init, base), members, base);
    }
  }

  lemma FindsNothing(base: nat)
    ensures Finds(UNDISCOVERED.(rootIsObject := true), [], base)
  {
  }

  lemma FindsOneMore(d: Discovery, members: seq<Member>, base: nat)
    requires members != [] && Finds(d, members[..|members| - 1], base)
    ensures var init, last := members[..|members| - 1], members[|members| - 1];
      Finds(RootMember(d, last.key, last.value, base + CountMembers(init) + 1), members, base)
  {
    hide CandidateOf, SelectionIn, DimensionsOf, StructureLayouts;
    var init, last := members[..|members| - 1], members[|members| - 1];
    var serial := base + CountMembers(init) + 1;
    CountIsPositive(last.value);
    PalettesLieBefore(init, base);
    if last.key == "structure" && last.value.Object? {
      StructureRecorded(d.layouts, last.value.members, serial);
    }
  }

  /** Palettes located in some members have serials among theirs. */
  lemma PalettesLieBefore(members: seq<Member>, base: nat)
    ensures var found, inner := LastAt(members, base, "palette"), StructurePalette(LastAt(members, base, "structure"));
      && (found.Some? ==> found.value.serial <= base + CountMembers(members))
      && (inner.Some? ==> inner.value.serial <= base + CountMembers(members))
  {
    LocatedNode(members, base, "palette");
    LocatedNode(members, base, "structure");
    var structure := LastAt(members, base, "structure");
    if structure.Some? && structure.value.value.Object? {
      LocatedInside(members, base, structure.value, "palette");
    }
  }

  /** A member located inside a located object. */
  lemma LocatedInside(members: seq<Member>, base: nat, outer: Located, key: string)
    requires outer.value.Object? && base < outer.serial
    requires NodeInMembers(members, outer.serial - base) == Some(outer.value)
    ensures var inner := LastAt(outer.value.members, outer.serial, key);
      inner.Some? ==>
        && outer.serial < inner.value.serial <= base + CountMembers(members)
        && NodeInMembers(members, inner.value.serial - base) == Some(inner.value.value)
  {
    hide LastAt;
    LocatedNode(outer.value.members, outer.serial, key);
    var inner := LastAt(outer.value.members, outer.serial, key);
    if inner.Some? {
      var step := inner.value.serial - outer.serial + 1;
      assert NodeAt(outer.value, step) == Some(inner.value.value);
      NodeOfMembers(members, outer.serial - base, step);
    }
  }
}
