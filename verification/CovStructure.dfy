/** `CovStructureReader::read`: three streaming passes over one document, and the one
    tree-based reading they amount to. */
module CovStructures {
  import opened Options
  import opened Arithmetic
  import opened Coordinates
  import opened JsonEvents
  import opened JsonPasses
  import opened JsonNodes
  import opened CovValues
  import opened StructureCells
  import Blocks = CovBlocks
  import Palettes = CovPalettes
  import opened CovDiscoveries
  import opened CovDocuments

  /** The order a map of strings iterates in. */
  type KeyOrder = set<string> -> seq<string>

  datatype Content = Content(size: Size, placed: map<BlockPos, RuntimeId>, nonAir: nat)

  // Choosing by what the first pass found.

  function SelectedBlocks(d: Discovery): Option<nat> {
    if !d.structure.isObject then None
    else if d.structure.blockIndices.Some? then d.structure.blockIndices
    else d.structure.blocks
  }

  function SelectedPalette(d: Discovery): Option<nat> {
    if d.structure.isObject && d.structure.palette.Some? then d.structure.palette else d.rootPalette
  }

  /** The first child, in key order, that holds a "block_palette" array. */
  function FirstBlockPalette(children: map<string, Child>, keys: seq<string>): Option<nat> {
    if keys == [] then None
    else
      var before, last := FirstBlockPalette(children, keys[..|keys| - 1]), keys[|keys| - 1];
      if before.Some? then before
      else if last in children && children[last].isObject then children[last].blockPalette
      else None
  }

  function SelectedLayout(d: Discovery, order: KeyOrder): Palettes.Layout {
    var serial := SelectedPalette(d);
    if serial == None || serial.value !in d.layouts then Palettes.Empty
    else
      var candidate := d.layouts[serial.value];
      match candidate.kind
      case ScalarKind => Palettes.Empty
      case ArrayKind => Palettes.ArrayEntries(serial.value)
      case ObjectKind =>
        var found := FirstBlockPalette(candidate.children, order(candidate.children.Keys));
        if found.Some? then Palettes.ArrayEntries(found.value) else Palettes.ObjectEntries(serial.value)
  }

  function TakePalette(layout: Palettes.Layout, e: Palettes.Entries, order: KeyOrder): Palettes.Palette {
    if layout.ObjectEntries? then e.AppendAll(order(e.direct.Keys)).palette else e.palette
  }

  // The tree-based reading.

  function PaletteNode(members: seq<Member>): Option<Located> {
    var inner := StructurePalette(LastAt(members, 1, "structure"));
    if inner.Some? then inner else LastAt(members, 1, "palette")
  }

  function BlockNode(members: seq<Member>): Option<Located> {
    var structure := LastAt(members, 1, "structure");
    if structure == None || !structure.value.value.Object? then None
    else
      var inside, base := structure.value.value.members, structure.value.serial;
      if LastAt(inside, base, "block_indices").Some? then LastAt(inside, base, "block_indices")
      else LastAt(inside, base, "blocks")
  }

  /** The "block_palette" array under a key of an object palette. */
  function BlockPaletteUnder(members: seq<Member>, base: nat, key: string): Option<Located> {
    var child := LastAt(members, base, key);
    if child == None || !child.value.value.Object? then None
    else
      var inner := LastAt(child.value.value.members, child.value.serial, "block_palette");
      if inner.Some? && inner.value.value.Array? then inner else None
  }

  function FirstUnder(members: seq<Member>, base: nat, keys: seq<string>): (found: Option<Located>)
    ensures found.Some? ==> found.value.value.Array?
  {
    if keys == [] then None
    else
      var before := FirstUnder(members, base, keys[..|keys| - 1]);
      if before.Some? then before else BlockPaletteUnder(members, base, keys[|keys| - 1])
  }

  function KeysOf(members: seq<Member>): set<string> {
    set m | m in members :: m.key
  }

  function PaletteOf(palette: Located, order: KeyOrder): Palettes.Palette {
    match palette.value
    case Leaf(_) => map[]
    case Array(items) => Palettes.ArrayPalette(Palettes.NO_ENTRIES, items).palette
    case Object(members) =>
      var found := FirstUnder(members, palette.serial, order(KeysOf(members)));
      if found.Some? then Palettes.ArrayPalette(Palettes.NO_ENTRIES, found.value.value.items).palette
      else Palettes.ObjectPalette(Palettes.NO_ENTRIES, members).AppendAll(order(KeysOf(members))).palette
  }

  function PaletteIn(members: seq<Member>, order: KeyOrder): Palettes.Palette {
    var node := PaletteNode(members);
    if node == None then map[] else PaletteOf(node.value, order)
  }

  /** The size, from "size" if that is there, else from "dimensions". */
  function SizeOf(size: Option<seq<int>>, dimensions: Option<seq<int>>): Option<Size> {
    var dims := if size.Some? then size else dimensions;
    if dims == None || |dims.value| < 3 then None
    else
      var (w, h, l) := (dims.value[0], dims.value[1], dims.value[2]);
      if w <= 0 || h <= 0 || l <= 0 || w * h * l > UINT64_MAX then None else Some(Size(w, h, l))
  }

  function TargetOf(serial: nat, size: Size, palette: Palettes.Palette,
      resolve: PaletteEntry -> RuntimeId): (t: Blocks.Target)
    requires size.width > 0 && size.height > 0 && size.length > 0
    ensures Blocks.Divisible(t)
  {
    Volume(size);
    Blocks.Target(serial, size, size.width * size.height * size.length, palette, resolve)
  }

  lemma Volume(size: Size)
    requires size.width > 0 && size.height > 0 && size.length > 0
    ensures size.width * size.height > 0 && size.width * size.height * size.length > 0
  {
    Multiples(0, size.width, size.height);
    Multiples(0, size.width * size.height, size.length);
  }

  /** The whole reading with the document at hand. */
  function ReadTree(root: Json, order: KeyOrder, resolve: PaletteEntry -> RuntimeId): Option<Content> {
    if Depth(root) > MAX_NESTING || !root.Object? then None
    else
      var size := SizeOf(DimensionsAt(LastAt(root.members, 1, "size")),
        DimensionsAt(LastAt(root.members, 1, "dimensions")));
      var blocks := BlockNode(root.members);
      if size == None then None
      else if blocks == None then Some(Content(size.value, map[], 0))
      else
        var t := TargetOf(blocks.value.serial, size.value, PaletteIn(root.members, order), resolve);
        var emitted := Blocks.Emitted(t, Blocks.NOTHING, Blocks.Flatten(blocks.value.value, 0));
        if emitted == None then None else Some(Content(size.value, emitted.value.placed, emitted.value.nonAir))
  }

  // The first pass's choices are the tree's.

  lemma {:induction false} ChildrenAreLast(members: seq<Member>, base: nat, key: string)
    ensures var children, found := ChildrenOf(map[], members, base), LastAt(members, base, key);
      && children.Keys == KeysOf(members)
      && (key in children <==> found.Some?)
      && (found.Some? ==> children[key] == ChildOf(found.value.value, found.value.serial))
  {
    hide ChildOf;
    if members != [] {
      var init, last := members[..|members| - 1], members[|members| - 1];
      ChildrenAreLast(init, base, key);
      assert forall m :: m in members <==> m in init || m == last;
    }
  }

  lemma {:induction false} FirstIsFirst(members: seq<Member>, base: nat, keys: seq<string>)
    ensures FirstBlockPalette(ChildrenOf(map[], members, base), keys) == SerialOf(FirstUnder(members, base, keys))
  {
    if keys != [] {
      FirstIsFirst(members, base, keys[..|keys| - 1]);
      ChildrenAreLast(members, base, keys[|keys| - 1]);
    }
  }

  lemma {:induction false} DirectKeys(members: seq<Member>)
    ensures Palettes.ObjectPalette(Palettes.NO_ENTRIES, members).direct.Keys == KeysOf(members)
  {
    hide Palettes.DirectEntry;
    if members != [] {
      var init, last := members[..|members| - 1], members[|members| - 1];
      DirectKeys(init);
      assert forall m :: m in members <==> m in init || m == last;
    }
  }

  /** A located palette of a document: the node with its serial. */
  predicate IsNode(root: Json, found: Option<Located>) {
    found.Some? ==> found.value.serial >= 1 && NodeAt(root, found.value.serial) == Some(found.value.value)
  }

  lemma RootMemberIsNode(root: Json, key: string)
    requires root.Object?
    ensures IsNode(root, LastAt(root.members, 1, key))
  {
    LocatedNode(root.members, 1, key);
  }

  lemma InnerMemberIsNode(root: Json, outer: Located, key: string)
    requires root.Object? && outer.value.Object? && IsNode(root, Some(outer))
    ensures IsNode(root, LastAt(outer.value.members, outer.serial, key))
  {
    hide LastAt;
    LocatedNode(outer.value.members, outer.serial, key);
    var inner := LastAt(outer.value.members, outer.serial, key);
    if inner.Some? {
      var step := inner.value.serial - outer.serial + 1;
      assert NodeAt(outer.value, step) == Some(inner.value.value);
      NodeOfNode(root, outer.serial, step);
    }
  }

  lemma NodesAreNodes(root: Json)
    requires root.Object?
    ensures IsNode(root, PaletteNode(root.members)) && IsNode(root, BlockNode(root.members))
  {
    hide LastAt, NodeAt;
    RootMemberIsNode(root, "structure");
    RootMemberIsNode(root, "palette");
    var structure := LastAt(root.members, 1, "structure");
    if structure.Some? && structure.value.value.Object? {
      InnerMemberIsNode(root, structure.value, "palette");
      InnerMemberIsNode(root, structure.value, "block_indices");
      InnerMemberIsNode(root, structure.value, "blocks");
    }
  }

  lemma {:induction false} FirstUnderIsNode(root: Json, palette: Located, keys: seq<string>)
    requires root.Object? && palette.value.Object? && IsNode(root, Some(palette))
    ensures IsNode(root, FirstUnder(palette.value.members, palette.serial, keys))
  {
    hide NodeAt, LastAt;
    if keys != [] {
      var key := keys[|keys| - 1];
      FirstUnderIsNode(root, palette, keys[..|keys| - 1]);
      InnerMemberIsNode(root, palette, key);
      var child := LastAt(palette.value.members, palette.serial, key);
      if child.Some? && child.value.value.Object? {
        InnerMemberIsNode(root, child.value, "block_palette");
      }
    }
  }

  /** Reading the selected palette is reading the palette of the tree. */
  lemma SelectedPaletteIsRead(root: Json, order: KeyOrder)
    requires root.Object? && Depth(root) <= MAX_NESTING
    ensures var layout, node := SelectedLayout(Discovered(root), order), PaletteNode(root.members);
      if layout.Empty? then node == None || PaletteOf(node.value, order) == map[]
      else
        var e := Outcome(Palettes.PassOf(layout), Palettes.NO_ENTRIES, root);
        node.Some? && e.Some? && TakePalette(layout, e.value, order) == PaletteOf(node.value, order)
  {
    hide LastAt, NodeAt, Outcome, ChildrenOf, FirstUnder, FirstBlockPalette, RootMembers, SelectionIn;
    var d, node := Discovered(root), PaletteNode(root.members);
    DiscoveryFindsLast(root.members, 1);
    PaletteIsSelected(root);
    NodesAreNodes(root);
    if node.Some? {
      PaletteIsRead(root, node.value, d.layouts[node.value.serial], order);
    }
  }

  lemma PaletteIsSelected(root: Json)
    requires root.Object?
    ensures SelectedPalette(Discovered(root)) == SerialOf(PaletteNode(root.members))
    ensures SelectedBlocks(Discovered(root)) == SerialOf(BlockNode(root.members))
    ensures Recorded(Discovered(root).layouts, PaletteNode(root.members))
  {
    hide LastAt, RootMembers, CandidateOf;
    DiscoveryFindsLast(root.members, 1);
    var structure := LastAt(root.members, 1, "structure");
    if structure.Some? && structure.value.value.Object? {
      SelectionIsLast(UNSELECTED.(isObject := true), structure.value.value.members, structure.value.serial);
    }
  }

  /** The layout chosen for one recorded palette leads to its entries. */
  lemma PaletteIsRead(root: Json, palette: Located, candidate: Candidate, order: KeyOrder)
    requires root.Object? && Depth(root) <= MAX_NESTING && IsNode(root, Some(palette))
    requires candidate == CandidateOf(palette.value, palette.serial)
    ensures var found := FirstBlockPalette(candidate.children, order(candidate.children.Keys));
      match palette.value
      case Leaf(_) => candidate.kind == ScalarKind
      case Array(_) => candidate.kind == ArrayKind && Reads(root, Palettes.ArrayEntries(palette.serial), palette, order)
      case Object(_) =>
        && candidate.kind == ObjectKind
        && Reads(root, if found.Some? then Palettes.ArrayEntries(found.value)
          else Palettes.ObjectEntries(palette.serial), palette, order)
  {
    hide LastAt, NodeAt, Outcome, ChildrenOf, FirstUnder, FirstBlockPalette;
    match palette.value
    case Leaf(_) =>
    case Array(items) => Palettes.PassReadsEntries(Palettes.ArrayEntries(palette.serial), root);
    case Object(members) =>
      ChildrenAreLast(members, palette.serial, "");
      DirectKeys(members);
      var keys := order(KeysOf(members));
      FirstIsFirst(members, palette.serial, keys);
      FirstUnderIsNode(root, palette, keys);
      var found := FirstUnder(members, palette.serial, keys);
      if found.Some? {
        Palettes.PassReadsEntries(Palettes.ArrayEntries(found.value.serial), root);
      } else {
        Palettes.PassReadsEntries(Palettes.ObjectEntries(palette.serial), root);
      }
  }

  ghost predicate Reads(root: Json, layout: Palettes.Layout, palette: Located, order: KeyOrder) {
    var e := Outcome(Palettes.PassOf(layout), Palettes.NO_ENTRIES, root);
    e.Some? && TakePalette(layout, e.value, order) == PaletteOf(palette, order)
  }

  /** The reader: discover, read the palette, place the blocks. */
  method Read(root: Json, order: KeyOrder, resolve: PaletteEntry -> RuntimeId) returns (content: Option<Content>)
    ensures content == ReadTree(root, order, resolve)
    ensures content.Some? <==> Readable(root)
    ensures content.Some? ==> Shows(root, order, resolve, content.value)
  {
    hide Outcome, Discovered, SelectedLayout, PaletteIn, TakePalette, LastAt, NodeAt, Blocks.Flatten, Readable, Shows;
    ReadsExactlyWhen(root, order, resolve);
    if Readable(root) {
      ReadShows(root, order, resolve);
    }
    PassDiscovers(root);
    var discovery := ParseSax(DiscoveryPass(), UNDISCOVERED, root);
    if discovery == None {
      return None;
    }
    var metadata := discovery.value;
    DiscoveredKind(root);
    if !metadata.rootIsObject {
      return None;
    }
    DiscoveryFindsLast(root.members, 1);
    PaletteIsSelected(root);
    var size := ChosenSize(metadata, root.members);
    if size == None {
      return None;
    }

    var palette := ReadPalette(root, metadata, order);

    var serial := SelectedBlocks(metadata);
    if serial == None {
      return Some(Content(size.value, map[], 0));
    }
    var t := TargetOf(serial.value, size.value, palette, resolve);
    NodesAreNodes(root);
    Blocks.PassFlattens(t, root);
    var blocks := ParseSax(Blocks.PassOf(t), Blocks.NOTHING, root);
    if blocks == None {
      return None;
    }
    content := Some(Content(size.value, blocks.value.placed, blocks.value.nonAir));
  }

  lemma DiscoveredKind(root: Json)
    ensures Discovered(root).rootIsObject == root.Object?
    ensures root.Object? ==> Finds(Discovered(root), root.members, 1)
  {
    hide RootMembers, Finds;
    if root.Object? {
      DiscoveryFindsLast(root.members, 1);
      FoundRoot(RootMembers(UNDISCOVERED.(rootIsObject := true), root.members, 1), root.members);
    }
  }

  lemma FoundRoot(d: Discovery, members: seq<Member>)
    requires Finds(d, members, 1)
    ensures d.rootIsObject
  {
  }

  method ChosenSize(metadata: Discovery, ghost members: seq<Member>) returns (size: Option<Size>)
    requires Finds(metadata, members, 1)
    ensures size == SizeOf(DimensionsAt(LastAt(members, 1, "size")), DimensionsAt(LastAt(members, 1, "dimensions")))
    ensures size.Some? ==> size.value.width > 0 && size.value.height > 0 && size.value.length > 0
  {
    hide LastAt, Recorded, UpTo, SelectionOf, DimensionsAt;
    var dims := if metadata.size.Some? then metadata.size else metadata.dimensions;
    if dims == None || |dims.value| < 3 || dims.value[0] <= 0 || dims.value[1] <= 0 || dims.value[2] <= 0 {
      return None;
    }
    var w, h, l := dims.value[0], dims.value[1], dims.value[2];
    GuardsAreExact(w, h, l, UINT64_MAX);
    if w > UINT64_MAX / h || w * h > UINT64_MAX / l {
      return None;
    }
    size := Some(Size(w, h, l));
  }

  method ReadPalette(root: Json, metadata: Discovery, order: KeyOrder) returns (palette: Palettes.Palette)
    requires root.Object? && Depth(root) <= MAX_NESTING && metadata == Discovered(root)
    ensures palette == PaletteIn(root.members, order)
  {
    hide Outcome, Discovered, SelectedLayout, PaletteOf, TakePalette;
    SelectedPaletteIsRead(root, order);
    var layout := SelectedLayout(metadata, order);
    if layout.Empty? {
      return map[];
    }
    var entries := ParseSax(Palettes.PassOf(layout), Palettes.NO_ENTRIES, root);
    palette := TakePalette(layout, entries.value, order);
  }

  /** The member that gives the size is the one that was found. */
  lemma SizeMember(members: seq<Member>)
    ensures var found := LastAt(members, 1, if Without(members, "size") then "dimensions" else "size");
      && (forall i: nat | GivesSize(members, i) ::
        i < |members| && found.Some? && found.value.value == members[i].value)
      && (found.Some? ==>
        exists i: nat :: GivesSize(members, i) && i < |members| && members[i].value == found.value.value)
  {
    hide LastAt, LastAmong, Without;
    var key := if Without(members, "size") then "dimensions" else "size";
    forall i: nat | GivesSize(members, i)
      ensures i < |members|
      ensures var found := LastAt(members, 1, key); found.Some? && found.value.value == members[i].value
    {
      SizeMemberIs(members, i, key);
    }
    LastAtIs(members, 1, "size");
    LastAtIs(members, 1, key);
  }

  lemma SizeMemberIs(members: seq<Member>, i: nat, key: string)
    requires GivesSize(members, i) && key == if Without(members, "size") then "dimensions" else "size"
    ensures i < |members|
    ensures var found := LastAt(members, 1, key); found.Some? && found.value.value == members[i].value
  {
    hide LastAt;
    LastIs(members, 1, i, key);
  }

  /** The size that is read is the one the document gives. */
  lemma SizeIsGiven(members: seq<Member>, size: Size)
    ensures var found :=
        SizeOf(DimensionsAt(LastAt(members, 1, "size")), DimensionsAt(LastAt(members, 1, "dimensions")));
      found == Some(size)
      <==>
        && SizedBy(members, size) && size.width > 0 && size.height > 0 && size.length > 0
        && size.width * size.height * size.length <= 0xFFFF_FFFF_FFFF_FFFF
  {
    hide LastAt, LastAmong, GivesSize, FirstSides, DimensionsIn;
    SizeMember(members);
    LastAtIs(members, 1, "size");
    var found := LastAt(members, 1, if Without(members, "size") then "dimensions" else "size");
    hide Without;
    if found.Some? && found.value.value.Array? {
      FirstSidesAre(found.value.value.items, size.width, size.height, size.length);
    }
  }

  lemma BlocksAreGiven(members: seq<Member>)
    ensures forall v :: GivesBlocks(members, v) <==> BlockNode(members).Some? && BlockNode(members).value.value == v
  {
    hide LastAt, LastAmong, Without, GivesBlocksAt;
    LastAtIs(members, 1, "structure");
    var structure := LastAt(members, 1, "structure");
    if structure.Some? && structure.value.value.Object? {
      InnerBlocks(structure.value.value.members, structure.value.serial);
    }
    forall s: nat | LastAmong(members, s, "structure")
      ensures structure.Some? && s < |members| && structure.value.value == members[s].value
    {
      AmongIsIndex(members, s, "structure");
      LastIs(members, 1, s, "structure");
    }
  }

  lemma AmongIsIndex(members: seq<Member>, i: nat, key: string)
    requires LastAmong(members, i, key)
    ensures i < |members|
  {
  }

  lemma InnerBlocks(inside: seq<Member>, base: nat)
    ensures var found := LastAt(inside, base,
        if LastAt(inside, base, "block_indices").Some? then "block_indices" else "blocks");
      && (forall b: nat | GivesBlocksAt(inside, b) ::
        b < |inside| && found.Some? && found.value.value == inside[b].value)
      && (found.Some? ==> exists b: nat :: GivesBlocksAt(inside, b) && inside[b].value == found.value.value)
  {
    hide LastAt, LastAmong, Without;
    LastAtIs(inside, base, "block_indices");
    LastAtIs(inside, base, "blocks");
    forall b: nat | GivesBlocksAt(inside, b)
      ensures b < |inside|
      ensures var found := LastAt(inside, base, if Without(inside, "block_indices") then "blocks" else "block_indices");
        found.Some? && found.value.value == inside[b].value
    {
      InnerBlocksAre(inside, base, b);
    }
  }

  lemma InnerBlocksAre(inside: seq<Member>, base: nat, b: nat)
    requires GivesBlocksAt(inside, b)
    ensures b < |inside|
    ensures var found := LastAt(inside, base, if Without(inside, "block_indices") then "blocks" else "block_indices");
      found.Some? && found.value.value == inside[b].value
  {
    hide LastAt;
    LastIs(inside, base, b, if Without(inside, "block_indices") then "blocks" else "block_indices");
  }

  /** A document is read exactly when it can be, with the size it gives. */
  lemma ReadsExactlyWhen(root: Json, order: KeyOrder, resolve: PaletteEntry -> RuntimeId)
    ensures var content := ReadTree(root, order, resolve);
      && (content.Some? <==> Readable(root))
      && (content.Some? ==>
        && SizedBy(root.members, content.value.size)
        && content.value.size.width > 0 && content.value.size.height > 0 && content.value.size.length > 0)
  {
    hide LastAt, SizeOf, DimensionsAt, PaletteNode, BlockNode, SizedBy, GivesBlocks, PaletteOf, Blocks.Flatten,
      ArraysDeep, Blocks.EmitAll, TargetOf;
    if root.Object? {
      var size := SizeOf(DimensionsAt(LastAt(root.members, 1, "size")),
        DimensionsAt(LastAt(root.members, 1, "dimensions")));
      forall s
        ensures size == Some(s)
          <==>
            && SizedBy(root.members, s) && s.width > 0 && s.height > 0 && s.length > 0
            && s.width * s.height * s.length <= 0xFFFF_FFFF_FFFF_FFFF
      {
        SizeIsGiven(root.members, s);
      }
      BlocksAreGiven(root.members);
      var blocks := BlockNode(root.members);
      if blocks.Some? {
        FlattensExactlyWhen(blocks.value.value, 0);
      }
    }
  }

  /** The block of every element below the volume, if it has one, is in the cell of its
      index, where x runs fastest, then z, then y; nothing else is placed. */
  ghost predicate ShowsElements(content: Content, palette: Palettes.Palette, resolve: PaletteEntry -> RuntimeId,
      elements: seq<Blocks.Element>)
    requires content.size.width > 0 && content.size.height > 0 && content.size.length > 0
  {
    Volume(content.size);
    var w, l, volume := content.size.width, content.size.length,
      content.size.width * content.size.height * content.size.length;
    assert w * l > 0 by { Multiples(0, w, l); }
    && (forall k | 0 <= k < |elements| && k < volume ::
      BlockIn(palette, resolve, elements[k]) == Looked(content.placed, BlockPos(k % w, k / (w * l), k / w % l)))
    && (forall c | c in content.placed ::
      && InBounds(content.size, c)
      && exists k :: 0 <= k < |elements| && k < volume && c == BlockPos(k % w, k / (w * l), k / w % l))
  }

  function Looked(placed: map<BlockPos, RuntimeId>, c: BlockPos): Option<RuntimeId> {
    if c in placed then Some(placed[c]) else None
  }

  function BlockIn(palette: Palettes.Palette, resolve: PaletteEntry -> RuntimeId,
      e: Blocks.Element): Option<RuntimeId>
  {
    var entry :=
      match e
      case EntryElement(builder) => Some(builder.Decode())
      case ScalarElement(scalar) =>
        var id := Integral(scalar);
        if id.Some? && id.value != -1 && id.value in palette then Some(palette[id.value]) else None;
    if entry.Some? && NonAir(entry.value) then Some(resolve(entry.value)) else None
  }

  /** What a document that can be read holds. */
  ghost predicate Shows(root: Json, order: KeyOrder, resolve: PaletteEntry -> RuntimeId, content: Content) {
    && root.Object? && SizedBy(root.members, content.size)
    && content.size.width > 0 && content.size.height > 0 && content.size.length > 0
    && (forall v | GivesBlocks(root.members, v) ::
      var elements := Blocks.Flatten(v, 0);
      elements.Some? && ShowsElements(content, PaletteIn(root.members, order), resolve, elements.value))
    && ((forall v :: !GivesBlocks(root.members, v)) ==> content.placed == map[] && content.nonAir == 0)
  }

  lemma ReadShows(root: Json, order: KeyOrder, resolve: PaletteEntry -> RuntimeId)
    requires ReadTree(root, order, resolve).Some?
    ensures Shows(root, order, resolve, ReadTree(root, order, resolve).value)
  {
    hide LastAt, SizeOf, DimensionsAt, BlockNode, SizedBy, GivesBlocks, PaletteIn, Blocks.Flatten, Blocks.EmitAll,
      ShowsElements;
    ReadsExactlyWhen(root, order, resolve);
    BlocksAreGiven(root.members);
    var content, blocks := ReadTree(root, order, resolve).value, BlockNode(root.members);
    if blocks.Some? {
      var t := TargetOf(blocks.value.serial, content.size, PaletteIn(root.members, order), resolve);
      var elements := Blocks.Flatten(blocks.value.value, 0).value;
      ElementsShown(t, content, elements);
      assert GivesBlocks(root.members, blocks.value.value);
    }
  }

  lemma ElementsShown(t: Blocks.Target, content: Content, elements: seq<Blocks.Element>)
    requires Blocks.Divisible(t) && t.size == content.size
    requires content.placed == Blocks.EmitAll(t, Blocks.NOTHING, elements).placed
    ensures ShowsElements(content, t.palette, t.resolve, elements)
  {
    hide Blocks.EmitAll, BlockIn, Blocks.BlockOf;
    Blocks.PlacedExactly(t, elements);
    forall e
      ensures Blocks.BlockOf(t, e) == BlockIn(t.palette, t.resolve, e)
    {
      BlockIsBlockIn(t, e);
    }
    forall c | c in content.placed
      ensures InBounds(content.size, c)
    {
      var k: nat :| k < t.volume && c == Blocks.CellOf(t, k);
      Blocks.CellGivesIndex(t, k);
    }
  }

  lemma BlockIsBlockIn(t: Blocks.Target, e: Blocks.Element)
    ensures Blocks.BlockOf(t, e) == BlockIn(t.palette, t.resolve, e)
  {
  }
}
