/** CovStructure's second pass: the palette entries of the selected array or object. */
module CovPalettes {
  import opened Options
  import opened JsonEvents
  import opened JsonPasses
  import opened JsonNodes
  import opened CovValues

  type Palette = map<int, PaletteEntry>

  /** `SelectedPaletteLayout`: which value holds the entries, and how. */
  datatype Layout = Empty | ArrayEntries(serial: nat) | ObjectEntries(serial: nat)

  /** `next` is the index the next entry gets; `direct` keeps the entries of an
      object palette by key. */
  datatype Entries = Entries(direct: map<string, Option<Builder>>, palette: Palette, next: nat)
  {
    /** An entry goes to its `val`, or else to its position among the entries. */
    function Append(builder: Builder): Entries {
      Entries(direct, palette[(if builder.val.Some? then builder.val.value else next) := builder.Decode()], next + 1)
    }

    function AppendAll(keys: seq<string>): Entries {
      if keys == [] then this
      else
        var before, last := AppendAll(keys[..|keys| - 1]), keys[|keys| - 1];
        if last in direct && direct[last].Some? then before.Append(direct[last].value) else before
    }
  }

  const NO_ENTRIES := Entries(map[], map[], 0)

  datatype Role = Normal | PaletteRaw | EntriesArray | Entry(builder: Builder, direct: Option<string>)

  function Begin(layout: Layout, e: Entries, parent: Option<Parent<Role>>, serial: nat, head: Head): Begun<Entries,
      Role>
  {
    var role := if parent.Some? then parent.value.role else Normal;
    if layout.ObjectEntries? && serial == layout.serial && head == ObjectHead then Begun(e, role, PaletteRaw)
    else if layout.ArrayEntries? && serial == layout.serial && head == ArrayHead then Begun(e, role, EntriesArray)
    else
      match role
      case Normal => Begun(e, role, Normal)
      case EntriesArray => Begun(e, role, if head == ObjectHead then Entry(BLANK, None) else Normal)
      case PaletteRaw =>
        var key := parent.value.key;
        Begun(e.(direct := e.direct[key := None]), role, if head == ObjectHead then Entry(BLANK, Some(key)) else Normal)
      case Entry(builder, direct) =>
        Begun(e, Entry(builder.Consume(parent.value.key, ScalarOfHead(head)), direct), Normal)
  }

  function End(e: Entries, role: Role, head: Head): Entries {
    if !role.Entry? || head != ObjectHead then e
    else if role.direct == None then e.Append(role.builder)
    else e.(direct := e.direct[role.direct.value := if role.builder.hasShape then Some(role.builder) else None])
  }

  function PassOf(layout: Layout): Pass<Entries, Role> {
    Pass((e, parent, serial, head) => Some(Begin(layout, e, parent, serial, head)), (e, role, head) =>
      End(e, role, head))
  }

  // The tree-based reading.

  /** The object entries of an array, in order. */
  function ArrayPalette(e: Entries, items: seq<Json>): Entries {
    if items == [] then e
    else
      var before, last := ArrayPalette(e, items[..|items| - 1]), items[|items| - 1];
      if last.Object? then before.Append(EntryOf(BLANK, last.members)) else before
  }

  /** The entry a member of an object palette stands for. */
  function DirectEntry(v: Json): Option<Builder> {
    if v.Object? && EntryOf(BLANK, v.members).hasShape then Some(EntryOf(BLANK, v.members)) else None
  }

  /** The members of an object palette; a later member replaces an earlier one. */
  function ObjectPalette(e: Entries, members: seq<Member>): Entries {
    if members == [] then e
    else
      var before, last := ObjectPalette(e, members[..|members| - 1]), members[|members| - 1];
      before.(direct := before.direct[last.key := DirectEntry(last.value)])
  }

  lemma IdlesOutside(layout: Layout)
    requires !layout.Empty?
    ensures Sleeps(PassOf(layout), Normal, layout.serial) && Idles(PassOf(layout), Normal, layout.serial)
  {
    hide Entries.Append;
  }

  /** The members of an entry are consumed; what they contain is not looked at. */
  lemma {:induction false} WalkEntry(layout: Layout, e: Entries, builder: Builder, direct: Option<string>, n: nat,
      members: seq<Member>)
    requires !layout.Empty? && layout.serial <= n
    ensures var w := WalkMembers(PassOf(layout), e, Parent(Entry(builder, direct), ""), n, members);
      w.Some? && w.value.acc == e && w.value.parent.value.role == Entry(EntryOf(builder, members), direct)
  {
    hide Walk, PassOf, Builder.Consume;
    if members != [] {
      var init, last := members[..|members| - 1], members[|members| - 1];
      WalkEntry(layout, e, builder, direct, n, init);
      WalkEntryMember(layout, e, EntryOf(builder, init), direct, last.key, n + CountMembers(init), last.value);
    }
  }

  lemma WalkEntryMember(layout: Layout, e: Entries, builder: Builder, direct: Option<string>, key: string, n: nat,
      v: Json)
    requires !layout.Empty? && layout.serial <= n
    ensures Walk(PassOf(layout), e, Some(Parent(Entry(builder, direct), key)), n, v)
      == Some(Walked(e, Some(Parent(Entry(builder.Consume(key, ScalarOf(v)), direct), key))))
  {
    hide Builder.Consume, Idles, Sleeps, Entries.Append, Walk, WalkItems, WalkMembers;
    IdlesOutside(layout);
    WalkStep(PassOf(layout), e, Some(Parent(Entry(builder, direct), key)), n, v);
    match v
    case Leaf(_) =>
    case Array(items) => WalkIdleItems(PassOf(layout), Normal, layout.serial, e, Parent(Normal, ""), n + 1, items);
    case Object(members) =>
      WalkIdleMembers(PassOf(layout), Normal, layout.serial, e, Parent(Normal, ""), n + 1, members);
  }

  lemma WalkArrayEntry(layout: Layout, e: Entries, n: nat, v: Json)
    requires !layout.Empty? && layout.serial <= n
    ensures var parent := Some(Parent(EntriesArray, ""));
      Walk(PassOf(layout), e, parent, n, v)
      == Some(Walked(if v.Object? then e.Append(EntryOf(BLANK, v.members)) else e, parent))
  {
    hide Idles, Sleeps, Entries.Append, Walk, WalkItems, WalkMembers, EntryOf;
    IdlesOutside(layout);
    WalkStep(PassOf(layout), e, Some(Parent(EntriesArray, "")), n, v);
    match v
    case Leaf(_) =>
    case Array(items) => WalkIdleItems(PassOf(layout), Normal, layout.serial, e, Parent(Normal, ""), n + 1, items);
    case Object(members) => WalkEntry(layout, e, BLANK, None, n + 1, members);
  }

  lemma {:induction false} WalkArrayEntries(layout: Layout, e: Entries, n: nat, items: seq<Json>)
    requires !layout.Empty? && layout.serial <= n
    ensures WalkItems(PassOf(layout), e, Parent(EntriesArray, ""), n, items)
      == Some(Walked(ArrayPalette(e, items), Some(Parent(EntriesArray, ""))))
  {
    hide Walk, PassOf, Entries.Append, EntryOf;
    if items != [] {
      var init := items[..|items| - 1];
      WalkArrayEntries(layout, e, n, init);
      WalkArrayEntry(layout, ArrayPalette(e, init), n + CountItems(init), items[|items| - 1]);
    }
  }

  lemma WalkDirectEntry(layout: Layout, e: Entries, key: string, n: nat, v: Json)
    requires !layout.Empty? && layout.serial <= n
    ensures var parent := Some(Parent(PaletteRaw, key));
      Walk(PassOf(layout), e, parent, n, v) == Some(Walked(e.(direct := e.direct[key := DirectEntry(v)]), parent))
  {
    hide Idles, Sleeps, Entries.Append, Walk, WalkItems, WalkMembers, EntryOf;
    IdlesOutside(layout);
    var cleared := e.(direct := e.direct[key := None]);
    WalkStep(PassOf(layout), e, Some(Parent(PaletteRaw, key)), n, v);
    match v
    case Leaf(_) =>
    case Array(items) =>
      WalkIdleItems(PassOf(layout), Normal, layout.serial, cleared, Parent(Normal, ""), n + 1, items);
    case Object(members) =>
      WalkEntry(layout, cleared, BLANK, Some(key), n + 1, members);
      assert e.direct[key := None][key := DirectEntry(v)] == e.direct[key := DirectEntry(v)];
  }

  lemma {:induction false} WalkDirectEntries(layout: Layout, e: Entries, n: nat, members: seq<Member>)
    requires !layout.Empty? && layout.serial <= n
    ensures var w := WalkMembers(PassOf(layout), e, Parent(PaletteRaw, ""), n, members);
      w.Some? && w.value.acc == ObjectPalette(e, members) && w.value.parent.value.role == PaletteRaw
  {
    hide Walk, PassOf, DirectEntry;
    if members != [] {
      var init, last := members[..|members| - 1], members[|members| - 1];
      WalkDirectEntries(layout, e, n, init);
      WalkDirectEntry(layout, ObjectPalette(e, init), last.key, n + CountMembers(init), last.value);
    }
  }

  /** The second pass reads the entries of the selected node, when it has the kind the
      layout says. */
  lemma PassReadsEntries(layout: Layout, root: Json)
    requires !layout.Empty? && 1 <= layout.serial && NodeAt(root, layout.serial).Some?
    requires var node := NodeAt(root, layout.serial).value;
      if layout.ArrayEntries? then node.Array? else node.Object?
    ensures var node := NodeAt(root, layout.serial).value;
      Outcome(PassOf(layout), NO_ENTRIES, root)
      == if Depth(root) > MAX_NESTING then None
        else Some(if node.Array? then ArrayPalette(NO_ENTRIES, node.items)
          else ObjectPalette(NO_ENTRIES, MembersOf(node)))
  {
    hide Walk, WalkItems, WalkMembers, Idles, Sleeps, Entries.Append;
    IdlesOutside(layout);
    PassSelects(PassOf(layout), Normal, layout.serial, NO_ENTRIES, root);
    var node := NodeAt(root, layout.serial).value;
    WalkStep(PassOf(layout), NO_ENTRIES, None, layout.serial - 1, node);
    match node
    case Array(items) => WalkArrayEntries(layout, NO_ENTRIES, layout.serial, items);
    case Object(members) => WalkDirectEntries(layout, NO_ENTRIES, layout.serial, members);
    case Leaf(_) =>
  }

  function MembersOf(v: Json): seq<Member> {
    if v.Object? then v.members else []
  }
}
