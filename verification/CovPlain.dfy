/** What single values, entries and whole plain documents of CovStructure stand for,
    written out for values anyone would write. */
module CovPlainDocuments {
  import opened Options
  import opened Coordinates
  import opened BdxBytes
  import opened Decimals
  import opened JsonEvents
  import opened JsonPasses
  import opened JsonNodes
  import opened CovValues
  import Blocks = CovBlocks
  import Palettes = CovPalettes
  import opened CovDiscoveries
  import opened CovDocuments
  import opened CovStructures

  // Numbers and names.

  predicate AllBlank(text: string) {
    forall c | c in text :: c in " \t\r\n"
  }

  /** A text that neither starts nor ends with a blank. */
  predicate Tight(text: string) {
    text == "" || (text[0] !in " \t\r\n" && text[|text| - 1] !in " \t\r\n")
  }

  lemma BlanksAre(c: char)
    ensures IsBlank(c) <==> c in " \t\r\n"
  {
    var blanks := " \t\r\n";
    assert blanks[0] == ' ' && blanks[1] == '\t' && blanks[2] == '\r' && blanks[3] == '\n';
  }

  /** Blanks around a text do not belong to it. */
  lemma {:induction false} BlanksAreTrimmed(before: string, text: string, after: string)
    requires AllBlank(before) && AllBlank(after)
    requires Tight(text)
    ensures Trim(before + text + after) == text
  {
    if before != "" {
      BlanksAre(before[0]);
      assert (before + text + after)[1..] == before[1..] + text + after;
      BlanksAreTrimmed(before[1..], text, after);
    } else if text != "" {
      assert before + text + after == text + after;
      BlanksAre(text[0]);
      EndIsTrimmed(text, after);
    } else {
      assert before + text + after == after;
      NothingIsLeft(after);
    }
  }

  lemma {:induction false} EndIsTrimmed(text: string, after: string)
    requires text != "" && text[|text| - 1] !in " \t\r\n" && AllBlank(after)
    ensures TrimRight(text + after) == text
  {
    if after == "" {
      assert text + after == text;
      BlanksAre(text[|text| - 1]);
    } else {
      BlanksAre(after[|after| - 1]);
      assert (text + after)[..|text + after| - 1] == text + after[..|after| - 1];
      EndIsTrimmed(text, after[..|after| - 1]);
    }
  }

  lemma {:induction false} NothingIsLeft(text: string)
    requires AllBlank(text)
    ensures TrimLeft(text) == ""
  {
    if text != "" {
      BlanksAre(text[0]);
      NothingIsLeft(text[1..]);
    }
  }

  /** An integer as text. */
  function DecimalText(n: int): string {
    var digits := Decimal(n);
    seq(|digits|, i requires 0 <= i < |digits| => digits[i] as char)
  }

  lemma {:induction false} CharactersAre(text: string, bytes: Bytes)
    requires |text| == |bytes| && forall i | 0 <= i < |text| :: text[i] as int == bytes[i]
    ensures Characters(text) == bytes
  {
    if text != "" {
      CharactersAre(text[..|text| - 1], bytes[..|bytes| - 1]);
    }
  }

  lemma DigitsAreNoBlanks(n: int)
    ensures Tight(DecimalText(n))
  {
    DecimalAlphabet(n);
    var text, bytes, blanks := DecimalText(n), Decimal(n), " \t\r\n";
    assert bytes[0] in bytes && bytes[|bytes| - 1] in bytes;
    assert blanks[0] == ' ' && blanks[1] == '\t' && blanks[2] == '\r' && blanks[3] == '\n';
    assert forall c | c in blanks :: c as int < 45;
  }

  /** Whole numbers count as themselves within 64 bits, others as far as they go
      towards zero, and texts as the number they print. */
  lemma IntegralMeans(n: int, value: real, before: string, after: string)
    ensures Integral(Integer(n)) == if -0x8000_0000_0000_0000 <= n < 0x8000_0000_0000_0000 then Some(n) else None
    ensures Integral(Float(value)).Some? <==> -9223372036854775808.0 <= value < 9223372036854775808.0
    ensures var whole := Integral(Float(value));
      whole.Some? ==>
        if value < 0.0 then whole.value <= 0 && whole.value as real - 1.0 < value <= whole.value as real
        else whole.value >= 0 && whole.value as real <= value < whole.value as real + 1.0
    ensures AllBlank(before) && AllBlank(after) ==>
      Integral(Text(before + DecimalText(n) + after)) == Integral(Integer(n))
    ensures Integral(Null) == None && Integral(Boolean(true)) == None && Integral(Boolean(false)) == None
  {
    if AllBlank(before) && AllBlank(after) {
      var text := DecimalText(n);
      DecimalAlphabet(n);
      DigitsAreNoBlanks(n);
      BlanksAreTrimmed(before, text, after);
      CharactersAre(text, Decimal(n));
      assert forall i | 0 <= i < |text| :: text[i] as int < 0x100;
      ParseUndoesDecimal(n, INT64_MIN, INT64_MAX);
    }
  }

  /** What is no block: nothing but blanks, or "minecraft:air" in any case. */
  lemma AirNames(before: string, name: string, after: string, data: Option<int>)
    requires AllBlank(before) && AllBlank(after)
    requires Tight(name)
    ensures NonAir(PaletteEntry(before + name + after, data)) <==> name != "" && !EqualFold(name, "minecraft:air")
    ensures EqualFold("Minecraft:AIR", "minecraft:air") && !EqualFold("minecraft:airs", "minecraft:air")
  {
    BlanksAreTrimmed(before, name, after);
  }

  // Entries.

  function TextIn(v: Json): Option<string> {
    if v.Leaf? && v.scalar.Text? then Some(v.scalar.text) else None
  }

  function NumberIn(v: Json): Option<int> {
    if v.Leaf? then Integral(v.scalar) else None
  }

  /** A field holds what the last member with its key says. */
  ghost predicate Says<T>(members: seq<Member>, key: string, field: Option<T>, read: Json -> Option<T>) {
    && (Without(members, key) ==> field == None)
    && forall i: nat | i < |members| && LastAmong(members, i, key) :: field == read(members[i].value)
  }

  lemma OneMoreSays<T>(members: seq<Member>, key: string, before: Option<T>, read: Json -> Option<T>)
    requires members != [] && Says(members[..|members| - 1], key, before, read)
    ensures var last := members[|members| - 1];
      Says(members, key, if last.key == key then read(last.value) else before, read)
  {
    hide Without, LastAmong;
    LastOfLonger(members, key);
  }

  ghost predicate IsLastNow(members: seq<Member>, i: nat, key: string)
    requires members != []
  {
    var n := |members| - 1;
    if members[n].key == key then i == n else i < n && LastAmong(members[..n], i, key)
  }

  lemma LastOfLonger(members: seq<Member>, key: string)
    requires members != []
    ensures var init, last := members[..|members| - 1], members[|members| - 1];
      && (Without(members, key) <==> Without(init, key) && last.key != key)
      && forall i: nat :: LastAmong(members, i, key) == IsLastNow(members, i, key)
  {
    var init, last := members[..|members| - 1], members[|members| - 1];
    if Without(members, key) {
      assert members[|members| - 1].key != key;
    }
  }

  ghost predicate SaysAll(members: seq<Member>, b: Builder) {
    && Says(members, "name", b.name, TextIn) && Says(members, "block", b.block, TextIn)
    && Says(members, "id", b.id, TextIn) && Says(members, "val", b.val, NumberIn)
    && Says(members, "data", b.data, NumberIn) && Says(members, "meta", b.meta, NumberIn)
    && Says(members, "damage", b.damage, NumberIn) && Says(members, "value", b.value, NumberIn)
  }

  /** The fields of an entry are the last members with their keys, and it has the shape
      of an entry when one of seven keys is there. */
  lemma {:induction false} EntryMeans(members: seq<Member>)
    ensures SaysAll(members, EntryOf(BLANK, members))
    ensures EntryOf(BLANK, members).hasShape <==>
      exists m :: m in members && m.key in ["name", "states", "properties", "id", "block", "data", "meta"]
  {
    hide Says, TextIn, NumberIn;
    if members == [] {
      NothingSaid();
    } else {
      var init, last := members[..|members| - 1], members[|members| - 1];
      EntryMeans(init);
      EntryGrows(members, EntryOf(BLANK, init));
      assert forall m :: m in members <==> m in init || m == last;
    }
  }

  lemma NothingSaid()
    ensures SaysAll([], BLANK)
  {
  }

  lemma EntryGrows(members: seq<Member>, b: Builder)
    requires members != [] && SaysAll(members[..|members| - 1], b)
    ensures var last := members[|members| - 1]; SaysAll(members, b.Consume(last.key, ScalarOf(last.value)))
  {
    hide Says;
    var last := members[|members| - 1];
    OneMoreSays(members, "name", b.name, TextIn);
    OneMoreSays(members, "block", b.block, TextIn);
    OneMoreSays(members, "id", b.id, TextIn);
    OneMoreSays(members, "val", b.val, NumberIn);
    OneMoreSays(members, "data", b.data, NumberIn);
    OneMoreSays(members, "meta", b.meta, NumberIn);
    OneMoreSays(members, "damage", b.damage, NumberIn);
    OneMoreSays(members, "value", b.value, NumberIn);
  }

  /** The first name that is not empty and the first number that is there, each in its
      own order. */
  lemma EntryPrefers(b: Builder)
    ensures var entry := b.Decode();
      && entry.name == (if !Missing(b.name) then b.name.value
        else if !Missing(b.block) then b.block.value
        else if !Missing(b.id) then b.id.value else "minecraft:air")
      && (b.data.Some? ==> entry.data == b.data)
      && (b.data == None && b.meta.Some? ==> entry.data == b.meta)
      && (b.data == None && b.meta == None ==> entry.data == if b.damage.Some? then b.damage else b.value)
  {
  }

  predicate Missing(text: Option<string>) {
    text == None || |text.value| == 0
  }

  // Palettes.

  function ObjectsIn(items: seq<Json>): nat {
    if items == [] then 0
    else ObjectsIn(items[..|items| - 1]) + if items[|items| - 1].Object? then 1 else 0
  }

  /** The number of an entry: its "val", or else its position among the entries. */
  function NumberOf(items: seq<Json>, j: nat): int
    requires j < |items| && items[j].Object?
  {
    var val := EntryOf(BLANK, items[j].members).val;
    if val.Some? then val.value else ObjectsIn(items[..j])
  }

  /** Entry `j` is the last with its number. */
  ghost predicate LastNumbered(items: seq<Json>, j: nat) {
    && j < |items| && items[j].Object?
    && forall k | j < k < |items| && items[k].Object? :: NumberOf(items, k) != NumberOf(items, j)
  }

  ghost predicate HoldsEntries(items: seq<Json>, palette: Palettes.Palette) {
    && (forall j: nat | LastNumbered(items, j) ::
      && NumberOf(items, j) in palette
      && palette[NumberOf(items, j)] == EntryOf(BLANK, items[j].members).Decode())
    && (forall id | id in palette :: exists j: nat :: LastNumbered(items, j) && NumberOf(items, j) == id)
  }

  /** An array palette holds, under every number, the last entry with it. */
  lemma {:induction false} ArrayPaletteHolds(items: seq<Json>)
    ensures var e := Palettes.ArrayPalette(Palettes.NO_ENTRIES, items);
      HoldsEntries(items, e.palette) && e.next == ObjectsIn(items)
  {
    hide EntryOf, Builder.Decode;
    if items != [] {
      ArrayPaletteHolds(items[..|items| - 1]);
      EntriesGrow(items, Palettes.ArrayPalette(Palettes.NO_ENTRIES, items[..|items| - 1]));
    }
  }

  lemma EntriesGrow(items: seq<Json>, e: Palettes.Entries)
    requires items != [] && e.next == ObjectsIn(items[..|items| - 1])
    requires HoldsEntries(items[..|items| - 1], e.palette)
    ensures var last := items[|items| - 1];
      HoldsEntries(items, (if last.Object? then e.Append(EntryOf(BLANK, last.members)) else e).palette)
  {
    hide EntryOf, Builder.Decode, ObjectsIn, NumberOf, LastNumbered, Palettes.Entries.Append;
    LastOfMore(items);
    if items[|items| - 1].Object? {
      AppendsUnderNumber(items, e);
    }
  }

  lemma AppendsUnderNumber(items: seq<Json>, e: Palettes.Entries)
    requires items != [] && items[|items| - 1].Object? && e.next == ObjectsIn(items[..|items| - 1])
    ensures var b := EntryOf(BLANK, items[|items| - 1].members);
      e.Append(b).palette == e.palette[NumberOf(items, |items| - 1) := b.Decode()]
  {
  }

  /** Which entries are last with their number when an element is added. */
  lemma LastOfMore(items: seq<Json>)
    requires items != []
    ensures var n, init := |items| - 1, items[..|items| - 1];
      forall j: nat | j < n && items[j].Object? :: NumberOf(init, j) == NumberOf(items, j)
    ensures forall j: nat :: LastNumbered(items, j) == IsLastNumbered(items, j)
    ensures forall j: nat | LastNumbered(items[..|items| - 1], j) :: j < |items| - 1 && items[j].Object?
  {
    hide NumberOf;
    var n, init := |items| - 1, items[..|items| - 1];
    forall j: nat | LastNumbered(init, j)
      ensures j < n && items[j].Object?
    {
      assert j < |init| && init[j] == items[j];
    }
    forall j: nat | j < n && items[j].Object?
      ensures NumberOf(init, j) == NumberOf(items, j)
    {
      NumberKept(items, j);
    }
    forall j: nat
      ensures LastNumbered(items, j) == IsLastNumbered(items, j)
    {
      assert forall k | j < k < n :: init[k] == items[k];
      if j < n && items[j].Object? && LastNumbered(items, j) && items[n].Object? {
        assert NumberOf(items, n) != NumberOf(items, j);
      }
    }
  }

  ghost predicate IsLastNumbered(items: seq<Json>, j: nat)
    requires items != []
  {
    var n := |items| - 1;
    && j <= n && items[j].Object?
    && (j < n ==> LastNumbered(items[..n], j) && (items[n].Object? ==> NumberOf(items, n) != NumberOf(items, j)))
  }

  lemma NumberKept(items: seq<Json>, j: nat)
    requires j < |items| - 1 && items[j].Object?
    ensures NumberOf(items[..|items| - 1], j) == NumberOf(items, j)
  {
    assert items[..|items| - 1][..j] == items[..j];
  }

  // Whole documents.

  function Sides(w: int, h: int, l: int): Json {
    Array([Leaf(Integer(w)), Leaf(Integer(h)), Leaf(Integer(l))])
  }

  function Indices(ids: seq<int>): seq<Json> {
    seq(|ids|, k requires 0 <= k < |ids| => Leaf(Integer(ids[k])))
  }

  function Names(names: seq<string>): seq<Json> {
    seq(|names|, j requires 0 <= j < |names| => Object([Member("name", Leaf(Text(names[j])))]))
  }

  predicate IsInt64(n: int) {
    -0x8000_0000_0000_0000 <= n < 0x8000_0000_0000_0000
  }

  /** A document with plain sides, and with plain indices and named entries in its
      structure; any other members may stand around them. */
  ghost predicate Plain(members: seq<Member>, w: int, h: int, l: int, ids: seq<int>, names: seq<string>) {
    && IsInt32(w) && IsInt32(h) && IsInt32(l) && (forall k | 0 <= k < |ids| :: IsInt64(ids[k]))
    && (exists i: nat :: GivesSize(members, i) && members[i].value == Sides(w, h, l))
    && exists s: nat ::
      && LastAmong(members, s, "structure") && members[s].value.Object?
      && PlainStructure(members[s].value.members, ids, names)
  }

  ghost predicate PlainStructure(inside: seq<Member>, ids: seq<int>, names: seq<string>) {
    && (exists b: nat :: GivesBlocksAt(inside, b) && inside[b].value == Array(Indices(ids)))
    && (exists p: nat :: LastAmong(inside, p, "palette") && inside[p].value == Array(Names(names)))
  }

  /** Index `k` names the block of the `k`-th cell, x running fastest, then z, then y. */
  ghost predicate PlainCells(placed: map<BlockPos, RuntimeId>, w: int, h: int, l: int, ids: seq<int>,
      names: seq<string>, resolve: PaletteEntry -> RuntimeId)
    requires w > 0 && h > 0 && l > 0
  {
    assert w * l > 0 by { Volume(Size(w, 1, l)); }
    forall k | 0 <= k < |ids| && k < w * h * l ::
      Looked(placed, BlockPos(k % w, k / (w * l), k / w % l))
      == if 0 <= ids[k] < |names| && NonAir(PaletteEntry(names[ids[k]], None))
        then Some(resolve(PaletteEntry(names[ids[k]], None))) else None
  }

  /** A plain document is read exactly when its sides are positive and their product fits
      64 bits, and then every cell shows the entry its index names. */
  lemma PlainDocumentReads(root: Json, w: int, h: int, l: int, ids: seq<int>, names: seq<string>, order: KeyOrder,
      resolve: PaletteEntry -> RuntimeId)
    requires root.Object? && Plain(root.members, w, h, l, ids, names) && Depth(root) <= 1024
    ensures var content := ReadTree(root, order, resolve);
      && (content.Some? <==> w > 0 && h > 0 && l > 0 && w * h * l <= 0xFFFF_FFFF_FFFF_FFFF)
      && (content.Some? ==>
        content.value.size == Size(w, h, l) && PlainCells(content.value.placed, w, h, l, ids, names, resolve))
  {
    hide LastAt, SizeOf, DimensionsAt, BlockNode, PaletteIn, Blocks.FlattenItems, Blocks.EmitAll, Plain, GivesBlocks,
      PlainCells, Indices, PlainScalars, ShowsElements, SizedBy;
    PlainSize(root.members, w, h, l, ids, names);
    PlainBlocks(root.members, w, h, l, ids, names);
    PlainPalette(root.members, w, h, l, ids, names, order);
    PlainElements(ids);
    BlocksAreGiven(root.members);
    var content := ReadTree(root, order, resolve);
    if content.Some? {
      ReadShows(root, order, resolve);
      CellsArePlain(content.value, ids, names, resolve);
    }
  }

  lemma PlainSize(members: seq<Member>, w: int, h: int, l: int, ids: seq<int>, names: seq<string>)
    requires Plain(members, w, h, l, ids, names)
    ensures SizeOf(DimensionsAt(LastAt(members, 1, "size")), DimensionsAt(LastAt(members, 1, "dimensions")))
      == if w > 0 && h > 0 && l > 0 && w * h * l <= 0xFFFF_FFFF_FFFF_FFFF then Some(Size(w, h, l)) else None
  {
    hide LastAt, PlainStructure, LastAmong, Without;
    SizeMember(members);
    LastAtIs(members, 1, "size");
    SidesCaptured(w, h, l);
  }

  lemma SidesCaptured(w: int, h: int, l: int)
    requires IsInt32(w) && IsInt32(h) && IsInt32(l)
    ensures DimensionsOf(Sides(w, h, l)) == [w, h, l]
  {
    var items := Sides(w, h, l).items;
    assert items[..2][..1] == items[..1] && items[..1][..0] == [];
    assert DimensionsIn(items[..1]) == [w];
    assert DimensionsIn(items[..2]) == [w, h];
  }

  lemma PlainBlocks(members: seq<Member>, w: int, h: int, l: int, ids: seq<int>, names: seq<string>)
    requires Plain(members, w, h, l, ids, names)
    ensures GivesBlocks(members, Array(Indices(ids))) && forall k | 0 <= k < |ids| :: IsInt64(ids[k])
  {
    hide LastAmong, GivesBlocksAt, GivesSize, Indices;
  }

  function PlainScalars(ids: seq<int>): seq<Blocks.Element> {
    seq(|ids|, k requires 0 <= k < |ids| => Blocks.ScalarElement(Integer(ids[k])))
  }

  lemma {:induction false} PlainElements(ids: seq<int>)
    ensures Blocks.FlattenItems(Indices(ids), 0) == Some(PlainScalars(ids))
  {
    if ids == [] {
      assert Indices(ids) == [];
    } else {
      var init := ids[..|ids| - 1];
      PlainElements(init);
      assert Indices(ids)[..|ids| - 1] == Indices(init);
      assert PlainScalars(ids) == PlainScalars(init) + [Blocks.ScalarElement(Integer(ids[|ids| - 1]))];
    }
  }

  lemma PlainPalette(members: seq<Member>, w: int, h: int, l: int, ids: seq<int>, names: seq<string>, order: KeyOrder)
    requires Plain(members, w, h, l, ids, names)
    ensures PaletteIn(members, order) == NamedPalette(names)
  {
    hide LastAt, GivesBlocksAt, GivesSize, Names, Palettes.ArrayPalette;
    var s: nat :| LastAmong(members, s, "structure") && members[s].value.Object?
      && PlainStructure(members[s].value.members, ids, names);
    LastIs(members, 1, s, "structure");
    var structure := LastAt(members, 1, "structure").value;
    var inside := structure.value.members;
    var p: nat :| LastAmong(inside, p, "palette") && inside[p].value == Array(Names(names));
    LastIs(inside, structure.serial, p, "palette");
    NamedEntries(names);
  }

  /** A nameless entry is air. */
  function Named(name: string): PaletteEntry {
    PaletteEntry(if name == "" then "minecraft:air" else name, None)
  }

  function NamedPalette(names: seq<string>): Palettes.Palette {
    map j | 0 <= j < |names| :: Named(names[j])
  }

  lemma {:induction false} NamedEntries(names: seq<string>)
    ensures var e := Palettes.ArrayPalette(Palettes.NO_ENTRIES, Names(names));
      e.palette == NamedPalette(names) && e.next == |names|
  {
    if names != [] {
      var init, last := names[..|names| - 1], names[|names| - 1];
      NamedEntries(init);
      assert Names(names)[..|names| - 1] == Names(init);
      NamedEntry(last);
    }
  }

  lemma NamedEntry(name: string)
    ensures var b := EntryOf(BLANK, [Member("name", Leaf(Text(name)))]); b.val == None && b.Decode() == Named(name)
  {
    assert [Member("name", Leaf(Text(name)))][..0] == [];
  }

  lemma CellsArePlain(content: Content, ids: seq<int>, names: seq<string>, resolve: PaletteEntry -> RuntimeId)
    requires content.size.width > 0 && content.size.height > 0 && content.size.length > 0
    requires forall k | 0 <= k < |ids| :: IsInt64(ids[k])
    requires ShowsElements(content, NamedPalette(names), resolve, PlainScalars(ids))
    ensures PlainCells(content.placed, content.size.width, content.size.height, content.size.length, ids, names,
      resolve)
  {
    hide NonAir, Looked;
    var elements := PlainScalars(ids);
    NamelessIsAir();
    forall k | 0 <= k < |ids|
      ensures elements[k] == Blocks.ScalarElement(Integer(ids[k]))
      ensures BlockIn(NamedPalette(names), resolve, elements[k])
        == if 0 <= ids[k] < |names| && NonAir(PaletteEntry(names[ids[k]], None))
          then Some(resolve(PaletteEntry(names[ids[k]], None))) else None
    {
    }
  }

  lemma NamelessIsAir()
    ensures !NonAir(Named("")) && !NonAir(PaletteEntry("", None))
  {
    AirNames("", "minecraft:air", "", None);
    assert "" + "minecraft:air" + "" == "minecraft:air";
  }
}
