/** The block streams of GangBan V5, V6 and V7: fields grouped into blocks, or deltas
    added up, read twice: once for the bounds and once to place the blocks. */
module GangBanStreams {
  import opened Options
  import opened Coordinates
  import opened JsonEvents
  import opened RootArraySaxes

  const FIELDS := 6

  /** How a scalar reads as a 32-bit integer, if it does. */
  type Reading = Scalar -> Option<int>

  /** One placed block; the first V5 field is not used. */
  datatype Block = Block(tag: int, pos: BlockPos, primary: int, secondary: int, payload: Option<Dom>)

  predicate IsContainer(entry: Dom) {
    entry.List? || entry.Dict?
  }

  /** `json_i32`: containers are refused, and values beyond 32 bits. */
  function Number(entry: Dom, read: Reading): Option<int> {
    if !entry.Atom? then None
    else
      var value := read(entry.scalar);
      if value.Some? && IsInt32(value.value) then value else None
  }

  function Cons<T>(first: T, rest: Option<seq<T>>): Option<seq<T>> {
    if rest == None then None else Some([first] + rest.value)
  }

  function BlockOf(fields: seq<int>, payload: Option<Dom>): Block
    requires |fields| == FIELDS
  {
    Block(fields[0], BlockPos(fields[1], fields[2], fields[3]), fields[4], fields[5], payload)
  }

  // V5: six integers, then perhaps a container.

  function Numbers(entries: seq<Dom>, read: Reading): Option<seq<int>> {
    if entries == [] then Some([])
    else
      var first := Number(entries[0], read);
      if first == None then None else Cons(first.value, Numbers(entries[1..], read))
  }

  lemma {:induction false} NumbersMatch(entries: seq<Dom>, read: Reading)
    ensures var numbers := Numbers(entries, read);
      && (numbers.Some? <==> forall i | 0 <= i < |entries| :: Number(entries[i], read).Some?)
      && (numbers.Some? ==> |numbers.value| == |entries|)
      && (numbers.Some? ==> forall i | 0 <= i < |entries| :: numbers.value[i] == Number(entries[i], read).value)
  {
    hide Number;
    if entries != [] {
      NumbersMatch(entries[1..], read);
      assert forall i | 1 <= i < |entries| :: entries[i] == entries[1..][i - 1];
    }
  }

  /** The grammar of the stream, a block at a time. */
  function Grammar(entries: seq<Dom>, read: Reading): Option<seq<Block>>
    decreases |entries|
  {
    if entries == [] then Some([])
    else if |entries| < FIELDS then None
    else
      var fields := Numbers(entries[..FIELDS], read);
      if fields == None then None
      else
        NumbersMatch(entries[..FIELDS], read);
        if |entries| > FIELDS && IsContainer(entries[FIELDS]) then
          Cons(BlockOf(fields.value, Some(entries[FIELDS])), Grammar(entries[FIELDS + 1..], read))
        else Cons(BlockOf(fields.value, None), Grammar(entries[FIELDS..], read))
  }

  /** The rest of the stream once some fields of a block have been read. */
  function Resume(fields: seq<int>, rest: seq<Dom>, read: Reading): Option<seq<Block>>
    requires |fields| <= FIELDS
    decreases |rest|, FIELDS - |fields|
  {
    if |fields| == FIELDS then
      if rest != [] && IsContainer(rest[0]) then Cons(BlockOf(fields, Some(rest[0])), Grammar(rest[1..], read))
      else Cons(BlockOf(fields, None), Grammar(rest, read))
    else if rest == [] then if fields == [] then Some([]) else None
    else
      var next := Number(rest[0], read);
      if next == None then None else Resume(fields + [next.value], rest[1..], read)
  }

  /** Reading field by field is reading block by block. */
  lemma {:induction false} ResumeIsGrammar(fields: seq<int>, entries: seq<Dom>, rest: seq<Dom>, read: Reading)
    requires |fields| <= FIELDS && |entries| == |fields| && Numbers(entries, read) == Some(fields)
    ensures Resume(fields, rest, read) == Grammar(entries + rest, read)
    decreases |rest|
  {
    hide Number;
    if |fields| == FIELDS {
      assert (entries + rest)[..FIELDS] == entries;
      assert (entries + rest)[FIELDS..] == rest;
      assert rest != [] ==> (entries + rest)[FIELDS + 1..] == rest[1..];
    } else if rest == [] {
      assert entries + rest == entries;
    } else {
      NumbersOneMore(entries, rest[0], read);
      var next := Number(rest[0], read);
      assert entries + rest == entries + [rest[0]] + rest[1..];
      if next.Some? {
        ResumeIsGrammar(fields + [next.value], entries + [rest[0]], rest[1..], read);
      } else {
        GrammarNeedsNumbers(entries + rest, |entries|, read);
      }
    }
  }

  lemma NumbersOneMore(entries: seq<Dom>, next: Dom, read: Reading)
    requires Numbers(entries, read).Some?
    ensures Number(next, read).Some? ==>
      Numbers(entries + [next], read) == Some(Numbers(entries, read).value + [Number(next, read).value])
  {
    hide Number, Numbers;
    NumbersMatch(entries, read);
    NumbersMatch(entries + [next], read);
    if Number(next, read).Some? {
      assert Numbers(entries + [next], read).value == Numbers(entries, read).value + [Number(next, read).value];
    }
  }

  lemma GrammarNeedsNumbers(entries: seq<Dom>, i: nat, read: Reading)
    requires i < |entries| && i < FIELDS && Number(entries[i], read) == None
    ensures Grammar(entries, read) == None
  {
    hide Number, Numbers;
    if |entries| >= FIELDS {
      NumbersMatch(entries[..FIELDS], read);
      assert entries[..FIELDS][i] == entries[i];
    }
  }

  /** A block that is cut off fails, wherever the reading is. */
  lemma {:induction false} TooShort(fields: seq<int>, rest: seq<Dom>, read: Reading)
    requires |fields| + |rest| < FIELDS && (fields != [] || rest != [])
    ensures Resume(fields, rest, read) == None
    decreases |rest|
  {
    hide Number;
    if rest != [] && Number(rest[0], read).Some? {
      TooShort(fields + [Number(rest[0], read).value], rest[1..], read);
    }
  }

  function Append(done: seq<Block>, rest: Option<seq<Block>>): Option<seq<Block>> {
    if rest == None then None else Some(done + rest.value)
  }

  /** The V5 machine: fields collect in `base`, and a seventh entry decides whether it
      belongs to the block. It reads exactly the grammar. */
  method ReadV5(entries: seq<Dom>, read: Reading) returns (blocks: Option<seq<Block>>)
    ensures blocks == Grammar(entries, read)
  {
    hide Number, Grammar, IsContainer;
    var base: seq<int> := [];
    var done: seq<Block> := [];
    ResumeIsGrammar([], [], entries, read);
    assert [] + entries == entries && entries[0..] == entries;
    assert forall rest :: Append([], rest) == rest by {
      assert forall rest: seq<Block> :: [] + rest == rest;
    }
    var i := 0;
    while i < |entries|
      invariant 0 <= i <= |entries| && |base| <= FIELDS
      invariant Grammar(entries, read) == Append(done, Resume(base, entries[i..], read))
    {
      var entry := entries[i];
      assert entries[i..][0] == entry && entries[i..][1..] == entries[i + 1..];
      if |base| == FIELDS {
        var belongs := IsContainer(entry);
        var block := BlockOf(base, if belongs then Some(entry) else None);
        BlockFinished(done, base, entries[i..], read);
        done, base := done + [block], [];
        if belongs {
          i := i + 1;
          continue;
        }
      }
      if base == [] && |entries| - i < FIELDS {
        TooShort([], entries[i..], read);
        return None;
      }
      var field := Number(entry, read);
      if field == None {
        return None;
      }
      base, i := base + [field.value], i + 1;
    }
    assert entries[|entries|..] == [];
    if |base| == FIELDS {
      BlockFinished(done, base, [], read);
      done, base := done + [BlockOf(base, None)], [];
    } else if base != [] {
      return None;
    }
    blocks := Some(done);
    assert done + [] == done;
  }

  /** Finishing a block starts the next one. */
  lemma BlockFinished(done: seq<Block>, base: seq<int>, rest: seq<Dom>, read: Reading)
    requires |base| == FIELDS
    ensures var belongs := rest != [] && IsContainer(rest[0]);
      Append(done, Resume(base, rest, read))
      == Append(done + [BlockOf(base, if belongs then Some(rest[0]) else None)],
        Resume([], if belongs then rest[1..] else rest, read))
  {
    hide Number, IsContainer, Grammar;
    var belongs := rest != [] && IsContainer(rest[0]);
    var after := if belongs then rest[1..] else rest;
    ResumeIsGrammar([], [], after, read);
    assert [] + after == after;
    var more := Grammar(after, read);
    if more.Some? {
      var block := BlockOf(base, if belongs then Some(rest[0]) else None);
      assert done + ([block] + more.value) == done + [block] + more.value;
    }
  }

  function Written(value: int): Dom {
    Atom(Integer(value))
  }

  /** The entries a block is laid out in. */
  function LayOut(b: Block): seq<Dom> {
    [Written(b.tag), Written(b.pos.x), Written(b.pos.y), Written(b.pos.z), Written(b.primary), Written(b.secondary)]
    + (if b.payload == None then [] else [b.payload.value])
  }

  function LayOutAll(blocks: seq<Block>): seq<Dom> {
    if blocks == [] then [] else LayOut(blocks[0]) + LayOutAll(blocks[1..])
  }

  predicate InRange(b: Block) {
    && IsInt32(b.tag) && IsInt32(b.pos.x) && IsInt32(b.pos.y) && IsInt32(b.pos.z) && IsInt32(b.primary)
    && IsInt32(b.secondary)
    && (b.payload.Some? ==> IsContainer(b.payload.value))
  }

  ghost predicate ReadsIntegers(read: Reading) {
    forall v :: IsInt32(v) ==> read(Integer(v)) == Some(v)
  }

  /** Grouping undoes laying out: where one block ends is never in doubt. */
  lemma {:induction false} GrammarUndoesLayOut(blocks: seq<Block>, read: Reading)
    requires ReadsIntegers(read) && forall b | b in blocks :: InRange(b)
    ensures Grammar(LayOutAll(blocks), read) == Some(blocks)
  {
    if blocks != [] {
      GrammarUndoesLayOut(blocks[1..], read);
      OneBlockRead(blocks[0], LayOutAll(blocks[1..]), read);
      StartsWithNumber(blocks[1..]);
      assert blocks[0] in blocks;
      assert [blocks[0]] + blocks[1..] == blocks;
    }
  }

  lemma StartsWithNumber(blocks: seq<Block>)
    ensures var entries := LayOutAll(blocks); entries != [] ==> !IsContainer(entries[0])
  {
  }

  lemma OneBlockRead(b: Block, rest: seq<Dom>, read: Reading)
    requires ReadsIntegers(read) && InRange(b) && (rest != [] ==> !IsContainer(rest[0]))
    ensures Grammar(LayOut(b) + rest, read) == Cons(b, Grammar(rest, read))
  {
    hide Grammar, Numbers;
    var entries := LayOut(b) + rest;
    var fields := [b.tag, b.pos.x, b.pos.y, b.pos.z, b.primary, b.secondary];
    FieldsRead(b, entries, read);
    GrammarStep(entries, fields, read);
    assert entries[FIELDS..] == if b.payload == None then rest else [b.payload.value] + rest;
    assert b.payload.Some? ==> entries[FIELDS + 1..] == rest;
  }

  lemma GrammarStep(entries: seq<Dom>, fields: seq<int>, read: Reading)
    requires |entries| >= FIELDS && |fields| == FIELDS && Numbers(entries[..FIELDS], read) == Some(fields)
    ensures Grammar(entries, read)
      == if |entries| > FIELDS && IsContainer(entries[FIELDS]) then
          Cons(BlockOf(fields, Some(entries[FIELDS])), Grammar(entries[FIELDS + 1..], read))
        else Cons(BlockOf(fields, None), Grammar(entries[FIELDS..], read))
  {
    hide Numbers, IsContainer;
  }

  lemma FieldsRead(b: Block, entries: seq<Dom>, read: Reading)
    requires ReadsIntegers(read) && InRange(b) && LayOut(b) <= entries
    ensures Numbers(entries[..FIELDS], read) == Some([b.tag, b.pos.x, b.pos.y, b.pos.z, b.primary, b.secondary])
  {
    hide Numbers;
    var fields := [b.tag, b.pos.x, b.pos.y, b.pos.z, b.primary, b.secondary];
    NumbersMatch(entries[..FIELDS], read);
    forall i | 0 <= i < FIELDS
      ensures Number(entries[..FIELDS][i], read) == Some(fields[i])
    {
      assert entries[i] == LayOut(b)[i] == Written(fields[i]);
    }
    assert Numbers(entries[..FIELDS], read).value == fields;
  }

  // V6 and V7: arrays of deltas.

  datatype Turn = Skipped | Refused | Moves(dx: int, dy: int, dz: int, primary: int, secondary: int,
      payload: Option<Dom>)

  predicate IsText(entry: Dom) {
    entry.Atom? && entry.scalar.Text?
  }

  /** One entry of the stream. */
  function TurnOf(entry: Dom, read: Reading): Turn {
    if !entry.List? then Refused
    else
      var items := entry.items;
      if |items| >= 5 && IsText(items[3]) && IsText(items[4]) then Skipped
      else if |items| < 5 then Refused
      else
        var fields := Numbers(items[..5], read);
        if fields == None then Refused
        else
          NumbersMatch(items[..5], read);
          var f := fields.value;
          Moves(f[0], f[1], f[2], f[3], f[4], if |items| >= 6 then Some(items[5]) else None)
  }

  function Moved(cursor: BlockPos, turn: Turn): BlockPos
    requires turn.Moves?
  {
    BlockPos(cursor.x + turn.dx, cursor.y + turn.dy, cursor.z + turn.dz)
  }

  predicate OnGrid(b: BlockPos) {
    IsInt32(b.x) && IsInt32(b.y) && IsInt32(b.z)
  }

  /** The blocks the deltas lead to from a cursor. */
  function Trail(cursor: BlockPos, entries: seq<Dom>, read: Reading): Option<seq<Block>>
    decreases |entries|
  {
    if entries == [] then Some([])
    else
      var turn := TurnOf(entries[0], read);
      if turn.Refused? then None
      else if turn.Skipped? then Trail(cursor, entries[1..], read)
      else if !OnGrid(Moved(cursor, turn)) then None
      else
        var next := Moved(cursor, turn);
        Cons(Block(0, next, turn.primary, turn.secondary, turn.payload), Trail(next, entries[1..], read))
  }

  /** The delta cursor, entry by entry. */
  method ReadDeltas(entries: seq<Dom>, read: Reading) returns (blocks: Option<seq<Block>>)
    ensures blocks == Trail(BlockPos(0, 0, 0), entries, read)
  {
    hide TurnOf;
    var x, y, z := 0, 0, 0;
    var done: seq<Block> := [];
    assert entries[0..] == entries;
    assert forall rest :: Append([], rest) == rest by {
      assert forall rest: seq<Block> :: [] + rest == rest;
    }
    for i := 0 to |entries|
      invariant Trail(BlockPos(0, 0, 0), entries, read) == Append(done, Trail(BlockPos(x, y, z), entries[i..], read))
    {
      assert entries[i..][0] == entries[i] && entries[i..][1..] == entries[i + 1..];
      var turn := TurnOf(entries[i], read);
      if turn.Refused? {
        return None;
      }
      if turn.Skipped? {
        continue;
      }
      x, y, z := x + turn.dx, y + turn.dy, z + turn.dz;
      if !IsInt32(x) || !IsInt32(y) || !IsInt32(z) {
        return None;
      }
      var block := Block(0, BlockPos(x, y, z), turn.primary, turn.secondary, turn.payload);
      AppendCons(done, block, Trail(BlockPos(x, y, z), entries[i + 1..], read));
      done := done + [block];
    }
    assert entries[|entries|..] == [];
    assert done + [] == done;
    blocks := Some(done);
  }

  lemma AppendCons(done: seq<Block>, block: Block, rest: Option<seq<Block>>)
    ensures Append(done, Cons(block, rest)) == Append(done + [block], rest)
  {
    if rest.Some? {
      assert done + ([block] + rest.value) == done + [block] + rest.value;
    }
  }

  /** The entry that leads from one block to the next. */
  function DeltaTo(cursor: BlockPos, b: Block): Dom {
    List(
      [Written(b.pos.x - cursor.x), Written(b.pos.y - cursor.y), Written(b.pos.z - cursor.z), Written(b.primary),
        Written(b.secondary)]
      + (if b.payload == None then [] else [b.payload.value]))
  }

  function Deltas(cursor: BlockPos, blocks: seq<Block>): seq<Dom>
    decreases |blocks|
  {
    if blocks == [] then [] else [DeltaTo(cursor, blocks[0])] + Deltas(blocks[0].pos, blocks[1..])
  }

  /** Every block is one 32-bit step from the one before. */
  predicate Near(cursor: BlockPos, blocks: seq<Block>)
    decreases |blocks|
  {
    blocks == []
    || (var b := blocks[0];
      && OnGrid(b.pos) && IsInt32(b.primary) && IsInt32(b.secondary) && b.tag == 0
      && OnGrid(BlockPos(b.pos.x - cursor.x, b.pos.y - cursor.y, b.pos.z - cursor.z)) && Near(b.pos, blocks[1..]))
  }

  /** Adding the deltas up undoes taking them, wherever consecutive blocks are within
      32 bits of each other. */
  lemma {:induction false} TrailUndoesDeltas(cursor: BlockPos, blocks: seq<Block>, read: Reading)
    requires ReadsIntegers(read) && Near(cursor, blocks)
    ensures Trail(cursor, Deltas(cursor, blocks), read) == Some(blocks)
    decreases |blocks|
  {
    hide TurnOf, DeltaTo;
    if blocks != [] {
      var b, rest := blocks[0], blocks[1..];
      TrailUndoesDeltas(b.pos, rest, read);
      DeltaRead(cursor, b, read);
      assert ([DeltaTo(cursor, b)] + Deltas(b.pos, rest))[1..] == Deltas(b.pos, rest);
      assert Block(0, b.pos, b.primary, b.secondary, b.payload) == b;
      assert [b] + rest == blocks;
    }
  }

  lemma DeltaRead(cursor: BlockPos, b: Block, read: Reading)
    requires ReadsIntegers(read) && OnGrid(b.pos) && IsInt32(b.primary) && IsInt32(b.secondary)
    requires OnGrid(BlockPos(b.pos.x - cursor.x, b.pos.y - cursor.y, b.pos.z - cursor.z))
    ensures TurnOf(DeltaTo(cursor, b), read)
      == Moves(b.pos.x - cursor.x, b.pos.y - cursor.y, b.pos.z - cursor.z, b.primary, b.secondary, b.payload)
  {
    hide Numbers;
    var items := DeltaTo(cursor, b).items;
    var fields := [b.pos.x - cursor.x, b.pos.y - cursor.y, b.pos.z - cursor.z, b.primary, b.secondary];
    NumbersMatch(items[..5], read);
    forall i | 0 <= i < 5
      ensures Number(items[..5][i], read) == Some(fields[i])
    {
      assert items[i] == Written(fields[i]);
    }
    assert Numbers(items[..5], read).value == fields;
  }

  // Bounds first, then the blocks and block entities relative to them.

  /** How a block resolves; `entity` is what its payload becomes, if anything. */
  datatype Resolver = Resolver(paletteSize: nat, runtime: Block -> RuntimeId, entity: Block -> Option<nat>)

  /** `validate_palette_index`: only command blocks do without the palette. */
  predicate Resolves(b: Block, r: Resolver) {
    (b.payload.Some? && b.payload.value.Dict?) || 0 <= b.primary < r.paletteSize
  }

  datatype Content = Content(size: Size, placed: map<BlockPos, RuntimeId>, entities: map<BlockPos, nat>)

  function Local(b: BlockPos, base: BlockPos): BlockPos {
    BlockPos(b.x - base.x, b.y - base.y, b.z - base.z)
  }

  /** The tight bounds of the blocks. */
  ghost predicate Bounds(blocks: seq<Block>, lo: BlockPos, hi: BlockPos) {
    && (forall b :: b in blocks ==> lo.x <= b.pos.x <= hi.x && lo.y <= b.pos.y <= hi.y && lo.z <= b.pos.z <= hi.z)
    && (exists b :: b in blocks && b.pos.x == lo.x) && (exists b :: b in blocks && b.pos.x == hi.x)
    && (exists b :: b in blocks && b.pos.y == lo.y) && (exists b :: b in blocks && b.pos.y == hi.y)
    && (exists b :: b in blocks && b.pos.z == lo.z) && (exists b :: b in blocks && b.pos.z == hi.z)
  }

  lemma BoundsGrow(blocks: seq<Block>, b: Block, lo: BlockPos, hi: BlockPos)
    requires Bounds(blocks, lo, hi)
    ensures Bounds(blocks + [b],
      BlockPos(Smaller(lo.x, b.pos.x), Smaller(lo.y, b.pos.y), Smaller(lo.z, b.pos.z)),
      BlockPos(Larger(hi.x, b.pos.x), Larger(hi.y, b.pos.y), Larger(hi.z, b.pos.z)))
  {
    assert forall other :: other in blocks ==> other in blocks + [b];
    assert b in blocks + [b];
  }

  lemma BoundsStart(b: Block)
    ensures Bounds([b], b.pos, b.pos)
  {
    assert b in [b];
  }

  /** The last block at a position decides what stands there. */
  function LastAt(blocks: seq<Block>, p: BlockPos): Option<Block> {
    if blocks == [] then None
    else if blocks[|blocks| - 1].pos == p then Some(blocks[|blocks| - 1])
    else LastAt(blocks[..|blocks| - 1], p)
  }

  /** The first block entity at a position stays. */
  function FirstEntity(blocks: seq<Block>, p: BlockPos, r: Resolver): Option<nat> {
    if blocks == [] then None
    else
      var before := FirstEntity(blocks[..|blocks| - 1], p, r);
      if before.Some? then before
      else if blocks[|blocks| - 1].pos == p then r.entity(blocks[|blocks| - 1])
      else None
  }

  ghost predicate Shows(c: Content, blocks: seq<Block>, base: BlockPos, r: Resolver) {
    forall p ::
      && (Local(p, base) in c.placed <==> LastAt(blocks, p).Some?)
      && (LastAt(blocks, p).Some? ==> c.placed[Local(p, base)] == r.runtime(LastAt(blocks, p).value))
      && FirstEntity(blocks, p, r) == (if Local(p, base) in c.entities then Some(c.entities[Local(p, base)]) else None)
  }

  lemma ShowsOneMore(c: Content, blocks: seq<Block>, b: Block, base: BlockPos, r: Resolver)
    requires Shows(c, blocks, base, r)
    ensures var l := Local(b.pos, base);
      var entities := if r.entity(b).Some? && l !in c.entities then c.entities[l := r.entity(b).value] else c.entities;
      Shows(Content(c.size, c.placed[l := r.runtime(b)], entities), blocks + [b], base, r)
  {
    var l := Local(b.pos, base);
    assert (blocks + [b])[..|blocks|] == blocks;
    forall p
      ensures Local(p, base) == l <==> p == b.pos
    {
    }
  }

  predicate Spans(lo: BlockPos, hi: BlockPos) {
    hi.x - lo.x + 1 <= INT32_MAX && hi.y - lo.y + 1 <= INT32_MAX && hi.z - lo.z + 1 <= INT32_MAX
  }

  /** The first pass: every block is validated and widens the bounds. */
  method Validate(blocks: seq<Block>, r: Resolver) returns (ok: bool, lo: BlockPos, hi: BlockPos)
    ensures ok <==> forall b :: b in blocks ==> Resolves(b, r)
    ensures ok && blocks != [] ==> Bounds(blocks, lo, hi)
  {
    hide Bounds, Resolves;
    lo, hi := BlockPos(0, 0, 0), BlockPos(0, 0, 0);
    for i := 0 to |blocks|
      invariant forall b :: b in blocks[..i] ==> Resolves(b, r)
      invariant i > 0 ==> Bounds(blocks[..i], lo, hi)
    {
      var b := blocks[i];
      assert blocks[..i + 1] == blocks[..i] + [b] && b in blocks;
      if !Resolves(b, r) {
        return false, lo, hi;
      }
      if i == 0 {
        BoundsStart(b);
        assert blocks[..1] == [b];
        lo, hi := b.pos, b.pos;
      } else {
        BoundsGrow(blocks[..i], b, lo, hi);
        lo := BlockPos(Smaller(lo.x, b.pos.x), Smaller(lo.y, b.pos.y), Smaller(lo.z, b.pos.z));
        hi := BlockPos(Larger(hi.x, b.pos.x), Larger(hi.y, b.pos.y), Larger(hi.z, b.pos.z));
      }
    }
    assert blocks[..|blocks|] == blocks;
    ok := true;
  }

  /** Both passes. Reading succeeds exactly when there is a block, all resolve and the
      bounds fit; then the last block of every position is placed relative to the
      tight lower bound, with the first block entity met there. */
  method Materialize(blocks: seq<Block>, r: Resolver) returns (content: Option<Content>, lo: BlockPos, hi: BlockPos)
    ensures blocks != [] && (forall b :: b in blocks ==> Resolves(b, r)) ==> Bounds(blocks, lo, hi)
    ensures content.Some? ==> Shows(content.value, blocks, lo, r)
    ensures content.Some? ==> content.value.size == Size(hi.x - lo.x + 1, hi.y - lo.y + 1, hi.z - lo.z + 1)
    ensures content.Some?
      <==>
        && blocks != []
        && (forall b :: b in blocks ==>
          (b.payload.Some? && b.payload.value.Dict?) || 0 <= b.primary < r.paletteSize)
        && hi.x - lo.x < 0x7fff_ffff && hi.y - lo.y < 0x7fff_ffff && hi.z - lo.z < 0x7fff_ffff
    ensures content.Some? ==> Stands(content.value, blocks, lo, r)
  {
    hide Bounds, Resolves, Shows, Stands;
    AllResolve(blocks, r);
    var ok;
    ok, lo, hi := Validate(blocks, r);
    if !ok || blocks == [] || !Spans(lo, hi) {
      return None, lo, hi;
    }
    var placed: map<BlockPos, RuntimeId> := map[];
    var entities: map<BlockPos, nat> := map[];
    ghost var size := Size(hi.x - lo.x + 1, hi.y - lo.y + 1, hi.z - lo.z + 1);
    ShowsNothing(size, lo, r);
    for i := 0 to |blocks|
      invariant Shows(Content(size, placed, entities), blocks[..i], lo, r)
    {
      var b := blocks[i];
      assert blocks[..i + 1] == blocks[..i] + [b];
      ShowsOneMore(Content(size, placed, entities), blocks[..i], b, lo, r);
      var l := Local(b.pos, lo);
      placed := placed[l := r.runtime(b)];
      if r.entity(b).Some? && l !in entities {
        entities := entities[l := r.entity(b).value];
      }
    }
    assert blocks[..|blocks|] == blocks;
    content := Some(Content(Size(hi.x - lo.x + 1, hi.y - lo.y + 1, hi.z - lo.z + 1), placed, entities));
    ShowsStands(content.value, blocks, lo, r);
  }

  lemma AllResolve(blocks: seq<Block>, r: Resolver)
    ensures (forall b :: b in blocks ==> Resolves(b, r))
      <==> forall b :: b in blocks ==>
        (b.payload.Some? && b.payload.value.Dict?) || 0 <= b.primary < r.paletteSize
  {
  }

  lemma ShowsNothing(size: Size, base: BlockPos, r: Resolver)
    ensures Shows(Content(size, map[], map[]), [], base, r)
  {
  }

  /** The index of the block whose entity stays at a position. */
  function Owner(blocks: seq<Block>, p: BlockPos, r: Resolver): (owner: Option<nat>)
    ensures owner.Some? ==> owner.value < |blocks|
  {
    if blocks == [] then None
    else
      var last, before := blocks[|blocks| - 1], Owner(blocks[..|blocks| - 1], p, r);
      if before.Some? then before
      else if last.pos == p && r.entity(last).Some? then Some(|blocks| - 1 as nat)
      else None
  }

  lemma {:induction false} OwnerIsFirst(blocks: seq<Block>, p: BlockPos, r: Resolver)
    ensures var owner := Owner(blocks, p, r);
      && FirstEntity(blocks, p, r) == (if owner == None then None else r.entity(blocks[owner.value]))
      && (owner == None ==> forall j | 0 <= j < |blocks| && blocks[j].pos == p :: r.entity(blocks[j]) == None)
      && (owner.Some? ==> blocks[owner.value].pos == p && r.entity(blocks[owner.value]).Some?)
      && (owner.Some? ==> forall j | 0 <= j < owner.value && blocks[j].pos == p :: r.entity(blocks[j]) == None)
  {
    if blocks != [] {
      var init := blocks[..|blocks| - 1];
      OwnerIsFirst(init, p, r);
      assert forall j | 0 <= j < |init| :: init[j] == blocks[j];
    }
  }

  function LastIndex(blocks: seq<Block>, p: BlockPos): (i: nat)
    requires LastAt(blocks, p).Some?
    ensures i < |blocks| && blocks[i] == LastAt(blocks, p).value && blocks[i].pos == p
    ensures forall j | i < j < |blocks| :: blocks[j].pos != p
  {
    if blocks[|blocks| - 1].pos == p then |blocks| - 1 else LastIndex(blocks[..|blocks| - 1], p)
  }

  /** Block `i` is the last one at its position. */
  ghost predicate StandsLast(blocks: seq<Block>, i: nat) {
    i < |blocks| && forall j | i < j < |blocks| :: blocks[j].pos != blocks[i].pos
  }

  /** Block `i` brings the first block entity to its position. */
  ghost predicate FirstOwner(blocks: seq<Block>, i: nat, r: Resolver) {
    && i < |blocks| && r.entity(blocks[i]).Some?
    && forall j | 0 <= j < i && blocks[j].pos == blocks[i].pos :: r.entity(blocks[j]) == None
  }

  /** Block `i` is this far from `base`. */
  ghost predicate Lies(blocks: seq<Block>, i: nat, base: BlockPos, q: BlockPos) {
    && i < |blocks|
    && blocks[i].pos.x == base.x + q.x && blocks[i].pos.y == base.y + q.y && blocks[i].pos.z == base.z + q.z
  }

  /** Every cell holds the block that stands there last and the entity that came there
      first; nothing else is held. */
  ghost predicate Stands(c: Content, blocks: seq<Block>, base: BlockPos, r: Resolver) {
    && (forall i: nat, q | StandsLast(blocks, i) && Lies(blocks, i, base, q) ::
      q in c.placed && c.placed[q] == r.runtime(blocks[i]))
    && (forall i: nat, q | FirstOwner(blocks, i, r) && Lies(blocks, i, base, q) ::
      q in c.entities && Some(c.entities[q]) == r.entity(blocks[i]))
    && (forall q | q in c.placed :: exists i: nat :: StandsLast(blocks, i) && Lies(blocks, i, base, q))
    && (forall q | q in c.entities :: exists i: nat :: FirstOwner(blocks, i, r) && Lies(blocks, i, base, q))
  }

  lemma ShowsStands(c: Content, blocks: seq<Block>, base: BlockPos, r: Resolver)
    requires Shows(c, blocks, base, r)
    ensures Stands(c, blocks, base, r)
  {
    hide LastAt, FirstEntity, Owner, LastIndex, Shows, StandsLast, FirstOwner;
    forall q: BlockPos
      ensures CellStands(c, blocks, base, r, q)
    {
      StandsAt(c, blocks, base, r, q);
    }
    assert forall q | q in c.placed || q in c.entities :: CellStands(c, blocks, base, r, q);
    forall i: nat, q | StandsLast(blocks, i) && Lies(blocks, i, base, q)
      ensures q in c.placed && c.placed[q] == r.runtime(blocks[i])
    {
      LastIsThere(blocks, i);
      assert CellStands(c, blocks, base, r, q);
    }
    forall i: nat, q | FirstOwner(blocks, i, r) && Lies(blocks, i, base, q)
      ensures q in c.entities && Some(c.entities[q]) == r.entity(blocks[i])
    {
      OwnerIsThere(blocks, i, r);
      assert CellStands(c, blocks, base, r, q);
    }
  }

  ghost predicate CellStands(c: Content, blocks: seq<Block>, base: BlockPos, r: Resolver, q: BlockPos) {
    var p := BlockPos(base.x + q.x, base.y + q.y, base.z + q.z);
    && (LastAt(blocks, p).Some? <==> q in c.placed)
    && (q in c.placed ==>
      StandsLast(blocks, LastIndex(blocks, p)) && Lies(blocks, LastIndex(blocks, p), base, q)
      && c.placed[q] == r.runtime(blocks[LastIndex(blocks, p)]))
    && (Owner(blocks, p, r).Some? <==> q in c.entities)
    && (q in c.entities ==>
      FirstOwner(blocks, Owner(blocks, p, r).value, r) && Lies(blocks, Owner(blocks, p, r).value, base, q)
      && Some(c.entities[q]) == r.entity(blocks[Owner(blocks, p, r).value]))
  }

  lemma StandsAt(c: Content, blocks: seq<Block>, base: BlockPos, r: Resolver, q: BlockPos)
    requires Shows(c, blocks, base, r)
    ensures CellStands(c, blocks, base, r, q)
  {
    hide LastAt, FirstEntity, Owner, LastIndex;
    var p := BlockPos(base.x + q.x, base.y + q.y, base.z + q.z);
    assert Local(p, base) == q;
    OwnerIsFirst(blocks, p, r);
  }

  lemma LastIsThere(blocks: seq<Block>, i: nat)
    requires StandsLast(blocks, i)
    ensures LastAt(blocks, blocks[i].pos).Some? && LastIndex(blocks, blocks[i].pos) == i
  {
    SomethingIsThere(blocks, i);
    hide LastAt, LastIndex;
    var k := LastIndex(blocks, blocks[i].pos);
  }

  lemma {:induction false} SomethingIsThere(blocks: seq<Block>, i: nat)
    requires i < |blocks|
    ensures LastAt(blocks, blocks[i].pos).Some?
  {
    if i < |blocks| - 1 {
      SomethingIsThere(blocks[..|blocks| - 1], i);
    }
  }

  lemma OwnerIsThere(blocks: seq<Block>, i: nat, r: Resolver)
    requires FirstOwner(blocks, i, r)
    ensures Owner(blocks, blocks[i].pos, r) == Some(i)
  {
    hide Owner, FirstEntity;
    OwnerIsFirst(blocks, blocks[i].pos, r);
  }

  /** What stands at a position and the block entity kept there come from different
      blocks exactly when an earlier block there has a payload that becomes one. */
  lemma EntityIsForeignExactlyWhen(blocks: seq<Block>, p: BlockPos, r: Resolver)
    requires LastAt(blocks, p).Some?
    ensures var owner, last := Owner(blocks, p, r), LastIndex(blocks, p);
      owner.Some? && owner.value != last
      <==> exists j :: 0 <= j < last && blocks[j].pos == p && r.entity(blocks[j]).Some?
  {
    OwnerIsFirst(blocks, p, r);
  }

  /** So a block placed over a container keeps the container's block entity. */
  method ContainerEntityStays(contents: Dom, r: Resolver, entity: nat) returns (content: Option<Content>)
    requires r.paletteSize > 1 && contents.List?
    requires r.entity(Block(0, BlockPos(0, 0, 0), 0, 0, Some(contents))) == Some(entity)
    requires r.entity(Block(0, BlockPos(0, 0, 0), 1, 0, None)) == None
    ensures content.Some? && BlockPos(0, 0, 0) in content.value.placed && BlockPos(0, 0, 0) in content.value.entities
    ensures content.value.placed[BlockPos(0, 0, 0)] == r.runtime(Block(0, BlockPos(0, 0, 0), 1, 0, None))
    ensures content.value.entities[BlockPos(0, 0, 0)] == entity
  {
    var container, stone := Block(0, BlockPos(0, 0, 0), 0, 0, Some(contents)), Block(0, BlockPos(0, 0, 0), 1, 0, None);
    var blocks := [container, stone];
    var lo, hi;
    content, lo, hi := Materialize(blocks, r);
    assert container in blocks && blocks[..1] == [container] && [container][..0] == [];
    assert forall b :: b in blocks ==> Resolves(b, r) && b.pos == BlockPos(0, 0, 0);
    assert lo == BlockPos(0, 0, 0) && hi == lo;
    assert Local(BlockPos(0, 0, 0), lo) == BlockPos(0, 0, 0);
    assert FirstEntity([container], BlockPos(0, 0, 0), r) == Some(entity);
  }
}
