/** The byte-budgeted LRU of encoded subchunk payloads that
    `BdxStructure::write_to_world` keeps between its live chunks and the store. */
module ColdPayloads {
  import opened Coordinates

  const ENTRY_OVERHEAD := 128

  /** An encoded subchunk. The codec itself is not modelled: `layer` is what
      decoding the bytes returns, `capacity` the size of the buffer they
      occupy, which the encoder chooses. */
  datatype Payload = Payload(layer: seq<RuntimeId>, capacity: nat)
  datatype Encoded = Encoded(pos: SubChunkPos, payload: Payload)
  datatype ColdEntry = ColdEntry(payload: Payload, charge: nat)

  function ChargeOf(payload: Payload): nat {
    payload.capacity + ENTRY_OVERHEAD
  }

  predicate Distinct<T(==)>(s: seq<T>) {
    forall i, j | 0 <= i < j < |s| :: s[i] != s[j]
  }

  ghost function Charges(lru: seq<SubChunkPos>, entries: map<SubChunkPos, ColdEntry>): nat
    requires forall p | p in lru :: p in entries
  {
    if lru == [] then 0 else entries[lru[0]].charge + Charges(lru[1..], entries)
  }

  /** A batch of payloads applied in order; a later entry wins. */
  function ApplyBatch(m: map<SubChunkPos, Payload>, batch: seq<Encoded>): map<SubChunkPos, Payload> {
    if batch == [] then m
    else ApplyBatch(m, batch[..|batch| - 1])[batch[|batch| - 1].pos := batch[|batch| - 1].payload]
  }

  lemma {:induction false} ChargesSplit(a: seq<SubChunkPos>, b: seq<SubChunkPos>, entries: map<SubChunkPos, ColdEntry>)
    requires forall p | p in a + b :: p in entries
    ensures forall p | p in a :: p in entries
    ensures forall p | p in b :: p in entries
    ensures Charges(a + b, entries) == Charges(a, entries) + Charges(b, entries)
  {
    assert forall p | p in a :: p in a + b;
    assert forall p | p in b :: p in a + b;
    if a == [] {
      assert a + b == b;
    } else {
      assert (a + b)[1..] == a[1..] + b;
      ChargesSplit(a[1..], b, entries);
    }
  }

  lemma {:induction false} ChargesAgree(lru: seq<SubChunkPos>, e: map<SubChunkPos, ColdEntry>,
      f: map<SubChunkPos, ColdEntry>)
    requires forall p | p in lru :: p in e && p in f && e[p] == f[p]
    ensures Charges(lru, e) == Charges(lru, f)
  {
    if lru != [] {
      ChargesAgree(lru[1..], e, f);
    }
  }

  /** Dropping one position from the list drops exactly its charge. */
  lemma ChargesWithout(lru: seq<SubChunkPos>, k: nat, entries: map<SubChunkPos, ColdEntry>)
    requires k < |lru| && Distinct(lru)
    requires forall p | p in lru :: p in entries
    ensures var rest, left := lru[..k] + lru[k + 1..], entries - {lru[k]};
      && (forall p | p in rest :: p in left)
      && Charges(lru, entries) == Charges(rest, left) + entries[lru[k]].charge
  {
    var rest, left := lru[..k] + lru[k + 1..], entries - {lru[k]};
    assert lru == lru[..k] + ([lru[k]] + lru[k + 1..]);
    ChargesSplit(lru[..k], [lru[k]] + lru[k + 1..], entries);
    ChargesSplit([lru[k]], lru[k + 1..], entries);
    ChargesSplit(lru[..k], lru[k + 1..], entries);
    assert Charges([lru[k]], entries) == entries[lru[k]].charge;
    forall p | p in rest
      ensures p in left && left[p] == entries[p]
    {
      var i :| 0 <= i < |rest| && rest[i] == p;
      assert p == lru[if i < k then i else i + 1];
    }
    ChargesAgree(rest, entries, left);
  }

  /** The list is in bijection with the map, and `bytes` is the sum of the
      charges. */
  ghost predicate Consistent(lru: seq<SubChunkPos>, entries: map<SubChunkPos, ColdEntry>, bytes: nat) {
    && Distinct(lru)
    && (forall p :: p in lru <==> p in entries)
    && bytes == Charges(lru, entries)
    && (forall p | p in entries :: entries[p].charge == entries[p].payload.capacity + ENTRY_OVERHEAD)
  }

  function Payloads(entries: map<SubChunkPos, ColdEntry>): map<SubChunkPos, Payload> {
    map p | p in entries :: entries[p].payload
  }

  lemma ConsistentWithout(lru: seq<SubChunkPos>, k: nat, entries: map<SubChunkPos, ColdEntry>, bytes: nat)
    requires Consistent(lru, entries, bytes) && k < |lru|
    ensures entries[lru[k]].charge <= bytes
    ensures Consistent(lru[..k] + lru[k + 1..], entries - {lru[k]}, bytes - entries[lru[k]].charge)
  {
    var rest := lru[..k] + lru[k + 1..];
    ChargesWithout(lru, k, entries);
    forall p
      ensures p in rest <==> p in entries - {lru[k]}
    {
      if p in rest {
        var i :| 0 <= i < |rest| && rest[i] == p;
        assert p == lru[if i < k then i else i + 1];
      }
      if p in entries && p != lru[k] {
        var i :| 0 <= i < |lru| && lru[i] == p;
        assert rest[if i < k then i else i - 1] == p;
      }
    }
  }

  lemma ConsistentWith(lru: seq<SubChunkPos>, entries: map<SubChunkPos, ColdEntry>, bytes: nat, pos: SubChunkPos,
      entry: ColdEntry)
    requires Consistent(lru, entries, bytes) && pos !in entries
    requires entry.charge == entry.payload.capacity + ENTRY_OVERHEAD
    ensures Consistent([pos] + lru, entries[pos := entry], bytes + entry.charge)
  {
    ChargesAgree(lru, entries, entries[pos := entry]);
    assert ([pos] + lru)[1..] == lru;
  }

  class ColdCache {
    const limit: nat
    var entries: map<SubChunkPos, ColdEntry>
    var lru: seq<SubChunkPos>  // most recent first
    var bytes: nat

    ghost predicate Valid()
      reads this
    {
      Consistent(lru, entries, bytes) && bytes <= limit
    }

    constructor (limit: nat)
      ensures Valid() && Payloads(entries) == map[] && this.limit == limit
    {
      this.limit := limit;
      entries, lru, bytes := map[], [], 0;
    }

    method Erase(pos: SubChunkPos)
      requires Consistent(lru, entries, bytes) && pos in entries
      modifies this
      ensures Consistent(lru, entries, bytes)
      ensures entries == old(entries) - {pos}
      ensures bytes == old(bytes) - old(entries[pos].charge)
      ensures lru == Without(old(lru), pos)
    {
      var k :| 0 <= k < |lru| && lru[k] == pos;
      ConsistentWithout(lru, k, entries, bytes);
      WithoutAt(lru, k);
      bytes := bytes - entries[pos].charge;
      lru := lru[..k] + lru[k + 1..];
      entries := entries - {pos};
    }

    /** `insert_cold`. Nothing is lost: the cached payloads, with `pos` set to
        its new one, are split between the cache and the evicted batch; and what
        leaves is the least recently inserted end of the list. */
    method Insert(pos: SubChunkPos, payload: Payload) returns (evicted: seq<Encoded>)
      requires Valid()
      modifies this
      ensures Valid()
      ensures Split(Payloads(entries), evicted, old(Payloads(entries))[pos := payload])
      ensures payload.capacity + ENTRY_OVERHEAD > limit ==> evicted == [Encoded(pos, payload)]
      ensures payload.capacity + ENTRY_OVERHEAD <= limit ==>
        && lru + Backward(evicted) == [pos] + Without(old(lru), pos)
        && (evicted != [] ==> bytes + ChargeOf(evicted[|evicted| - 1].payload) > limit)
    {
      hide Split, Without, Backward, Payloads, Distinct, Charges;
      SplitAlone(entries, pos, payload);
      if limit == 0 {
        EmptyWithoutBudget(lru, entries, bytes);
        assert entries - {pos} == entries;
        evicted := [Encoded(pos, payload)];
        return;
      }
      if pos in entries {
        Erase(pos);
      } else {
        WithoutAbsent(lru, pos);
      }
      assert entries == old(entries) - {pos};
      var charge := payload.capacity + ENTRY_OVERHEAD;
      if charge > limit {
        evicted := [Encoded(pos, payload)];
        return;
      }
      ConsistentWith(lru, entries, bytes, pos, ColdEntry(payload, charge));
      PayloadsWith(old(entries), pos, ColdEntry(payload, charge));
      lru := [pos] + lru;
      bytes := bytes + charge;
      entries := entries[pos := ColdEntry(payload, charge)];
      evicted := EvictToLimit();
    }

    /** The insertion loop of `complete_next_pending_save`: a finished batch
        enters the cache one payload at a time, and the evictions pile up. */
    method InsertAll(batch: seq<Encoded>) returns (evicted: seq<Encoded>)
      requires Valid() && NewTo(Payloads(entries), batch)
      modifies this
      ensures Valid()
      ensures Split(Payloads(entries), evicted, ApplyBatch(old(Payloads(entries)), batch))
    {
      hide Consistent, Split, Payloads, ApplyBatch, NewTo, Backward, Without;
      evicted := [];
      SplitNothing(Payloads(entries));
      ghost var start := Payloads(entries);
      for k := 0 to |batch|
        invariant Valid()
        invariant Split(Payloads(entries), evicted, ApplyBatch(start, batch[..k]))
      {
        ghost var before := Payloads(entries);
        var more := Insert(batch[k].pos, batch[k].payload);
        SplitAgain(start, batch, k, before, evicted, Payloads(entries), more);
        evicted := evicted + more;
      }
      assert batch[..|batch|] == batch;
    }

    method Oldest() returns (pos: SubChunkPos)
      requires Consistent(lru, entries, bytes) && lru != []
      ensures pos == lru[|lru| - 1] && pos in entries && Distinct(lru)
      ensures entries[pos].charge == ChargeOf(entries[pos].payload)
    {
      pos := lru[|lru| - 1];
    }

    /** The eviction loop of `insert_cold`: it stops at the first fit, so the last
        payload it evicted would not have fitted. */
    method EvictToLimit() returns (evicted: seq<Encoded>)
      requires Consistent(lru, entries, bytes)
      modifies this
      ensures Valid()
      ensures Split(Payloads(entries), evicted, old(Payloads(entries)))
      ensures lru + Backward(evicted) == old(lru)
      ensures evicted != [] ==> bytes + ChargeOf(evicted[|evicted| - 1].payload) > limit
    {
      hide Consistent, Split, Without, Backward, Payloads, Distinct, Charges, ApplyBatch;
      evicted := [];
      SplitNothing(Payloads(entries));
      while bytes > limit && lru != []
        invariant Consistent(lru, entries, bytes)
        invariant Split(Payloads(entries), evicted, old(Payloads(entries)))
        invariant lru + Backward(evicted) == old(lru)
        invariant evicted != [] ==> bytes + ChargeOf(evicted[|evicted| - 1].payload) > limit
        decreases |lru|
      {
        var oldest := Oldest();
        EvictLast(lru, entries, evicted, oldest, old(Payloads(entries)));
        evicted := evicted + [Encoded(oldest, entries[oldest].payload)];
        Erase(oldest);
      }
      EmptyWithoutBudget(lru, entries, bytes);
    }

    /** One batch of the final drain: the oldest payloads, oldest first. */
    method TakeOldest(count: nat) returns (payloads: seq<Encoded>)
      requires Consistent(lru, entries, bytes)
      modifies this
      ensures Consistent(lru, entries, bytes)
      ensures Split(Payloads(entries), payloads, old(Payloads(entries)))
      ensures lru + Backward(payloads) == old(lru)
      ensures |payloads| <= count && (lru == [] || |payloads| == count)
      ensures |lru| + |payloads| == |old(lru)|
    {
      hide Consistent, Split, Without, Backward, Payloads, Distinct, Charges, ApplyBatch;
      payloads := [];
      SplitNothing(Payloads(entries));
      while lru != [] && |payloads| < count
        invariant Consistent(lru, entries, bytes)
        invariant Split(Payloads(entries), payloads, old(Payloads(entries)))
        invariant lru + Backward(payloads) == old(lru)
        invariant |payloads| <= count && |lru| + |payloads| == |old(lru)|
        decreases |lru|
      {
        var oldest := Oldest();
        EvictLast(lru, entries, payloads, oldest, old(Payloads(entries)));
        payloads := payloads + [Encoded(oldest, entries[oldest].payload)];
        Erase(oldest);
      }
    }
  }

  /** `whole` is `kept` overwritten by the batch, and no position is in both. */
  ghost predicate Split(kept: map<SubChunkPos, Payload>, batch: seq<Encoded>, whole: map<SubChunkPos, Payload>) {
    && (forall e | e in batch :: e.pos !in kept)
    && ApplyBatch(kept, batch) == whole
  }

  ghost function Backward(batch: seq<Encoded>): seq<SubChunkPos> {
    if batch == [] then [] else [batch[|batch| - 1].pos] + Backward(batch[..|batch| - 1])
  }

  ghost function Without(lru: seq<SubChunkPos>, pos: SubChunkPos): seq<SubChunkPos> {
    if lru == [] then []
    else (if lru[0] == pos then [] else [lru[0]]) + Without(lru[1..], pos)
  }

  lemma {:induction false} WithoutAbsent(lru: seq<SubChunkPos>, pos: SubChunkPos)
    requires pos !in lru
    ensures Without(lru, pos) == lru
  {
    if lru != [] {
      WithoutAbsent(lru[1..], pos);
      assert [lru[0]] + lru[1..] == lru;
    }
  }

  lemma {:induction false} WithoutAt(lru: seq<SubChunkPos>, k: nat)
    requires Distinct(lru) && k < |lru|
    ensures Without(lru, lru[k]) == lru[..k] + lru[k + 1..]
  {
    if k == 0 {
      WithoutAbsent(lru[1..], lru[0]);
    } else {
      WithoutAt(lru[1..], k - 1);
      assert [lru[0]] + (lru[1..][..k - 1] + lru[1..][k..]) == lru[..k] + lru[k + 1..];
    }
  }

  /** The batch names no position twice and none that is already held. */
  ghost predicate NewTo(held: map<SubChunkPos, Payload>, batch: seq<Encoded>) {
    forall i | 0 <= i < |batch| ::
      batch[i].pos !in held && forall j | 0 <= j < i :: batch[j].pos != batch[i].pos
  }

  ghost predicate Names(batch: seq<Encoded>, pos: SubChunkPos) {
    exists i :: 0 <= i < |batch| && batch[i].pos == pos
  }

  /** A batch decides the value of the positions it names, whatever it is
      applied to, and touches no other. */
  lemma {:induction false} BatchDecides(m: map<SubChunkPos, Payload>, n: map<SubChunkPos, Payload>, batch: seq<Encoded>,
      pos: SubChunkPos)
    ensures pos in ApplyBatch(m, batch) <==> pos in m || Names(batch, pos)
    ensures !Names(batch, pos) && pos in m ==> ApplyBatch(m, batch)[pos] == m[pos]
    ensures Names(batch, pos) ==> pos in ApplyBatch(n, batch) && ApplyBatch(m, batch)[pos] == ApplyBatch(n, batch)[pos]
    ensures Names(batch, pos) ==> Encoded(pos, ApplyBatch(m, batch)[pos]) in batch
  {
    if batch != [] {
      var init, last := batch[..|batch| - 1], batch[|batch| - 1];
      BatchDecides(m, n, init, pos);
      NamesLast(batch, pos);
    }
  }

  lemma NamesLast(batch: seq<Encoded>, pos: SubChunkPos)
    requires batch != []
    ensures Names(batch, pos) <==> Names(batch[..|batch| - 1], pos) || batch[|batch| - 1].pos == pos
  {
    var init := batch[..|batch| - 1];
    if Names(init, pos) {
      var i :| 0 <= i < |init| && init[i].pos == pos;
      assert batch[i].pos == pos;
    }
    if Names(batch, pos) {
      var i :| 0 <= i < |batch| && batch[i].pos == pos;
      assert i < |batch| - 1 ==> init[i].pos == pos;
    }
  }

  /** Inserting the k-th payload after the first k keeps the split. */
  lemma SplitAgain(
    start: map<SubChunkPos, Payload>, batch: seq<Encoded>, k: nat, before: map<SubChunkPos, Payload>,
    evicted: seq<Encoded>, after: map<SubChunkPos, Payload>, more: seq<Encoded>)
    requires NewTo(start, batch) && k < |batch|
    requires Split(before, evicted, ApplyBatch(start, batch[..k]))
    requires Split(after, more, before[batch[k].pos := batch[k].payload])
    ensures Split(after, evicted + more, ApplyBatch(start, batch[..k + 1]))
  {
    var pos, payload := batch[k].pos, batch[k].payload;
    assert batch[..k + 1][..k] == batch[..k];
    BatchDecides(start, start, batch[..k], pos);
    assert !Names(batch[..k], pos);
    assert forall e | e in evicted :: Names(evicted, e.pos);
    forall e | e in evicted
      ensures e.pos !in after && e.pos != pos && !Names(more, e.pos)
    {
      BatchDecides(before, before, evicted, e.pos);
      BatchDecides(before, before, evicted, pos);
      BatchDecides(after, after, more, e.pos);
    }
    ApplyCommutes(before, evicted, pos, payload);
    ApplyTwice(after, evicted, more);
  }

  /** Batches naming different positions can be applied in either order. */
  lemma {:induction false} ApplyTwice(m: map<SubChunkPos, Payload>, a: seq<Encoded>, b: seq<Encoded>)
    requires forall e | e in a :: !Names(b, e.pos)
    ensures ApplyBatch(m, a + b) == ApplyBatch(ApplyBatch(m, b), a)
  {
    if b == [] {
      assert a + b == a;
    } else {
      var init, last := b[..|b| - 1], b[|b| - 1];
      assert (a + b)[..|a + b| - 1] == a + init;
      forall e | e in a
        ensures !Names(init, e.pos) && e.pos != last.pos
      {
        NamesLast(b, e.pos);
      }
      ApplyTwice(m, a, init);
      ApplyCommutes(ApplyBatch(m, init), a, last.pos, last.payload);
    }
  }

  lemma SplitNothing(view: map<SubChunkPos, Payload>)
    ensures Split(view, [], view)
    ensures Backward([]) == []
  {
  }

  lemma SplitAlone(entries: map<SubChunkPos, ColdEntry>, pos: SubChunkPos, payload: Payload)
    ensures Split(Payloads(entries - {pos}), [Encoded(pos, payload)], Payloads(entries)[pos := payload])
  {
    var batch := [Encoded(pos, payload)];
    assert batch[..0] == [];
    assert Payloads(entries - {pos})[pos := payload] == Payloads(entries)[pos := payload];
  }

  lemma PayloadsWith(entries: map<SubChunkPos, ColdEntry>, pos: SubChunkPos, entry: ColdEntry)
    ensures Payloads((entries - {pos})[pos := entry]) == Payloads(entries)[pos := entry.payload]
  {
  }

  lemma {:induction false} EmptyWithoutBudget(lru: seq<SubChunkPos>, entries: map<SubChunkPos, ColdEntry>, bytes: nat)
    requires Consistent(lru, entries, bytes)
    ensures bytes == 0 ==> entries == map[]
    ensures lru == [] ==> bytes == 0
  {
    if lru != [] {
      assert lru[0] in lru && entries[lru[0]].charge > 0;
    }
  }

  /** Moving the oldest entry from the cache to the end of the batch loses
      nothing. */
  lemma EvictLast(
    lru: seq<SubChunkPos>, entries: map<SubChunkPos, ColdEntry>, batch: seq<Encoded>, pos: SubChunkPos,
    whole: map<SubChunkPos, Payload>)
    requires Distinct(lru) && lru != [] && pos == lru[|lru| - 1]
    requires pos in entries && Split(Payloads(entries), batch, whole)
    ensures var longer := batch + [Encoded(pos, entries[pos].payload)];
      && Split(Payloads(entries - {pos}), longer, whole)
      && Without(lru, pos) + Backward(longer) == lru + Backward(batch)
      && |Without(lru, pos)| == |lru| - 1
  {
    EvictOne(entries, batch, pos, whole);
    hide Split, Payloads, ApplyBatch;
    LastMoves(lru, batch, Encoded(pos, entries[pos].payload));
  }

  lemma LastMoves(lru: seq<SubChunkPos>, batch: seq<Encoded>, last: Encoded)
    requires Distinct(lru) && lru != [] && last.pos == lru[|lru| - 1]
    ensures Without(lru, last.pos) + Backward(batch + [last]) == lru + Backward(batch)
    ensures |Without(lru, last.pos)| == |lru| - 1
  {
    var longer, front := batch + [last], lru[..|lru| - 1];
    assert longer[..|longer| - 1] == batch;
    WithoutAt(lru, |lru| - 1);
    hide Without, Distinct;
    assert Without(lru, last.pos) == front && lru == front + [last.pos];
  }

  lemma EvictOne(entries: map<SubChunkPos, ColdEntry>, batch: seq<Encoded>, pos: SubChunkPos,
      whole: map<SubChunkPos, Payload>)
    requires pos in entries && Split(Payloads(entries), batch, whole)
    ensures Split(Payloads(entries - {pos}), batch + [Encoded(pos, entries[pos].payload)], whole)
  {
    var view, payload := Payloads(entries), entries[pos].payload;
    var longer := batch + [Encoded(pos, payload)];
    assert longer[..|longer| - 1] == batch;
    assert Payloads(entries - {pos}) == view - {pos};
    ApplyCommutes(view - {pos}, batch, pos, payload);
    assert (view - {pos})[pos := payload] == view;
  }

  lemma {:induction false} ApplyCommutes(m: map<SubChunkPos, Payload>, batch: seq<Encoded>, pos: SubChunkPos,
      payload: Payload)
    requires forall e | e in batch :: e.pos != pos
    ensures ApplyBatch(m[pos := payload], batch) == ApplyBatch(m, batch)[pos := payload]
  {
    if batch != [] {
      ApplyCommutes(m, batch[..|batch| - 1], pos, payload);
      assert batch[|batch| - 1] in batch;
    }
  }
}
