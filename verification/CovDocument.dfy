/** What a CovStructure document says, member by member and element by element, apart
    from the passes that read it. */
module CovDocuments {
  import opened Options
  import opened Coordinates
  import opened JsonEvents
  import opened JsonPasses
  import opened JsonNodes
  import opened CovValues
  import Blocks = CovBlocks
  import opened CovDiscoveries

  /** Member `i` is the last one with its key. */
  ghost predicate LastAmong(members: seq<Member>, i: nat, key: string) {
    i < |members| && members[i].key == key && forall j | i < j < |members| :: members[j].key != key
  }

  ghost predicate Without(members: seq<Member>, key: string) {
    forall j | 0 <= j < |members| :: members[j].key != key
  }

  /** The last "size" gives the size; the last "dimensions" when there is no "size". */
  ghost predicate GivesSize(members: seq<Member>, i: nat) {
    LastAmong(members, i, "size") || (Without(members, "size") && LastAmong(members, i, "dimensions"))
  }

  ghost predicate GivesBlocksAt(inside: seq<Member>, b: nat) {
    LastAmong(inside, b, "block_indices") || (Without(inside, "block_indices") && LastAmong(inside, b, "blocks"))
  }

  /** The "block_indices", or else the "blocks", of a last "structure" that is an
      object. */
  ghost predicate GivesBlocks(members: seq<Member>, v: Json) {
    exists s: nat, b: nat ::
      && LastAmong(members, s, "structure") && members[s].value.Object?
      && GivesBlocksAt(members[s].value.members, b) && members[s].value.members[b].value == v
  }

  /** A value that counts as a side: a whole number of 32 bits. */
  ghost predicate Side(v: Json, n: int) {
    v.Leaf? && Integral(v.scalar) == Some(n) && -0x8000_0000 <= n <= 0x7FFF_FFFF
  }

  ghost predicate IsSide(v: Json) {
    exists n :: Side(v, n)
  }

  /** The first three elements that count as sides. */
  ghost predicate FirstSides(items: seq<Json>, w: int, h: int, l: int) {
    exists a: nat, b: nat, c: nat ::
      && a < b < c < |items| && Side(items[a], w) && Side(items[b], h) && Side(items[c], l)
      && forall j: nat | j < c && j != a && j != b :: !IsSide(items[j])
  }

  ghost predicate SizedBy(members: seq<Member>, size: Size) {
    exists i: nat ::
      && GivesSize(members, i) && members[i].value.Array?
      && FirstSides(members[i].value.items, size.width, size.height, size.length)
  }

  /** How many arrays lie around the innermost element. */
  function ArraysDeep(v: Json): nat
    decreases v, 0
  {
    if v.Array? then ArraysAround(v.items) else 0
  }

  function ArraysAround(items: seq<Json>): nat
    decreases items, 1
  {
    if items == [] then 0
    else
      var before, last := ArraysAround(items[..|items| - 1]), 1 + ArraysDeep(items[|items| - 1]);
      if before > last then before else last
  }

  /** The documents that can be read. */
  ghost predicate Readable(root: Json) {
    && root.Object? && Depth(root) <= 1024
    && (exists size ::
      SizedBy(root.members, size) && size.width > 0 && size.height > 0 && size.length > 0
      && size.width * size.height * size.length <= 0xFFFF_FFFF_FFFF_FFFF)
    && forall v | GivesBlocks(root.members, v) :: ArraysDeep(v) <= 128
  }

  // What the passes' own functions find is what the document says.

  lemma {:induction false} LastAtIs(members: seq<Member>, base: nat, key: string)
    ensures LastAt(members, base, key) == None <==> Without(members, key)
    ensures var found := LastAt(members, base, key);
      found.Some? ==> exists i: nat :: LastAmong(members, i, key) && members[i].value == found.value.value
  {
    if members != [] {
      var init, last := members[..|members| - 1], members[|members| - 1];
      LastAtIs(init, base, key);
      if last.key == key {
        assert LastAmong(members, |members| - 1, key);
      } else if !Without(init, key) {
        var i: nat :| LastAmong(init, i, key) && init[i].value == LastAt(init, base, key).value.value;
        assert LastAmong(members, i, key);
      }
    }
  }

  lemma LastIs(members: seq<Member>, base: nat, i: nat, key: string)
    requires LastAmong(members, i, key)
    ensures var found := LastAt(members, base, key); found.Some? && found.value.value == members[i].value
  {
    hide LastAt;
    LastAtIs(members, base, key);
    var j: nat :| LastAmong(members, j, key) && members[j].value == LastAt(members, base, key).value.value;
    assert i == j;
  }

  lemma CapturedIsSide(v: Json)
    ensures forall n :: Side(v, n) <==> Captured(HeadOf(v)) == [n]
    ensures IsSide(v) <==> Captured(HeadOf(v)) != []
    ensures |Captured(HeadOf(v))| <= 1
  {
    hide Integral;
    if v.Leaf? && Integral(v.scalar).Some? && IsInt32(Integral(v.scalar).value) {
      assert Side(v, Integral(v.scalar).value);
    }
  }

  /** Where the captured sides stand. */
  ghost function Places(items: seq<Json>): seq<nat> {
    if items == [] then []
    else Places(items[..|items| - 1]) + if IsSide(items[|items| - 1]) then [|items| - 1] else []
  }

  /** The sides stand at these places, in order, and no other side does. */
  ghost predicate Standing(items: seq<Json>, places: seq<nat>, sides: seq<int>) {
    && |places| == |sides|
    && (forall k | 0 <= k < |places| :: places[k] < |items| && Side(items[places[k]], sides[k]))
    && (forall j, k | 0 <= j < k < |places| :: places[j] < places[k])
    && (forall j: nat | j < |items| && IsSide(items[j]) :: j in places)
  }

  lemma {:induction false} PlacesAreSides(items: seq<Json>)
    ensures Standing(items, Places(items), DimensionsIn(items))
  {
    hide Side, Captured, IsSide;
    if items != [] {
      PlacesAreSides(items[..|items| - 1]);
      CapturedIsSide(items[|items| - 1]);
    }
  }

  /** At least three sides were captured exactly when there are first sides, and they
      are the first three. */
  lemma FirstSidesAre(items: seq<Json>, w: int, h: int, l: int)
    ensures FirstSides(items, w, h, l) <==> |DimensionsIn(items)| >= 3 && DimensionsIn(items)[..3] == [w, h, l]
  {
    hide Side, IsSide, DimensionsIn, Places, Standing;
    var sides := DimensionsIn(items);
    if |sides| >= 3 && sides[..3] == [w, h, l] {
      assert sides[..3][0] == w && sides[..3][1] == h && sides[..3][2] == l;
      CapturedStandFirst(items);
    }
    if FirstSides(items, w, h, l) {
      FirstAreCaptured(items, w, h, l);
    }
  }

  lemma CapturedStandFirst(items: seq<Json>)
    requires |DimensionsIn(items)| >= 3
    ensures var sides := DimensionsIn(items); FirstSides(items, sides[0], sides[1], sides[2])
  {
    hide Side, IsSide, DimensionsIn, Places;
    var places := Places(items);
    PlacesAreSides(items);
    assert forall k | 2 < k < |places| :: places[2] < places[k];
  }

  lemma FirstAreCaptured(items: seq<Json>, w: int, h: int, l: int)
    requires FirstSides(items, w, h, l)
    ensures |DimensionsIn(items)| >= 3 && DimensionsIn(items)[..3] == [w, h, l]
  {
    hide Side, IsSide, DimensionsIn, Places, Standing;
    var places, sides := Places(items), DimensionsIn(items);
    PlacesAreSides(items);
    var a: nat, b: nat, c: nat :|
      && a < b < c < |items| && Side(items[a], w) && Side(items[b], h) && Side(items[c], l)
      && forall j: nat | j < c && j != a && j != b :: !IsSide(items[j]);
    NextPlace(items, places, sides, 0, a, w);
    NextPlace(items, places, sides, 1, b, h);
    NextPlace(items, places, sides, 2, c, l);
  }

  /** The next side in the list is at the next place. */
  lemma NextPlace(items: seq<Json>, places: seq<nat>, sides: seq<int>, k: nat, a: nat, n: int)
    requires Standing(items, places, sides) && a < |items| && Side(items[a], n) && k <= |places|
    requires forall j: nat | j < k :: places[j] < a
    requires forall j: nat | j < a && IsSide(items[j]) :: exists m: nat :: m < k && places[m] == j
    ensures k < |places| == |sides| && places[k] == a && sides[k] == n
  {
    hide IsSide, Side;
    SideIsSide(items[a], n);
    forall m: nat | m < |places|
      ensures IsSide(items[places[m]])
    {
      SideIsSide(items[places[m]], sides[m]);
    }
    var i: nat :| i < |places| && places[i] == a;
    OneSide(items[a], n, sides[i]);
  }

  lemma OneSide(v: Json, m: int, n: int)
    requires Side(v, m) && Side(v, n)
    ensures m == n
  {
  }

  lemma SideIsSide(v: Json, n: int)
    requires Side(v, n)
    ensures IsSide(v)
  {
  }

  /** An array is flattened exactly when its elements lie at most 128 arrays deep. */
  lemma {:induction false} FlattensExactlyWhen(v: Json, depth: nat)
    requires depth <= 128
    ensures Blocks.Flatten(v, depth).Some? <==> depth + ArraysDeep(v) <= 128
    decreases v, 0
  {
    if v.Array? {
      ItemsFlattenExactlyWhen(v.items, depth);
    }
  }

  lemma {:induction false} ItemsFlattenExactlyWhen(items: seq<Json>, depth: nat)
    requires depth <= 128
    ensures Blocks.FlattenItems(items, depth).Some? <==> depth + ArraysAround(items) <= 128
    decreases items, 1
  {
    if items != [] {
      ItemsFlattenExactlyWhen(items[..|items| - 1], depth);
      if depth < 128 {
        FlattensExactlyWhen(items[|items| - 1], depth + 1);
      }
    }
  }
}
