/** Matching Java block states to runtime ids: the candidates come out of hash maps in
    no particular order, and the answer must not depend on it. */
module JavaMatching {
  import opened Options
  import opened Coordinates

  datatype Property = Property(name: string, value: string)

  const NO_ORDER := 0xFFFF_FFFF_FFFF_FFFF

  /** How well a candidate does: agreeing properties first, then the penalty, then the
      conversion order, then the runtime id. */
  datatype Rank = Rank(same: nat, penalty: nat, order: nat, runtime: RuntimeId)

  predicate Beats(a: Rank, b: Rank) {
    || a.same > b.same || (a.same == b.same && a.penalty < b.penalty)
    || (a.same == b.same && a.penalty == b.penalty && a.order < b.order)
    || (a.same == b.same && a.penalty == b.penalty && a.order == b.order && a.runtime < b.runtime)
  }

  /** The answer among a set of candidates: the runtime id of one that none beats. */
  ghost predicate IsBest(ranks: set<Rank>, answer: Option<RuntimeId>) {
    if answer == None then ranks == {}
    else exists best :: best in ranks && best.runtime == answer.value && Unbeaten(ranks, best)
  }

  ghost predicate Unbeaten(ranks: set<Rank>, best: Rank) {
    forall r :: r in ranks ==> !Beats(r, best)
  }

  /** There is only one answer. */
  lemma BestIsUnique(ranks: set<Rank>, a: Option<RuntimeId>, b: Option<RuntimeId>)
    requires IsBest(ranks, a) && IsBest(ranks, b)
    ensures a == b
  {
    if a.Some? && b.Some? {
      var x :| x in ranks && x.runtime == a.value && Unbeaten(ranks, x);
      var y :| y in ranks && y.runtime == b.value && Unbeaten(ranks, y);
      assert !Beats(x, y) && !Beats(y, x);
    }
  }

  // Scoring.

  function Find(properties: seq<Property>, name: string): Option<string> {
    if properties == [] then None
    else if properties[0].name == name then Some(properties[0].value)
    else Find(properties[1..], name)
  }

  function Agrees(properties: seq<Property>, wanted: Property, alike: (string, string) -> bool): bool {
    var found := Find(properties, wanted.name); found.Some? && alike(found.value, wanted.value)
  }

  /** The requested properties a candidate agrees with. */
  function SameCount(properties: seq<Property>, requested: seq<Property>, alike: (string, string) -> bool): nat {
    if requested == [] then 0
    else
      SameCount(properties, requested[..|requested| - 1], alike)
      + (if Agrees(properties, requested[|requested| - 1], alike) then 1 else 0)
  }

  /** The candidate's properties that were not requested. */
  function ExtraCount(properties: seq<Property>, requested: seq<Property>): nat {
    if properties == [] then 0
    else
      ExtraCount(properties[..|properties| - 1], requested)
      + (if Find(requested, properties[|properties| - 1].name) == None then 1 else 0)
  }

  function Penalty(properties: seq<Property>, requested: seq<Property>, alike: (string, string) -> bool): nat {
    SameIsAtMostAll(properties, requested, alike);
    |requested| - SameCount(properties, requested, alike) + ExtraCount(properties, requested)
  }

  lemma {:induction false} SameIsAtMostAll(properties: seq<Property>, requested: seq<Property>,
      alike: (string, string) -> bool)
    ensures SameCount(properties, requested, alike) <= |requested|
    ensures SameCount(properties, requested, alike) == |requested| <==>
      forall p :: p in requested ==> Agrees(properties, p, alike)
  {
    hide Agrees;
    if requested != [] {
      var init, last := requested[..|requested| - 1], requested[|requested| - 1];
      SameIsAtMostAll(properties, init, alike);
      assert forall p :: p in requested <==> p in init || p == last;
    }
  }

  lemma {:induction false} NoExtra(properties: seq<Property>, requested: seq<Property>)
    ensures ExtraCount(properties, requested) == 0 <==> forall p :: p in properties ==> Find(requested, p.name).Some?
  {
    if properties != [] {
      var init, last := properties[..|properties| - 1], properties[|properties| - 1];
      NoExtra(init, requested);
      assert forall p :: p in properties <==> p in init || p == last;
    }
  }

  /** A candidate without penalty is one that agrees on every requested property and
      has no other; it is never beaten on the score. */
  lemma FreeOfPenaltyExactlyWhen(properties: seq<Property>, requested: seq<Property>, alike: (string, string) -> bool)
    ensures Penalty(properties, requested, alike) == 0
      <==>
        && (forall p :: p in requested ==> Agrees(properties, p, alike))
        && (forall p :: p in properties ==> Find(requested, p.name).Some?)
    ensures Penalty(properties, requested, alike) == 0
      ==> forall others :: SameCount(others, requested, alike) <= SameCount(properties, requested, alike)
  {
    hide Agrees;
    SameIsAtMostAll(properties, requested, alike);
    NoExtra(properties, requested);
    forall others
      ensures SameCount(others, requested, alike) <= |requested|
    {
      SameIsAtMostAll(others, requested, alike);
    }
  }

  /** A candidate whose conversion order is looked up when first needed. */
  class JavaCandidate {
    const encoded: string
    const properties: seq<Property>
    const runtimeId: RuntimeId

    var order: Option<nat>

    constructor (encoded: string, properties: seq<Property>, runtimeId: RuntimeId)
      ensures this.encoded == encoded && this.properties == properties && this.runtimeId == runtimeId && order == None
    {
      this.encoded, this.properties, this.runtimeId, order := encoded, properties, runtimeId, None;
    }

    /** The remembered order is the right one. */
    ghost predicate Valid(orders: Orders)
      reads this
    {
      order.Some? ==> order.value == OrderOf(orders, encoded)
    }

    method CandidateOrder(orders: Orders) returns (value: nat)
      requires Valid(orders)
      modifies this
      ensures Valid(orders) && value == OrderOf(orders, encoded)
    {
      if order == None {
        order := Some(OrderOf(orders, encoded));
      }
      value := order.value;
    }
  }

  /** `mJavaOrder`, with the key it is asked for. */
  datatype Orders = Orders(canonical: string -> string, table: map<string, nat>)

  function OrderOf(orders: Orders, encoded: string): nat {
    var key := orders.canonical(encoded);
    if key in orders.table then orders.table[key] else NO_ORDER
  }

  function RankOf(c: JavaCandidate, requested: seq<Property>, alike: (string, string) -> bool, orders: Orders): Rank {
    Rank(
      SameCount(c.properties, requested, alike), Penalty(c.properties, requested, alike), OrderOf(orders, c.encoded),
        c.runtimeId)
  }

  ghost function Ranks(list: seq<JavaCandidate>, requested: seq<Property>, alike: (string, string) -> bool,
      orders: Orders): set<Rank>
  {
    set c | c in list :: RankOf(c, requested, alike, orders)
  }

  /** `find_if` over a property list. */
  method FindProperty(properties: seq<Property>, name: string) returns (found: Option<string>)
    ensures found == Find(properties, name)
  {
    for i := 0 to |properties|
      invariant Find(properties, name) == Find(properties[i..], name)
    {
      if properties[i].name == name {
        return Some(properties[i].value);
      }
      assert properties[i..][1..] == properties[i + 1..];
    }
    found := None;
  }

  method Score(properties: seq<Property>, requested: seq<Property>, alike: (string, string) -> bool)
    returns (same: nat, penalty: nat)
    ensures same == SameCount(properties, requested, alike) && penalty == Penalty(properties, requested, alike)
  {
    same, penalty := 0, 0;
    for i := 0 to |requested|
      invariant same == SameCount(properties, requested[..i], alike) && same + penalty == i
    {
      assert requested[..i + 1][..i] == requested[..i];
      var found := FindProperty(properties, requested[i].name);
      if found == None {
        penalty := penalty + 1;
      } else if alike(found.value, requested[i].value) {
        same := same + 1;
      } else {
        penalty := penalty + 1;
      }
    }
    assert requested[..|requested|] == requested;
    ghost var missed := penalty;
    for i := 0 to |properties|
      invariant penalty == missed + ExtraCount(properties[..i], requested)
    {
      assert properties[..i + 1][..i] == properties[..i];
      var found := FindProperty(requested, properties[i].name);
      if found == None {
        penalty := penalty + 1;
      }
    }
    assert properties[..|properties|] == properties;
  }

  /** The scan over the Java candidates: orders are only looked up to break a tie. */
  method BestCandidate(list: seq<JavaCandidate>, requested: seq<Property>, alike: (string, string) -> bool,
      orders: Orders)
    returns (answer: Option<RuntimeId>)
    requires forall c :: c in list ==> c.Valid(orders)
    modifies list
    ensures forall c :: c in list ==> c.Valid(orders)
    ensures IsBest(Ranks(list, requested, alike, orders), answer)
    ensures forall c :: c in list && c.order != old(c.order) ==> Tied(list, c, requested, alike)
  {
    hide SameCount, Penalty, OrderOf, Beats, IsBest;
    var best: JavaCandidate? := null;
    var bestSame, bestPenalty := 0, NO_ORDER;
    var at := 0;
    for i := 0 to |list|
      invariant forall c :: c in list ==> c.Valid(orders)
      invariant best == null <==> i == 0
      invariant best != null ==> 0 <= at < i && list[at] == best
      invariant best != null ==> bestSame == SameCount(best.properties, requested, alike)
      invariant best != null ==> bestPenalty == Penalty(best.properties, requested, alike)
      invariant best != null ==>
        Unbeaten(Ranks(list[..i], requested, alike, orders), RankOf(best, requested, alike, orders))
      invariant forall c :: c in list && c.order != old(c.order) ==> Tied(list, c, requested, alike)
    {
      var candidate := list[i];
      var same, penalty := Score(candidate.properties, requested, alike);
      var better := best == null || same > bestSame || (same == bestSame && penalty < bestPenalty);
      if !better && best != null && same == bestSame && penalty == bestPenalty {
        TiedBoth(list, at, i, requested, alike);
        var order := candidate.CandidateOrder(orders);
        var bestOrder := best.CandidateOrder(orders);
        better := order < bestOrder || (order == bestOrder && candidate.runtimeId < best.runtimeId);
      }
      RanksGrow(list, i, requested, alike, orders);
      BetterBeats(Ranks(list[..i], requested, alike, orders), RankOf(candidate, requested, alike, orders),
        if best == null then None else Some(RankOf(best, requested, alike, orders)));
      if better {
        bestSame, bestPenalty, best, at := same, penalty, candidate, i;
      }
    }
    assert list[..|list|] == list;
    answer := if best == null then None else Some(best.runtimeId);
    BestAnswers(list, best, at, requested, alike, orders);
  }

  /** Another candidate has the same primary score. */
  ghost predicate Tied(list: seq<JavaCandidate>, c: JavaCandidate, requested: seq<Property>,
      alike: (string, string) -> bool)
  {
    exists i, j | 0 <= i < j < |list| :: (c == list[i] || c == list[j]) && SameScore(list[i], list[j], requested, alike)
  }

  predicate SameScore(a: JavaCandidate, b: JavaCandidate, requested: seq<Property>, alike: (string, string) -> bool) {
    && SameCount(a.properties, requested, alike) == SameCount(b.properties, requested, alike)
    && Penalty(a.properties, requested, alike) == Penalty(b.properties, requested, alike)
  }

  lemma TiedBoth(list: seq<JavaCandidate>, i: nat, j: nat, requested: seq<Property>, alike: (string, string) -> bool)
    requires i < j < |list| && SameScore(list[i], list[j], requested, alike)
    ensures Tied(list, list[i], requested, alike) && Tied(list, list[j], requested, alike)
  {
  }

  lemma RanksGrow(list: seq<JavaCandidate>, i: nat, requested: seq<Property>, alike: (string, string) -> bool,
      orders: Orders)
    requires i < |list|
    ensures Ranks(list[..i + 1], requested, alike, orders)
      == Ranks(list[..i], requested, alike, orders) + {RankOf(list[i], requested, alike, orders)}
  {
    hide RankOf;
    assert list[..i + 1] == list[..i] + [list[i]];
  }

  /** Keeping the better of the two keeps an unbeaten one. */
  lemma BetterBeats(ranks: set<Rank>, next: Rank, best: Option<Rank>)
    requires if best == None then ranks == {} else Unbeaten(ranks, best.value)
    ensures best == None ==> Unbeaten(ranks + {next}, next)
    ensures best.Some? ==>
      if next.same > best.value.same || (next.same == best.value.same && next.penalty < best.value.penalty)
        || (next.same == best.value.same && next.penalty == best.value.penalty
          && (next.order < best.value.order || (next.order == best.value.order && next.runtime < best.value.runtime)))
      then Unbeaten(ranks + {next}, next) else Unbeaten(ranks + {next}, best.value)
  {
  }

  lemma BestAnswers(
    list: seq<JavaCandidate>, best: JavaCandidate?, at: nat, requested: seq<Property>, alike: (string, string) -> bool,
    orders: Orders)
    requires best == null <==> list == []
    requires best != null
      ==>
        && at < |list| && list[at] == best
        && Unbeaten(Ranks(list, requested, alike, orders), RankOf(best, requested, alike, orders))
    ensures IsBest(Ranks(list, requested, alike, orders), if best == null then None else Some(best.runtimeId))
  {
    hide RankOf;
    RankRuntime(list, requested, alike, orders);
    if best != null {
      assert RankOf(best, requested, alike, orders) in Ranks(list, requested, alike, orders);
    }
  }

  lemma RankRuntime(list: seq<JavaCandidate>, requested: seq<Property>, alike: (string, string) -> bool, orders: Orders)
    ensures forall c :: c in list ==> RankOf(c, requested, alike, orders).runtime == c.runtimeId
  {
  }

  /** The same candidates in another order give the same answer. */
  lemma OrderDoesNotMatter(
    first: seq<JavaCandidate>, second: seq<JavaCandidate>, requested: seq<Property>, alike: (string, string) -> bool,
    orders: Orders, a: Option<RuntimeId>, b: Option<RuntimeId>)
    requires forall c :: c in first <==> c in second
    requires IsBest(Ranks(first, requested, alike, orders), a) && IsBest(Ranks(second, requested, alike, orders), b)
    ensures a == b
  {
    hide RankOf, IsBest;
    assert Ranks(first, requested, alike, orders) == Ranks(second, requested, alike, orders);
    BestIsUnique(Ranks(first, requested, alike, orders), a, b);
  }

  // Legacy states, whose properties come as maps.

  type States = map<string, string>

  function LegacySame(candidate: States, requested: States, alike: (string, string) -> bool): set<string> {
    set n | n in requested && n in candidate && alike(candidate[n], requested[n])
  }

  function LegacyRank(
    key: string, runtime: RuntimeId, candidate: States, requested: States, alike: (string, string) -> bool,
    order: map<string, nat>): Rank
  {
    SubsetIsSmaller(LegacySame(candidate, requested, alike), requested.Keys);
    var same := |LegacySame(candidate, requested, alike)|;
    Rank(
      same, |requested.Keys| - same + |candidate.Keys - requested.Keys|, if key in order then order[key]
        else NO_ORDER, runtime)
  }

  lemma {:induction false} SubsetIsSmaller(a: set<string>, b: set<string>)
    requires a <= b
    ensures |a| <= |b|
  {
    assert b == a + (b - a);
  }

  /** The legacy states of one name, with the request they are compared to. */
  datatype LegacyStates = LegacyStates(
    candidates: map<string, RuntimeId>, parse: string -> States, requested: States, alike: (string, string) -> bool,
    order: map<string, nat>)
  {
    function RankAt(key: string): Rank
      requires key in candidates
    {
      LegacyRank(key, candidates[key], parse(key), requested, alike, order)
    }

    ghost function Ranks(): set<Rank> {
      set key | key in candidates :: RankAt(key)
    }

    /** The ranks of the states already visited. */
    ghost function Visited(remaining: set<string>): set<Rank> {
      set key | key in candidates && key !in remaining :: RankAt(key)
    }
  }

  /** Any element: the maps are iterated in no particular order. */
  method Pick<T(==)>(from: set<T>) returns (x: T, rest: set<T>)
    requires from != {}
    ensures x in from && rest == from - {x} && |rest| < |from|
  {
    x :| x in from;
    rest := from - {x};
  }

  /** How much of another set the visited part of a set meets, and how much of it
      lies outside. */
  function Met(all: set<string>, remaining: set<string>, part: set<string>): nat {
    |part * (all - remaining)|
  }

  function Missed(all: set<string>, remaining: set<string>, part: set<string>): nat {
    |(all - remaining) - part|
  }

  lemma OneMoreSeen(all: set<string>, remaining: set<string>, name: string, part: set<string>)
    requires name in remaining && remaining <= all
    ensures Met(all, remaining - {name}, part) == Met(all, remaining, part) + (if name in part then 1 else 0)
    ensures Missed(all, remaining - {name}, part) == Missed(all, remaining, part) + (if name in part then 0 else 1)
  {
    assert all - (remaining - {name}) == (all - remaining) + {name};
    GrowsByOne(all - remaining, name, part);
  }

  lemma GrowsByOne(seen: set<string>, name: string, part: set<string>)
    requires name !in seen
    ensures |part * (seen + {name})| == |part * seen| + (if name in part then 1 else 0)
    ensures |(seen + {name}) - part| == |seen - part| + (if name in part then 0 else 1)
    ensures |seen + {name}| == |seen| + 1
  {
    assert part * (seen + {name}) == part * seen + (if name in part then {name} else {});
    assert (seen + {name}) - part == (seen - part) + (if name in part then {} else {name});
  }

  lemma NothingSeen(all: set<string>, part: set<string>)
    ensures Met(all, all, part) == 0 && Missed(all, all, part) == 0
    ensures Missed(all, {}, part) == |all - part|
    ensures part <= all ==> Met(all, {}, part) == |part| && Missed(all, {}, part) == |all| - |part|
  {
    assert part <= all ==> part * (all - {}) == part && all == part + (all - part);
    assert all - {} == all;
    assert part * (all - all) == {};
  }

  method CountAgreeing(candidate: States, requested: States, alike: (string, string) -> bool)
    returns (same: nat, penalty: nat)
    ensures same == |LegacySame(candidate, requested, alike)| && penalty == |requested.Keys| - same
  {
    hide LegacySame, Met, Missed;
    same, penalty := 0, 0;
    var remaining := requested.Keys;
    ghost var agreed := LegacySame(candidate, requested, alike);
    Agreed(candidate, requested, alike);
    NothingSeen(requested.Keys, agreed);
    while remaining != {}
      invariant remaining <= requested.Keys
      invariant same == Met(requested.Keys, remaining, agreed) && penalty == Missed(requested.Keys, remaining, agreed)
      decreases |remaining|
    {
      var name, rest := Pick(remaining);
      OneMoreSeen(requested.Keys, remaining, name, agreed);
      if name !in candidate {
        penalty := penalty + 1;
      } else if alike(candidate[name], requested[name]) {
        same := same + 1;
      } else {
        penalty := penalty + 1;
      }
      remaining := rest;
    }
  }

  lemma Agreed(candidate: States, requested: States, alike: (string, string) -> bool)
    ensures LegacySame(candidate, requested, alike) <= requested.Keys
    ensures forall n :: n in LegacySame(candidate, requested, alike) <==>
      n in requested && n in candidate && alike(candidate[n], requested[n])
  {
  }

  method CountExtra(candidate: States, requested: States) returns (extra: nat)
    ensures extra == |candidate.Keys - requested.Keys|
  {
    hide Met, Missed;
    extra := 0;
    var remaining := candidate.Keys;
    NothingSeen(candidate.Keys, requested.Keys);
    while remaining != {}
      invariant remaining <= candidate.Keys && extra == Missed(candidate.Keys, remaining, requested.Keys)
      decreases |remaining|
    {
      var name, rest := Pick(remaining);
      OneMoreSeen(candidate.Keys, remaining, name, requested.Keys);
      if name !in requested {
        extra := extra + 1;
      }
      remaining := rest;
    }
  }

  lemma OneMoreVisited(l: LegacyStates, remaining: set<string>, key: string)
    requires key in remaining && remaining <= l.candidates.Keys
    ensures l.Visited(remaining - {key}) == l.Visited(remaining) + {l.RankAt(key)}
  {
    hide LegacyStates.RankAt;
  }

  lemma AllVisited(l: LegacyStates)
    ensures l.Visited({}) == l.Ranks() && l.Visited(l.candidates.Keys) == {}
  {
    hide LegacyStates.RankAt;
  }

  /** The scan over the legacy states, in whatever order the map gives them. */
  method BestLegacy(l: LegacyStates) returns (answer: Option<RuntimeId>)
    ensures IsBest(l.Ranks(), answer)
  {
    hide IsBest, Leads, Improves, LegacyStates.Ranks, LegacyStates.Visited, LegacyStates.RankAt;
    answer := None;
    var best := Rank(0, NO_ORDER, NO_ORDER, 0);
    var remaining := l.candidates.Keys;
    NobodyLeads();
    AllVisited(l);
    while remaining != {}
      invariant remaining <= l.candidates.Keys && Leads(l.Visited(remaining), best, answer)
      decreases |remaining|
    {
      var key, rest := Pick(remaining);
      var next := ScoreLegacy(l, key);
      OneMoreVisited(l, remaining, key);
      BetterLeads(l.Visited(remaining), next, best, answer);
      if Improves(next, best, answer) {
        best, answer := next, Some(next.runtime);
      }
      remaining := rest;
    }
    LeaderAnswers(l.Visited({}), best, answer);
  }

  method ScoreLegacy(l: LegacyStates, key: string) returns (rank: Rank)
    requires key in l.candidates
    ensures rank == l.RankAt(key)
  {
    hide LegacySame;
    var same, mismatched := CountAgreeing(l.parse(key), l.requested, l.alike);
    var extra := CountExtra(l.parse(key), l.requested);
    rank := Rank(same, mismatched + extra, if key in l.order then l.order[key] else NO_ORDER, l.candidates[key]);
  }

  /** The best so far. */
  ghost predicate Leads(ranks: set<Rank>, best: Rank, answer: Option<RuntimeId>) {
    if answer == None then ranks == {} else best in ranks && best.runtime == answer.value && Unbeaten(ranks, best)
  }

  predicate Improves(next: Rank, best: Rank, answer: Option<RuntimeId>) {
    answer == None || next.same > best.same
    || (next.same == best.same && (next.penalty < best.penalty
      || (next.penalty == best.penalty && (next.order < best.order
        || (next.order == best.order && next.runtime < best.runtime)))))
  }

  lemma NobodyLeads()
    ensures Leads({}, Rank(0, NO_ORDER, NO_ORDER, 0), None)
  {
  }

  lemma BetterLeads(ranks: set<Rank>, next: Rank, best: Rank, answer: Option<RuntimeId>)
    requires Leads(ranks, best, answer)
    ensures if Improves(next, best, answer) then Leads(ranks + {next}, next, Some(next.runtime))
      else Leads(ranks + {next}, best, answer)
  {
    BetterBeats(ranks, next, if answer == None then None else Some(best));
  }

  lemma LeaderAnswers(ranks: set<Rank>, best: Rank, answer: Option<RuntimeId>)
    requires Leads(ranks, best, answer)
    ensures IsBest(ranks, answer)
  {
  }

  // The reverse mapping of encodings.

  /** An encoding stands for a runtime id when no other runtime id produces it. */
  ghost predicate OnlyFrom(encodings: map<RuntimeId, string>, encoded: string, id: RuntimeId) {
    id in encodings && encodings[id] == encoded && forall other :: other in encodings && encodings[other] == encoded ==>
      other == id
  }

  /** The round-trip mapping holds exactly the encodings that one runtime id produces,
      whatever order the states come in. */
  method BuildRoundTrip(encodings: map<RuntimeId, string>) returns (mapping: map<string, RuntimeId>)
    ensures forall encoded, id :: (encoded in mapping && mapping[encoded] == id) <==> OnlyFrom(encodings, encoded, id)
  {
    mapping := map[];
    var ambiguous: set<string> := {};
    var remaining, seen: set<RuntimeId> := encodings.Keys, {};
    while remaining != {}
      invariant remaining + seen == encodings.Keys && remaining !! seen
      invariant forall encoded :: encoded in mapping ==>
        mapping[encoded] in seen && encodings[mapping[encoded]] == encoded && encoded !in ambiguous
      invariant forall id :: id in seen ==>
        encodings[id] in ambiguous || (encodings[id] in mapping && mapping[encodings[id]] == id)
      invariant forall encoded :: encoded in ambiguous ==>
        exists a, b :: a in seen && b in seen && a != b && encodings[a] == encoded && encodings[b] == encoded
      decreases remaining
    {
      var id :| id in remaining;
      var encoded := encodings[id];
      if encoded !in ambiguous {
        if encoded !in mapping {
          mapping := mapping[encoded := id];
        } else if mapping[encoded] != id {
          assert mapping[encoded] in seen && encodings[mapping[encoded]] == encoded;
          mapping := mapping - {encoded};
          ambiguous := ambiguous + {encoded};
        }
      }
      remaining, seen := remaining - {id}, seen + {id};
    }
  }

  /** Asking for the encoding of a runtime id gives that id back exactly when no other
      id is encoded alike. */
  lemma RoundTripExactlyWhen(encodings: map<RuntimeId, string>, mapping: map<string, RuntimeId>, id: RuntimeId)
    requires forall encoded, i :: (encoded in mapping && mapping[encoded] == i) <==> OnlyFrom(encodings, encoded, i)
    requires id in encodings
    ensures encodings[id] in mapping <==>
      forall other :: other in encodings && encodings[other] == encodings[id] ==> other == id
    ensures encodings[id] in mapping ==> mapping[encodings[id]] == id
  {
    assert OnlyFrom(encodings, encodings[id], id) <==> encodings[id] in mapping && mapping[encodings[id]] == id;
    if encodings[id] in mapping {
      assert OnlyFrom(encodings, encodings[id], mapping[encodings[id]]);
    }
  }

  /** The tables of the registry that Java matching consults. */
  class RuntimeRegistry {
    const roundTrip: map<string, RuntimeId>
    const exact: map<string, RuntimeId>
    const defaults: map<string, RuntimeId>
    const candidates: map<string, seq<JavaCandidate>>
    const orders: Orders
    const legacy: map<string, map<string, RuntimeId>>
    const legacyOrder: map<string, map<string, nat>>

    constructor (
      roundTrip: map<string, RuntimeId>, exact: map<string, RuntimeId>, defaults: map<string, RuntimeId>,
      candidates: map<string, seq<JavaCandidate>>, orders: Orders, legacy: map<string, map<string, RuntimeId>>,
      legacyOrder: map<string, map<string, nat>>)
      ensures this.roundTrip == roundTrip && this.exact == exact && this.defaults == defaults
        && this.candidates == candidates
      ensures this.orders == orders && this.legacy == legacy && this.legacyOrder == legacyOrder
    {
      this.roundTrip, this.exact, this.defaults, this.candidates := roundTrip, exact, defaults, candidates;
      this.orders, this.legacy, this.legacyOrder := orders, legacy, legacyOrder;
    }

    function CandidatesFor(name: string): seq<JavaCandidate> {
      if name in candidates then candidates[name] else []
    }

    function LegacyFor(q: Query): LegacyStates
      requires q.name in legacy
    {
      var order := if q.name in legacyOrder then legacyOrder[q.name] else map[];
      LegacyStates(legacy[q.name], q.parse, q.states, q.legacyAlike, order)
    }

    /** What the answer must be: an exact form if there is one, else the best Java
        candidate, else the best legacy state. */
    ghost predicate Matches(q: Query, answer: Option<RuntimeId>) {
      if q.encoded in roundTrip then answer == Some(roundTrip[q.encoded])
      else if q.properties == [] && q.name in defaults then answer == Some(defaults[q.name])
      else if q.encoded in exact then answer == Some(exact[q.encoded])
      else if CandidatesFor(q.name) != []
        then IsBest(Ranks(CandidatesFor(q.name), q.properties, q.alike, orders), answer)
      else if q.name in legacy then
        IsBest(LegacyFor(q).Ranks(), answer)
      else answer == None
    }

    /** The answer is determined by the tables alone. */
    lemma MatchIsUnique(q: Query, a: Option<RuntimeId>, b: Option<RuntimeId>)
      requires Matches(q, a) && Matches(q, b)
      ensures a == b
    {
      hide IsBest;
      if q.encoded !in roundTrip && !(q.properties == [] && q.name in defaults) && q.encoded !in exact {
        if CandidatesFor(q.name) != [] {
          BestIsUnique(Ranks(CandidatesFor(q.name), q.properties, q.alike, orders), a, b);
        } else if q.name in legacy {
          BestIsUnique(LegacyFor(q).Ranks(), a, b);
        }
      }
    }

    method CompatibleJavaRuntimeId(q: Query) returns (answer: Option<RuntimeId>)
      requires forall c :: c in CandidatesFor(q.name) ==> c.Valid(orders)
      modifies CandidatesFor(q.name)
      ensures forall c :: c in CandidatesFor(q.name) ==> c.Valid(orders)
      ensures Matches(q, answer)
    {
      hide IsBest, Ranks, LegacyStates.Ranks;
      if q.properties == [] {
        if q.encoded in roundTrip {
          return Some(roundTrip[q.encoded]);
        }
        if q.name in defaults {
          return Some(defaults[q.name]);
        }
      }
      if q.encoded in roundTrip {
        return Some(roundTrip[q.encoded]);
      }
      if q.encoded in exact {
        return Some(exact[q.encoded]);
      }
      if q.name in candidates {
        answer := BestCandidate(candidates[q.name], q.properties, q.alike, orders);
        BestOfSome(candidates[q.name], q.properties, q.alike, orders, answer);
        if answer.Some? {
          return;
        }
      }
      if q.name !in legacy {
        return None;
      }
      answer := BestLegacy(LegacyFor(q));
    }
  }

  lemma BestOfSome(
    list: seq<JavaCandidate>, requested: seq<Property>, alike: (string, string) -> bool, orders: Orders,
    answer: Option<RuntimeId>)
    requires IsBest(Ranks(list, requested, alike, orders), answer)
    ensures answer == None <==> list == []
  {
    hide RankOf;
    if list != [] {
      assert RankOf(list[0], requested, alike, orders) in Ranks(list, requested, alike, orders);
    }
  }

  /** A request, normalised and split: its full encoding, its name, its properties as
      a list and as a map, and how values compare and legacy keys parse. */
  datatype Query = Query(
    encoded: string, name: string, properties: seq<Property>, alike: (string, string) -> bool, states: States,
    legacyAlike: (string, string) -> bool, parse: string -> States)
}
