/** Canonical block states: the properties are sorted, so that equal states
    encode alike whatever order their properties came in. */
module CanonicalStates {
  import opened Options
  import opened BdxBytes
  import opened Decimals
  import opened Canonicals

  datatype ValueType = ByteValue | ShortValue | IntValue | LongValue | StringValue

  datatype Property = Property(name: Bytes, kind: ValueType, value: Bytes)

  datatype BlockState = BlockState(name: Bytes, states: seq<Property>, version: int)

  function Rank(kind: ValueType): nat {
    match kind
    case ByteValue => 0
    case ShortValue => 1
    case IntValue => 2
    case LongValue => 3
    case StringValue => 4
  }

  /** `std::string` order: by unsigned bytes, a prefix first. */
  predicate Below(a: Bytes, b: Bytes) {
    if b == [] then false
    else if a == [] then true
    else if a[0] != b[0] then a[0] < b[0]
    else Below(a[1..], b[1..])
  }

  lemma {:induction false} BelowIsTotal(a: Bytes, b: Bytes)
    ensures a != b ==> Below(a, b) != Below(b, a)
    ensures !Below(a, a)
  {
    if a != [] && b != [] {
      BelowIsTotal(a[1..], b[1..]);
      assert a == [a[0]] + a[1..] && b == [b[0]] + b[1..];
    } else if a != [] {
      BelowIsTotal(a[1..], b);
    }
  }

  lemma {:induction false} BelowIsTransitive(a: Bytes, b: Bytes, c: Bytes)
    requires Below(a, b) && Below(b, c)
    ensures Below(a, c)
  {
    if a != [] && a[0] == b[0] == c[0] {
      BelowIsTransitive(a[1..], b[1..], c[1..]);
    }
  }

  /** The comparison the properties are sorted with: name, then type, then
      value. */
  predicate Precedes(p: Property, q: Property) {
    if p.name != q.name then Below(p.name, q.name)
    else if p.kind != q.kind then Rank(p.kind) < Rank(q.kind)
    else Below(p.value, q.value)
  }

  lemma PrecedesIsTotal(p: Property, q: Property)
    ensures p != q ==> Precedes(p, q) != Precedes(q, p)
    ensures !Precedes(p, p)
  {
    BelowIsTotal(p.name, q.name);
    BelowIsTotal(p.value, q.value);
    BelowIsTotal(p.value, p.value);
  }

  lemma PrecedesIsTransitive(p: Property, q: Property, r: Property)
    requires Precedes(p, q) && Precedes(q, r)
    ensures Precedes(p, r)
  {
    BelowIsTotal(p.name, q.name);
    BelowIsTotal(q.name, r.name);
    if p.name != q.name && q.name != r.name {
      BelowIsTransitive(p.name, q.name, r.name);
    }
    if p.name == q.name == r.name && p.kind == q.kind == r.kind {
      BelowIsTransitive(p.value, q.value, r.value);
    }
  }

  ghost predicate Sorted(properties: seq<Property>) {
    forall i, j | 0 <= i < j < |properties| :: !Precedes(properties[j], properties[i])
  }

  /** The properties of a state in canonical order. */
  ghost predicate SortingOf(sorted: seq<Property>, states: seq<Property>) {
    Sorted(sorted) && multiset(sorted) == multiset(states)
  }

  /** `std::sort`, whichever way it works: insertion, one property at a time. */
  method SortProperties(states: seq<Property>) returns (sorted: seq<Property>)
    ensures Sorted(sorted) && multiset(sorted) == multiset(states)
  {
    sorted := [];
    for k := 0 to |states|
      invariant Sorted(sorted) && multiset(sorted) == multiset(states[..k])
    {
      assert states[..k + 1] == states[..k] + [states[k]];
      sorted := InsertProperty(sorted, states[k]);
    }
    assert states[..|states|] == states;
  }

  method InsertProperty(properties: seq<Property>, p: Property) returns (longer: seq<Property>)
    requires Sorted(properties)
    ensures Sorted(longer) && multiset(longer) == multiset(properties) + multiset{p}
  {
    hide Precedes;
    var at := |properties|;
    while at > 0 && Precedes(p, properties[at - 1])
      invariant 0 <= at <= |properties|
      invariant forall i | at <= i < |properties| :: Precedes(p, properties[i])
    {
      at := at - 1;
    }
    longer := properties[..at] + [p] + properties[at..];
    Inserted(properties, at, p);
  }

  lemma Inserted(properties: seq<Property>, at: nat, p: Property)
    requires Sorted(properties) && at <= |properties|
    requires forall i | at <= i < |properties| :: Precedes(p, properties[i])
    requires at > 0 ==> !Precedes(p, properties[at - 1])
    ensures var longer := properties[..at] + [p] + properties[at..];
      Sorted(longer) && multiset(longer) == multiset(properties) + multiset{p}
  {
    hide Precedes;
    var longer := properties[..at] + [p] + properties[at..];
    assert properties == properties[..at] + properties[at..];
    forall i | 0 <= i < at
      ensures !Precedes(p, properties[i])
    {
      if Precedes(p, properties[i]) && i < at - 1 {
        NotBetween(p, properties[i], properties[at - 1]);
      }
    }
    forall i | at <= i < |properties|
      ensures !Precedes(properties[i], p)
    {
      PrecedesIsTotal(p, properties[i]);
    }
    forall i, j | 0 <= i < j < |longer|
      ensures !Precedes(longer[j], longer[i])
    {
      if i < at && j == at {
        assert longer[i] == properties[i];
      } else if i == at {
        assert longer[j] == properties[j - 1];
      }
    }
  }

  lemma NotBetween(p: Property, q: Property, r: Property)
    requires Precedes(p, q) && !Precedes(r, q)
    ensures Precedes(p, r)
  {
    PrecedesIsTotal(q, r);
    if q != r {
      PrecedesIsTransitive(p, q, r);
    }
  }

  lemma LeastFirst(s: seq<Property>, p: Property)
    requires Sorted(s) && p in s && p != s[0]
    ensures Precedes(s[0], p)
  {
    hide Precedes;
    var i :| 0 <= i < |s| && s[i] == p;
    PrecedesIsTotal(s[0], p);
  }

  lemma SameLeast(s: seq<Property>, t: seq<Property>)
    requires Sorted(s) && Sorted(t) && multiset(s) == multiset(t) && s != []
    ensures t != [] && s[0] == t[0]
  {
    hide Precedes, Sorted;
    assert s[0] in multiset(t);
    assert t[0] in multiset(s);
    if s[0] != t[0] {
      LeastFirst(s, t[0]);
      LeastFirst(t, s[0]);
      PrecedesIsTotal(s[0], t[0]);
    }
  }

  lemma SameRest(s: seq<Property>, t: seq<Property>)
    requires multiset(s) == multiset(t) && s != [] && t != [] && s[0] == t[0]
    ensures multiset(s[1..]) == multiset(t[1..])
  {
    assert s == [s[0]] + s[1..] && t == [t[0]] + t[1..];
    assert multiset(s[1..]) == multiset(s) - multiset{s[0]} && multiset(t[1..]) == multiset(t) - multiset{t[0]};
  }

  /** Sorting by a total order is canonical: equal contents sort alike. */
  lemma {:induction false} SortedIsUnique(s: seq<Property>, t: seq<Property>)
    requires Sorted(s) && Sorted(t) && multiset(s) == multiset(t)
    ensures s == t
  {
    hide Precedes;
    if s == [] {
      assert |t| == |multiset(t)| == |multiset(s)| == 0;
    } else {
      SameLeast(s, t);
      SameRest(s, t);
      SortedIsUnique(s[1..], t[1..]);
      assert s == [s[0]] + s[1..] && t == [t[0]] + t[1..];
    }
  }

  /** Width in bytes of an integer property, and the code it is written with. */
  function Width(kind: ValueType): nat
    requires kind != StringValue
  {
    match kind
    case ByteValue => 1
    case ShortValue => 2
    case IntValue => 4
    case LongValue => 8
  }

  function KindCode(kind: ValueType): Byte {
    match kind
    case ByteValue => 1
    case ShortValue => 2
    case IntValue => 3
    case LongValue => 4
    case StringValue => 8
  }

  /** `parse_integer`: any int64, whatever the property's own type. */
  function ParseInteger(text: Bytes): Option<int> {
    Parse(text, -0x8000_0000_0000_0000, 0x7fff_ffff_ffff_ffff)
  }

  /** `append_block_property`: an integer is cut to its type without a check. */
  function PropertyBytes(p: Property): Option<Bytes> {
    if |p.name| >= COUNT_LIMIT then None
    else if p.kind == StringValue then
      (if |p.value| >= COUNT_LIMIT then None else Some(Text(p.name) + [8] + Text(p.value)))
    else
      match ParseInteger(p.value)
      case None => None
      case Some(value) => Some(Text(p.name) + [KindCode(p.kind)] + Integer(value, Width(p.kind)))
  }

  function AllPropertyBytes(properties: seq<Property>): Option<Bytes> {
    if properties == [] then Some([])
    else
      match (PropertyBytes(properties[0]), AllPropertyBytes(properties[1..]))
      case (Some(first), Some(rest)) => Some(first + rest)
      case _ => None
  }

  const MAGIC: Bytes := [87, 83, 66, 83, 1]

  /** The encoding of a state whose properties have been sorted. */
  function StateBytes(name: Bytes, version: int, sorted: seq<Property>): Option<Bytes> {
    if |name| >= COUNT_LIMIT then None
    else
      match AllPropertyBytes(sorted)
      case None => None
      case Some(properties) => Some(MAGIC + Text(name) + Integer(version, 4) + Integer(|sorted|, 4) + properties)
  }

  /** A value of a numeric property in its type's range and written the way
      `std::to_string` writes it. */
  ghost predicate CanonicalValue(p: Property) {
    p.kind != StringValue ==> exists n :: FitsSigned(n, Width(p.kind)) && p.value == Decimal(n)
  }

  lemma {:induction false} PowerEight()
    ensures Power(0) == 1 && Power(1) == 0x100 && Power(3) == 0x100_0000 && Power(7) == 0x100_0000_0000_0000
  {
    assert Power(2) == 0x1_0000 && Power(4) == 0x1_0000_0000 && Power(5) == 0x100_0000_0000
      && Power(6) == 0x1_0000_0000_0000;
  }

  lemma CanonicalParses(p: Property, n: int)
    requires p.kind != StringValue && FitsSigned(n, Width(p.kind)) && p.value == Decimal(n)
    ensures ParseInteger(p.value) == Some(n)
  {
    PowerEight();
    ParseUndoesDecimal(n, -0x8000_0000_0000_0000, 0x7fff_ffff_ffff_ffff);
    hide Parse, Decimal;
  }

  /** Equal up to what the encoding keeps of a number: its residue. */
  predicate Congruent(m: int, n: int, size: nat) {
    PowerIsPositive(size);
    m % Power(size) == n % Power(size)
  }

  lemma SameIntegers(m: int, n: int, size: nat)
    ensures Integer(m, size) == Integer(n, size) <==> Congruent(m, n, size)
  {
    PowerIsPositive(size);
    if Integer(m, size) == Integer(n, size) {
      LittleIsInjective(m % Power(size), n % Power(size), size);
    }
  }

  /** Two properties the encoding does not tell apart: the same name and type, and the
      same text or numbers that agree in the type's width. */
  predicate SameMeaning(p: Property, q: Property) {
    && p.name == q.name && p.kind == q.kind
    && if p.kind == StringValue then p.value == q.value
      else
        var m, n := ParseInteger(p.value), ParseInteger(q.value);
        m.Some? && n.Some? && Congruent(m.value, n.value, Width(p.kind))
  }

  /** Property encodings are self-delimiting up to meaning. */
  lemma PropertiesAlikeExactlyWhen(p: Property, q: Property, x: Bytes, y: Bytes)
    requires PropertyBytes(p).Some? && PropertyBytes(q).Some?
    ensures PropertyBytes(p).value + x == PropertyBytes(q).value + y <==> SameMeaning(p, q) && x == y
  {
    hide Text, Integer, ParseInteger, Congruent;
    if p.kind != StringValue && p.kind == q.kind {
      SameIntegers(ParseInteger(p.value).value, ParseInteger(q.value).value, Width(p.kind));
    }
    if PropertyBytes(p).value + x == PropertyBytes(q).value + y {
      var a := PropertyBytes(p).value[|Text(p.name)|..];
      var b := PropertyBytes(q).value[|Text(q.name)|..];
      assert PropertyBytes(p).value == Text(p.name) + a && PropertyBytes(q).value == Text(q.name) + b;
      Reassociate(Text(p.name), a, x);
      Reassociate(Text(q.name), b, y);
      TextUnique(p.name, q.name, a + x, b + y);
      assert (a + x)[0] == a[0] == KindCode(p.kind) && (b + y)[0] == b[0] == KindCode(q.kind);
      assert (a + x)[1..] == a[1..] + x && (b + y)[1..] == b[1..] + y;
      if p.kind == StringValue {
        TextUnique(p.value, q.value, x, y);
      } else {
        SplitsAlike(a[1..], b[1..], x, y);
      }
    }
  }

  /** Two lists that mean the same, position by position. */
  predicate AlikeLists(s: seq<Property>, t: seq<Property>) {
    |s| == |t| && forall i | 0 <= i < |s| :: SameMeaning(s[i], t[i])
  }

  lemma {:induction false} ListsAlikeExactlyWhen(s: seq<Property>, t: seq<Property>)
    requires |s| == |t| && AllPropertyBytes(s).Some? && AllPropertyBytes(t).Some?
    ensures AllPropertyBytes(s) == AllPropertyBytes(t) <==> AlikeLists(s, t)
  {
    hide PropertyBytes, SameMeaning;
    if s != [] {
      PropertiesAlikeExactlyWhen(s[0], t[0], AllPropertyBytes(s[1..]).value, AllPropertyBytes(t[1..]).value);
      ListsAlikeExactlyWhen(s[1..], t[1..]);
      assert s == [s[0]] + s[1..] && t == [t[0]] + t[1..];
    }
  }

  /** Two encodings of sorted states agree exactly when the states mean the same. */
  lemma StatesAlikeExactlyWhen(name: Bytes, version: int, s: seq<Property>, name': Bytes, version': int,
      t: seq<Property>)
    requires StateBytes(name, version, s).Some? && StateBytes(name', version', t).Some?
    requires |s| < COUNT_LIMIT && |t| < COUNT_LIMIT
    ensures StateBytes(name, version, s) == StateBytes(name', version', t)
      <==> name == name' && Congruent(version, version', 4) && AlikeLists(s, t)
  {
    hide Text, Integer, SameMeaning, Congruent, AllPropertyBytes;
    var a, b := AllPropertyBytes(s).value, AllPropertyBytes(t).value;
    SameIntegers(version, version', 4);
    if |s| == |t| {
      ListsAlikeExactlyWhen(s, t);
    }
    if StateBytes(name, version, s) == StateBytes(name', version', t) {
      StateSplits(name, version, s, a);
      StateSplits(name', version', t, b);
      SplitsAlike(MAGIC, MAGIC, Text(name) + (Integer(version, 4) + (Integer(|s|, 4) + a)),
        Text(name') + (Integer(version', 4) + (Integer(|t|, 4) + b)));
      TextUnique(name, name', Integer(version, 4) + (Integer(|s|, 4) + a),
        Integer(version', 4) + (Integer(|t|, 4) + b));
      SplitsAlike(Integer(version, 4), Integer(version', 4), Integer(|s|, 4) + a, Integer(|t|, 4) + b);
      CountUnique(|s|, |t|, a, b);
    }
  }

  lemma StateSplits(name: Bytes, version: int, s: seq<Property>, a: Bytes)
    ensures MAGIC + Text(name) + Integer(version, 4) + Integer(|s|, 4) + a
      == MAGIC + (Text(name) + (Integer(version, 4) + (Integer(|s|, 4) + a)))
  {
    hide Text, Integer;
    var t, v, c := Text(name), Integer(version, 4), Integer(|s|, 4);
    Reassociate(MAGIC + t + v, c, a);
    Reassociate(MAGIC + t, v, c + a);
    Reassociate(MAGIC, t, v + (c + a));
  }

  /** `canonical_block_state`: the encoding of the sorted properties. */
  method CanonicalBlockState(state: BlockState) returns (encoded: Option<Bytes>)
    ensures exists sorted :: SortingOf(sorted, state.states) && encoded == StateBytes(state.name, state.version, sorted)
  {
    hide StateBytes, Sorted;
    var properties := SortProperties(state.states);
    assert SortingOf(properties, state.states);
    encoded := StateBytes(state.name, state.version, properties);
  }

  /** Every property of one state has one with the same meaning in the other. */
  ghost predicate Covers(a: seq<Property>, b: seq<Property>) {
    forall p | p in a :: exists q :: q in b && SameMeaning(p, q)
  }

  predicate DistinctNames(states: seq<Property>) {
    forall i, j | 0 <= i < j < |states| :: states[i].name != states[j].name
  }

  /** Sorted lists without duplicate names that cover each other agree position by
      position. */
  lemma {:induction false} CoveringListsAreAlike(s: seq<Property>, t: seq<Property>)
    requires Sorted(s) && Sorted(t) && DistinctNames(s) && DistinctNames(t)
    requires Covers(s, t) && Covers(t, s)
    ensures AlikeLists(s, t)
  {
    hide Sorted, DistinctNames, Covers, SameMeaning;
    CoversNothing(s, t);
    CoversNothing(t, s);
    if s != [] {
      HeadsMeet(s, t);
      MeaningIsNamed(s[0], t[0]);
      TailsStay(s);
      TailsStay(t);
      TailsCover(s, t);
      TailsCover(t, s);
      CoveringListsAreAlike(s[1..], t[1..]);
      assert s == [s[0]] + s[1..] && t == [t[0]] + t[1..];
    }
  }

  lemma CoversNothing(s: seq<Property>, t: seq<Property>)
    ensures Covers(s, t) && t == [] ==> s == []
  {
    if s != [] {
      assert s[0] in s;
    }
  }

  lemma TailsStay(s: seq<Property>)
    requires s != [] && Sorted(s) && DistinctNames(s)
    ensures Sorted(s[1..]) && DistinctNames(s[1..])
  {
  }

  /** The least names of both lists are the same. */
  lemma HeadsMeet(s: seq<Property>, t: seq<Property>)
    requires Sorted(s) && Sorted(t) && DistinctNames(s) && DistinctNames(t)
    requires s != [] && t != [] && Covers(s, t) && Covers(t, s)
    ensures SameMeaning(s[0], t[0]) && SameMeaning(t[0], s[0])
  {
    assert s[0] in s && t[0] in t;
    var q :| q in t && SameMeaning(s[0], q);
    var p :| p in s && SameMeaning(t[0], p);
    var j :| 0 <= j < |t| && t[j] == q;
    var i :| 0 <= i < |s| && s[i] == p;
    hide Sorted, Covers, SameMeaning, DistinctNames;
    MeaningIsNamed(s[0], q);
    MeaningIsNamed(t[0], p);
    FirstIsLeast(s, i);
    FirstIsLeast(t, j);
    BelowIsTotal(s[0].name, t[0].name);
    BelowIsTotal(t[0].name, t[0].name);
    assert i == 0 && j == 0;
    MeaningIsSymmetric(s[0], t[0]);
  }

  lemma MeaningIsNamed(p: Property, q: Property)
    requires SameMeaning(p, q)
    ensures p.name == q.name
  {
  }

  lemma MeaningIsSymmetric(p: Property, q: Property)
    ensures SameMeaning(p, q) ==> SameMeaning(q, p)
  {
  }

  lemma FirstIsLeast(s: seq<Property>, i: nat)
    requires Sorted(s) && DistinctNames(s) && i < |s|
    ensures i > 0 ==> Below(s[0].name, s[i].name)
  {
    if i > 0 {
      assert !Precedes(s[i], s[0]);
      BelowIsTotal(s[0].name, s[i].name);
    }
  }

  lemma TailsCover(s: seq<Property>, t: seq<Property>)
    requires s != [] && t != [] && DistinctNames(s) && Covers(s, t) && s[0].name == t[0].name
    ensures Covers(s[1..], t[1..])
  {
    forall p | p in s[1..]
      ensures exists q :: q in t[1..] && SameMeaning(p, q)
    {
      var k :| 0 <= k < |s[1..]| && s[1..][k] == p;
      assert s[k + 1] == p && p in s;
      var q :| q in t && SameMeaning(p, q);
      var j :| 0 <= j < |t| && t[j] == q;
      assert j != 0;
      assert t[1..][j - 1] == q;
    }
  }

  lemma AlikeListsCover(s: seq<Property>, t: seq<Property>)
    requires AlikeLists(s, t)
    ensures Covers(s, t) && Covers(t, s)
  {
    hide SameMeaning;
    forall p | p in s
      ensures exists q :: q in t && SameMeaning(p, q)
    {
      var i :| 0 <= i < |s| && s[i] == p;
      assert t[i] in t;
    }
    forall q | q in t
      ensures exists p :: p in s && SameMeaning(q, p)
    {
      var i :| 0 <= i < |t| && t[i] == q;
      assert s[i] in s;
      MeaningIsSymmetric(s[i], t[i]);
    }
  }

  /** The same members whatever the order. */
  lemma CoversReordered(s: seq<Property>, states: seq<Property>, t: seq<Property>, others: seq<Property>)
    requires multiset(s) == multiset(states) && multiset(t) == multiset(others)
    ensures Covers(s, t) <==> Covers(states, others)
  {
    hide SameMeaning;
    assert forall p :: p in s <==> p in multiset(s);
    assert forall p :: p in states <==> p in multiset(states);
    assert forall p :: p in t <==> p in multiset(t);
    assert forall p :: p in others <==> p in multiset(others);
  }

  /** For states whose property names differ, as a block's do: the encodings agree
      exactly when name, version and every property's meaning agree, in whatever order
      the properties came. */
  lemma CanonicalStatesAgreeExactlyWhen(a: BlockState, b: BlockState, s: seq<Property>, t: seq<Property>)
    requires SortingOf(s, a.states) && SortingOf(t, b.states) && DistinctNames(s) && DistinctNames(t)
    requires StateBytes(a.name, a.version, s).Some? && StateBytes(b.name, b.version, t).Some?
    requires |s| < COUNT_LIMIT && |t| < COUNT_LIMIT
    ensures StateBytes(a.name, a.version, s) == StateBytes(b.name, b.version, t)
      <==>
        && a.name == b.name && Congruent(a.version, b.version, 4)
        && Covers(a.states, b.states) && Covers(b.states, a.states)
  {
    hide StateBytes, SameMeaning, Sorted, Covers, Congruent, AlikeLists, DistinctNames;
    StatesAlikeExactlyWhen(a.name, a.version, s, b.name, b.version, t);
    CoversReordered(s, a.states, t, b.states);
    CoversReordered(t, b.states, s, a.states);
    if AlikeLists(s, t) {
      AlikeListsCover(s, t);
    }
    if Covers(s, t) && Covers(t, s) {
      CoveringListsAreAlike(s, t);
    }
  }

  /** Canonical properties with the same meaning are the same. */
  lemma CanonicalMeaningIsEquality(p: Property, q: Property)
    requires CanonicalValue(p) && CanonicalValue(q) && SameMeaning(p, q)
    ensures p == q
  {
    hide Decimal, FitsSigned, ParseInteger, Congruent;
    if p.kind != StringValue {
      var m :| FitsSigned(m, Width(p.kind)) && p.value == Decimal(m);
      var n :| FitsSigned(n, Width(q.kind)) && q.value == Decimal(n);
      CanonicalParses(p, m);
      CanonicalParses(q, n);
      SameIntegers(m, n, Width(p.kind));
      SignedIsInjective(m, n, Width(p.kind));
    }
  }

  /** Two states have the same canonical encoding exactly when their names, their
      versions and their multisets of properties agree. */
  lemma CanonicalStateIsInjective(a: BlockState, b: BlockState, s: seq<Property>, t: seq<Property>)
    requires Sorted(s) && multiset(s) == multiset(a.states) && Sorted(t) && multiset(t) == multiset(b.states)
    requires StateBytes(a.name, a.version, s).Some? && StateBytes(b.name, b.version, t).Some?
    requires FitsSigned(a.version, 4) && FitsSigned(b.version, 4) && |s| < COUNT_LIMIT && |t| < COUNT_LIMIT
    requires forall p | p in a.states :: CanonicalValue(p)
    requires forall p | p in b.states :: CanonicalValue(p)
    ensures StateBytes(a.name, a.version, s) == StateBytes(b.name, b.version, t)
      <==> a.name == b.name && a.version == b.version && multiset(a.states) == multiset(b.states)
  {
    hide StateBytes, CanonicalValue, FitsSigned, Sorted, SameMeaning, Congruent, Integer;
    if a.name == b.name && a.version == b.version && multiset(a.states) == multiset(b.states) {
      SortedIsUnique(s, t);
    }
    forall i | 0 <= i < |s|
      ensures s[i] in a.states
    {
      assert s[i] in multiset(s);
    }
    forall i | 0 <= i < |t|
      ensures t[i] in b.states
    {
      assert t[i] in multiset(t);
    }
    StatesAlikeExactlyWhen(a.name, a.version, s, b.name, b.version, t);
    if StateBytes(a.name, a.version, s) == StateBytes(b.name, b.version, t) {
      SameIntegers(a.version, b.version, 4);
      SignedIsInjective(a.version, b.version, 4);
      forall i | 0 <= i < |s|
        ensures s[i] == t[i]
      {
        CanonicalMeaningIsEquality(s[i], t[i]);
      }
      assert s == t;
    }
  }

  /** Without canonical values the oracle is coarser: whole states that differ in a
      leading zero, or by a multiple of the type's width, encode alike. */
  lemma NonCanonicalValuesCollide(name: Bytes, block: Bytes, version: int)
    requires |name| < COUNT_LIMIT && |block| < COUNT_LIMIT
    ensures var padded, seven := Property(name, IntValue, [ZERO, ZERO + 7]), Property(name, IntValue, [ZERO + 7]);
      padded != seven && StateBytes(block, version, [padded]).Some?
      && StateBytes(block, version, [padded]) == StateBytes(block, version, [seven])
    ensures var beyond, seven := Property(name, ByteValue, Decimal(0x107)), Property(name, ByteValue, [ZERO + 7]);
      beyond != seven && StateBytes(block, version, [beyond]).Some?
      && StateBytes(block, version, [beyond]) == StateBytes(block, version, [seven])
  {
    SevensParse();
    PowerEight();
    hide ParseInteger, Decimal, Text, Integer;
    var padded, seven := Property(name, IntValue, [ZERO, ZERO + 7]), Property(name, IntValue, [ZERO + 7]);
    var beyond, small := Property(name, ByteValue, Decimal(0x107)), Property(name, ByteValue, [ZERO + 7]);
    SameIntegers(0x107, 7, 1);
    AlikeSingletons(block, version, padded, seven);
    AlikeSingletons(block, version, beyond, small);
  }

  lemma AlikeSingletons(block: Bytes, version: int, p: Property, q: Property)
    requires |block| < COUNT_LIMIT && PropertyBytes(p).Some? && PropertyBytes(p) == PropertyBytes(q)
    ensures StateBytes(block, version, [p]).Some? && StateBytes(block, version, [p]) == StateBytes(block, version, [q])
  {
    hide PropertyBytes, Text, Integer;
    assert [p][1..] == [] && [q][1..] == [];
    assert AllPropertyBytes([p]).Some? && AllPropertyBytes([p]) == AllPropertyBytes([q]);
  }

  lemma SevensParse()
    ensures ParseInteger([ZERO, ZERO + 7]) == Some(7) && ParseInteger([ZERO + 7]) == Some(7)
    ensures ParseInteger(Decimal(0x107)) == Some(0x107) && Decimal(0x107) != [ZERO + 7]
  {
    var seven, padded := [ZERO + 7], [ZERO, ZERO + 7];
    assert padded[..1] == [ZERO] && seven[..0] == [] && [ZERO][..0] == [];
    assert Value([]) == 0 && Value([ZERO]) == 0 && Value(seven) == 7 && Value(padded) == 7;
    ParseUndoesDecimal(0x107, -0x8000_0000_0000_0000, 0x7fff_ffff_ffff_ffff);
  }
}
