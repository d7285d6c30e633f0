/** `RootArrayEntrySax`: the entries of a root array rebuilt one at a time from
    parser events and handed on as soon as they are complete. */
module RootArraySaxes {
  import opened Options
  import opened JsonEvents

  /** A value in memory: an object maps each key to its last value. */
  datatype Dom = Atom(scalar: Scalar) | List(items: seq<Dom>) | Dict(fields: map<string, Dom>)

  /** The tree-based reading of a document. */
  function Tree(v: Json): Dom
    decreases v, 0
  {
    match v
    case Leaf(scalar) => Atom(scalar)
    case Array(items) => List(Trees(items))
    case Object(members) => Dict(Fields(members))
  }

  function Trees(items: seq<Json>): seq<Dom>
    decreases items, 1
  {
    if items == [] then [] else Trees(items[..|items| - 1]) + [Tree(items[|items| - 1])]
  }

  function Fields(members: seq<Member>): map<string, Dom>
    decreases members, 1
  {
    if members == [] then map[]
    else
      var last := members[|members| - 1];
      Fields(members[..|members| - 1])[last.key := Tree(last.value)]
  }

  datatype Frame = Frame(value: Dom, key: Option<string>)

  /** The handler's state; `delivered` lists the callback's arguments. */
  datatype State = State(started: bool, ended: bool, frames: seq<Frame>, index: nat, delivered: seq<(nat, Dom)>)

  const START := State(false, false, [], 0, [])

  function Appended(s: State, v: Dom): Option<State> {
    if s.frames == [] then
      Some(s.(index := s.index + 1, delivered := s.delivered + [(s.index, v)]))
    else
      var rest, top := s.frames[..|s.frames| - 1], s.frames[|s.frames| - 1];
      if top.value.List? then Some(s.(frames := rest + [top.(value := List(top.value.items + [v]))]))
      else if !top.value.Dict? || top.key == None then None
      else Some(s.(frames := rest + [Frame(Dict(top.value.fields[top.key.value := v]), None)]))
  }

  function Begin(s: State, v: Dom): Option<State> {
    if !s.started || s.ended then None else Some(s.(frames := s.frames + [Frame(v, None)]))
  }

  function Complete(s: State): Option<State>
    requires s.frames != []
  {
    Appended(s.(frames := s.frames[..|s.frames| - 1]), s.frames[|s.frames| - 1].value)
  }

  function Step(s: State, e: Event): Option<State> {
    match e
    case Value(scalar) => if !s.started || s.ended then None else Appended(s, Atom(scalar))
    case StartObject => Begin(s, Dict(map[]))
    case Key(key) =>
      if s.frames == [] || !s.frames[|s.frames| - 1].value.Dict? then None
      else
        var top := s.frames[|s.frames| - 1];
        Some(s.(frames := s.frames[..|s.frames| - 1] + [top.(key := Some(key))]))
    case EndObject => if s.frames == [] || !s.frames[|s.frames| - 1].value.Dict? then None else Complete(s)
    case StartArray => if !s.started then Some(s.(started := true)) else Begin(s, List([]))
    case EndArray =>
      if s.frames == [] then (if !s.started || s.ended then None else Some(s.(ended := true)))
      else if !s.frames[|s.frames| - 1].value.List? then None
      else Complete(s)
  }

  /** Inside the root array, where a value may stand. */
  predicate Open(s: State) {
    s.started && !s.ended
  }

  predicate TakesValue(s: State) {
    Open(s) && Appended(s, Atom(Null)).Some?
  }

  /** The events of any document inside the root array do what appending its tree
      does, wherever a value may stand. */
  lemma {:induction false} FeedsLikeAppend(s: State, v: Json)
    requires TakesValue(s)
    ensures Appended(s, Tree(v)).Some? && Feed(Step, Some(s), Events(v)) == Appended(s, Tree(v))
    decreases v, 0
  {
    hide Appended, Step;
    TakesAnyValue(s, Tree(v));
    match v
    case Leaf(scalar) =>
      StepOutside(s, scalar);
      FeedOne(Step, s, Value(scalar));
    case Array(items) =>
      FeedsItems(s, items);
      StepOutside(s, Null);
      CloseContainer(s, Tree(v));
      FeedContainer(Step, s, StartArray, ItemEvents(items), EndArray);
    case Object(members) =>
      FeedsMembers(s, members);
      StepOutside(s, Null);
      CloseContainer(s, Tree(v));
      FeedContainer(Step, s, StartObject, MemberEvents(members), EndObject);
  }

  lemma TakesAnyValue(s: State, v: Dom)
    requires TakesValue(s)
    ensures Appended(s, v).Some?
  {
  }

  lemma StepOutside(s: State, scalar: Scalar)
    requires Open(s)
    ensures Step(s, Value(scalar)) == Appended(s, Atom(scalar))
    ensures Step(s, StartArray) == Some(s.(frames := s.frames + [Frame(List([]), None)]))
    ensures Step(s, StartObject) == Some(s.(frames := s.frames + [Frame(Dict(map[]), None)]))
  {
  }

  lemma CloseContainer(s: State, v: Dom)
    ensures v.List? ==> Step(s.(frames := s.frames + [Frame(v, None)]), EndArray) == Appended(s, v)
    ensures v.Dict? ==> Step(s.(frames := s.frames + [Frame(v, None)]), EndObject) == Appended(s, v)
  {
    hide Appended;
    var frames := s.frames + [Frame(v, None)];
    assert frames[..|frames| - 1] == s.frames;
  }

  lemma {:induction false} FeedsItems(s: State, items: seq<Json>)
    requires Open(s)
    ensures Feed(Step, Some(s.(frames := s.frames + [Frame(List([]), None)])), ItemEvents(items))
      == Some(s.(frames := s.frames + [Frame(List(Trees(items)), None)]))
    decreases items, 1
  {
    if items != [] {
      var init, last := items[..|items| - 1], items[|items| - 1];
      var start := s.(frames := s.frames + [Frame(List([]), None)]);
      var between := s.(frames := s.frames + [Frame(List(Trees(init)), None)]);
      FeedsItems(s, init);
      FeedBoth(Step, Some(start), ItemEvents(init), Events(last));
      AppendToList(s, Trees(init), Atom(Null));
      FeedsLikeAppend(between, last);
      AppendToList(s, Trees(init), Tree(last));
    }
  }

  lemma AppendToList(s: State, list: seq<Dom>, v: Dom)
    ensures Appended(s.(frames := s.frames + [Frame(List(list), None)]), v)
      == Some(s.(frames := s.frames + [Frame(List(list + [v]), None)]))
  {
    var frames := s.frames + [Frame(List(list), None)];
    assert frames[..|frames| - 1] == s.frames;
  }

  lemma AppendToDict(s: State, fields: map<string, Dom>, key: string, v: Dom)
    ensures Appended(s.(frames := s.frames + [Frame(Dict(fields), Some(key))]), v)
      == Some(s.(frames := s.frames + [Frame(Dict(fields[key := v]), None)]))
  {
    var frames := s.frames + [Frame(Dict(fields), Some(key))];
    assert frames[..|frames| - 1] == s.frames;
  }

  lemma KeyOnDict(s: State, fields: map<string, Dom>, key: string)
    ensures Step(s.(frames := s.frames + [Frame(Dict(fields), None)]), Key(key))
      == Some(s.(frames := s.frames + [Frame(Dict(fields), Some(key))]))
  {
    var frames := s.frames + [Frame(Dict(fields), None)];
    assert frames[..|frames| - 1] == s.frames;
  }

  lemma {:induction false} FeedsMembers(s: State, members: seq<Member>)
    requires Open(s)
    ensures Feed(Step, Some(s.(frames := s.frames + [Frame(Dict(map[]), None)])), MemberEvents(members))
      == Some(s.(frames := s.frames + [Frame(Dict(Fields(members)), None)]))
    decreases members, 1
  {
    if members != [] {
      var init, last := members[..|members| - 1], members[|members| - 1];
      var start := s.(frames := s.frames + [Frame(Dict(map[]), None)]);
      var between := s.(frames := s.frames + [Frame(Dict(Fields(init)), None)]);
      var keyed := s.(frames := s.frames + [Frame(Dict(Fields(init)), Some(last.key))]);
      FeedsMembers(s, init);
      FeedBoth(Step, Some(start), MemberEvents(init), [Key(last.key)]);
      FeedBoth(Step, Some(start), MemberEvents(init) + [Key(last.key)], Events(last.value));
      KeyOnDict(s, Fields(init), last.key);
      FeedOne(Step, between, Key(last.key));
      AppendToDict(s, Fields(init), last.key, Atom(Null));
      FeedsLikeAppend(keyed, last.value);
      AppendToDict(s, Fields(init), last.key, Tree(last.value));
    }
  }

  /** What the callback should see: every entry with its index, in order. */
  function Numbered(items: seq<Json>): seq<(nat, Dom)> {
    seq(|items|, i requires 0 <= i < |items| => (i, Tree(items[i])))
  }

  lemma {:induction false} FeedsEntries(items: seq<Json>)
    ensures Feed(Step, Some(START.(started := true)), ItemEvents(items))
      == Some(State(true, false, [], |items|, Numbered(items)))
  {
    hide Step, Numbered, Appended;
    NumberedOneMore(items);
    if items != [] {
      var init, last := items[..|items| - 1], items[|items| - 1];
      var between := State(true, false, [], |init|, Numbered(init));
      FeedsEntries(init);
      FeedBoth(Step, Some(START.(started := true)), ItemEvents(init), Events(last));
      EntryDelivered(between, Tree(last));
      FeedsLikeAppend(between, last);
    }
  }

  lemma NumberedOneMore(items: seq<Json>)
    ensures if items == [] then Numbered(items) == []
      else Numbered(items) == Numbered(items[..|items| - 1]) + [(|items| - 1, Tree(items[|items| - 1]))]
  {
  }

  lemma EntryDelivered(s: State, v: Dom)
    requires Open(s) && s.frames == []
    ensures TakesValue(s) && Appended(s, v) == Some(s.(index := s.index + 1, delivered := s.delivered + [(s.index, v)]))
  {
  }

  /** A root array hands on exactly its entries; any other root is refused. */
  lemma RootArrayIsHandedOn(root: Json)
    ensures Feed(Step, Some(START), Events(root))
      == if root.Array? then Some(State(true, true, [], |root.items|, Numbered(root.items))) else None
  {
    hide Appended;
    match root
    case Leaf(scalar) => FeedOne(Step, START, Value(scalar));
    case Object(members) =>
      FeedContainer(Step, START, StartObject, MemberEvents(members), EndObject);
      FeedNone(Step, MemberEvents(members));
    case Array(items) =>
      FeedsEntries(items);
      FeedContainer(Step, START, StartArray, ItemEvents(items), EndArray);
  }

  lemma StepKeepsDelivered(s: State, e: Event)
    ensures Step(s, e).Some? ==> s.delivered <= Step(s, e).value.delivered
  {
  }

  lemma {:induction false} FeedKeepsDelivered(s: State, events: seq<Event>)
    ensures var after := Feed(Step, Some(s), events); after.Some? ==> s.delivered <= after.value.delivered
  {
    if events != [] {
      FeedKeepsDelivered(s, events[..|events| - 1]);
      var before := Feed(Step, Some(s), events[..|events| - 1]);
      if before.Some? {
        StepKeepsDelivered(before.value, events[|events| - 1]);
      }
    }
  }

  /** A document that breaks off part way has handed on only right entries. */
  lemma BrokenDocumentHandsOnAPrefix(items: seq<Json>, count: nat)
    requires count <= |Events(Array(items))|
    ensures var after := Feed(Step, Some(START), Events(Array(items))[..count]);
      after.Some? && after.value.delivered <= Numbered(items)
  {
    var events := Events(Array(items));
    var after := Feed(Step, Some(START), events[..count]);
    RootArrayIsHandedOn(Array(items));
    assert events == events[..count] + events[count..];
    FeedBoth(Step, Some(START), events[..count], events[count..]);
    if after == None {
      FeedNone(Step, events[count..]);
    } else {
      FeedKeepsDelivered(after.value, events[count..]);
    }
  }

  /** The handler itself; the callback appends to `delivered`. */
  class RootArrayEntrySax {
    var frames: seq<Frame>
    var index: nat
    var rootStarted: bool
    var rootEnded: bool
    var delivered: seq<(nat, Dom)>

    function Now(): State
      reads this
    {
      State(rootStarted, rootEnded, frames, index, delivered)
    }

    constructor ()
      ensures Now() == START
    {
      frames, index, rootStarted, rootEnded, delivered := [], 0, false, false, [];
    }

    method Append(v: Dom) returns (ok: bool)
      modifies this
      ensures ok == Appended(old(Now()), v).Some?
      ensures ok ==> Some(Now()) == Appended(old(Now()), v)
    {
      if frames == [] {
        delivered := delivered + [(index, v)];
        index := index + 1;
        return true;
      }
      var last := |frames| - 1;
      var parent := frames[last];
      if parent.value.List? {
        frames := frames[..last] + [parent.(value := List(parent.value.items + [v]))];
        return true;
      }
      if !parent.value.Dict? || parent.key == None {
        return false;
      }
      frames := frames[..last] + [Frame(Dict(parent.value.fields[parent.key.value := v]), None)];
      ok := true;
    }

    method CompleteContainer() returns (ok: bool)
      requires frames != []
      modifies this
      ensures ok == Complete(old(Now())).Some?
      ensures ok ==> Some(Now()) == Complete(old(Now()))
    {
      var value := frames[|frames| - 1].value;
      frames := frames[..|frames| - 1];
      ok := Append(value);
    }

    method Handle(e: Event) returns (ok: bool)
      modifies this
      ensures ok == Step(old(Now()), e).Some?
      ensures ok ==> Some(Now()) == Step(old(Now()), e)
    {
      match e
      case Value(scalar) =>
        if !rootStarted || rootEnded {
          return false;
        }
        ok := Append(Atom(scalar));
      case StartObject =>
        if !rootStarted || rootEnded {
          return false;
        }
        frames := frames + [Frame(Dict(map[]), None)];
        ok := true;
      case Key(key) =>
        if frames == [] || !frames[|frames| - 1].value.Dict? {
          return false;
        }
        frames := frames[..|frames| - 1] + [frames[|frames| - 1].(key := Some(key))];
        ok := true;
      case EndObject =>
        if frames == [] || !frames[|frames| - 1].value.Dict? {
          return false;
        }
        ok := CompleteContainer();
      case StartArray =>
        if !rootStarted {
          rootStarted := true;
          return true;
        }
        if rootEnded {
          return false;
        }
        frames := frames + [Frame(List([]), None)];
        ok := true;
      case EndArray =>
        if frames == [] {
          if !rootStarted || rootEnded {
            return false;
          }
          rootEnded := true;
          return true;
        }
        if !frames[|frames| - 1].value.List? {
          return false;
        }
        ok := CompleteContainer();
    }
  }

  /** The parser driving a handler over a whole document, and `finish` after it. */
  method ForEachRootEntry(root: Json) returns (ok: bool, delivered: seq<(nat, Dom)>)
    ensures ok == root.Array?
    ensures ok ==> delivered == Numbered(root.items)
  {
    hide Step, Events, Appended;
    var sax := new RootArrayEntrySax();
    var events := Events(root);
    RootArrayIsHandedOn(root);
    for i := 0 to |events|
      invariant Feed(Step, Some(START), events[..i]) == Some(sax.Now())
    {
      assert events[..i + 1][..i] == events[..i];
      var handled := sax.Handle(events[i]);
      if !handled {
        assert events == events[..i + 1] + events[i + 1..];
        FeedBoth(Step, Some(START), events[..i + 1], events[i + 1..]);
        FeedNone(Step, events[i + 1..]);
        return false, sax.delivered;
      }
    }
    assert events[..|events|] == events;
    delivered := sax.delivered;
    ok := sax.rootStarted && sax.rootEnded && sax.frames == [];
  }
}
