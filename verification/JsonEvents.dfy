/** JSON documents, the parser events they produce, and the values a tree-based
    reader gives them. */
module JsonEvents {
  import opened Options

  datatype Scalar = Null | Boolean(flag: bool) | Integer(number: int) | Float(number64: real) | Text(text: string)

  /** A document as written: an object lists its members in order, duplicates
      included. */
  datatype Json = Leaf(scalar: Scalar) | Array(items: seq<Json>) | Object(members: seq<Member>)

  datatype Member = Member(key: string, value: Json)

  datatype Event =
    | Value(scalar: Scalar)
    | StartObject
    | Key(key: string)
    | EndObject
    | StartArray
    | EndArray

  /** The events of a document, in order. */
  function Events(v: Json): seq<Event>
    decreases v, 0
  {
    match v
    case Leaf(scalar) => [Value(scalar)]
    case Array(items) => [StartArray] + ItemEvents(items) + [EndArray]
    case Object(members) => [StartObject] + MemberEvents(members) + [EndObject]
  }

  function ItemEvents(items: seq<Json>): seq<Event>
    decreases items, 1
  {
    if items == [] then [] else ItemEvents(items[..|items| - 1]) + Events(items[|items| - 1])
  }

  function MemberEvents(members: seq<Member>): seq<Event>
    decreases members, 1
  {
    if members == [] then []
    else
      var last := members[|members| - 1];
      MemberEvents(members[..|members| - 1]) + [Key(last.key)] + Events(last.value)
  }

  /** How deeply containers nest. */
  function Depth(v: Json): nat
    decreases v, 0
  {
    match v
    case Leaf(_) => 0
    case Array(items) => 1 + ItemDepth(items)
    case Object(members) => 1 + MemberDepth(members)
  }

  function ItemDepth(items: seq<Json>): nat
    decreases items, 1
  {
    if items == [] then 0
    else Deeper(ItemDepth(items[..|items| - 1]), Depth(items[|items| - 1]))
  }

  function MemberDepth(members: seq<Member>): nat
    decreases members, 1
  {
    if members == [] then 0
    else Deeper(MemberDepth(members[..|members| - 1]), Depth(members[|members| - 1].value))
  }

  function Deeper(a: nat, b: nat): nat {
    if a < b then b else a
  }

  /** A handler fed events until it refuses one. */
  function Feed<S>(step: (S, Event) -> Option<S>, s: Option<S>, events: seq<Event>): Option<S> {
    if events == [] then s
    else
      var before := Feed(step, s, events[..|events| - 1]);
      if before.Some? then step(before.value, events[|events| - 1]) else None
  }

  lemma {:induction false} FeedBoth<S>(step: (S, Event) -> Option<S>, s: Option<S>, a: seq<Event>, b: seq<Event>)
    ensures Feed(step, s, a + b) == Feed(step, Feed(step, s, a), b)
  {
    if b == [] {
      assert a + b == a;
    } else {
      var init := b[..|b| - 1];
      assert (a + b)[..|a + b| - 1] == a + init;
      FeedBoth(step, s, a, init);
    }
  }

  lemma FeedNothing<S>(step: (S, Event) -> Option<S>, s: Option<S>)
    ensures Feed(step, s, []) == s
  {
  }

  lemma FeedOne<S>(step: (S, Event) -> Option<S>, s: S, e: Event)
    ensures Feed(step, Some(s), [e]) == step(s, e)
  {
    assert [e][..0] == [];
  }

  lemma {:induction false} FeedNone<S>(step: (S, Event) -> Option<S>, events: seq<Event>)
    ensures Feed(step, None, events) == None
  {
    if events != [] {
      FeedNone(step, events[..|events| - 1]);
    }
  }

  /** A container's events around those of its contents. */
  lemma FeedContainer<S>(step: (S, Event) -> Option<S>, s: S, open: Event, contents: seq<Event>, close: Event)
    ensures Feed(step, Some(s), [open] + contents + [close])
      == var after := Feed(step, step(s, open), contents); if after.Some? then step(after.value, close) else None
  {
    FeedOne(step, s, open);
    FeedBoth(step, Some(s), [open], contents);
    FeedBoth(step, Some(s), [open] + contents, [close]);
    var after := Feed(step, step(s, open), contents);
    if after.Some? {
      FeedOne(step, after.value, close);
    } else {
      FeedNone(step, [close]);
    }
  }

  /** The events of an object's last member after those of the others. */
  lemma FeedMember<S>(step: (S, Event) -> Option<S>, s: S, init: seq<Event>, last: Member)
    ensures Feed(step, Some(s), init + [Key(last.key)] + Events(last.value))
      == var before := Feed(step, Some(s), init);
        if before == None then None else Feed(step, step(before.value, Key(last.key)), Events(last.value))
  {
    hide Events;
    var before := Feed(step, Some(s), init);
    FeedBoth(step, Some(s), init + [Key(last.key)], Events(last.value));
    FeedBoth(step, Some(s), init, [Key(last.key)]);
    if before.Some? {
      FeedOne(step, before.value, Key(last.key));
    } else {
      FeedNone(step, [Key(last.key)]);
      FeedNone(step, Events(last.value));
    }
  }
}
