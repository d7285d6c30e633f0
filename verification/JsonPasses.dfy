/** A streaming pass as CovStructure writes it three times: every value gets the
    next serial number, the handler keeps a stack of frames, and only what happens
    when a value begins and when a container ends differs from pass to pass. The
    stack is shown to do no more than a walk over the tree. */
module JsonPasses {
  import opened Options
  import opened JsonEvents

  const MAX_NESTING := 1024

  datatype Head = ScalarHead(scalar: Scalar) | ArrayHead | ObjectHead

  /** The container a value stands in: its role and the key last seen in it. */
  datatype Parent<R> = Parent(role: R, key: string)

  /** What beginning a value yields: the new result, and the roles of the parent and
      of the value itself if it is a container. */
  datatype Begun<A, R> = Begun(acc: A, parent: R, child: R)

  datatype Pass<!A, !R> = Pass(
    begin: (A, Option<Parent<R>>, nat, Head) -> Option<Begun<A, R>>,
    end: (A, R, Head) -> A)

  function HeadOf(v: Json): Head {
    match v
    case Leaf(scalar) => ScalarHead(scalar)
    case Array(_) => ArrayHead
    case Object(_) => ObjectHead
  }

  /** The number of values in a document, itself included. */
  function Count(v: Json): nat
    decreases v, 0
  {
    match v
    case Leaf(_) => 1
    case Array(items) => 1 + CountItems(items)
    case Object(members) => 1 + CountMembers(members)
  }

  function CountItems(items: seq<Json>): nat
    decreases items, 1
  {
    if items == [] then 0 else CountItems(items[..|items| - 1]) + Count(items[|items| - 1])
  }

  function CountMembers(members: seq<Member>): nat
    decreases members, 1
  {
    if members == [] then 0 else CountMembers(members[..|members| - 1]) + Count(members[|members| - 1].value)
  }

  // The walk over the tree.

  datatype Walked<A, R> = Walked(acc: A, parent: Option<Parent<R>>)

  function Renewed<R>(parent: Option<Parent<R>>, role: R): Option<Parent<R>> {
    if parent == None then None else Some(Parent(role, parent.value.key))
  }

  function Keyed<R>(parent: Option<Parent<R>>, key: string): Option<Parent<R>> {
    if parent == None then None else Some(Parent(parent.value.role, key))
  }

  /** `n` values came before this one. */
  function Walk<A, R>(pass: Pass<A, R>, acc: A, parent: Option<Parent<R>>, n: nat, v: Json): (w: Option<Walked<A, R>>)
    ensures w.Some? ==> w.value.parent.Some? == parent.Some?
    decreases v, 0
  {
    var begun := pass.begin(acc, parent, n + 1, HeadOf(v));
    if begun == None then None
    else
      var after := Renewed(parent, begun.value.parent);
      match v
      case Leaf(_) => Some(Walked(begun.value.acc, after))
      case Array(items) =>
        Finished(pass, WalkItems(pass, begun.value.acc, Parent(begun.value.child, ""), n + 1, items), ArrayHead, after)
      case Object(members) =>
        Finished(pass, WalkMembers(pass, begun.value.acc, Parent(begun.value.child, ""), n + 1, members), ObjectHead,
          after)
  }

  function Finished<A, R>(pass: Pass<A, R>, inner: Option<Walked<A, R>>, head: Head,
      after: Option<Parent<R>>): Option<Walked<A, R>>
    requires inner.Some? ==> inner.value.parent.Some?
  {
    if inner == None then None else Some(Walked(pass.end(inner.value.acc, inner.value.parent.value.role, head), after))
  }

  function WalkItems<A, R>(pass: Pass<A, R>, acc: A, parent: Parent<R>, n: nat,
      items: seq<Json>): (w: Option<Walked<A, R>>)
    ensures w.Some? ==> w.value.parent.Some?
    decreases items, 1
  {
    if items == [] then Some(Walked(acc, Some(parent)))
    else
      var init := items[..|items| - 1];
      var before := WalkItems(pass, acc, parent, n, init);
      if before == None then None
      else Walk(pass, before.value.acc, before.value.parent, n + CountItems(init), items[|items| - 1])
  }

  function WalkMembers<A, R>(pass: Pass<A, R>, acc: A, parent: Parent<R>, n: nat,
      members: seq<Member>): (w: Option<Walked<A, R>>)
    ensures w.Some? ==> w.value.parent.Some?
    decreases members, 1
  {
    if members == [] then Some(Walked(acc, Some(parent)))
    else
      var init, last := members[..|members| - 1], members[|members| - 1];
      var before := WalkMembers(pass, acc, parent, n, init);
      if before == None then None
      else Walk(pass, before.value.acc, Keyed(before.value.parent, last.key), n + CountMembers(init), last.value)
  }

  // The handler and its stack.

  datatype Frame<R> = Frame(head: Head, role: R, key: string)

  datatype State<A, R> = State(frames: seq<Frame<R>>, serial: nat, acc: A)
  {
    function Enclosing(): Option<Parent<R>> {
      if frames == [] then None else Some(Parent(frames[|frames| - 1].role, frames[|frames| - 1].key))
    }

    /** The top frame takes a new role and key. */
    function Top(parent: Option<Parent<R>>): seq<Frame<R>> {
      if frames == [] || parent == None then frames
      else frames[..|frames| - 1] + [Frame(frames[|frames| - 1].head, parent.value.role, parent.value.key)]
    }
  }

  function Scalars<A, R>(pass: Pass<A, R>, s: State<A, R>, scalar: Scalar): Option<State<A, R>> {
    var begun := pass.begin(s.acc, s.Enclosing(), s.serial + 1, ScalarHead(scalar));
    if begun == None then None
    else Some(State(s.Top(Renewed(s.Enclosing(), begun.value.parent)), s.serial + 1, begun.value.acc))
  }

  function Starts<A, R>(pass: Pass<A, R>, s: State<A, R>, head: Head): Option<State<A, R>> {
    var begun := pass.begin(s.acc, s.Enclosing(), s.serial + 1, head);
    if |s.frames| >= MAX_NESTING || begun == None then None
    else
      var frames := s.Top(Renewed(s.Enclosing(), begun.value.parent)) + [Frame(head, begun.value.child, "")];
      Some(State(frames, s.serial + 1, begun.value.acc))
  }

  function Ends<A, R>(pass: Pass<A, R>, s: State<A, R>, head: Head): Option<State<A, R>> {
    if s.frames == [] || s.frames[|s.frames| - 1].head != head then None
    else Some(State(s.frames[..|s.frames| - 1], s.serial, pass.end(s.acc, s.frames[|s.frames| - 1].role, head)))
  }

  function Keys<A, R>(s: State<A, R>, key: string): Option<State<A, R>> {
    if s.frames == [] || s.frames[|s.frames| - 1].head != ObjectHead then None
    else Some(s.(frames := s.frames[..|s.frames| - 1] + [s.frames[|s.frames| - 1].(key := key)]))
  }

  function Step<A, R>(pass: Pass<A, R>, s: State<A, R>, e: Event): Option<State<A, R>> {
    match e
    case Value(scalar) => Scalars(pass, s, scalar)
    case StartObject => Starts(pass, s, ObjectHead)
    case Key(key) => Keys(s, key)
    case EndObject => Ends(pass, s, ObjectHead)
    case StartArray => Starts(pass, s, ArrayHead)
    case EndArray => Ends(pass, s, ArrayHead)
  }

  function StepOf<A, R>(pass: Pass<A, R>): (State<A, R>, Event) -> Option<State<A, R>> {
    (s, e) => Step(pass, s, e)
  }

  /** The state a walk leads to. */
  function After<A, R>(s: State<A, R>, w: Option<Walked<A, R>>, serial: nat): Option<State<A, R>> {
    if w == None then None else Some(State(s.Top(w.value.parent), serial, w.value.acc))
  }

  /** Feeding a document's events is walking its tree, whatever the pass; nesting
      beyond the limit is refused. */
  lemma {:induction false} FeedsLikeWalk<A, R>(pass: Pass<A, R>, s: State<A, R>, v: Json)
    requires |s.frames| <= MAX_NESTING
    ensures Feed(StepOf(pass), Some(s), Events(v))
      == if |s.frames| + Depth(v) <= MAX_NESTING
        then After(s, Walk(pass, s.acc, s.Enclosing(), s.serial, v), s.serial + Count(v)) else None
    decreases v, 0
  {
    hide After, Starts, Scalars, Ends, WalkItems, WalkMembers;
    AfterNone(s, s.serial + Count(v));
    match v
    case Leaf(scalar) =>
      FeedOne(StepOf(pass), s, Value(scalar));
      ScalarStep(pass, s, scalar);
    case Array(items) => FeedsArray(pass, s, items);
    case Object(members) => FeedsObject(pass, s, members);
  }

  lemma {:induction false} FeedsArray<A, R>(pass: Pass<A, R>, s: State<A, R>, items: seq<Json>)
    requires |s.frames| <= MAX_NESTING
    ensures var v := Array(items);
      Feed(StepOf(pass), Some(s), Events(v))
      == if |s.frames| + Depth(v) <= MAX_NESTING
        then After(s, Walk(pass, s.acc, s.Enclosing(), s.serial, v), s.serial + Count(v)) else None
    decreases items, 2
  {
    hide After, Starts, Ends, Walk, WalkItems, Feed, StepOf, Events, Finished;
    FeedContainer(StepOf(pass), s, StartArray, ItemEvents(items), EndArray);
    ContainerSteps(pass, s, Array(items));
    WalkStep(pass, s.acc, s.Enclosing(), s.serial, Array(items));
    StartStep(pass, s, ArrayHead);
    var inner := Starts(pass, s, ArrayHead);
    if inner.Some? {
      var w := WalkItems(pass, inner.value.acc, inner.value.Enclosing().value, s.serial + 1, items);
      FeedsItems(pass, inner.value, items);
      EndStep(pass, s, ArrayHead, w, s.serial + 1 + CountItems(items));
      var middle := Feed(StepOf(pass), Some(inner.value), ItemEvents(items));
      assert StepOf(pass)(s, StartArray) == Some(inner.value);
      assert middle.Some? ==> StepOf(pass)(middle.value, EndArray) == Ends(pass, middle.value, ArrayHead);
    } else {
      FeedNone(StepOf(pass), ItemEvents(items));
    }
  }

  /** The parts of a container, unfolded. */
  lemma ContainerSteps<A, R>(pass: Pass<A, R>, s: State<A, R>, v: Json)
    ensures After(s, None, s.serial + Count(v)) == None
    ensures v.Array? ==> Events(v) == [StartArray] + ItemEvents(v.items) + [EndArray]
    ensures v.Object? ==> Events(v) == [StartObject] + MemberEvents(v.members) + [EndObject]
    ensures forall t ::
      StepOf(pass)(t, StartArray) == Starts(pass, t, ArrayHead) && StepOf(pass)(t, EndArray) == Ends(pass, t, ArrayHead)
    ensures forall t ::
      StepOf(pass)(t, StartObject) == Starts(pass, t, ObjectHead)
      && StepOf(pass)(t, EndObject) == Ends(pass, t, ObjectHead)
  {
    hide Starts, Ends;
  }

  lemma {:induction false} FeedsObject<A, R>(pass: Pass<A, R>, s: State<A, R>, members: seq<Member>)
    requires |s.frames| <= MAX_NESTING
    ensures var v := Object(members);
      Feed(StepOf(pass), Some(s), Events(v))
      == if |s.frames| + Depth(v) <= MAX_NESTING
        then After(s, Walk(pass, s.acc, s.Enclosing(), s.serial, v), s.serial + Count(v)) else None
    decreases members, 2
  {
    hide After, Starts, Ends, Walk, WalkMembers, Feed, StepOf, Events, Finished;
    FeedContainer(StepOf(pass), s, StartObject, MemberEvents(members), EndObject);
    ContainerSteps(pass, s, Object(members));
    WalkStep(pass, s.acc, s.Enclosing(), s.serial, Object(members));
    StartStep(pass, s, ObjectHead);
    var inner := Starts(pass, s, ObjectHead);
    if inner.Some? {
      var w := WalkMembers(pass, inner.value.acc, inner.value.Enclosing().value, s.serial + 1, members);
      FeedsMembers(pass, inner.value, members);
      EndStep(pass, s, ObjectHead, w, s.serial + 1 + CountMembers(members));
      var middle := Feed(StepOf(pass), Some(inner.value), MemberEvents(members));
      assert StepOf(pass)(s, StartObject) == Some(inner.value);
      assert middle.Some? ==> StepOf(pass)(middle.value, EndObject) == Ends(pass, middle.value, ObjectHead);
    } else {
      FeedNone(StepOf(pass), MemberEvents(members));
    }
  }

  /** Walks that follow each other at the top frame. */
  lemma AfterFacts<A, R>(s: State<A, R>, first: Option<Walked<A, R>>, serial: nat)
    requires s.frames != [] && (first.Some? ==> first.value.parent.Some?)
    ensures After(s, Some(Walked(s.acc, s.Enclosing())), s.serial) == Some(s)
    ensures var middle := After(s, first, serial);
      && (middle.Some? <==> first.Some?)
      && (middle.Some? ==>
        && middle.value.acc == first.value.acc && middle.value.serial == serial
        && middle.value.Enclosing() == first.value.parent
        && |middle.value.frames| == |s.frames|
        && middle.value.frames[|s.frames| - 1].head == s.frames[|s.frames| - 1].head
        && forall second: Option<Walked<A, R>>, last | second.Some? ==> second.value.parent.Some? ::
          After(middle.value, second, last) == After(s, second, last))
  {
    assert s.Top(s.Enclosing()) == s.frames;
    if first.Some? {
      var middle := After(s, first, serial).value;
      forall second: Option<Walked<A, R>>, last | second.Some? && second.value.parent.Some?
        ensures After(middle, second, last) == After(s, second, last)
      {
        assert middle.Top(second.value.parent) == s.Top(second.value.parent);
      }
    }
  }

  lemma AfterNone<A, R>(s: State<A, R>, serial: nat)
    ensures After(s, None, serial) == None
  {
  }

  lemma KeyStep<A, R>(pass: Pass<A, R>, s: State<A, R>, key: string)
    requires s.frames != [] && s.frames[|s.frames| - 1].head == ObjectHead
    ensures var keyed := Keys(s, key);
      && StepOf(pass)(s, Key(key)) == keyed && keyed.Some? && keyed.value.Enclosing() == Keyed(s.Enclosing(), key)
      && |keyed.value.frames| == |s.frames|
      && keyed.value.serial == s.serial && keyed.value.acc == s.acc
      && forall w: Option<Walked<A, R>>, last | w.Some? ==>
        w.value.parent.Some? :: After(keyed.value, w, last) == After(s, w, last)
  {
    var keyed := Keys(s, key).value;
    forall w: Option<Walked<A, R>>, last | w.Some? && w.value.parent.Some?
      ensures After(keyed, w, last) == After(s, w, last)
    {
      assert keyed.Top(w.value.parent) == s.Top(w.value.parent);
    }
  }

  lemma ScalarStep<A, R>(pass: Pass<A, R>, s: State<A, R>, scalar: Scalar)
    ensures Scalars(pass, s, scalar) == After(s, Walk(pass, s.acc, s.Enclosing(), s.serial, Leaf(scalar)), s.serial + 1)
  {
  }

  lemma StartStep<A, R>(pass: Pass<A, R>, s: State<A, R>, head: Head)
    ensures var begun, inner := pass.begin(s.acc, s.Enclosing(), s.serial + 1, head), Starts(pass, s, head);
      && (inner.Some? <==> |s.frames| < MAX_NESTING && begun.Some?)
      && (inner.Some? ==>
        && |inner.value.frames| == |s.frames| + 1 && inner.value.serial == s.serial + 1
        && inner.value.acc == begun.value.acc
        && inner.value.Enclosing() == Some(Parent(begun.value.child, ""))
        && inner.value.frames[|s.frames|].head == head)
  {
  }

  /** Closing a container after its contents have been walked. */
  lemma EndStep<A, R>(pass: Pass<A, R>, s: State<A, R>, head: Head, w: Option<Walked<A, R>>, serial: nat)
    requires Starts(pass, s, head).Some? && (w.Some? ==> w.value.parent.Some?)
    ensures var begun, after :=
      pass.begin(s.acc, s.Enclosing(), s.serial + 1, head), After(Starts(pass, s, head).value, w, serial);
      (if after.Some? then Ends(pass, after.value, head) else None)
      == After(s, Finished(pass, w, head, Renewed(s.Enclosing(), begun.value.parent)), serial)
  {
    var begun := pass.begin(s.acc, s.Enclosing(), s.serial + 1, head);
    var below := s.Top(Renewed(s.Enclosing(), begun.value.parent));
    var inner := Starts(pass, s, head).value;
    assert inner.frames[..|inner.frames| - 1] == below;
    if w.Some? {
      assert inner.Top(w.value.parent)[..|inner.frames| - 1] == below;
    }
  }

  lemma {:induction false} FeedsItems<A, R>(pass: Pass<A, R>, s: State<A, R>, items: seq<Json>)
    requires 0 < |s.frames| <= MAX_NESTING
    ensures Feed(StepOf(pass), Some(s), ItemEvents(items))
      == if |s.frames| + ItemDepth(items) <= MAX_NESTING
        then After(s, WalkItems(pass, s.acc, s.Enclosing().value, s.serial, items), s.serial + CountItems(items))
          else None
    decreases items, 1
  {
    hide Walk, After, StepOf, Feed, Events;
    FeedNothing(StepOf(pass), Some(s));
    AfterFacts(s, None, s.serial);
    if items != [] {
      var init, last := items[..|items| - 1], items[|items| - 1];
      FeedsItems(pass, s, init);
      FeedBoth(StepOf(pass), Some(s), ItemEvents(init), Events(last));
      var before := Feed(StepOf(pass), Some(s), ItemEvents(init));
      AfterFacts(s, WalkItems(pass, s.acc, s.Enclosing().value, s.serial, init), s.serial + CountItems(init));
      AfterNone(s, s.serial + CountItems(items));
      if before.Some? {
        FeedsLikeWalk(pass, before.value, last);
      } else {
        FeedNone(StepOf(pass), Events(last));
      }
    }
  }

  lemma {:induction false} FeedsMembers<A, R>(pass: Pass<A, R>, s: State<A, R>, members: seq<Member>)
    requires 0 < |s.frames| <= MAX_NESTING && s.frames[|s.frames| - 1].head == ObjectHead
    ensures Feed(StepOf(pass), Some(s), MemberEvents(members))
      == if |s.frames| + MemberDepth(members) <= MAX_NESTING
        then After(s, WalkMembers(pass, s.acc, s.Enclosing().value, s.serial, members),
          s.serial + CountMembers(members)) else None
    decreases members, 1
  {
    hide Walk, After, Keys, Keyed, StepOf, Feed, Events;
    FeedNothing(StepOf(pass), Some(s));
    AfterFacts(s, None, s.serial);
    if members != [] {
      var init, last := members[..|members| - 1], members[|members| - 1];
      FeedsMembers(pass, s, init);
      var before := Feed(StepOf(pass), Some(s), MemberEvents(init));
      FeedMember(StepOf(pass), s, MemberEvents(init), last);
      AfterFacts(s, WalkMembers(pass, s.acc, s.Enclosing().value, s.serial, init), s.serial + CountMembers(init));
      AfterNone(s, s.serial + CountMembers(members));
      if before.Some? {
        KeyStep(pass, before.value, last.key);
        FeedsLikeWalk(pass, Keys(before.value, last.key).value, last.value);
      }
    }
  }

  /** The handler the passes share: `begin` and `end` are all that tells them apart. */
  class SaxHandler<A, R> {
    const pass: Pass<A, R>

    var frames: seq<Frame<R>>
    var serial: nat
    var acc: A

    function Now(): State<A, R>
      reads this
    {
      State(frames, serial, acc)
    }

    constructor (pass: Pass<A, R>, acc: A)
      ensures this.pass == pass && Now() == State([], 0, acc)
    {
      this.pass, this.acc, frames, serial := pass, acc, [], 0;
    }

    /** `begin_value`, with the next serial. */
    method BeginValue(head: Head) returns (child: Option<R>)
      modifies this
      ensures var begun := pass.begin(old(acc), old(Now()).Enclosing(), old(serial) + 1, head);
        && child == (if begun == None then None else Some(begun.value.child))
        && (begun.Some? ==>
          Now() == State(old(Now()).Top(Renewed(old(Now()).Enclosing(), begun.value.parent)), old(serial) + 1,
            begun.value.acc))
    {
      serial := serial + 1;
      var parent := if frames == [] then None else Some(Parent(frames[|frames| - 1].role, frames[|frames| - 1].key));
      var begun := pass.begin(acc, parent, serial, head);
      if begun == None {
        return None;
      }
      acc := begun.value.acc;
      if frames != [] {
        frames := frames[..|frames| - 1] + [frames[|frames| - 1].(role := begun.value.parent)];
      }
      child := Some(begun.value.child);
    }

    method StartContainer(head: Head) returns (ok: bool)
      modifies this
      ensures ok == Starts(pass, old(Now()), head).Some?
      ensures ok ==> Some(Now()) == Starts(pass, old(Now()), head)
    {
      if |frames| >= MAX_NESTING {
        return false;
      }
      var child := BeginValue(head);
      if child == None {
        return false;
      }
      frames := frames + [Frame(head, child.value, "")];
      ok := true;
    }

    method EndContainer(head: Head) returns (ok: bool)
      modifies this
      ensures ok == Ends(pass, old(Now()), head).Some?
      ensures ok ==> Some(Now()) == Ends(pass, old(Now()), head)
    {
      if frames == [] || frames[|frames| - 1].head != head {
        return false;
      }
      var frame := frames[|frames| - 1];
      frames := frames[..|frames| - 1];
      acc := pass.end(acc, frame.role, head);
      ok := true;
    }

    method TakeKey(key: string) returns (ok: bool)
      modifies this
      ensures ok == Keys(old(Now()), key).Some?
      ensures ok ==> Some(Now()) == Keys(old(Now()), key)
    {
      if frames == [] || frames[|frames| - 1].head != ObjectHead {
        return false;
      }
      frames := frames[..|frames| - 1] + [frames[|frames| - 1].(key := key)];
      ok := true;
    }

    method TakeScalar(scalar: Scalar) returns (ok: bool)
      modifies this
      ensures ok == Scalars(pass, old(Now()), scalar).Some?
      ensures ok ==> Some(Now()) == Scalars(pass, old(Now()), scalar)
    {
      var child := BeginValue(ScalarHead(scalar));
      ok := child.Some?;
    }

    method Handle(e: Event) returns (ok: bool)
      modifies this
      ensures ok == StepOf(pass)(old(Now()), e).Some?
      ensures ok ==> Some(Now()) == StepOf(pass)(old(Now()), e)
    {
      hide Scalars, Starts, Ends, Keys;
      match e
      case Value(scalar) => ok := TakeScalar(scalar);
      case StartObject => ok := StartContainer(ObjectHead);
      case Key(key) => ok := TakeKey(key);
      case EndObject => ok := EndContainer(ObjectHead);
      case StartArray => ok := StartContainer(ArrayHead);
      case EndArray => ok := EndContainer(ArrayHead);
    }
  }

  /** What a whole pass yields. */
  function Outcome<A, R>(pass: Pass<A, R>, acc: A, root: Json): Option<A> {
    if Depth(root) > MAX_NESTING then None
    else
      var w := Walk(pass, acc, None, 0, root);
      if w == None then None else Some(w.value.acc)
  }

  lemma PassIsWalk<A, R>(pass: Pass<A, R>, acc: A, root: Json)
    ensures var after := Feed(StepOf(pass), Some(State([], 0, acc)), Events(root));
      (if after == None then None else Some(after.value.acc)) == Outcome(pass, acc, root)
  {
    hide Walk;
    FeedsLikeWalk(pass, State([], 0, acc), root);
  }

  /** The parser driving a handler over a whole document. */
  method ParseSax<A, R>(pass: Pass<A, R>, acc: A, root: Json) returns (outcome: Option<A>)
    ensures outcome == Outcome(pass, acc, root)
  {
    hide StepOf, Events, Outcome;
    var handler := new SaxHandler(pass, acc);
    var events := Events(root);
    PassIsWalk(pass, acc, root);
    for i := 0 to |events|
      invariant handler.pass == pass
      invariant Feed(StepOf(pass), Some(State([], 0, acc)), events[..i]) == Some(handler.Now())
    {
      assert events[..i + 1][..i] == events[..i];
      var handled := handler.Handle(events[i]);
      if !handled {
        assert events == events[..i + 1] + events[i + 1..];
        FeedBoth(StepOf(pass), Some(State([], 0, acc)), events[..i + 1], events[i + 1..]);
        FeedNone(StepOf(pass), events[i + 1..]);
        return None;
      }
    }
    assert events[..|events|] == events;
    outcome := Some(handler.acc);
  }

  /** One step of a walk. */
  lemma WalkStep<A, R>(pass: Pass<A, R>, acc: A, parent: Option<Parent<R>>, n: nat, v: Json)
    ensures var begun := pass.begin(acc, parent, n + 1, HeadOf(v));
      var w := Walk(pass, acc, parent, n, v);
      if begun == None then w == None
      else
        var after := Renewed(parent, begun.value.parent);
        && (v.Leaf? ==> w == Some(Walked(begun.value.acc, after)))
        && (v.Array? ==>
          w == Finished(pass, WalkItems(pass, begun.value.acc, Parent(begun.value.child, ""), n + 1, v.items),
            ArrayHead, after))
        && (v.Object? ==>
          w == Finished(pass, WalkMembers(pass, begun.value.acc, Parent(begun.value.child, ""), n + 1, v.members),
            ObjectHead, after))
  {
    hide WalkItems, WalkMembers, Finished;
  }
}
