/** `JsonFormatProbe`: format detection from parser events alone, keeping root keys
    and the shapes of four root elements, and the same decision read off the tree. */
module FormatProbes {
  import opened Options
  import opened JsonEvents

  const MAX_FRAMES := 256

  datatype Kind = Nothing | NullKind | BooleanKind | IntegerKind | FloatKind | StringKind | ArrayKind | ObjectKind

  datatype StructureId =
    | TimeBuilderV1 | FuHongV1 | FuHongV2 | FuHongV3 | FuHongV4 | MianYangV1 | QingXuV1 | CovStructure | RunAway
    | GangBanV1 | GangBanV2 | GangBanV3 | GangBanV4 | GangBanV5 | GangBanV6

  predicate IsNumber(kind: Kind) {
    kind == IntegerKind || kind == FloatKind
  }

  function ScalarKind(scalar: Scalar): Kind {
    match scalar
    case Null => NullKind
    case Boolean(_) => BooleanKind
    case Integer(_) => IntegerKind
    case Float(_) => FloatKind
    case Text(_) => StringKind
  }

  function KindOf(v: Json): Kind {
    match v
    case Leaf(scalar) => ScalarKind(scalar)
    case Array(_) => ArrayKind
    case Object(_) => ObjectKind
  }

  function ScalarText(scalar: Scalar): string {
    if scalar.Text? then scalar.text else ""
  }

  function TextOf(v: Json): string {
    if v.Leaf? then ScalarText(v.scalar) else ""
  }

  /** `JsonRootElementProbe`: what is kept of one root element. */
  datatype Shape = Shape(
    kind: Kind, hasName: bool, nameIsString: bool, hasAux: bool, hasX: bool, xIsInteger: bool, hasY: bool,
    yIsInteger: bool, hasZ: bool, zIsInteger: bool, hasList: bool, hasStart: bool, hasEnd: bool, hasXcha: bool,
    hasEp: bool)
  {
    function Record(key: string, valueKind: Kind): Shape {
      if key == "name" then this.(hasName := true, nameIsString := valueKind == StringKind)
      else if key == "aux" then this.(hasAux := true)
      else if key == "x" then this.(hasX := true, xIsInteger := valueKind == IntegerKind)
      else if key == "y" then this.(hasY := true, yIsInteger := valueKind == IntegerKind)
      else if key == "z" then this.(hasZ := true, zIsInteger := valueKind == IntegerKind)
      else if key == "list" then this.(hasList := true)
      else if key == "start" then this.(hasStart := true)
      else if key == "end" then this.(hasEnd := true)
      else if key == "xcha" then this.(hasXcha := true)
      else if key == "ep" then this.(hasEp := true)
      else this
    }

    predicate RunawayShape() {
      kind == ObjectKind && hasName && nameIsString && hasX && xIsInteger && hasY && yIsInteger && hasZ && zIsInteger
    }
  }

  const NO_SHAPE := Shape(
    Nothing, false, false, false, false, false, false, false, false, false, false, false, false, false, false)

  /** The root keys that matter. */
  datatype RootKeys = RootKeys(
    version: bool, versionIsTimeBuilder: bool, fuHongFinal: bool, fuHongBuild: bool, blockCalculationPos: bool,
    chunkedBlocks: bool, namespaces: bool, totalBlocks: bool, block: bool, size: bool, dimensions: bool,
    structure: bool)
  {
    /** The keys are distinct, so at most one flag changes. */
    function Record(key: string, kind: Kind, text: string): RootKeys {
      RootKeys(
        version || key == "version",
        if key == "version" then kind == StringKind && text == "TimeBuilder" else versionIsTimeBuilder,
        fuHongFinal || key == "FuHongBuild_FinalFormat",
        fuHongBuild || key == "FuHongBuild",
        blockCalculationPos || key == "BlockCalculationPos",
        chunkedBlocks || key == "chunkedBlocks",
        namespaces || key == "namespaces",
        totalBlocks || key == "totalBlocks",
        block || key == "block",
        size || key == "size",
        dimensions || key == "dimensions",
        structure || key == "structure")
    }
  }

  const NO_KEYS := RootKeys(false, false, false, false, false, false, false, false, false, false, false, false)

  /** The rolling summary of the finished root elements. */
  datatype Elements = Elements(
    count: nat, first: Shape, second: Shape, penultimate: Shape, last: Shape, hasPenultimate: bool, allRunAway: bool)
  {
    function Finish(current: Shape): Elements {
      Elements(
        count + 1,
        if count == 0 then current else first,
        if count == 1 then current else second,
        last,
        current,
        count != 0,
        if count == 0 then current.RunawayShape() else allRunAway && current.RunawayShape())
    }
  }

  const NO_ELEMENTS := Elements(0, NO_SHAPE, NO_SHAPE, NO_SHAPE, NO_SHAPE, false, false)

  datatype Frame = Frame(kind: Kind, key: string)

  datatype Probe = Probe(frames: seq<Frame>, root: Kind, keys: RootKeys, elements: Elements, current: Shape,
      active: bool)
  {
    function Top(): Frame
      requires frames != []
    {
      frames[|frames| - 1]
    }

    function Below(): seq<Frame>
      requires frames != []
    {
      frames[..|frames| - 1]
    }

    function FinishElement(): Probe {
      if active then this.(elements := elements.Finish(current), current := NO_SHAPE, active := false) else this
    }

    /** `begin_value`, for a value inside some container. */
    function BeginValue(kind: Kind, text: string): Option<Probe>
      requires frames != []
    {
      if root == ArrayKind && |frames| == 1 && Top().kind == ArrayKind then
        if active then None else Some(this.(current := NO_SHAPE.(kind := kind), active := true))
      else if Top().kind != ObjectKind then Some(this)
      else Some(this.(frames := Below() + [Frame(ObjectKind, "")]).RecordMember(Top().key, kind, text))
    }

    /** A member of the root object, or of an object that is a root element. */
    function RecordMember(key: string, kind: Kind, text: string): Probe
      requires frames != []
    {
      if root == ObjectKind && |frames| == 1 then this.(keys := keys.Record(key, kind, text))
      else if root == ArrayKind && |frames| == 2 && frames[0].kind == ArrayKind && active then
        this.(current := current.Record(key, kind))
      else this
    }

    function TakeScalar(kind: Kind, text: string): Option<Probe> {
      if frames == [] then if root != Nothing then None else Some(this.(root := kind))
      else
        var begun := BeginValue(kind, text);
        if begun == None then None
        else if root == ArrayKind && |frames| == 1 then Some(begun.value.FinishElement())
        else begun
    }

    function BeginContainer(kind: Kind): Option<Probe> {
      if |frames| >= MAX_FRAMES then None
      else if frames == [] then if root != Nothing then None else Some(this.(root := kind, frames := [Frame(kind, "")]))
      else
        var begun := BeginValue(kind, "");
        if begun == None then None else Some(begun.value.(frames := begun.value.frames + [Frame(kind, "")]))
    }

    function EndContainer(kind: Kind): Option<Probe> {
      if frames == [] || Top().kind != kind then None
      else
        var popped := this.(frames := Below());
        Some(if root == ArrayKind && |frames| == 2 then popped.FinishElement() else popped)
    }

    function TakeKey(key: string): Option<Probe> {
      if frames == [] || Top().kind != ObjectKind then None
      else Some(this.(frames := Below() + [Frame(ObjectKind, key)]))
    }

    function Detected(): Option<StructureId> {
      if root == ObjectKind then DetectedObject(keys)
      else if root == ArrayKind && elements.count > 0 then
        DetectedArray(elements.count, elements.first, elements.second, elements.hasPenultimate, elements.penultimate,
          elements.last, elements.allRunAway)
      else None
    }
  }

  function DetectedObject(keys: RootKeys): Option<StructureId> {
    if keys.versionIsTimeBuilder then Some(TimeBuilderV1)
    else if keys.fuHongFinal then Some(FuHongV2)
    else if keys.fuHongBuild then Some(if keys.blockCalculationPos then FuHongV3 else FuHongV4)
    else if keys.chunkedBlocks && keys.namespaces then Some(MianYangV1)
    else if keys.totalBlocks then Some(QingXuV1)
    else if keys.block && keys.version then Some(TimeBuilderV1)
    else if (keys.size || keys.dimensions) && keys.structure then Some(CovStructure)
    else None
  }

  function DetectedArray(
    count: nat, first: Shape, second: Shape, hasPenultimate: bool, penultimate: Shape, last: Shape,
    allRunAway: bool): Option<StructureId>
  {
    if first.kind == ArrayKind && last.kind == ArrayKind then Some(GangBanV6)
    else if count >= 2 && IsNumber(first.kind) && hasPenultimate && penultimate.kind == ObjectKind && penultimate.hasEp
      && last.kind == ArrayKind then
      Some(GangBanV5)
    else if first.kind != ObjectKind then None
    else if allRunAway then Some(RunAway)
    else if first.hasName && first.hasAux && first.hasX && first.hasY && first.hasZ then Some(FuHongV1)
    else if count >= 2 && last.kind == ObjectKind && last.hasList then
      Some(
        if hasPenultimate && penultimate.kind == ObjectKind && penultimate.hasStart && penultimate.hasEnd then GangBanV1
        else GangBanV2)
    else if count >= 2 && first.hasXcha && second.kind == StringKind then Some(GangBanV3)
    else if count >= 2 && first.hasXcha && second.kind == ArrayKind then Some(GangBanV4)
    else None
  }

  const START := Probe([], Nothing, NO_KEYS, NO_ELEMENTS, NO_SHAPE, false)

  function Step(p: Probe, e: Event): Option<Probe> {
    match e
    case Value(scalar) => p.TakeScalar(ScalarKind(scalar), ScalarText(scalar))
    case StartObject => p.BeginContainer(ObjectKind)
    case Key(key) => p.TakeKey(key)
    case EndObject => p.EndContainer(ObjectKind)
    case StartArray => p.BeginContainer(ArrayKind)
    case EndArray => p.EndContainer(ArrayKind)
  }

  // The tree-based reading.

  predicate Has(members: seq<Member>, key: string) {
    exists m :: m in members && m.key == key
  }

  /** The last member with a key, as a map of members would keep it. */
  function Last(members: seq<Member>, key: string): Option<Json> {
    if members == [] then None
    else if members[|members| - 1].key == key then Some(members[|members| - 1].value)
    else Last(members[..|members| - 1], key)
  }

  predicate LastKindIs(members: seq<Member>, key: string, kind: Kind) {
    Last(members, key).Some? && KindOf(Last(members, key).value) == kind
  }

  function MembersOf(v: Json): seq<Member> {
    if v.Object? then v.members else []
  }

  function ShapeOf(v: Json): Shape {
    var m := MembersOf(v);
    Shape(
      KindOf(v), Has(m, "name"), LastKindIs(m, "name", StringKind), Has(m, "aux"), Has(m, "x"),
      LastKindIs(m, "x", IntegerKind), Has(m, "y"), LastKindIs(m, "y", IntegerKind), Has(m, "z"),
      LastKindIs(m, "z", IntegerKind), Has(m, "list"), Has(m, "start"), Has(m, "end"), Has(m, "xcha"), Has(m, "ep"))
  }

  function KeysOf(m: seq<Member>): RootKeys {
    RootKeys(
      Has(m, "version"), Last(m, "version") == Some(Leaf(Text("TimeBuilder"))), Has(m, "FuHongBuild_FinalFormat"),
      Has(m, "FuHongBuild"), Has(m, "BlockCalculationPos"), Has(m, "chunkedBlocks"), Has(m, "namespaces"),
      Has(m, "totalBlocks"), Has(m, "block"), Has(m, "size"), Has(m, "dimensions"), Has(m, "structure"))
  }

  predicate AllRunAway(items: seq<Json>) {
    forall v :: v in items ==> ShapeOf(v).RunawayShape()
  }

  /** The same decision with the whole document at hand. */
  function DetectedTree(root: Json): Option<StructureId> {
    match root
    case Leaf(_) => None
    case Object(members) => DetectedObject(KeysOf(members))
    case Array(items) =>
      var n := |items|;
      if n == 0 then None
      else
        DetectedArray(n, ShapeOf(items[0]), if n >= 2 then ShapeOf(items[1]) else NO_SHAPE, n >= 2,
          if n >= 2 then ShapeOf(items[n - 2]) else NO_SHAPE, ShapeOf(items[n - 1]), AllRunAway(items))
  }

  lemma OneMoreMember(members: seq<Member>, key: string)
    requires members != []
    ensures var init, last := members[..|members| - 1], members[|members| - 1];
      && Has(members, key) == (Has(init, key) || last.key == key)
      && Last(members, key) == (if last.key == key then Some(last.value) else Last(init, key))
  {
    var init, last := members[..|members| - 1], members[|members| - 1];
    assert forall m :: m in members <==> m in init || m == last;
  }

  /** Recording a member updates the shape as reading the longer object does. */
  lemma RecordedShape(members: seq<Member>)
    requires members != []
    ensures var init, last := members[..|members| - 1], members[|members| - 1];
      ShapeOf(Object(members)) == ShapeOf(Object(init)).Record(last.key, KindOf(last.value))
  {
    hide Has, Last;
    OneMoreMember(members, "name");
    OneMoreMember(members, "aux");
    OneMoreMember(members, "x");
    OneMoreMember(members, "y");
    OneMoreMember(members, "z");
    OneMoreMember(members, "list");
    OneMoreMember(members, "start");
    OneMoreMember(members, "end");
    OneMoreMember(members, "xcha");
    OneMoreMember(members, "ep");
  }

  lemma RecordedKeys(members: seq<Member>)
    requires members != []
    ensures var init, last := members[..|members| - 1], members[|members| - 1];
      KeysOf(members) == KeysOf(init).Record(last.key, KindOf(last.value), TextOf(last.value))
  {
    hide Has, Last;
    OneMoreMember(members, "version");
    OneMoreMember(members, "FuHongBuild_FinalFormat");
    OneMoreMember(members, "FuHongBuild");
    OneMoreMember(members, "BlockCalculationPos");
    OneMoreMember(members, "chunkedBlocks");
    OneMoreMember(members, "namespaces");
    OneMoreMember(members, "totalBlocks");
    OneMoreMember(members, "block");
    OneMoreMember(members, "size");
    OneMoreMember(members, "dimensions");
    OneMoreMember(members, "structure");
  }

  /** Two frames deep or more, with room for another. */
  predicate Inner(p: Probe) {
    2 <= |p.frames| <= MAX_FRAMES
  }

  /** From the second frame down, a whole value does what beginning it does, or is
      refused because it nests too deeply. */
  lemma {:induction false} FeedsInnerValue(p: Probe, v: Json)
    requires Inner(p)
    ensures p.BeginValue(KindOf(v), TextOf(v)).Some?
    ensures Feed(Step, Some(p), Events(v)) == if |p.frames| + Depth(v) <= MAX_FRAMES
      then p.BeginValue(KindOf(v), TextOf(v)) else None
    decreases v, 0
  {
    hide Step;
    match v
    case Leaf(scalar) =>
      InnerScalar(p, scalar);
      FeedOne(Step, p, Value(scalar));
    case Array(items) =>
      FeedContainer(Step, p, StartArray, ItemEvents(items), EndArray);
      if |p.frames| < MAX_FRAMES {
        InnerContainer(p, ArrayKind);
        FeedsInnerItems(Opened(p, ArrayKind), items);
      } else {
        TooDeep(p, ItemEvents(items));
      }
    case Object(members) =>
      FeedContainer(Step, p, StartObject, MemberEvents(members), EndObject);
      if |p.frames| < MAX_FRAMES {
        InnerContainer(p, ObjectKind);
        FeedsInnerMembers(Opened(p, ObjectKind), members);
      } else {
        TooDeep(p, MemberEvents(members));
      }
  }

  function Opened(p: Probe, kind: Kind): Probe
    requires Inner(p)
  {
    var begun := p.BeginValue(kind, "").value;
    begun.(frames := begun.frames + [Frame(kind, "")])
  }

  lemma InnerScalar(p: Probe, scalar: Scalar)
    requires Inner(p)
    ensures Step(p, Value(scalar)) == p.BeginValue(ScalarKind(scalar), ScalarText(scalar))
  {
  }

  /** Opening and closing an inner container is beginning its value. */
  lemma InnerContainer(p: Probe, kind: Kind)
    requires Inner(p) && |p.frames| < MAX_FRAMES
    ensures kind == ArrayKind ==>
      Step(p, StartArray) == Some(Opened(p, kind)) && Step(Opened(p, kind), EndArray) == p.BeginValue(kind, "")
    ensures kind == ObjectKind ==>
      Step(p, StartObject) == Some(Opened(p, kind)) && Step(Opened(p, kind), EndObject) == p.BeginValue(kind, "")
    ensures 3 <= |Opened(p, kind).frames| == |p.frames| + 1 && Opened(p, kind).Top() == Frame(kind, "")
  {
    hide Probe.BeginValue;
    BegunInner(p, kind);
    var begun := p.BeginValue(kind, "").value;
    assert (begun.frames + [Frame(kind, "")])[..|begun.frames|] == begun.frames;
  }

  lemma BegunInner(p: Probe, kind: Kind)
    requires Inner(p)
    ensures var begun :=
      p.BeginValue(kind, ""); begun.Some? && |begun.value.frames| == |p.frames| && begun.value.root == p.root
  {
    hide Shape.Record, RootKeys.Record;
  }

  lemma TooDeep(p: Probe, contents: seq<Event>)
    requires |p.frames| >= MAX_FRAMES
    ensures Feed(Step, Step(p, StartArray), contents) == None && Feed(Step, Step(p, StartObject), contents) == None
  {
    FeedNone(Step, contents);
  }

  lemma {:induction false} FeedsInnerItems(p: Probe, items: seq<Json>)
    requires Inner(p) && p.Top().kind == ArrayKind
    ensures Feed(Step, Some(p), ItemEvents(items)) == if |p.frames| + ItemDepth(items) <= MAX_FRAMES then Some(p)
      else None
    decreases items, 1
  {
    hide Step;
    if items != [] {
      var init, last := items[..|items| - 1], items[|items| - 1];
      FeedsInnerItems(p, init);
      FeedBoth(Step, Some(p), ItemEvents(init), Events(last));
      FeedsInnerValue(p, last);
      FeedNone(Step, Events(last));
    }
  }

  lemma {:induction false} FeedsInnerMembers(p: Probe, members: seq<Member>)
    requires 3 <= |p.frames| <= MAX_FRAMES && p.Top() == Frame(ObjectKind, "")
    ensures Feed(Step, Some(p), MemberEvents(members)) == if |p.frames| + MemberDepth(members) <= MAX_FRAMES
      then Some(p) else None
    decreases members, 1
  {
    hide Step;
    if members != [] {
      var init, last := members[..|members| - 1], members[|members| - 1];
      FeedsInnerMembers(p, init);
      FeedMember(Step, p, MemberEvents(init), last);
      if |p.frames| + MemberDepth(init) <= MAX_FRAMES {
        KeyTaken(p, last.key);
        var keyed := p.(frames := p.Below() + [Frame(ObjectKind, last.key)]);
        FeedsInnerValue(keyed, last.value);
        KeyCleared(p, last.key, KindOf(last.value), TextOf(last.value));
      }
    }
  }

  lemma KeyTaken(p: Probe, key: string)
    requires p.frames != [] && p.Top().kind == ObjectKind
    ensures Step(p, Key(key)) == Some(p.(frames := p.Below() + [Frame(ObjectKind, key)]))
  {
  }

  /** Deep inside, beginning a value only clears its key. */
  lemma KeyCleared(p: Probe, key: string, kind: Kind, text: string)
    requires 3 <= |p.frames| && p.Top() == Frame(ObjectKind, "")
    ensures p.(frames := p.Below() + [Frame(ObjectKind, key)]).BeginValue(kind, text) == Some(p)
  {
    var keyed := p.(frames := p.Below() + [Frame(ObjectKind, key)]);
    assert keyed.Below() == p.Below();
    assert p.Below() + [Frame(ObjectKind, "")] == p.frames;
  }

  // A root element.

  /** Between two elements of a root array. */
  function AtElement(elements: Elements): Probe {
    Probe([Frame(ArrayKind, "")], ArrayKind, NO_KEYS, elements, NO_SHAPE, false)
  }

  /** Inside an object element whose members so far have the given shape. */
  function InElement(elements: Elements, shape: Shape): Probe {
    Probe([Frame(ArrayKind, ""), Frame(ObjectKind, "")], ArrayKind, NO_KEYS, elements, shape, true)
  }

  /** A whole element is summarised by its shape, unless it nests too deeply. */
  lemma FeedsElement(elements: Elements, v: Json)
    ensures Feed(Step, Some(AtElement(elements)), Events(v))
      == if 1 + Depth(v) <= MAX_FRAMES then Some(AtElement(elements.Finish(ShapeOf(v)))) else None
  {
    hide Step, ShapeOf, Elements.Finish, Shape.Record;
    var p := AtElement(elements);
    match v
    case Leaf(scalar) =>
      ScalarElement(elements, scalar);
      FeedOne(Step, p, Value(scalar));
    case Array(items) =>
      var entered := p.(current := ShapeOf(v), active := true, frames := p.frames + [Frame(ArrayKind, "")]);
      FeedContainer(Step, p, StartArray, ItemEvents(items), EndArray);
      ArrayElement(elements, items);
      FeedsInnerItems(entered, items);
    case Object(members) =>
      FeedContainer(Step, p, StartObject, MemberEvents(members), EndObject);
      ObjectElement(elements, members);
      FeedsElementMembers(elements, members);
  }

  lemma ScalarElement(elements: Elements, scalar: Scalar)
    ensures Step(AtElement(elements), Value(scalar)) == Some(AtElement(elements.Finish(ShapeOf(Leaf(scalar)))))
  {
    hide Elements.Finish;
  }

  lemma ArrayElement(elements: Elements, items: seq<Json>)
    ensures var p := AtElement(elements);
      var entered := p.(current := ShapeOf(Array(items)), active := true, frames := p.frames + [Frame(ArrayKind, "")]);
      && Step(p, StartArray) == Some(entered) && entered.Top() == Frame(ArrayKind, "")
      && Step(entered, EndArray) == Some(AtElement(elements.Finish(ShapeOf(Array(items)))))
  {
    hide Elements.Finish;
  }

  lemma ObjectElement(elements: Elements, members: seq<Member>)
    ensures Step(AtElement(elements), StartObject) == Some(InElement(elements, ShapeOf(Object([]))))
    ensures Step(InElement(elements, ShapeOf(Object(members))), EndObject)
      == Some(AtElement(elements.Finish(ShapeOf(Object(members)))))
  {
    hide Elements.Finish;
    ShapeOfNothing();
    assert AtElement(elements).frames + [Frame(ObjectKind, "")] == [Frame(ArrayKind, ""), Frame(ObjectKind, "")];
  }

  lemma ShapeOfNothing()
    ensures ShapeOf(Object([])) == NO_SHAPE.(kind := ObjectKind) && KeysOf([]) == NO_KEYS
  {
  }

  lemma {:induction false} FeedsElementMembers(elements: Elements, members: seq<Member>)
    ensures Feed(Step, Some(InElement(elements, ShapeOf(Object([])))), MemberEvents(members))
      == if 2 + MemberDepth(members) <= MAX_FRAMES then Some(InElement(elements, ShapeOf(Object(members)))) else None
  {
    hide Step, ShapeOf, Shape.Record;
    if members != [] {
      var init, last := members[..|members| - 1], members[|members| - 1];
      FeedsElementMembers(elements, init);
      FeedMember(Step, InElement(elements, ShapeOf(Object([]))), MemberEvents(init), last);
      if 2 + MemberDepth(init) <= MAX_FRAMES {
        var p := InElement(elements, ShapeOf(Object(init)));
        var keyed := p.(frames := p.Below() + [Frame(ObjectKind, last.key)]);
        KeyTaken(p, last.key);
        FeedsInnerValue(keyed, last.value);
        MemberRecorded(elements, ShapeOf(Object(init)), last.key, KindOf(last.value), TextOf(last.value));
        RecordedShape(members);
      }
    }
  }

  lemma MemberRecorded(elements: Elements, shape: Shape, key: string, kind: Kind, text: string)
    ensures var p := InElement(elements, shape);
      var keyed := p.(frames := p.Below() + [Frame(ObjectKind, key)]);
      |keyed.frames| == 2 && keyed.BeginValue(kind, text) == Some(InElement(elements, shape.Record(key, kind)))
  {
    hide Shape.Record;
    var p := InElement(elements, shape);
    var keyed := p.(frames := p.Below() + [Frame(ObjectKind, key)]);
    assert keyed.Below() + [Frame(ObjectKind, "")] == p.frames;
  }

  /** The rolling summary of a list of elements. */
  function Summary(items: seq<Json>): Elements {
    if items == [] then NO_ELEMENTS else Summary(items[..|items| - 1]).Finish(ShapeOf(items[|items| - 1]))
  }

  lemma {:induction false} FeedsElements(items: seq<Json>)
    ensures Feed(Step, Some(AtElement(NO_ELEMENTS)), ItemEvents(items))
      == if 1 + ItemDepth(items) <= MAX_FRAMES then Some(AtElement(Summary(items))) else None
  {
    hide Step, ShapeOf, Elements.Finish;
    if items != [] {
      var init, last := items[..|items| - 1], items[|items| - 1];
      FeedsElements(init);
      FeedBoth(Step, Some(AtElement(NO_ELEMENTS)), ItemEvents(init), Events(last));
      FeedsElement(Summary(init), last);
      FeedNone(Step, Events(last));
    }
  }

  /** The rolling summary holds the first, second, last but one and last element,
      and whether all of them look alike. */
  lemma {:induction false} SummaryIs(items: seq<Json>)
    ensures var e, n := Summary(items), |items|;
      && e.count == n && e.hasPenultimate == (n >= 2)
      && (n >= 1 ==> e.first == ShapeOf(items[0]) && e.last == ShapeOf(items[n - 1]))
      && (n >= 2 ==> e.second == ShapeOf(items[1]) && e.penultimate == ShapeOf(items[n - 2]))
      && (n < 1 ==> e.last == NO_SHAPE) && (n < 2 ==> e.second == NO_SHAPE && e.penultimate == NO_SHAPE)
      && (n >= 1 ==> e.allRunAway == AllRunAway(items))
  {
    hide ShapeOf, Shape.RunawayShape;
    if items != [] {
      var init, last := items[..|items| - 1], items[|items| - 1];
      SummaryIs(init);
      assert forall v :: v in items <==> v in init || v == last;
    }
  }

  // A root object.

  function InRoot(keys: RootKeys): Probe {
    Probe([Frame(ObjectKind, "")], ObjectKind, keys, NO_ELEMENTS, NO_SHAPE, false)
  }

  /** Any value of a root object's member is recorded, its contents are not. */
  lemma FeedsRootValue(keys: RootKeys, key: string, v: Json)
    ensures var p := InRoot(keys).(frames := [Frame(ObjectKind, key)]);
      Feed(Step, Some(p), Events(v))
      == if 1 + Depth(v) <= MAX_FRAMES then Some(InRoot(keys.Record(key, KindOf(v), TextOf(v)))) else None
  {
    hide Step, RootKeys.Record;
    var p, after := InRoot(keys).(frames := [Frame(ObjectKind, key)]), InRoot(keys.Record(key, KindOf(v), TextOf(v)));
    RootValueSteps(keys, key, v);
    match v
    case Leaf(scalar) => FeedOne(Step, p, Value(scalar));
    case Array(items) =>
      FeedContainer(Step, p, StartArray, ItemEvents(items), EndArray);
      FeedsInnerItems(after.(frames := after.frames + [Frame(ArrayKind, "")]), items);
    case Object(members) =>
      FeedContainer(Step, p, StartObject, MemberEvents(members), EndObject);
      FeedsSecondMembers(after.(frames := after.frames + [Frame(ObjectKind, "")]), members);
  }

  lemma RootValueSteps(keys: RootKeys, key: string, v: Json)
    ensures var p, after :=
      InRoot(keys).(frames := [Frame(ObjectKind, key)]), InRoot(keys.Record(key, KindOf(v), TextOf(v)));
      var inArray, inObject :=
        after.(frames := after.frames + [Frame(ArrayKind, "")]),
        after.(frames := after.frames + [Frame(ObjectKind, "")]);
      && (v.Leaf? ==> Step(p, Value(v.scalar)) == Some(after))
      && (v.Array? ==> Step(p, StartArray) == Some(inArray) && Step(inArray, EndArray) == Some(after))
      && (v.Object? ==> Step(p, StartObject) == Some(inObject) && Step(inObject, EndObject) == Some(after))
  {
    hide RootKeys.Record;
    var p, after := InRoot(keys).(frames := [Frame(ObjectKind, key)]), InRoot(keys.Record(key, KindOf(v), TextOf(v)));
    assert p.Below() + [Frame(ObjectKind, "")] == after.frames;
  }

  /** The second level under a root object. */
  lemma {:induction false} FeedsSecondMembers(p: Probe, members: seq<Member>)
    requires |p.frames| == 2 && p.root == ObjectKind && p.Top() == Frame(ObjectKind, "")
    ensures Feed(Step, Some(p), MemberEvents(members)) == if 2 + MemberDepth(members) <= MAX_FRAMES then Some(p)
      else None
  {
    hide Step;
    if members != [] {
      var init, last := members[..|members| - 1], members[|members| - 1];
      FeedsSecondMembers(p, init);
      FeedMember(Step, p, MemberEvents(init), last);
      if 2 + MemberDepth(init) <= MAX_FRAMES {
        KeyTaken(p, last.key);
        var keyed := p.(frames := p.Below() + [Frame(ObjectKind, last.key)]);
        FeedsInnerValue(keyed, last.value);
        SecondKeyCleared(p, last.key, KindOf(last.value), TextOf(last.value));
      }
    }
  }

  lemma SecondKeyCleared(p: Probe, key: string, kind: Kind, text: string)
    requires |p.frames| == 2 && p.root == ObjectKind && p.Top() == Frame(ObjectKind, "")
    ensures p.(frames := p.Below() + [Frame(ObjectKind, key)]).BeginValue(kind, text) == Some(p)
  {
    var keyed := p.(frames := p.Below() + [Frame(ObjectKind, key)]);
    assert keyed.Below() == p.Below();
    assert p.Below() + [Frame(ObjectKind, "")] == p.frames;
  }

  lemma {:induction false} FeedsRootMembers(members: seq<Member>)
    ensures Feed(Step, Some(InRoot(NO_KEYS)), MemberEvents(members))
      == if 1 + MemberDepth(members) <= MAX_FRAMES then Some(InRoot(KeysOf(members))) else None
  {
    hide Step, KeysOf, RootKeys.Record;
    if members == [] {
      ShapeOfNothing();
    } else {
      var init, last := members[..|members| - 1], members[|members| - 1];
      FeedsRootMembers(init);
      FeedMember(Step, InRoot(NO_KEYS), MemberEvents(init), last);
      if 1 + MemberDepth(init) <= MAX_FRAMES {
        KeyTaken(InRoot(KeysOf(init)), last.key);
        assert InRoot(KeysOf(init)).Below() + [Frame(ObjectKind, last.key)] == [Frame(ObjectKind, last.key)];
        FeedsRootValue(KeysOf(init), last.key, last.value);
        RecordedKeys(members);
      }
    }
  }

  /** The probe accepts a document exactly when it nests no deeper than the limit,
      and then detects what the tree-based reading does. */
  lemma ProbeReadsTheTree(root: Json)
    ensures var after := Feed(Step, Some(START), Events(root));
      && (after.Some? <==> Depth(root) <= MAX_FRAMES)
      && (after.Some? ==> after.value.Detected() == DetectedTree(root))
  {
    hide Step, KeysOf, ShapeOf, DetectedArray, DetectedObject, AllRunAway, Summary;
    RootSteps(root);
    match root
    case Leaf(scalar) => FeedOne(Step, START, Value(scalar));
    case Array(items) =>
      FeedContainer(Step, START, StartArray, ItemEvents(items), EndArray);
      FeedsElements(items);
      SummaryIs(items);
    case Object(members) =>
      FeedContainer(Step, START, StartObject, MemberEvents(members), EndObject);
      FeedsRootMembers(members);
  }

  lemma RootSteps(root: Json)
    ensures match root
      case Leaf(scalar) => Step(START, Value(scalar)) == Some(START.(root := ScalarKind(scalar)))
      case Array(items) =>
        && Step(START, StartArray) == Some(AtElement(NO_ELEMENTS))
        && Step(AtElement(Summary(items)), EndArray) == Some(AtElement(Summary(items)).(frames := []))
      case Object(members) =>
        && Step(START, StartObject) == Some(InRoot(NO_KEYS))
        && Step(InRoot(KeysOf(members)), EndObject) == Some(InRoot(KeysOf(members)).(frames := []))
  {
    hide KeysOf, Summary;
  }

  /** The probe itself, whose handlers update its fields in place. */
  class JsonFormatProbe {
    var frames: seq<Frame>
    var rootType: Kind
    var keys: RootKeys
    var current: Shape
    var first: Shape
    var second: Shape
    var penultimate: Shape
    var last: Shape
    var rootCount: nat
    var rootElementActive: bool
    var hasPenultimate: bool
    var allRunAway: bool

    function Now(): Probe
      reads this
    {
      Probe(
        frames, rootType, keys, Elements(rootCount, first, second, penultimate, last, hasPenultimate, allRunAway),
          current,
        rootElementActive)
    }

    constructor ()
      ensures Now() == START
    {
      frames, rootType, keys, current, first, second := [], Nothing, NO_KEYS, NO_SHAPE, NO_SHAPE, NO_SHAPE;
      penultimate, last, rootCount := NO_SHAPE, NO_SHAPE, 0;
      rootElementActive, hasPenultimate, allRunAway := false, false, false;
    }

    method FinishRootElement()
      modifies this
      ensures Now() == old(Now()).FinishElement()
    {
      hide Shape.RunawayShape;
      if !rootElementActive {
        return;
      }
      if rootCount == 0 {
        first := current;
        allRunAway := current.RunawayShape();
      } else {
        allRunAway := allRunAway && current.RunawayShape();
      }
      if rootCount == 1 {
        second := current;
      }
      penultimate := last;
      hasPenultimate := rootCount != 0;
      last := current;
      rootCount := rootCount + 1;
      current := NO_SHAPE;
      rootElementActive := false;
    }

    method BeginValue(kind: Kind, text: string) returns (ok: bool)
      requires frames != []
      modifies this
      ensures ok == old(Now()).BeginValue(kind, text).Some?
      ensures ok ==> Some(Now()) == old(Now()).BeginValue(kind, text)
    {
      hide Probe.RecordMember;
      var top := |frames| - 1;
      var parent := frames[top];
      if rootType == ArrayKind && |frames| == 1 && parent.kind == ArrayKind {
        if rootElementActive {
          return false;
        }
        current := NO_SHAPE.(kind := kind);
        rootElementActive := true;
        return true;
      }
      if parent.kind != ObjectKind {
        return true;
      }
      frames := frames[..top] + [Frame(ObjectKind, "")];
      RecordMember(parent.key, kind, text);
      ok := true;
    }

    method RecordMember(key: string, kind: Kind, text: string)
      requires frames != []
      modifies this
      ensures Now() == old(Now()).RecordMember(key, kind, text)
    {
      hide Shape.Record, RootKeys.Record;
      if rootType == ObjectKind && |frames| == 1 {
        keys := keys.Record(key, kind, text);
      } else if rootType == ArrayKind && |frames| == 2 && frames[0].kind == ArrayKind && rootElementActive {
        current := current.Record(key, kind);
      }
    }

    method TakeScalar(kind: Kind, text: string) returns (ok: bool)
      modifies this
      ensures ok == old(Now()).TakeScalar(kind, text).Some?
      ensures ok ==> Some(Now()) == old(Now()).TakeScalar(kind, text)
    {
      hide Probe.BeginValue, Probe.FinishElement;
      if frames == [] {
        if rootType != Nothing {
          return false;
        }
        rootType := kind;
        return true;
      }
      ok := BeginValue(kind, text);
      if ok && rootType == ArrayKind && |frames| == 1 {
        ScalarKeepsFrames(old(Now()), kind, text);
        FinishRootElement();
      } else if ok {
        ScalarKeepsFrames(old(Now()), kind, text);
      }
    }

    method BeginContainer(kind: Kind) returns (ok: bool)
      modifies this
      ensures ok == old(Now()).BeginContainer(kind).Some?
      ensures ok ==> Some(Now()) == old(Now()).BeginContainer(kind)
    {
      hide Probe.BeginValue;
      if |frames| >= MAX_FRAMES {
        return false;
      }
      if frames == [] {
        if rootType != Nothing {
          return false;
        }
        rootType := kind;
        assert frames + [Frame(kind, "")] == [Frame(kind, "")];
      } else {
        ok := BeginValue(kind, "");
        if !ok {
          return;
        }
      }
      frames := frames + [Frame(kind, "")];
      ok := true;
    }

    method EndContainer(kind: Kind) returns (ok: bool)
      modifies this
      ensures ok == old(Now()).EndContainer(kind).Some?
      ensures ok ==> Some(Now()) == old(Now()).EndContainer(kind)
    {
      hide Probe.FinishElement;
      if frames == [] || frames[|frames| - 1].kind != kind {
        return false;
      }
      var finishes := rootType == ArrayKind && |frames| == 2;
      frames := frames[..|frames| - 1];
      if finishes {
        FinishRootElement();
      }
      ok := true;
    }

    method TakeKey(key: string) returns (ok: bool)
      modifies this
      ensures ok == old(Now()).TakeKey(key).Some?
      ensures ok ==> Some(Now()) == old(Now()).TakeKey(key)
    {
      if frames == [] || frames[|frames| - 1].kind != ObjectKind {
        return false;
      }
      frames := frames[..|frames| - 1] + [Frame(ObjectKind, key)];
      ok := true;
    }

    method Handle(e: Event) returns (ok: bool)
      modifies this
      ensures ok == Step(old(Now()), e).Some?
      ensures ok ==> Some(Now()) == Step(old(Now()), e)
    {
      hide Probe.TakeScalar, Probe.BeginContainer, Probe.EndContainer, Probe.TakeKey;
      match e
      case Value(scalar) => ok := TakeScalar(ScalarKind(scalar), ScalarText(scalar));
      case StartObject => ok := BeginContainer(ObjectKind);
      case Key(key) => ok := TakeKey(key);
      case EndObject => ok := EndContainer(ObjectKind);
      case StartArray => ok := BeginContainer(ArrayKind);
      case EndArray => ok := EndContainer(ArrayKind);
    }
  }

  lemma ScalarKeepsFrames(p: Probe, kind: Kind, text: string)
    requires p.frames != []
    ensures var begun := p.BeginValue(kind, text);
      begun.Some? ==> |begun.value.frames| == |p.frames| && begun.value.root == p.root
  {
  }

  // What each format looks like, on the document itself.

  predicate SaysTimeBuilder(m: seq<Member>) {
    Last(m, "version") == Some(Leaf(Text("TimeBuilder")))
  }

  predicate FuHongObject(m: seq<Member>) {
    Has(m, "FuHongBuild") || Has(m, "FuHongBuild_FinalFormat")
  }

  predicate MianYangObject(m: seq<Member>) {
    Has(m, "chunkedBlocks") && Has(m, "namespaces")
  }

  predicate OldTimeBuilderObject(m: seq<Member>) {
    Has(m, "block") && Has(m, "version")
  }

  predicate WholeNumber(value: Option<Json>) {
    value.Some? && value.value.Leaf? && value.value.scalar.Integer?
  }

  /** An object whose last name is a text and whose last coordinates are integers. */
  predicate RunAwayBlock(v: Json) {
    && v.Object?
    && (var name := Last(v.members, "name"); name.Some? && name.value.Leaf? && name.value.scalar.Text?)
    && WholeNumber(Last(v.members, "x")) && WholeNumber(Last(v.members, "y")) && WholeNumber(Last(v.members, "z"))
  }

  predicate ObjectWith(v: Json, key: string) {
    v.Object? && Has(v.members, key)
  }

  predicate IsNumberLeaf(v: Json) {
    v.Leaf? && (v.scalar.Integer? || v.scalar.Float?)
  }

  predicate IsTextLeaf(v: Json) {
    v.Leaf? && v.scalar.Text?
  }

  predicate AllRunAwayBlocks(items: seq<Json>) {
    forall i | 0 <= i < |items| :: RunAwayBlock(items[i])
  }

  predicate FuHongBlock(v: Json) {
    ObjectWith(v, "name") && ObjectWith(v, "aux") && ObjectWith(v, "x") && ObjectWith(v, "y") && ObjectWith(v, "z")
  }

  /** An array of at least two elements that starts with an object and is neither of the
      block lists. */
  predicate OtherObjectList(items: seq<Json>) {
    |items| >= 2 && items[0].Object? && !AllRunAwayBlocks(items) && !FuHongBlock(items[0])
  }

  predicate EndsInList(items: seq<Json>) {
    |items| >= 2 && ObjectWith(items[|items| - 1], "list")
  }

  predicate HasArea(items: seq<Json>) {
    |items| >= 2 && ObjectWith(items[|items| - 2], "start") && ObjectWith(items[|items| - 2], "end")
  }

  /** What a document of each format must be, root object formats first. */
  predicate ObjectOf(which: StructureId, m: seq<Member>) {
    match which
    case TimeBuilderV1 =>
      SaysTimeBuilder(m)
      || (OldTimeBuilderObject(m) && !FuHongObject(m) && !MianYangObject(m) && !Has(m, "totalBlocks"))
    case FuHongV2 => Has(m, "FuHongBuild_FinalFormat") && !SaysTimeBuilder(m)
    case FuHongV3 =>
      Has(m, "FuHongBuild") && Has(m, "BlockCalculationPos") && !Has(m, "FuHongBuild_FinalFormat")
      && !SaysTimeBuilder(m)
    case FuHongV4 =>
      Has(m, "FuHongBuild") && !Has(m, "BlockCalculationPos") && !Has(m, "FuHongBuild_FinalFormat")
      && !SaysTimeBuilder(m)
    case MianYangV1 => MianYangObject(m) && !FuHongObject(m) && !SaysTimeBuilder(m)
    case QingXuV1 => Has(m, "totalBlocks") && !MianYangObject(m) && !FuHongObject(m) && !SaysTimeBuilder(m)
    case CovStructure =>
      && Has(m, "structure") && (Has(m, "size") || Has(m, "dimensions"))
      && !OldTimeBuilderObject(m) && !Has(m, "totalBlocks") && !MianYangObject(m) && !FuHongObject(m)
      && !SaysTimeBuilder(m)
    case _ => false
  }

  predicate ArrayOf(which: StructureId, items: seq<Json>)
    requires items != []
  {
    var n, first, last := |items|, items[0], items[|items| - 1];
    match which
    case GangBanV6 => first.Array? && last.Array?
    case GangBanV5 =>
      n >= 2 && IsNumberLeaf(first) && ObjectWith(items[n - 2], "ep") && last.Array?
    case RunAway => AllRunAwayBlocks(items)
    case FuHongV1 => FuHongBlock(first) && !AllRunAwayBlocks(items)
    case GangBanV1 => OtherObjectList(items) && EndsInList(items) && HasArea(items)
    case GangBanV2 => OtherObjectList(items) && EndsInList(items) && !HasArea(items)
    case GangBanV3 =>
      OtherObjectList(items) && !EndsInList(items) && ObjectWith(first, "xcha") && IsTextLeaf(items[1])
    case GangBanV4 =>
      OtherObjectList(items) && !EndsInList(items) && ObjectWith(first, "xcha") && items[1].Array?
    case _ => false
  }

  predicate DocumentOf(which: StructureId, root: Json) {
    match root
    case Leaf(_) => false
    case Object(members) => ObjectOf(which, members)
    case Array(items) => items != [] && ArrayOf(which, items)
  }

  lemma ObjectTable(m: seq<Member>, which: StructureId)
    ensures DetectedObject(KeysOf(m)) == Some(which) <==> ObjectOf(which, m)
  {
    hide Has, Last;
  }

  lemma RunAwayShapes(v: Json)
    ensures ShapeOf(v).RunawayShape() <==> RunAwayBlock(v)
  {
    var m := MembersOf(v);
    LastHas(m, "name");
    LastHas(m, "x");
    LastHas(m, "y");
    LastHas(m, "z");
    hide Has, Last;
  }

  lemma {:induction false} LastHas(members: seq<Member>, key: string)
    ensures Last(members, key).Some? <==> Has(members, key)
  {
    if members != [] {
      LastHas(members[..|members| - 1], key);
      OneMoreMember(members, key);
    }
  }

  lemma RunAwayArrays(items: seq<Json>)
    ensures AllRunAway(items) <==> AllRunAwayBlocks(items)
  {
    hide ShapeOf, RunAwayBlock;
    forall v
      ensures ShapeOf(v).RunawayShape() <==> RunAwayBlock(v)
    {
      RunAwayShapes(v);
    }
    if AllRunAwayBlocks(items) {
      forall v | v in items
        ensures RunAwayBlock(v)
      {
        var i :| 0 <= i < |items| && items[i] == v;
      }
    }
  }

  /** What the shape of an element says of the element. */
  lemma ShapeSays(v: Json)
    ensures var shape := ShapeOf(v);
      && (shape.kind == ArrayKind <==> v.Array?)
      && (shape.kind == ObjectKind <==> v.Object?)
      && (shape.kind == StringKind <==> IsTextLeaf(v))
      && (IsNumber(shape.kind) <==> IsNumberLeaf(v))
      && (shape.hasName && shape.hasAux && shape.hasX && shape.hasY && shape.hasZ <==> FuHongBlock(v))
      && (shape.hasList <==> ObjectWith(v, "list"))
      && (shape.hasStart <==> ObjectWith(v, "start"))
      && (shape.hasEnd <==> ObjectWith(v, "end"))
      && (shape.hasXcha <==> ObjectWith(v, "xcha"))
      && (shape.hasEp <==> ObjectWith(v, "ep"))
    ensures v.Array? || IsNumberLeaf(v) ==> !v.Object?
    ensures v.Array? ==> !IsNumberLeaf(v) && !IsTextLeaf(v)
    ensures FuHongBlock(v) ==> v.Object?
    ensures ObjectWith(v, "list") || ObjectWith(v, "start") || ObjectWith(v, "ep") ==> v.Object?
  {
    hide LastKindIs;
    if !v.Object? {
      assert forall key :: !Has([], key);
    }
    hide Has;
  }

  lemma ArrayTable(items: seq<Json>, which: StructureId)
    requires items != []
    ensures DetectedTree(Array(items)) == Some(which) <==> ArrayOf(which, items)
  {
    hide DetectedTree, ShapeOf, AllRunAwayBlocks, IsNumberLeaf, ObjectWith, FuHongBlock, HasArea;
    FirstRunAway(items);
    ShapeSays(items[0]);
    if items[0].Object? {
      ObjectFirst(items);
    } else {
      OtherFirst(items);
    }
  }

  lemma ObjectFirst(items: seq<Json>)
    requires items != [] && items[0].Object?
    ensures var id, second := DetectedTree(Array(items)), if |items| >= 2 then items[1] else items[0];
      if AllRunAwayBlocks(items) then id == Some(RunAway)
      else if FuHongBlock(items[0]) then id == Some(FuHongV1)
      else if EndsInList(items) then id == Some(if HasArea(items) then GangBanV1 else GangBanV2)
      else if |items| >= 2 && ObjectWith(items[0], "xcha") && IsTextLeaf(second) then id == Some(GangBanV3)
      else if |items| >= 2 && ObjectWith(items[0], "xcha") && second.Array? then id == Some(GangBanV4)
      else id == None
  {
    hide ShapeOf, AllRunAway, AllRunAwayBlocks, IsNumberLeaf, IsTextLeaf, IsNumber, ObjectWith, FuHongBlock, Has, Last,
      Shape.RunawayShape;
    RunAwayArrays(items);
    ShapeSays(items[0]);
    ShapeSays(items[|items| - 1]);
    if |items| >= 2 {
      ShapeSays(items[1]);
      ShapeSays(items[|items| - 2]);
    }
  }

  lemma OtherFirst(items: seq<Json>)
    requires items != [] && !items[0].Object?
    ensures var id, n := DetectedTree(Array(items)), |items|;
      if items[0].Array? && items[n - 1].Array? then id == Some(GangBanV6)
      else if n >= 2 && IsNumberLeaf(items[0]) && ObjectWith(items[n - 2], "ep") && items[n - 1].Array? then
        id == Some(GangBanV5)
      else id == None
  {
    hide ShapeOf, AllRunAway, AllRunAwayBlocks, IsNumberLeaf, IsTextLeaf, IsNumber, ObjectWith, FuHongBlock, Has, Last,
      Shape.RunawayShape;
    ShapeSays(items[0]);
    ShapeSays(items[|items| - 1]);
    if |items| >= 2 {
      ShapeSays(items[|items| - 2]);
    }
  }

  lemma FirstRunAway(items: seq<Json>)
    requires items != []
    ensures AllRunAwayBlocks(items) ==> items[0].Object?
  {
  }

  /** The decision, format by format. */
  lemma DetectedTable(root: Json, which: StructureId)
    ensures DetectedTree(root) == Some(which) <==> DocumentOf(which, root)
  {
    hide DetectedObject, DetectedArray, KeysOf, ShapeOf, ObjectOf, ArrayOf;
    match root {
      case Leaf(_) =>
      case Object(members) => ObjectTable(members, which);
      case Array(items) =>
        if items != [] {
          ArrayTable(items, which);
        }
    }
  }

  /** Detection over a whole document: nothing is detected in one that nests too
      deeply, otherwise what the tree says. */
  method Detect(root: Json) returns (id: Option<StructureId>)
    ensures id == if Depth(root) <= MAX_FRAMES then DetectedTree(root) else None
    ensures forall which :: id == Some(which) <==> Depth(root) <= 256 && DocumentOf(which, root)
  {
    hide Step, Events, Probe.Detected, DetectedTree, DocumentOf;
    forall which
      ensures DetectedTree(root) == Some(which) <==> DocumentOf(which, root)
    {
      DetectedTable(root, which);
    }
    var probe := new JsonFormatProbe();
    var events := Events(root);
    ProbeReadsTheTree(root);
    for i := 0 to |events|
      invariant Feed(Step, Some(START), events[..i]) == Some(probe.Now())
    {
      assert events[..i + 1][..i] == events[..i];
      var handled := probe.Handle(events[i]);
      if !handled {
        assert events == events[..i + 1] + events[i + 1..];
        FeedBoth(Step, Some(START), events[..i + 1], events[i + 1..]);
        FeedNone(Step, events[i + 1..]);
        return None;
      }
    }
    assert events[..|events|] == events;
    id := probe.Now().Detected();
  }
}
