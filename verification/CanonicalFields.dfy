/** The per-field form of the canonical NBT encoding: every node of a tree under a
    path, so that two trees can be compared field by field. */
module CanonicalFields {
  import opened BdxBytes
  import opened Decimals
  import opened Canonicals

  const TILDE: Byte := 126
  const SLASH: Byte := 47

  /** `escape_json_pointer` (section 3 of RFC 6901): `~` becomes `~0` and `/`
      becomes `~1`. */
  function EscapedByte(b: Byte): Bytes {
    if b == TILDE then [TILDE, ZERO] else if b == SLASH then [TILDE, ZERO + 1] else [b]
  }

  function Escape(text: Bytes): Bytes {
    if text == [] then [] else Escape(text[..|text| - 1]) + EscapedByte(text[|text| - 1])
  }

  method EscapeJsonPointer(text: Bytes) returns (output: Bytes)
    ensures output == Escape(text)
  {
    output := [];
    for i := 0 to |text|
      invariant output == Escape(text[..i])
    {
      assert text[..i + 1][..i] == text[..i];
      if text[i] == TILDE {
        output := output + [TILDE, ZERO];
      } else if text[i] == SLASH {
        output := output + [TILDE, ZERO + 1];
      } else {
        output := output + [text[i]];
      }
    }
    assert text[..|text|] == text;
  }

  /** Reading an escaped token back. */
  function Unescape(token: Bytes): Bytes {
    if |token| >= 2 && token[0] == TILDE then
      [if token[1] == ZERO then TILDE else SLASH] + Unescape(token[2..])
    else if token != [] then [token[0]] + Unescape(token[1..])
    else []
  }

  lemma {:induction false} EscapeFirst(text: Bytes)
    requires text != []
    ensures Escape(text) == EscapedByte(text[0]) + Escape(text[1..])
  {
    if |text| == 1 {
      assert text[..0] == [] && text[1..] == [];
    } else {
      var init := text[..|text| - 1];
      hide EscapedByte;
      EscapeFirst(init);
      assert text[1..][..|text| - 2] == init[1..];
    }
  }

  lemma {:induction false} UnescapeUndoesEscape(text: Bytes)
    ensures Unescape(Escape(text)) == text && SLASH !in Escape(text)
  {
    if text != [] {
      EscapeFirst(text);
      UnescapeUndoesEscape(text[1..]);
      var token, rest := Escape(text), Escape(text[1..]);
      if text[0] == TILDE || text[0] == SLASH {
        assert token[2..] == rest;
      } else {
        assert token[1..] == rest;
      }
      assert text == [text[0]] + text[1..];
    }
  }

  /** One step down a tree: into the field of a compound, or the item of a list. */
  datatype Step = Key(key: Bytes) | Index(index: nat)

  type Address = seq<Step>

  function Token(step: Step): Bytes {
    match step
    case Key(key) => Escape(key)
    case Index(index) => Decimal(index)
  }

  /** The path of an address: a slash and a token for every step. */
  function PathOf(address: Address): Bytes {
    if address == [] then [] else [SLASH] + Token(address[0]) + PathOf(address[1..])
  }

  lemma TokenHasNoSlash(step: Step)
    ensures SLASH !in Token(step)
  {
    match step {
      case Key(key) => UnescapeUndoesEscape(key);
      case Index(index) => DecimalAlphabet(index);
    }
  }

  lemma KeysDiffer(a: Bytes, b: Bytes)
    ensures Escape(a) == Escape(b) ==> a == b
  {
    UnescapeUndoesEscape(a);
    UnescapeUndoesEscape(b);
  }

  lemma SlashInside(a: Bytes, b: Bytes, x: Bytes, y: Bytes)
    requires a + x == b + y && |a| < |b| && (x == [] || x[0] == SLASH)
    ensures SLASH in b
  {
    assert |a + x| == |b + y|;
    assert (b + y)[|a|] == b[|a|] && (a + x)[|a|] == x[0];
  }

  /** A token ends where the next slash is. */
  lemma TokensSplit(a: Bytes, b: Bytes, x: Bytes, y: Bytes)
    requires a + x == b + y && SLASH !in a && SLASH !in b
    requires (x == [] || x[0] == SLASH) && (y == [] || y[0] == SLASH)
    ensures a == b && x == y
  {
    if |a| < |b| {
      SlashInside(a, b, x, y);
    }
    if |b| < |a| {
      SlashInside(b, a, y, x);
    }
    SplitsAlike(a, b, x, y);
  }

  /** The keys of a compound are distinct, as in any map. */
  ghost predicate DistinctKeys(fields: seq<TagField>) {
    forall i, j | 0 <= i < j < |fields| :: fields[i].key != fields[j].key
  }

  ghost predicate MapLike(tag: Tag)
    decreases tag
  {
    match tag
    case TagList(items) => forall i | 0 <= i < |items| :: MapLike(items[i])
    case TagCompound(fields) => DistinctKeys(fields) && forall i | 0 <= i < |fields| :: MapLike(fields[i].tag)
    case _ => true
  }

  /** `child` is reached from `tag` by one step. */
  ghost predicate Child(tag: Tag, step: Step, child: Tag) {
    match step
    case Key(key) => tag.TagCompound? && TagField(key, child) in tag.fields
    case Index(index) => tag.TagList? && index < |tag.items| && tag.items[index] == child
  }

  /** `node` is found at an address below `tag`. */
  ghost predicate At(tag: Tag, address: Address, node: Tag)
    decreases |address|
  {
    if address == [] then node == tag
    else exists child :: Child(tag, address[0], child) && At(child, address[1..], node)
  }

  lemma ChildIsUnique(tag: Tag, step: Step, a: Tag, b: Tag)
    requires MapLike(tag) && Child(tag, step, a) && Child(tag, step, b)
    ensures a == b && MapLike(a)
  {
  }

  /** A path identifies at most one node of a tree: two nodes with the same path
      are the same node, at the same address. */
  lemma {:induction false} PathsIdentifyNodes(tag: Tag, a: Address, b: Address, m: Tag, n: Tag)
    requires MapLike(tag) && At(tag, a, m) && At(tag, b, n) && PathOf(a) == PathOf(b)
    ensures a == b && m == n
    decreases |a|
  {
    hide Token, MapLike;
    if a != [] && b != [] {
      var c :| Child(tag, a[0], c) && At(c, a[1..], m);
      var d :| Child(tag, b[0], d) && At(d, b[1..], n);
      FirstTokens(a, b);
      SameStep(tag, a[0], b[0], c, d);
      ChildIsUnique(tag, a[0], c, d);
      PathsIdentifyNodes(c, a[1..], b[1..], m, n);
      assert a == [a[0]] + a[1..] && b == [b[0]] + b[1..];
    }
  }

  /** After the slash comes the first token, and then the end or another slash. */
  lemma PathStarts(address: Address)
    requires address != []
    ensures PathOf(address) != [] && PathOf(address)[1..] == Token(address[0]) + PathOf(address[1..])
    ensures PathOf(address[1..]) == [] || PathOf(address[1..])[0] == SLASH
  {
    hide Token;
    var token, rest := Token(address[0]), PathOf(address[1..]);
    AfterFirst(SLASH, token, rest);
  }

  lemma AfterFirst(b: Byte, x: Bytes, y: Bytes)
    ensures ([b] + x + y)[1..] == x + y
  {
  }

  lemma FirstTokens(a: Address, b: Address)
    requires a != [] && b != [] && PathOf(a) == PathOf(b)
    ensures Token(a[0]) == Token(b[0]) && PathOf(a[1..]) == PathOf(b[1..])
  {
    hide Token;
    TokenHasNoSlash(a[0]);
    TokenHasNoSlash(b[0]);
    PathStarts(a);
    PathStarts(b);
    hide PathOf;
    TokensSplit(Token(a[0]), Token(b[0]), PathOf(a[1..]), PathOf(b[1..]));
  }

  /** The children of one node are all keyed or all indexed. */
  lemma SameStep(tag: Tag, s: Step, t: Step, c: Tag, d: Tag)
    requires Child(tag, s, c) && Child(tag, t, d) && Token(s) == Token(t)
    ensures s == t
  {
    match s {
      case Key(key) => KeysDiffer(key, t.key);
      case Index(index) => DecimalIsInjective(index, t.index);
    }
  }

  datatype NodeField = NodeField(path: Bytes, encoded: Bytes)

  /** `collect_nbt_fields`. */
  function Collected(path: Bytes, tag: Tag): seq<NodeField>
    decreases tag, 1
  {
    [NodeField(path, Encode(tag))] + CollectedBelow(path, tag)
  }

  function CollectedBelow(path: Bytes, tag: Tag): seq<NodeField>
    decreases tag, 0
  {
    match tag
    case TagCompound(fields) => CollectedFields(path, fields)
    case TagList(items) => CollectedItems(path, items, 0)
    case _ => []
  }

  function CollectedFields(path: Bytes, fields: seq<TagField>): seq<NodeField>
    decreases fields
  {
    if fields == [] then []
    else Collected(path + [SLASH] + Escape(fields[0].key), fields[0].tag) + CollectedFields(path, fields[1..])
  }

  function CollectedItems(path: Bytes, items: seq<Tag>, from: nat): seq<NodeField>
    decreases items
  {
    if items == [] then []
    else Collected(path + [SLASH] + Decimal(from), items[0]) + CollectedItems(path, items[1..], from + 1)
  }

  datatype Located = Located(address: Address, node: Tag)

  /** The nodes below `prefix` in the same order, with their addresses. */
  function Nodes(prefix: Address, tag: Tag): seq<Located>
    decreases tag, 1
  {
    [Located(prefix, tag)] + NodesBelow(prefix, tag)
  }

  function NodesBelow(prefix: Address, tag: Tag): seq<Located>
    decreases tag, 0
  {
    match tag
    case TagCompound(fields) => FieldNodes(prefix, fields)
    case TagList(items) => ItemNodes(prefix, items, 0)
    case _ => []
  }

  function FieldNodes(prefix: Address, fields: seq<TagField>): seq<Located>
    decreases fields
  {
    if fields == [] then [] else Nodes(prefix + [Key(fields[0].key)], fields[0].tag) + FieldNodes(prefix, fields[1..])
  }

  function ItemNodes(prefix: Address, items: seq<Tag>, from: nat): seq<Located>
    decreases items
  {
    if items == [] then [] else Nodes(prefix + [Index(from)], items[0]) + ItemNodes(prefix, items[1..], from + 1)
  }

  function Rendered(nodes: seq<Located>): (fields: seq<NodeField>)
    ensures |fields| == |nodes|
    ensures forall i | 0 <= i < |nodes| :: fields[i] == NodeField(PathOf(nodes[i].address), Encode(nodes[i].node))
  {
    if nodes == [] then []
    else [NodeField(PathOf(nodes[0].address), Encode(nodes[0].node))] + Rendered(nodes[1..])
  }

  lemma RenderedConcat(a: seq<Located>, b: seq<Located>)
    ensures Rendered(a + b) == Rendered(a) + Rendered(b)
  {
    hide Encode, PathOf;
    forall i | 0 <= i < |a + b|
      ensures Rendered(a + b)[i] == (Rendered(a) + Rendered(b))[i]
    {
    }
  }

  lemma {:induction false} PathGrows(prefix: Address, step: Step)
    ensures PathOf(prefix + [step]) == PathOf(prefix) + [SLASH] + Token(step)
    decreases |prefix|
  {
    hide Token;
    if prefix == [] {
      assert [step][1..] == [] && PathOf([step]) == [SLASH] + Token(step) + PathOf([]);
    } else {
      PathGrows(prefix[1..], step);
      assert (prefix + [step])[1..] == prefix[1..] + [step];
    }
  }

  /** The collected fields are the nodes of the tree under their paths. */
  lemma {:induction false} CollectedIsRendered(prefix: Address, tag: Tag)
    ensures Collected(PathOf(prefix), tag) == Rendered(Nodes(prefix, tag))
    decreases tag, 1
  {
    hide Encode, PathOf;
    RenderedConcat([Located(prefix, tag)], NodesBelow(prefix, tag));
    match tag {
      case TagCompound(fields) => FieldsAreRendered(prefix, fields);
      case TagList(items) => ItemsAreRendered(prefix, items, 0);
      case _ =>
    }
  }

  lemma {:induction false} FieldsAreRendered(prefix: Address, fields: seq<TagField>)
    ensures CollectedFields(PathOf(prefix), fields) == Rendered(FieldNodes(prefix, fields))
    decreases fields
  {
    hide Encode, PathOf;
    if fields != [] {
      PathGrows(prefix, Key(fields[0].key));
      CollectedIsRendered(prefix + [Key(fields[0].key)], fields[0].tag);
      FieldsAreRendered(prefix, fields[1..]);
      RenderedConcat(Nodes(prefix + [Key(fields[0].key)], fields[0].tag), FieldNodes(prefix, fields[1..]));
    }
  }

  lemma {:induction false} ItemsAreRendered(prefix: Address, items: seq<Tag>, from: nat)
    ensures CollectedItems(PathOf(prefix), items, from) == Rendered(ItemNodes(prefix, items, from))
    decreases items
  {
    hide Encode, PathOf;
    if items != [] {
      PathGrows(prefix, Index(from));
      CollectedIsRendered(prefix + [Index(from)], items[0]);
      ItemsAreRendered(prefix, items[1..], from + 1);
      RenderedConcat(Nodes(prefix + [Index(from)], items[0]), ItemNodes(prefix, items[1..], from + 1));
    }
  }

  /** `address` goes on from `prefix` with the key of a field. */
  ghost predicate IntoField(prefix: Address, address: Address, fields: seq<TagField>) {
    |prefix| < |address| && prefix <= address && address[|prefix|].Key? && Named(fields, address[|prefix|].key)
  }

  /** `address` goes on from `prefix` with an index from `from` on. */
  ghost predicate IntoItem(prefix: Address, address: Address, from: nat) {
    |prefix| < |address| && prefix <= address && address[|prefix|].Index? && address[|prefix|].index >= from
  }

  ghost predicate DistinctAddresses(nodes: seq<Located>) {
    forall i, j | 0 <= i < j < |nodes| :: nodes[i].address != nodes[j].address
  }

  lemma DistinctConcat(a: seq<Located>, b: seq<Located>)
    requires DistinctAddresses(a) && DistinctAddresses(b)
    requires forall i, j | 0 <= i < |a| && 0 <= j < |b| :: a[i].address != b[j].address
    ensures DistinctAddresses(a + b)
  {
  }

  /** No node is listed twice. */
  lemma {:induction false} NodesAreDistinct(prefix: Address, tag: Tag)
    requires MapLike(tag)
    ensures DistinctAddresses(Nodes(prefix, tag))
    ensures forall i | 0 <= i < |Nodes(prefix, tag)| :: prefix <= Nodes(prefix, tag)[i].address
    ensures forall i | 0 < i < |Nodes(prefix, tag)| :: |prefix| < |Nodes(prefix, tag)[i].address|
    decreases tag, 1
  {
    var nodes := Nodes(prefix, tag);
    match tag {
      case TagCompound(fields) =>
        FieldNodesAreDistinct(prefix, fields);
        DistinctConcat([Located(prefix, tag)], FieldNodes(prefix, fields));
      case TagList(items) =>
        ItemNodesAreDistinct(prefix, items, 0);
        DistinctConcat([Located(prefix, tag)], ItemNodes(prefix, items, 0));
      case _ =>
    }
  }

  ghost predicate Named(fields: seq<TagField>, key: Bytes) {
    exists i :: 0 <= i < |fields| && fields[i].key == key
  }

  lemma {:induction false} FieldNodesAreDistinct(prefix: Address, fields: seq<TagField>)
    requires DistinctKeys(fields) && forall i | 0 <= i < |fields| :: MapLike(fields[i].tag)
    ensures DistinctAddresses(FieldNodes(prefix, fields))
    ensures forall i | 0 <= i < |FieldNodes(prefix, fields)| ::
      IntoField(prefix, FieldNodes(prefix, fields)[i].address, fields)
    decreases fields
  {
    hide MapLike, Nodes;
    if fields != [] {
      var first, rest := Nodes(prefix + [Key(fields[0].key)], fields[0].tag), FieldNodes(prefix, fields[1..]);
      NodesAreDistinct(prefix + [Key(fields[0].key)], fields[0].tag);
      FieldNodesAreDistinct(prefix, fields[1..]);
      forall i | 0 <= i < |first|
        ensures |prefix| < |first[i].address| && prefix <= first[i].address
          && first[i].address[|prefix|] == Key(fields[0].key)
      {
        LongerPrefix(prefix, Key(fields[0].key), first[i].address);
      }
      forall i | 0 <= i < |rest|
        ensures IntoField(prefix, rest[i].address, fields) && rest[i].address[|prefix|] != Key(fields[0].key)
      {
        assert IntoField(prefix, rest[i].address, fields[1..]);
        var key := rest[i].address[|prefix|].key;
        var k :| 0 <= k < |fields[1..]| && fields[1..][k].key == key;
        assert fields[k + 1].key == key;
      }
      assert Named(fields, fields[0].key);
      DistinctConcat(first, rest);
    }
  }

  lemma LongerPrefix(prefix: Address, step: Step, address: Address)
    requires prefix + [step] <= address
    ensures prefix <= address && |prefix| < |address| && address[|prefix|] == step
  {
    assert address[..|prefix| + 1] == prefix + [step];
    assert address[|prefix|] == (prefix + [step])[|prefix|];
  }

  lemma {:induction false} ItemNodesAreDistinct(prefix: Address, items: seq<Tag>, from: nat)
    requires forall i | 0 <= i < |items| :: MapLike(items[i])
    ensures DistinctAddresses(ItemNodes(prefix, items, from))
    ensures forall i | 0 <= i < |ItemNodes(prefix, items, from)| ::
      IntoItem(prefix, ItemNodes(prefix, items, from)[i].address, from)
    decreases items
  {
    hide MapLike, Nodes;
    if items != [] {
      var first, rest := Nodes(prefix + [Index(from)], items[0]), ItemNodes(prefix, items[1..], from + 1);
      NodesAreDistinct(prefix + [Index(from)], items[0]);
      ItemNodesAreDistinct(prefix, items[1..], from + 1);
      forall i | 0 <= i < |first|
        ensures |prefix| < |first[i].address| && prefix <= first[i].address && first[i].address[|prefix|] == Index(from)
      {
        LongerPrefix(prefix, Index(from), first[i].address);
      }
      forall i | 0 <= i < |rest|
        ensures IntoItem(prefix, rest[i].address, from) && rest[i].address[|prefix|] != Index(from)
      {
        assert IntoItem(prefix, rest[i].address, from + 1);
      }
      DistinctConcat(first, rest);
    }
  }

  /** Every listed node is where its address says. */
  lemma {:induction false} NodesAreThere(prefix: Address, tag: Tag, i: nat)
    requires i < |Nodes(prefix, tag)|
    ensures var located := Nodes(prefix, tag)[i];
      prefix <= located.address && At(tag, located.address[|prefix|..], located.node)
    decreases tag, 1
  {
    if i > 0 {
      match tag {
        case TagCompound(fields) => FieldNodesAreThere(prefix, tag, 0, i - 1);
        case TagList(items) => ItemNodesAreThere(prefix, tag, 0, i - 1);
        case _ =>
      }
    }
  }

  lemma {:induction false} FieldNodesAreThere(prefix: Address, tag: Tag, k: nat, i: nat)
    requires tag.TagCompound? && k <= |tag.fields| && i < |FieldNodes(prefix, tag.fields[k..])|
    ensures var located := FieldNodes(prefix, tag.fields[k..])[i];
      prefix <= located.address && At(tag, located.address[|prefix|..], located.node)
    decreases tag, 0, |tag.fields| - k
  {
    var fields := tag.fields[k..];
    var step := Key(fields[0].key);
    var first := Nodes(prefix + [step], fields[0].tag);
    if i < |first| {
      NodesAreThere(prefix + [step], fields[0].tag, i);
      Descend(prefix, tag, step, fields[0].tag, first[i].address, first[i].node);
    } else {
      assert fields[1..] == tag.fields[k + 1..];
      FieldNodesAreThere(prefix, tag, k + 1, i - |first|);
    }
  }

  lemma {:induction false} ItemNodesAreThere(prefix: Address, tag: Tag, k: nat, i: nat)
    requires tag.TagList? && k <= |tag.items| && i < |ItemNodes(prefix, tag.items[k..], k)|
    ensures var located := ItemNodes(prefix, tag.items[k..], k)[i];
      prefix <= located.address && At(tag, located.address[|prefix|..], located.node)
    decreases tag, 0, |tag.items| - k
  {
    var items := tag.items[k..];
    var first := Nodes(prefix + [Index(k)], items[0]);
    if i < |first| {
      NodesAreThere(prefix + [Index(k)], items[0], i);
      Descend(prefix, tag, Index(k), items[0], first[i].address, first[i].node);
    } else {
      assert items[1..] == tag.items[k + 1..];
      ItemNodesAreThere(prefix, tag, k + 1, i - |first|);
    }
  }

  lemma Descend(prefix: Address, tag: Tag, step: Step, child: Tag, address: Address, node: Tag)
    requires Child(tag, step, child) && prefix + [step] <= address && At(child, address[|prefix| + 1..], node)
    ensures prefix <= address && At(tag, address[|prefix|..], node)
  {
    LongerPrefix(prefix, step, address);
    var rest := address[|prefix|..];
    assert rest[0] == step && rest[1..] == address[|prefix| + 1..];
    hide Child;
    assert At(tag, rest, node);
  }

  /** `canonical_nbt_fields`: the fields of the root's children, none for the root
      itself. The fields of a compound are listed in the order of their keys. */
  function AllFields(root: Tag): seq<NodeField>
    requires root.TagCompound?
  {
    CollectedFields([], root.fields)
  }

  lemma AllFieldsAreBelow(root: Tag)
    requires root.TagCompound?
    ensures Collected([], root) == [NodeField([], Encode(root))] + AllFields(root)
  {
  }

  lemma CollectedPathsDiffer(tag: Tag, i: nat, j: nat)
    requires MapLike(tag) && i < j < |Collected([], tag)|
    ensures Collected([], tag)[i].path != Collected([], tag)[j].path
    ensures exists address, node ::
      At(tag, address, node) && Collected([], tag)[i] == NodeField(PathOf(address), Encode(node))
  {
    hide At, Encode, MapLike, Collected, Nodes;
    assert PathOf([]) == [];
    CollectedIsRendered([], tag);
    NodesAreDistinct([], tag);
    NodesAreThere([], tag, i);
    NodesAreThere([], tag, j);
    var nodes := Nodes([], tag);
    assert nodes[i].address[0..] == nodes[i].address && nodes[j].address[0..] == nodes[j].address;
    hide PathOf;
    if PathOf(nodes[i].address) == PathOf(nodes[j].address) {
      PathsIdentifyNodes(tag, nodes[i].address, nodes[j].address, nodes[i].node, nodes[j].node);
    }
  }

  lemma {:induction false} FieldNodesHold(prefix: Address, fields: seq<TagField>, k: nat, located: Located)
    requires k < |fields| && located in Nodes(prefix + [Key(fields[k].key)], fields[k].tag)
    ensures located in FieldNodes(prefix, fields)
    decreases |fields|
  {
    hide Nodes;
    if k > 0 {
      FieldNodesHold(prefix, fields[1..], k - 1, located);
    }
  }

  lemma {:induction false} ItemNodesHold(prefix: Address, items: seq<Tag>, from: nat, k: nat, located: Located)
    requires k < |items| && located in Nodes(prefix + [Index(from + k)], items[k])
    ensures located in ItemNodes(prefix, items, from)
    decreases |items|
  {
    hide Nodes;
    if k > 0 {
      ItemNodesHold(prefix, items[1..], from + 1, k - 1, located);
    }
  }

  lemma {:induction false} NodesAreAll(prefix: Address, tag: Tag, address: Address, node: Tag)
    requires At(tag, address, node)
    ensures Located(prefix + address, node) in Nodes(prefix, tag)
    decreases |address|
  {
    if address == [] {
      assert prefix + [] == prefix && Nodes(prefix, tag)[0] == Located(prefix, tag);
    } else {
      var child :| Child(tag, address[0], child) && At(child, address[1..], node);
      NodesAreAll(prefix + [address[0]], child, address[1..], node);
      assert prefix + [address[0]] + address[1..] == prefix + address;
      hide At;
      match address[0] {
        case Key(key) =>
          var k :| 0 <= k < |tag.fields| && tag.fields[k] == TagField(key, child);
          FieldNodesHold(prefix, tag.fields, k, Located(prefix + address, node));
        case Index(index) => ItemNodesHold(prefix, tag.items, 0, index, Located(prefix + address, node));
      }
    }
  }

  lemma EveryNodeIsCollected(tag: Tag, address: Address, node: Tag)
    requires At(tag, address, node)
    ensures NodeField(PathOf(address), Encode(node)) in Collected([], tag)
  {
    hide At, Encode, Collected, Nodes;
    assert PathOf([]) == [] && [] + address == address;
    NodesAreAll([], tag, address, node);
    CollectedIsRendered([], tag);
    var nodes := Nodes([], tag);
    var i :| 0 <= i < |nodes| && nodes[i] == Located(address, node);
    assert Rendered(nodes)[i] == NodeField(PathOf(address), Encode(node));
  }

  /** The fields have pairwise different paths, none of them empty, and each holds
      the encoding of the node below the root that its path leads to. */
  lemma FieldPathsAreUnique(root: Tag, i: nat, j: nat)
    requires MapLike(root) && root.TagCompound? && i < j < |AllFields(root)|
    ensures AllFields(root)[i].path != AllFields(root)[j].path
    ensures FieldOfNode(root, AllFields(root)[i]) && FieldOfNode(root, AllFields(root)[j])
  {
    hide At, Encode, MapLike, Collected, FieldOfNode;
    AllFieldsAreBelow(root);
    CollectedPathsDiffer(root, i + 1, j + 1);
    FieldIsANode(root, i);
    FieldIsANode(root, j);
  }

  /** A field of a node that is not the root. */
  ghost predicate FieldOfNode(root: Tag, field: NodeField) {
    && field.path != []
    && exists address, node ::
         address != [] && At(root, address, node) && field == NodeField(PathOf(address), Encode(node))
  }

  lemma FieldIsANode(root: Tag, i: nat)
    requires MapLike(root) && root.TagCompound? && i < |AllFields(root)|
    ensures FieldOfNode(root, AllFields(root)[i])
  {
    hide At, Encode, MapLike, Collected, Nodes;
    assert PathOf([]) == [];
    AllFieldsAreBelow(root);
    CollectedIsRendered([], root);
    NodesAreDistinct([], root);
    NodesAreThere([], root, i + 1);
    var located := Nodes([], root)[i + 1];
    assert located.address[0..] == located.address && located.address != [];
    assert Collected([], root)[i + 1] == NodeField(PathOf(located.address), Encode(located.node));
  }

  /** The fields are exactly those of the nodes below the root: no node is
      missing, and no field is made up. */
  lemma FieldsAreTheNodes(root: Tag, field: NodeField)
    requires MapLike(root) && root.TagCompound?
    ensures field in AllFields(root) <==> FieldOfNode(root, field)
  {
    hide At, Encode, MapLike, Collected;
    AllFieldsAreBelow(root);
    if field in AllFields(root) {
      var i :| 0 <= i < |AllFields(root)| && AllFields(root)[i] == field;
      FieldIsANode(root, i);
    }
    if FieldOfNode(root, field) {
      var address, node :|
        address != [] && At(root, address, node) && field == NodeField(PathOf(address), Encode(node));
      EveryNodeIsCollected(root, address, node);
    }
  }
}
