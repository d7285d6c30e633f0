/** Where in a document the value with a given serial number stands, and passes that
    sleep through everything but the value with one selected serial. */
module JsonNodes {
  import opened Options
  import opened JsonEvents
  import opened JsonPasses

  // Serial numbers: values count from 1 in document order.

  function NodeAt(v: Json, serial: nat): Option<Json>
    decreases v, 0
  {
    if serial == 1 then Some(v)
    else if serial == 0 then None
    else
      match v
      case Leaf(_) => None
      case Array(items) => NodeInItems(items, serial - 1)
      case Object(members) => NodeInMembers(members, serial - 1)
  }

  function NodeInItems(items: seq<Json>, serial: nat): Option<Json>
    decreases items, 1
  {
    if items == [] then None
    else
      var init := items[..|items| - 1];
      if serial <= CountItems(init) then NodeInItems(init, serial)
      else NodeAt(items[|items| - 1], serial - CountItems(init))
  }

  function NodeInMembers(members: seq<Member>, serial: nat): Option<Json>
    decreases members, 1
  {
    if members == [] then None
    else
      var init := members[..|members| - 1];
      if serial <= CountMembers(init) then NodeInMembers(init, serial)
      else NodeAt(members[|members| - 1].value, serial - CountMembers(init))
  }

  datatype Located = Located(value: Json, serial: nat)

  /** The last member with a key, and its serial when `base` values come before the
      first member. */
  function LastAt(members: seq<Member>, base: nat, key: string): Option<Located> {
    if members == [] then None
    else
      var init, last := members[..|members| - 1], members[|members| - 1];
      if last.key == key then Some(Located(last.value, base + CountMembers(init) + 1)) else LastAt(init, base, key)
  }

  lemma {:induction false} CountIsPositive(v: Json)
    ensures Count(v) >= 1
  {
  }

  /** A located member is the node with its serial. */
  lemma {:induction false} LocatedNode(members: seq<Member>, base: nat, key: string)
    ensures var found := LastAt(members, base, key);
      found.Some? ==>
        && base < found.value.serial <= base + CountMembers(members)
        && NodeInMembers(members, found.value.serial - base) == Some(found.value.value)
  {
    if members != [] {
      LocatedNode(members[..|members| - 1], base, key);
    }
  }

  /** Nodes of nodes: serials add up. */
  lemma {:induction false} NodeOfNode(v: Json, serial: nat, inner: nat)
    requires 1 <= serial && NodeAt(v, serial).Some? && 1 <= inner && NodeAt(NodeAt(v, serial).value, inner).Some?
    ensures serial + inner - 1 <= Count(v) && NodeAt(v, serial + inner - 1) == NodeAt(NodeAt(v, serial).value, inner)
    decreases v, 0
  {
    if serial == 1 {
      NodeIsCounted(v, inner);
    } else {
      match v
      case Leaf(_) =>
      case Array(items) => NodeOfItems(items, serial - 1, inner);
      case Object(members) => NodeOfMembers(members, serial - 1, inner);
    }
  }

  lemma {:induction false} NodeOfItems(items: seq<Json>, serial: nat, inner: nat)
    requires 1 <= serial && NodeInItems(items, serial).Some?
    requires 1 <= inner && NodeAt(NodeInItems(items, serial).value, inner).Some?
    ensures serial + inner - 1 <= CountItems(items)
    ensures NodeInItems(items, serial + inner - 1) == NodeAt(NodeInItems(items, serial).value, inner)
    decreases items, 1
  {
    var init := items[..|items| - 1];
    if serial <= CountItems(init) {
      NodeOfItems(init, serial, inner);
    } else {
      NodeOfNode(items[|items| - 1], serial - CountItems(init), inner);
    }
  }

  lemma {:induction false} NodeOfMembers(members: seq<Member>, serial: nat, inner: nat)
    requires 1 <= serial && NodeInMembers(members, serial).Some?
    requires 1 <= inner && NodeAt(NodeInMembers(members, serial).value, inner).Some?
    ensures serial + inner - 1 <= CountMembers(members)
    ensures NodeInMembers(members, serial + inner - 1) == NodeAt(NodeInMembers(members, serial).value, inner)
    decreases members, 1
  {
    var init := members[..|members| - 1];
    if serial <= CountMembers(init) {
      NodeOfMembers(init, serial, inner);
    } else {
      NodeOfNode(members[|members| - 1].value, serial - CountMembers(init), inner);
    }
  }

  /** There is a node for exactly the serials that are given out. */
  lemma {:induction false} NodeIsCounted(v: Json, serial: nat)
    ensures NodeAt(v, serial).Some? <==> 1 <= serial <= Count(v)
    decreases v, 0
  {
    match v
    case Leaf(_) =>
    case Array(items) =>
      if serial >= 1 {
        ItemIsCounted(items, serial - 1);
      }
    case Object(members) =>
      if serial >= 1 {
        MemberIsCounted(members, serial - 1);
      }
  }

  lemma {:induction false} ItemIsCounted(items: seq<Json>, serial: nat)
    ensures NodeInItems(items, serial).Some? <==> 1 <= serial <= CountItems(items)
    decreases items, 1
  {
    if items != [] {
      var init := items[..|items| - 1];
      ItemIsCounted(init, serial);
      if serial > CountItems(init) {
        NodeIsCounted(items[|items| - 1], serial - CountItems(init));
      }
    }
  }

  lemma {:induction false} MemberIsCounted(members: seq<Member>, serial: nat)
    ensures NodeInMembers(members, serial).Some? <==> 1 <= serial <= CountMembers(members)
    decreases members, 1
  {
    if members != [] {
      var init := members[..|members| - 1];
      MemberIsCounted(init, serial);
      if serial > CountMembers(init) {
        NodeIsCounted(members[|members| - 1].value, serial - CountMembers(init));
      }
    }
  }

  // Passes with a selected value.

  /** Inside containers of the normal role the pass does nothing, except for the
      selected value. */
  ghost predicate Sleeps<A(!new), R(!new)>(pass: Pass<A, R>, normal: R, selected: nat) {
    && (forall acc, parent: Parent<R>, serial: nat, head | parent.role == normal && serial != selected ::
      pass.begin(acc, Some(parent), serial, head) == Some(Begun(acc, normal, normal)))
    && (forall acc, head :: pass.end(acc, normal, head) == acc)
  }

  /** The pass sleeps at the root too, and how the selected value begins does not
      depend on what surrounds it. */
  ghost predicate Idles<A(!new), R(!new)>(pass: Pass<A, R>, normal: R, selected: nat) {
    && Sleeps(pass, normal, selected)
    && (forall acc, serial: nat, head | serial != selected ::
      pass.begin(acc, None, serial, head) == Some(Begun(acc, normal, normal)))
    && (forall acc, parent, head | Ordinary(parent, normal) ::
      && pass.begin(acc, parent, selected, head) == pass.begin(acc, None, selected, head)
      && (pass.begin(acc, None, selected, head).Some? ==> pass.begin(acc, None, selected, head).value.parent == normal))
  }

  ghost predicate Ordinary<R>(parent: Option<Parent<R>>, normal: R) {
    parent.Some? ==> parent.value.role == normal
  }

  ghost predicate Elsewhere(selected: nat, n: nat, count: nat) {
    selected <= n || n + count < selected
  }

  lemma {:induction false} WalkIdle<A(!new), R(!new)>(
    pass: Pass<A, R>, normal: R, selected: nat, acc: A, parent: Option<Parent<R>>, n: nat, v: Json)
    requires Sleeps(pass, normal, selected) && parent.Some? && Ordinary(parent, normal)
      && Elsewhere(selected, n, Count(v))
    ensures Walk(pass, acc, parent, n, v) == Some(Walked(acc, parent))
    decreases v, 0
  {
    hide Walk, WalkItems, WalkMembers;
    CountIsPositive(v);
    WalkStep(pass, acc, parent, n, v);
    match v
    case Leaf(_) =>
    case Array(items) => WalkIdleItems(pass, normal, selected, acc, Parent(normal, ""), n + 1, items);
    case Object(members) => WalkIdleMembers(pass, normal, selected, acc, Parent(normal, ""), n + 1, members);
  }

  lemma {:induction false} WalkIdleItems<A(!new), R(!new)>(
    pass: Pass<A, R>, normal: R, selected: nat, acc: A, parent: Parent<R>, n: nat, items: seq<Json>)
    requires Sleeps(pass, normal, selected) && parent.role == normal && Elsewhere(selected, n, CountItems(items))
    ensures WalkItems(pass, acc, parent, n, items) == Some(Walked(acc, Some(parent)))
    decreases items, 1
  {
    hide Walk, Sleeps;
    if items != [] {
      var init := items[..|items| - 1];
      WalkIdleItems(pass, normal, selected, acc, parent, n, init);
      WalkIdle(pass, normal, selected, acc, Some(parent), n + CountItems(init), items[|items| - 1]);
    }
  }

  lemma {:induction false} WalkIdleMembers<A(!new), R(!new)>(
    pass: Pass<A, R>, normal: R, selected: nat, acc: A, parent: Parent<R>, n: nat, members: seq<Member>)
    requires Sleeps(pass, normal, selected) && parent.role == normal && Elsewhere(selected, n, CountMembers(members))
    ensures var w := WalkMembers(pass, acc, parent, n, members);
      w.Some? && w.value.acc == acc && Ordinary(w.value.parent, normal)
    decreases members, 1
  {
    hide Walk, Sleeps;
    if members != [] {
      var init, last := members[..|members| - 1], members[|members| - 1];
      WalkIdleMembers(pass, normal, selected, acc, parent, n, init);
      var before := WalkMembers(pass, acc, parent, n, init);
      WalkIdle(pass, normal, selected, acc, Keyed(before.value.parent, last.key), n + CountMembers(init), last.value);
    }
  }

  lemma Awake<A(!new), R(!new)>(pass: Pass<A, R>, normal: R, selected: nat)
    ensures Idles(pass, normal, selected) ==> Sleeps(pass, normal, selected)
  {
  }

  lemma SleepsInside<A(!new), R(!new)>(pass: Pass<A, R>, normal: R, selected: nat)
    requires Sleeps(pass, normal, selected)
    ensures forall acc, parent: Parent<R>, serial: nat, head | parent.role == normal && serial != selected ::
      pass.begin(acc, Some(parent), serial, head) == Some(Begun(acc, normal, normal))
    ensures forall acc, head :: pass.end(acc, normal, head) == acc
  {
  }

  /** What walking the selected node alone yields. */
  function Selected<A, R>(pass: Pass<A, R>, selected: nat, acc: A, node: Option<Json>): Option<A>
    requires selected > 0
  {
    if node == None then None
    else
      var inner := Walk(pass, acc, None, selected - 1, node.value);
      if inner == None then None else Some(inner.value.acc)
  }

  /** Walking a document is walking its selected node. */
  lemma {:induction false} WalkSelects<A(!new), R(!new)>(
    pass: Pass<A, R>, normal: R, selected: nat, acc: A, parent: Option<Parent<R>>, n: nat, v: Json)
    requires Idles(pass, normal, selected) && Ordinary(parent, normal) && n < selected <= n + Count(v)
    ensures var result := Selected(pass, selected, acc, NodeAt(v, selected - n));
      Walk(pass, acc, parent, n, v) == if result == None then None else Some(Walked(result.value, parent))
    decreases v, 0
  {
    hide Walk, WalkItems, WalkMembers, Sleeps;
    CountIsPositive(v);
    WalkStep(pass, acc, parent, n, v);
    SleepsInside(pass, normal, selected);
    if selected == n + 1 {
      WalkStep(pass, acc, None, n, v);
    } else {
      match v
      case Leaf(_) =>
      case Array(items) => WalkSelectsItems(pass, normal, selected, acc, Parent(normal, ""), n + 1, items);
      case Object(members) => WalkSelectsMembers(pass, normal, selected, acc, Parent(normal, ""), n + 1, members);
    }
  }

  lemma {:induction false} WalkSelectsItems<A(!new), R(!new)>(
    pass: Pass<A, R>, normal: R, selected: nat, acc: A, parent: Parent<R>, n: nat, items: seq<Json>)
    requires Idles(pass, normal, selected) && parent.role == normal && n < selected <= n + CountItems(items)
    ensures var result := Selected(pass, selected, acc, NodeInItems(items, selected - n));
      WalkItems(pass, acc, parent, n, items) == if result == None then None
        else Some(Walked(result.value, Some(parent)))
    decreases items, 1
  {
    hide Walk, Idles, Sleeps, Selected;
    Awake(pass, normal, selected);
    var init, last := items[..|items| - 1], items[|items| - 1];
    var m := n + CountItems(init);
    if selected <= m {
      WalkSelectsItems(pass, normal, selected, acc, parent, n, init);
      var before := WalkItems(pass, acc, parent, n, init);
      if before.Some? {
        WalkIdle(pass, normal, selected, before.value.acc, before.value.parent, m, last);
      }
    } else {
      WalkIdleItems(pass, normal, selected, acc, parent, n, init);
      WalkSelects(pass, normal, selected, acc, Some(parent), m, last);
    }
  }

  lemma {:induction false} WalkSelectsMembers<A(!new), R(!new)>(
    pass: Pass<A, R>, normal: R, selected: nat, acc: A, parent: Parent<R>, n: nat, members: seq<Member>)
    requires Idles(pass, normal, selected) && parent.role == normal && n < selected <= n + CountMembers(members)
    ensures var result := Selected(pass, selected, acc, NodeInMembers(members, selected - n));
      var w := WalkMembers(pass, acc, parent, n, members);
      && (w == None <==> result == None)
      && (w.Some? ==> w.value.acc == result.value && Ordinary(w.value.parent, normal))
    decreases members, 1
  {
    hide Walk, Idles, Sleeps, Selected;
    Awake(pass, normal, selected);
    var init, last := members[..|members| - 1], members[|members| - 1];
    var m := n + CountMembers(init);
    if selected <= m {
      WalkSelectsMembers(pass, normal, selected, acc, parent, n, init);
      var before := WalkMembers(pass, acc, parent, n, init);
      if before.Some? {
        WalkIdle(pass, normal, selected, before.value.acc, Keyed(before.value.parent, last.key), m, last.value);
      }
    } else {
      WalkIdleMembers(pass, normal, selected, acc, parent, n, init);
      var before := WalkMembers(pass, acc, parent, n, init);
      WalkSelects(pass, normal, selected, acc, Keyed(before.value.parent, last.key), m, last.value);
    }
  }

  /** A whole pass is the walk of its selected node. */
  lemma PassSelects<A(!new), R(!new)>(pass: Pass<A, R>, normal: R, selected: nat, acc: A, root: Json)
    requires Idles(pass, normal, selected) && selected > 0 && NodeAt(root, selected).Some?
    ensures Outcome(pass, acc, root)
      == if Depth(root) > MAX_NESTING then None else Selected(pass, selected, acc, NodeAt(root, selected))
  {
    hide Walk, Idles, Sleeps, Selected;
    Awake(pass, normal, selected);
    NodeIsCounted(root, selected);
    WalkSelects(pass, normal, selected, acc, None, 0, root);
  }
}
