/** The PCIe part of the topology tree (src/telemetryd/backend/topology.py): chains from an
    endpoint up to its root bus, merged into one tree. */
module Topology {
  import opened Common

  type Bus = nat
  type Dev = nat

  /** The kernel's PCI objects: the bridge that created each bus (none for a root bus) and
      the bus each device sits on. */
  datatype Hardware = Hardware(buses: set<Bus>, selfOf: Bus -> Option<Dev>, busOf: Dev -> Bus)

  /** Following `self` and `bus` stays inside the finite set of buses. */
  ghost predicate Closed(hw: Hardware) {
    forall b :: b in hw.buses && hw.selfOf(b).Some? ==> hw.busOf(hw.selfOf(b).value) in hw.buses
  }

  /** Every step towards the root leads to a bus of smaller depth. */
  ghost predicate Descends(hw: Hardware, depth: Bus -> nat) {
    forall b :: b in hw.buses && hw.selfOf(b).Some? ==> depth(hw.busOf(hw.selfOf(b).value)) < depth(b)
  }

  ghost predicate Acyclic(hw: Hardware) {
    exists depth :: Descends(hw, depth)
  }

  /** Nodes of the tree. An id names its bus or device; names are unique. */
  datatype Node = System | HostBridge(bus: Bus) | Pci(dev: Dev)

  function Parent(hw: Hardware, n: Node): Option<Node> {
    match n
    case System => None
    case HostBridge(_) => Some(System)
    case Pci(d) =>
      var b := hw.busOf(d);
      match hw.selfOf(b)
      case None => Some(HostBridge(b))
      case Some(bridge) => Some(Pci(bridge))
  }

  /** The `k`-th node above `n`. */
  function Up(hw: Hardware, n: Node, k: nat): Option<Node> {
    if k == 0 then Some(n)
    else
      match Up(hw, n, k - 1)
      case None => None
      case Some(m) => Parent(hw, m)
  }

  /** `n` lies on the line from device `d` to the root. */
  ghost predicate Above(hw: Hardware, n: Node, d: Dev) {
    exists k: nat :: Up(hw, Pci(d), k) == Some(n)
  }

  // ---- chains ----

  type Link = (Bus, Option<Dev>)

  function NodeOf(l: Link): Node {
    if l.1.None? then HostBridge(l.0) else Pci(l.1.value)
  }

  /** Link `i` of the climb from `d` is the `i + 1`-st node above it. */
  ghost predicate Climbs(hw: Hardware, d: Dev, up: seq<Link>) {
    forall i :: 0 <= i < |up| ==> up[i].1 == hw.selfOf(up[i].0) && Up(hw, Pci(d), i + 1) == Some(NodeOf(up[i]))
  }

  /** The bridge of one bus sits on the other. */
  ghost predicate SitsOn(hw: Hardware, l: Link, above: Link) {
    l.1 == hw.selfOf(l.0) && l.1.Some? && hw.busOf(l.1.value) == above.0
  }

  /** Each bus with its bridge, which sits on the bus before it. */
  ghost predicate Linked(hw: Hardware, chain: seq<Link>) {
    && (forall i :: 0 <= i < |chain| ==> chain[i].1 == hw.selfOf(chain[i].0))
    && (forall i :: 0 < i < |chain| ==> SitsOn(hw, chain[i], chain[i - 1]))
  }

  /** The same from the device up. */
  ghost predicate LinkedUp(hw: Hardware, up: seq<Link>) {
    && (forall i :: 0 <= i < |up| ==> up[i].1 == hw.selfOf(up[i].0))
    && (forall i :: 0 < i < |up| ==> SitsOn(hw, up[i - 1], up[i]))
  }

  lemma LinkedNext(hw: Hardware, up: seq<Link>, bus: Bus)
    requires LinkedUp(hw, up) && (up != [] ==> SitsOn(hw, up[|up| - 1], (bus, hw.selfOf(bus))))
    ensures LinkedUp(hw, up + [(bus, hw.selfOf(bus))])
  {
    var all := up + [(bus, hw.selfOf(bus))];
    forall i | 0 < i < |all|
      ensures SitsOn(hw, all[i - 1], all[i])
    {
      assert i < |up| ==> SitsOn(hw, up[i - 1], up[i]);
    }
  }

  lemma ReverseLinked(hw: Hardware, up: seq<Link>)
    requires LinkedUp(hw, up)
    ensures Linked(hw, Reverse(up))
  {
    var n := |up|;
    forall i | 0 < i < n
      ensures SitsOn(hw, Reverse(up)[i], Reverse(up)[i - 1])
    {
      assert SitsOn(hw, up[n - i - 1], up[n - i]);
    }
  }

  /** The climb in the order `_bus_chain` returns it: root first. */
  ghost predicate IsChain(hw: Hardware, d: Dev, chain: seq<Link>) {
    forall i :: 0 <= i < |chain| ==> Up(hw, Pci(d), |chain| - i) == Some(NodeOf(chain[i]))
  }

  function Reverse(s: seq<Link>): (r: seq<Link>)
    ensures |r| == |s| && forall i :: 0 <= i < |s| ==> r[i] == s[|s| - 1 - i]
  {
    if s == [] then [] else Reverse(s[1..]) + [s[0]]
  }

  /** `_bus_chain`: ends on every finite bus graph, cyclic ones included; on an acyclic one
      it reaches the root bus. */
  method BusChain(hw: Hardware, d: Dev) returns (chain: seq<Link>)
    requires Closed(hw) && hw.busOf(d) in hw.buses
    ensures IsChain(hw, d, chain) && |chain| > 0
    ensures Linked(hw, chain) && chain[|chain| - 1].0 == hw.busOf(d)
    ensures Acyclic(hw) ==> chain[0].1.None?
  {
    var up := Climb(hw, d);
    ReverseLinked(hw, up);
    chain := Reverse(up);
  }

  ghost function SomeDepth(hw: Hardware): (depth: Bus -> nat)
    ensures Acyclic(hw) ==> Descends(hw, depth)
  {
    if Acyclic(hw) then var f :| Descends(hw, f); f else (b: Bus) => 0
  }

  method Climb(hw: Hardware, d: Dev) returns (up: seq<Link>)
    requires Closed(hw) && hw.busOf(d) in hw.buses
    ensures Climbs(hw, d, up) && |up| > 0
    ensures LinkedUp(hw, up) && up[0].0 == hw.busOf(d)
    ensures Acyclic(hw) ==> up[|up| - 1].1.None?
  {
    up := [];
    var bus := hw.busOf(d);
    var seen: set<Bus> := {};
    ghost var at := d;
    ghost var depth: Bus -> nat := SomeDepth(hw);
    while bus !in seen
      invariant bus in hw.buses && seen <= hw.buses
      invariant Climbs(hw, d, up) && (seen == {} <==> up == [])
      invariant LinkedUp(hw, up) && (up == [] ==> bus == hw.busOf(d)) && (up != [] ==> up[0].0 == hw.busOf(d))
      invariant up != [] ==> SitsOn(hw, up[|up| - 1], (bus, hw.selfOf(bus)))
      invariant bus == hw.busOf(at) && Up(hw, Pci(d), |up|) == Some(Pci(at))
      invariant Acyclic(hw) ==> forall b :: b in seen ==> depth(bus) < depth(b)
      decreases hw.buses - seen
    {
      seen := seen + {bus};
      var bridge := hw.selfOf(bus);
      assert Parent(hw, Pci(at)) == Some(NodeOf((bus, bridge)));
      LinkedNext(hw, up, bus);
      up := up + [(bus, bridge)];
      if bridge.None? {
        break;
      }
      at := bridge.value;
      bus := hw.busOf(bridge.value);
    }
  }

  // ---- the tree ----

  datatype Tree = Tree(children: map<Node, seq<Node>>)

  /** Every node except the root is listed once, under its hardware parent. */
  ghost predicate WellFormed(hw: Hardware, t: Tree) {
    System in t.children && forall n :: n in t.children ==> Placed(hw, t, n)
  }

  ghost predicate Placed(hw: Hardware, t: Tree, n: Node)
    requires n in t.children
  {
    && NoDuplicates(t.children[n])
    && (forall c :: c in t.children[n] ==> c in t.children && Parent(hw, c) == Some(n))
    && (n != System ==> ListedUnder(t, Parent(hw, n), n))
  }

  ghost predicate ListedUnder(t: Tree, p: Option<Node>, c: Node) {
    p.Some? && p.value in t.children && c in t.children[p.value]
  }

  /** The nodes are the root and the lines of the given devices. */
  ghost predicate Holds(hw: Hardware, t: Tree, devices: seq<Dev>) {
    && (forall d :: d in devices ==> Pci(d) in t.children)
    && (forall n :: n in t.children ==> Justified(hw, devices, n))
  }

  ghost predicate Justified(hw: Hardware, devices: seq<Dev>, n: Node) {
    n == System || exists d :: d in devices && Above(hw, n, d)
  }

  /** Looking a node up in the index and appending it to its parent when it is new. */
  method Attach(hw: Hardware, t: Tree, parent: Node, node: Node) returns (r: Tree)
    requires WellFormed(hw, t) && parent in t.children && Parent(hw, node) == Some(parent)
    ensures WellFormed(hw, r)
    ensures r.children.Keys == t.children.Keys + {node}
  {
    if node in t.children {
      return t;
    }
    r := Tree(t.children[parent := t.children[parent] + [node]][node := []]);
    assert node != parent && node !in t.children[parent] by {
      assert Placed(hw, t, parent);
    }
    forall n | n in r.children
      ensures Placed(hw, r, n)
    {
      if n != node {
        assert Placed(hw, t, n);
      }
    }
  }

  /** The inner loop of `build_topology`: the chain of a device, root first. */
  method AddChain(hw: Hardware, t: Tree, d: Dev, chain: seq<Link>, ghost all: seq<Dev>) returns (r: Tree, parent: Node)
    requires IsChain(hw, d, chain) && |chain| > 0 && chain[0].1.None? && d in all
    requires WellFormed(hw, t) && forall n :: n in t.children ==> Justified(hw, all, n)
    ensures WellFormed(hw, r) && forall n :: n in r.children ==> Justified(hw, all, n)
    ensures t.children.Keys <= r.children.Keys
    ensures parent == NodeOf(chain[|chain| - 1]) && parent in r.children
  {
    r, parent := t, System;
    for i := 0 to |chain|
      invariant WellFormed(hw, r) && parent in r.children
      invariant parent == if i == 0 then System else NodeOf(chain[i - 1])
      invariant t.children.Keys <= r.children.Keys
      invariant forall n :: n in r.children ==> Justified(hw, all, n)
    {
      var node := NodeOf(chain[i]);
      NextUp(hw, d, chain, i);
      assert Justified(hw, all, node);
      r := Attach(hw, r, parent, node);
      parent := node;
    }
  }

  /** One round of `build_topology`: the chain of a device, then its endpoint. */
  method AddDevice(hw: Hardware, t: Tree, d: Dev, ghost devices: seq<Dev>) returns (r: Tree)
    requires Closed(hw) && Acyclic(hw) && hw.busOf(d) in hw.buses
    requires WellFormed(hw, t) && Holds(hw, t, devices)
    ensures WellFormed(hw, r) && Holds(hw, r, devices + [d])
  {
    ghost var all := devices + [d];
    MoreDevices(hw, t, devices, d);
    var chain := BusChain(hw, d);
    var parent;
    assert all[|devices|] == d;
    r, parent := AddChain(hw, t, d, chain, all);
    Endpoint(hw, d, chain);
    r := Attach(hw, r, parent, Pci(d));
    assert Justified(hw, all, Pci(d));
  }

  lemma Endpoint(hw: Hardware, d: Dev, chain: seq<Link>)
    requires IsChain(hw, d, chain) && |chain| > 0
    ensures Parent(hw, Pci(d)) == Some(NodeOf(chain[|chain| - 1])) && Above(hw, Pci(d), d)
  {
    assert Up(hw, Pci(d), 0) == Some(Pci(d));
    assert Up(hw, Pci(d), |chain| - (|chain| - 1)) == Some(NodeOf(chain[|chain| - 1]));
  }

  lemma MoreDevices(hw: Hardware, t: Tree, devices: seq<Dev>, d: Dev)
    requires Holds(hw, t, devices)
    ensures forall n :: n in t.children ==> Justified(hw, devices + [d], n)
  {
    forall n | n in t.children && n != System
      ensures Justified(hw, devices + [d], n)
    {
      assert Justified(hw, devices, n);
      var e :| e in devices && Above(hw, n, e);
      assert e in devices + [d];
    }
  }

  /** Each link of a chain hangs below the one before it. */
  lemma NextUp(hw: Hardware, d: Dev, chain: seq<Link>, i: nat)
    requires IsChain(hw, d, chain) && i < |chain| && chain[0].1.None?
    ensures Parent(hw, NodeOf(chain[i])) == Some(if i == 0 then System else NodeOf(chain[i - 1]))
    ensures Above(hw, NodeOf(chain[i]), d)
  {
    assert Up(hw, Pci(d), |chain| - i) == Some(NodeOf(chain[i]));
    if i > 0 {
      assert Up(hw, Pci(d), |chain| - (i - 1)) == Some(NodeOf(chain[i - 1]));
    }
  }

  /** `build_topology`; a device that cannot be looked up (`None`) is skipped. */
  method BuildTopology(hw: Hardware, found: seq<Option<Dev>>) returns (t: Tree)
    requires Closed(hw) && Acyclic(hw)
    requires forall i :: 0 <= i < |found| && found[i].Some? ==> hw.busOf(found[i].value) in hw.buses
    ensures WellFormed(hw, t) && Holds(hw, t, Present(found))
  {
    t := Tree(map[System := []]);
    for i := 0 to |found|
      invariant WellFormed(hw, t) && Holds(hw, t, Present(found[..i]))
    {
      assert found[..i + 1][..i] == found[..i];
      if found[i].Some? {
        t := AddDevice(hw, t, found[i].value, Present(found[..i]));
      }
    }
    assert found[..|found|] == found;
  }

  function Present(found: seq<Option<Dev>>): seq<Dev> {
    if found == [] then []
    else
      var front := Present(found[..|found| - 1]);
      var last := found[|found| - 1];
      if last.None? then front else front + [last.value]
  }

  /** A well-formed tree contains everything above its nodes. */
  lemma {:induction false} ContainsAbove(hw: Hardware, t: Tree, n: Node, k: nat)
    requires WellFormed(hw, t) && n in t.children && Up(hw, n, k).Some?
    ensures Up(hw, n, k).value in t.children
  {
    if k > 0 {
      ContainsAbove(hw, t, n, k - 1);
      assert Placed(hw, t, Up(hw, n, k - 1).value);
    }
  }

  /** The tree is exactly the union of the devices' lines to the root. */
  lemma UnionOfLines(hw: Hardware, t: Tree, devices: seq<Dev>, n: Node)
    requires WellFormed(hw, t) && Holds(hw, t, devices)
    ensures n in t.children <==> n == System || exists d :: d in devices && Above(hw, n, d)
  {
    if n in t.children {
      assert Justified(hw, devices, n);
    }
    if d :| d in devices && Above(hw, n, d) {
      var k: nat :| Up(hw, Pci(d), k) == Some(n);
      ContainsAbove(hw, t, Pci(d), k);
    }
  }

  /** In the kernel's terms: under the root are the host bridges of root buses, under each host bridge or
      bridge the devices of the bus it leads to. */
  lemma ChildrenAreHardware(hw: Hardware, t: Tree, n: Node, d: Dev)
    requires WellFormed(hw, t) && n in t.children
    ensures Pci(d) in t.children[n] ==>
              && Pci(d) in t.children
              && match hw.selfOf(hw.busOf(d)) { case None => n == HostBridge(hw.busOf(d)) case Some(bridge) => n == Pci(bridge) }
    ensures forall b :: HostBridge(b) in t.children[n] ==> n == System && HostBridge(b) in t.children
    ensures System !in t.children[n]
  {
    assert Placed(hw, t, n);
  }

  /** And every device of the tree hangs where its bus says. */
  lemma DevicesAreChildren(hw: Hardware, t: Tree, d: Dev)
    requires WellFormed(hw, t) && Pci(d) in t.children
    ensures match hw.selfOf(hw.busOf(d)) {
              case None => HostBridge(hw.busOf(d)) in t.children && Pci(d) in t.children[HostBridge(hw.busOf(d))]
                           && HostBridge(hw.busOf(d)) in t.children[System]
              case Some(bridge) => Pci(bridge) in t.children && Pci(d) in t.children[Pci(bridge)]
            }
  {
    assert Placed(hw, t, Pci(d));
    if hw.selfOf(hw.busOf(d)).None? {
      assert Placed(hw, t, HostBridge(hw.busOf(d)));
    }
  }

  /** The device order and repetitions do not matter: same nodes, same children. */
  lemma OrderDoesNotMatter(hw: Hardware, t: Tree, u: Tree, ds: seq<Dev>, es: seq<Dev>, n: Node)
    requires WellFormed(hw, t) && Holds(hw, t, ds)
    requires WellFormed(hw, u) && Holds(hw, u, es)
    requires forall d :: d in ds <==> d in es
    ensures n in t.children <==> n in u.children
    ensures n in t.children && n in u.children ==> forall c :: c in t.children[n] <==> c in u.children[n]
  {
    UnionOfLines(hw, t, ds, n);
    UnionOfLines(hw, u, es, n);
    if n in t.children && n in u.children {
      forall c
        ensures c in t.children[n] <==> c in u.children[n]
      {
        SameChild(hw, t, u, ds, es, n, c);
        SameChild(hw, u, t, es, ds, n, c);
      }
    }
  }

  lemma SameChild(hw: Hardware, t: Tree, u: Tree, ds: seq<Dev>, es: seq<Dev>, n: Node, c: Node)
    requires WellFormed(hw, t) && Holds(hw, t, ds)
    requires WellFormed(hw, u) && Holds(hw, u, es)
    requires (forall d :: d in ds <==> d in es) && n in t.children && n in u.children
    ensures c in t.children[n] ==> c in u.children[n]
  {
    if c in t.children[n] {
      assert Placed(hw, t, n);
      UnionOfLines(hw, t, ds, c);
      UnionOfLines(hw, u, es, c);
      assert Placed(hw, u, c);
    }
  }
}
