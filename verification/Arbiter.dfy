/**
 When a storage class qualifies for a stretch cluster with arbiter (packages/odf/utils/ocs.ts).
 */
module Arbiter {
  import opened Options
  import opened Sequences

  /** `zone` is the first non-empty zone label; `schedulable` says that the node has no taints or
      carries the storage taint. */
  datatype Node = Node(name: string, hostname: Option<string>, zone: Option<string>, schedulable: bool)

  datatype Expression = Expression(key: string, operator: string, values: seq<string>)

  datatype Volume = Volume(storageClass: string, phase: string, affinity: seq<Expression>)

  const HOSTNAME_KEY := "kubernetes.io/hostname"
  const LABEL_OPERATOR := "In"

  // ----- selected nodes -----

  function HostsOf(affinity: seq<Expression>): set<string> {
    set e, v | e in affinity && e.key == HOSTNAME_KEY && e.operator == LABEL_OPERATOR && v in e.values :: v
  }

  /** The hosts of the available volumes of the storage class. */
  function AssociatedNodes(scName: string, pvs: seq<Volume>): set<string> {
    set pv, h | pv in pvs && pv.storageClass == scName && pv.phase == "Available" && h in HostsOf(pv.affinity) :: h
  }

  function SelectedNodes(hosts: set<string>, nodes: seq<Node>): seq<Node> {
    if nodes == [] then []
    else
      var node := nodes[|nodes| - 1];
      SelectedNodes(hosts, nodes[..|nodes| - 1])
      + if node.name in hosts || (node.hostname.Some? && node.hostname.value in hosts) then [node] else []
  }

  // ----- zones -----

  function InZone(nodes: seq<Node>, zone: string): nat {
    if nodes == [] then 0
    else InZone(nodes[..|nodes| - 1], zone) + if nodes[|nodes| - 1].zone == Some(zone) then 1 else 0
  }

  /** The property name of a node's zone. */
  function ZoneKey(node: Node): string {
    if node.zone.Some? then node.zone.value else "undefined"
  }

  function PerKey(nodes: seq<Node>, key: string): nat {
    if nodes == [] then 0
    else PerKey(nodes[..|nodes| - 1], key) + if ZoneKey(nodes[|nodes| - 1]) == key then 1 else 0
  }

  function Zones(nodes: seq<Node>): set<string> {
    set node | node in nodes && node.zone.Some? :: node.zone.value
  }

  function SchedulableZones(nodes: seq<Node>): set<string> {
    set node | node in nodes && node.zone.Some? && node.schedulable :: node.zone.value
  }

  method CountNodesPerZone(nodes: seq<Node>) returns (acc: map<string, nat>)
    ensures forall key :: key in acc <==> exists node :: node in nodes && ZoneKey(node) == key
    ensures forall key :: key in acc ==> acc[key] == PerKey(nodes, key)
  {
    acc := map[];
    for i := 0 to |nodes|
      invariant forall key :: PerKey(nodes[..i], key) == if key in acc then acc[key] else 0
      invariant forall key :: key in acc <==> exists node :: node in nodes[..i] && ZoneKey(node) == key
    {
      assert nodes[..i + 1][..i] == nodes[..i];
      assert forall node :: node in nodes[..i + 1] <==> node in nodes[..i] || node == nodes[i];
      var zone := ZoneKey(nodes[i]);
      acc := acc[zone := if zone in acc then acc[zone] + 1 else 1];
    }
    assert nodes[..|nodes|] == nodes;
  }

  method SelectedZones(nodes: seq<Node>) returns (zones: set<string>)
    ensures zones == SchedulableZones(nodes)
  {
    zones := {};
    for i := 0 to |nodes|
      invariant zones == SchedulableZones(nodes[..i])
    {
      assert forall node :: node in nodes[..i + 1] <==> node in nodes[..i] || node == nodes[i];
      if nodes[i].zone.Some? && nodes[i].schedulable {
        zones := zones + {nodes[i].zone.value};
      }
    }
    assert nodes[..|nodes|] == nodes;
  }

  predicate IsArbiter(scName: string, pvs: seq<Volume>, nodes: seq<Node>) {
    var selected := SelectedNodes(AssociatedNodes(scName, pvs), nodes);
    && |Zones(nodes)| >= 3
    && |SchedulableZones(selected)| == 2
    && forall node :: node in selected ==> PerKey(selected, ZoneKey(node)) >= 2
  }

  method IsArbiterSC(scName: string, pvs: seq<Volume>, nodes: seq<Node>) returns (arbiter: bool)
    ensures arbiter == IsArbiter(scName, pvs, nodes)
  {
    var tableData := SelectedNodes(AssociatedNodes(scName, pvs), nodes);
    var uniqSelectedNodesZones := SelectedZones(tableData);
    if |Zones(nodes)| < 3 || |uniqSelectedNodesZones| != 2 {
      return false;
    }
    var zonePerNode := CountNodesPerZone(tableData);
    arbiter := forall zone :: zone in zonePerNode ==> zonePerNode[zone] >= 2;
  }

  // ----- the check in terms of volumes, nodes and positions -----

  /** The hosts: those that an available volume of the class names in an expression on host names. */
  lemma HostIff(scName: string, pvs: seq<Volume>, h: string)
    ensures h in AssociatedNodes(scName, pvs) <==>
              exists pv, e :: pv in pvs && pv.storageClass == scName && pv.phase == "Available" && e in pv.affinity
                           && e.key == "kubernetes.io/hostname" && e.operator == "In" && h in e.values
  {
    if pv, e :| pv in pvs && pv.storageClass == scName && pv.phase == "Available" && e in pv.affinity
                && e.key == "kubernetes.io/hostname" && e.operator == "In" && h in e.values {
      assert h in HostsOf(pv.affinity);
    }
    if h in AssociatedNodes(scName, pvs) {
      var pv :| pv in pvs && pv.storageClass == scName && pv.phase == "Available" && h in HostsOf(pv.affinity);
      var e :| e in pv.affinity && e.key == HOSTNAME_KEY && e.operator == LABEL_OPERATOR && h in e.values;
    }
  }

  /** The selected nodes, in their order: those whose name or host name is one of the hosts. */
  lemma {:induction false} SelectedPicks(hosts: set<string>, nodes: seq<Node>) returns (at: seq<nat>)
    ensures Picks(nodes, at, SelectedNodes(hosts, nodes))
    ensures forall k: nat :: k in at <==>
              k < |nodes| && (nodes[k].name in hosts || (nodes[k].hostname.Some? && nodes[k].hostname.value in hosts))
  {
    if nodes == [] {
      at := [];
    } else {
      var n := |nodes| - 1;
      at := SelectedPicks(hosts, nodes[..n]);
      PicksSnoc(nodes[..n], at, SelectedNodes(hosts, nodes[..n]), nodes[n]);
      assert nodes[..n] + [nodes[n]] == nodes;
      if nodes[n].name in hosts || (nodes[n].hostname.Some? && nodes[n].hostname.value in hosts) {
        at := at + [n];
      }
    }
  }

  lemma {:induction false} PerKeyIs(nodes: seq<Node>, key: string)
    ensures PerKey(nodes, key)
         == |Positions(nodes, (node: Node) => (if node.zone.Some? then node.zone.value else "undefined") == key)|
  {
    var p := (node: Node) => (if node.zone.Some? then node.zone.value else "undefined") == key;
    if nodes == [] {
      assert Positions(nodes, p) == {};
    } else {
      var n := |nodes| - 1;
      PerKeyIs(nodes[..n], key);
      PositionsSnoc(nodes[..n], nodes[n], p);
      assert nodes[..n] + [nodes[n]] == nodes;
    }
  }

  lemma {:induction false} InZoneIs(nodes: seq<Node>, zone: string)
    ensures InZone(nodes, zone) == |Positions(nodes, (node: Node) => node.zone == Some(zone))|
  {
    var p := (node: Node) => node.zone == Some(zone);
    if nodes == [] {
      assert Positions(nodes, p) == {};
    } else {
      var n := |nodes| - 1;
      InZoneIs(nodes[..n], zone);
      PositionsSnoc(nodes[..n], nodes[n], p);
      assert nodes[..n] + [nodes[n]] == nodes;
    }
  }

  /** The check: three zones among all nodes, two among the selected nodes that are schedulable, and
      each selected node shares its zone with another; nodes without a zone count as of one zone. */
  lemma CheckIff(scName: string, pvs: seq<Volume>, nodes: seq<Node>)
    ensures var selected := SelectedNodes(AssociatedNodes(scName, pvs), nodes);
            IsArbiter(scName, pvs, nodes) <==>
              && |set node | node in nodes && node.zone.Some? :: node.zone.value| >= 3
              && |set node | node in selected && node.zone.Some? && node.schedulable :: node.zone.value| == 2
              && forall i :: 0 <= i < |selected| ==>
                   PerKey(selected, if selected[i].zone.Some? then selected[i].zone.value else "undefined") >= 2
  {
    var selected := SelectedNodes(AssociatedNodes(scName, pvs), nodes);
    forall i | 0 <= i < |selected|
      ensures selected[i] in selected
    {
    }
  }

  // ----- what the check guarantees -----

  /** Nodes without a zone are counted under the key `undefined`, nodes of a zone under its own. */
  lemma {:induction false} KeyIsZone(nodes: seq<Node>, zone: string)
    ensures PerKey(nodes, zone) >= InZone(nodes, zone)
    ensures zone != "undefined" ==> PerKey(nodes, zone) == InZone(nodes, zone)
  {
    if nodes == [] {
    } else {
      KeyIsZone(nodes[..|nodes| - 1], zone);
    }
  }

  lemma {:induction false} ThreeKeys(nodes: seq<Node>, a: string, b: string, c: string)
    requires a != b && b != c && a != c
    ensures PerKey(nodes, a) + PerKey(nodes, b) + PerKey(nodes, c) <= |nodes|
  {
    if nodes == [] {
    } else {
      ThreeKeys(nodes[..|nodes| - 1], a, b, c);
    }
  }

  lemma {:induction false} InZoneOfMember(nodes: seq<Node>, node: Node)
    requires node in nodes && node.zone.Some?
    ensures InZone(nodes, node.zone.value) > 0
  {
    var n := |nodes| - 1;
    assert nodes == nodes[..n] + [nodes[n]];
    if node == nodes[n] {
    } else {
      InZoneOfMember(nodes[..n], node);
    }
  }

  lemma TwoOf(zones: set<string>) returns (a: string, b: string)
    requires |zones| == 2
    ensures a != b && zones == {a, b}
  {
    a :| a in zones;
    assert |zones - {a}| == 1;
    b :| b in zones - {a};
    assert |zones - {a} - {b}| == 0;
  }

  lemma {:induction false} SubsetSize(s: set<string>, t: set<string>)
    requires s <= t
    ensures |s| <= |t|
  {
    if s == {} {
    } else {
      var x :| x in s;
      SubsetSize(s - {x}, t - {x});
    }
  }

  /** The zones that the check has counted. */
  function CountedZones(scName: string, pvs: seq<Volume>, nodes: seq<Node>): set<string> {
    SchedulableZones(SelectedNodes(AssociatedNodes(scName, pvs), nodes))
  }

  function InSelected(scName: string, pvs: seq<Volume>, nodes: seq<Node>, zone: string): nat {
    InZone(SelectedNodes(AssociatedNodes(scName, pvs), nodes), zone)
  }

  /** The text's conditions: the two counted zones have at least two selected nodes each, and some
      node is in a third zone. */
  ghost predicate Stretched(scName: string, pvs: seq<Volume>, nodes: seq<Node>) {
    var zones := CountedZones(scName, pvs, nodes);
    && |zones| == 2 && (forall zone :: zone in zones ==> InSelected(scName, pvs, nodes, zone) >= 2)
    && exists c :: c !in zones && InZone(nodes, c) >= 1
  }

  lemma CountedKey(scName: string, pvs: seq<Volume>, nodes: seq<Node>, zone: string)
    requires IsArbiter(scName, pvs, nodes) && zone in CountedZones(scName, pvs, nodes)
    ensures InSelected(scName, pvs, nodes, zone) >= 1
    ensures zone != "undefined" ==> InSelected(scName, pvs, nodes, zone) >= 2
    ensures 2 <= PerKey(SelectedNodes(AssociatedNodes(scName, pvs), nodes), zone)
  {
    var selected := SelectedNodes(AssociatedNodes(scName, pvs), nodes);
    var node :| node in selected && node.schedulable && node.zone == Some(zone);
    InZoneOfMember(selected, node);
    KeyIsZone(selected, zone);
    assert ZoneKey(node) == zone;
  }

  lemma ThirdZone(scName: string, pvs: seq<Volume>, nodes: seq<Node>) returns (c: string)
    requires IsArbiter(scName, pvs, nodes)
    ensures c !in CountedZones(scName, pvs, nodes) && InZone(nodes, c) >= 1
  {
    var zones := CountedZones(scName, pvs, nodes);
    assert Zones(nodes) - zones != {} by {
      if Zones(nodes) - zones == {} {
        forall z | z in Zones(nodes)
          ensures z in zones
        {
          assert z !in Zones(nodes) - zones;
        }
        SubsetSize(Zones(nodes), zones);
      }
    }
    c :| c in Zones(nodes) - zones;
    var third :| third in nodes && third.zone == Some(c);
    InZoneOfMember(nodes, third);
  }

  /** A class that passes the check is stretched as the text requires, unless one of the two zones is
      labelled `undefined` and has a single selected node, which nodes without a zone make up for. */
  lemma ArbiterStretchedIff(scName: string, pvs: seq<Volume>, nodes: seq<Node>)
    requires IsArbiter(scName, pvs, nodes)
    ensures Stretched(scName, pvs, nodes) <==>
              !("undefined" in CountedZones(scName, pvs, nodes) && InSelected(scName, pvs, nodes, "undefined") == 1)
  {
    var zones := CountedZones(scName, pvs, nodes);
    forall zone | zone in zones
      ensures InSelected(scName, pvs, nodes, zone) >= 1
      ensures zone != "undefined" ==> InSelected(scName, pvs, nodes, zone) >= 2
    {
      CountedKey(scName, pvs, nodes, zone);
    }
    var c := ThirdZone(scName, pvs, nodes);
  }

  lemma {:induction false} KeysWithin(hosts: set<string>, nodes: seq<Node>, key: string)
    ensures PerKey(SelectedNodes(hosts, nodes), key) <= PerKey(nodes, key)
  {
    if nodes == [] {
    } else {
      var n := |nodes| - 1;
      KeysWithin(hosts, nodes[..n], key);
      var front := SelectedNodes(hosts, nodes[..n]);
      assert (front + [nodes[n]])[..|front|] == front;
      assert front + [] == front;
    }
  }

  /** In any case there are at least five nodes. */
  lemma ArbiterHasFiveNodes(scName: string, pvs: seq<Volume>, nodes: seq<Node>)
    requires IsArbiter(scName, pvs, nodes)
    ensures |nodes| >= 5
  {
    var hosts := AssociatedNodes(scName, pvs);
    var a, b := TwoOf(CountedZones(scName, pvs, nodes));
    CountedKey(scName, pvs, nodes, a);
    CountedKey(scName, pvs, nodes, b);
    var c := ThirdZone(scName, pvs, nodes);
    KeysWithin(hosts, nodes, a);
    KeysWithin(hosts, nodes, b);
    KeyIsZone(nodes, c);
    ThreeKeys(nodes, a, b, c);
  }

  /** The text's conditions without reference to the check's own sets: two zones with two selected
      nodes each, a node in a third zone, and at least five nodes. */
  lemma ArbiterMeansStretched(scName: string, pvs: seq<Volume>, nodes: seq<Node>)
    returns (a: string, b: string, c: string)
    requires IsArbiter(scName, pvs, nodes) && InSelected(scName, pvs, nodes, "undefined") != 1
    ensures a != b && InSelected(scName, pvs, nodes, a) >= 2 && InSelected(scName, pvs, nodes, b) >= 2
    ensures c != a && c != b && InZone(nodes, c) >= 1
    ensures |nodes| >= 5
  {
    var zones := CountedZones(scName, pvs, nodes);
    a, b := TwoOf(zones);
    c := ThirdZone(scName, pvs, nodes);
    forall zone | zone in zones
      ensures InSelected(scName, pvs, nodes, zone) >= 2
    {
      CountedKey(scName, pvs, nodes, zone);
    }
    ArbiterHasFiveNodes(scName, pvs, nodes);
  }

  lemma SelectedSnoc(hosts: set<string>, nodes: seq<Node>, node: Node)
    requires node.name in hosts
    ensures SelectedNodes(hosts, nodes + [node]) == SelectedNodes(hosts, nodes) + [node]
  {
    assert (nodes + [node])[..|nodes|] == nodes;
  }

  lemma {:induction false} AllSelected(hosts: set<string>, nodes: seq<Node>)
    requires forall node :: node in nodes ==> node.name in hosts
    ensures SelectedNodes(hosts, nodes) == nodes
  {
    if nodes == [] {
    } else {
      var n := |nodes| - 1;
      AllSelected(hosts, nodes[..n]);
      SelectedSnoc(hosts, nodes[..n], nodes[n]);
      assert nodes == nodes[..n] + [nodes[n]];
    }
  }

  lemma OneNotSelected(hosts: set<string>, nodes: seq<Node>, node: Node)
    requires node.hostname.None? && node.name !in hosts
    ensures SelectedNodes(hosts, nodes + [node]) == SelectedNodes(hosts, nodes)
  {
    assert (nodes + [node])[..|nodes|] == nodes;
    assert SelectedNodes(hosts, nodes) + [] == SelectedNodes(hosts, nodes);
  }

  function One(b: bool): nat {
    if b then 1 else 0
  }

  lemma CountSnoc(nodes: seq<Node>, node: Node, key: string)
    ensures PerKey(nodes + [node], key) == PerKey(nodes, key) + One(ZoneKey(node) == key)
    ensures InZone(nodes + [node], key) == InZone(nodes, key) + One(node.zone == Some(key))
  {
    assert (nodes + [node])[..|nodes|] == nodes;
  }

  lemma CountFour(a: Node, b: Node, c: Node, d: Node, key: string)
    ensures var nodes := [] + [a] + [b] + [c] + [d];
            && PerKey(nodes, key)
               == One(ZoneKey(a) == key) + One(ZoneKey(b) == key) + One(ZoneKey(c) == key) + One(ZoneKey(d) == key)
            && InZone(nodes, key)
               == One(a.zone == Some(key)) + One(b.zone == Some(key))
                  + One(c.zone == Some(key)) + One(d.zone == Some(key))
  {
    CountSnoc([], a, key);
    CountSnoc([] + [a], b, key);
    CountSnoc([] + [a] + [b], c, key);
    CountSnoc([] + [a] + [b] + [c], d, key);
  }

  lemma OneVolume(pv: Volume, e: Expression)
    requires pv.phase == "Available" && pv.affinity == [e] && e.key == HOSTNAME_KEY && e.operator == LABEL_OPERATOR
    ensures forall h :: h in AssociatedNodes(pv.storageClass, [pv]) <==> h in e.values
  {
    assert pv.affinity[0] == e;
    assert [pv][0] == pv;
    forall h | h in e.values
      ensures h in AssociatedNodes(pv.storageClass, [pv])
    {
      assert h in HostsOf(pv.affinity);
    }
  }

  ghost predicate IsExample(a: Node, b: Node, c: Node, d: Node, e: Node) {
    && a == Node("a", None, Some("x"), true) && b == Node("b", None, Some("x"), true)
    && c == Node("c", None, Some("undefined"), true) && d == Node("d", None, None, true)
    && e == Node("e", None, Some("z"), true)
  }

  lemma ExampleZones(a: Node, b: Node, c: Node, d: Node, e: Node)
    requires IsExample(a, b, c, d, e)
    ensures |Zones([a, b, c, d, e])| >= 3
    ensures SchedulableZones([a, b, c, d]) == {"x", "undefined"} && |SchedulableZones([a, b, c, d])| == 2
  {
    var nodes, selected := [a, b, c, d, e], [a, b, c, d];
    assert |"x"| != |"undefined"| && |"z"| != |"undefined"| && "x"[0] != "z"[0];
    assert selected[0] == a && selected[2] == c;
    assert nodes[0] == a && nodes[2] == c && nodes[4] == e;
    assert {"x", "undefined", "z"} <= Zones(nodes);
    SubsetSize({"x", "undefined", "z"}, Zones(nodes));
  }

  lemma ExampleIsArbiter(hosts: set<string>, a: Node, b: Node, c: Node, d: Node, e: Node)
    requires IsExample(a, b, c, d, e)
    requires "a" in hosts && "b" in hosts && "c" in hosts && "d" in hosts && "e" !in hosts
    ensures var selected := SelectedNodes(hosts, [a, b, c, d, e]);
            && selected == [a, b, c, d]
            && (forall node :: node in selected ==> PerKey(selected, ZoneKey(node)) >= 2)
            && InZone(selected, "undefined") == 1
  {
    var selected := [a, b, c, d];
    AllSelected(hosts, selected);
    OneNotSelected(hosts, selected, e);
    assert selected + [e] == [a, b, c, d, e];
    assert |"x"| != |"undefined"|;
    CountFour(a, b, c, d, "x");
    CountFour(a, b, c, d, "undefined");
    assert [] + [a] + [b] + [c] + [d] == selected;
  }

  /** A class that passes without being stretched: of its two zones the one labelled `undefined` has
      one node, and a node without a zone is counted with it. */
  lemma ArbiterNeedNotBeStretched() returns (scName: string, pvs: seq<Volume>, nodes: seq<Node>)
    ensures IsArbiter(scName, pvs, nodes) && !Stretched(scName, pvs, nodes)
  {
    var a, b := Node("a", None, Some("x"), true), Node("b", None, Some("x"), true);
    var c, d := Node("c", None, Some("undefined"), true), Node("d", None, None, true);
    var e := Node("e", None, Some("z"), true);
    var expression := Expression(HOSTNAME_KEY, LABEL_OPERATOR, ["a", "b", "c", "d"]);
    scName, pvs, nodes := "sc", [Volume("sc", "Available", [expression])], [a, b, c, d, e];
    OneVolume(pvs[0], expression);
    assert expression.values[0] == "a" && expression.values[1] == "b";
    assert expression.values[2] == "c" && expression.values[3] == "d";
    var hosts := AssociatedNodes(scName, pvs);
    assert "e" !in expression.values;
    ExampleZones(a, b, c, d, e);
    ExampleIsArbiter(hosts, a, b, c, d, e);
    ArbiterStretchedIff(scName, pvs, nodes);
  }
}
