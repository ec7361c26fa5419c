/** pkg/validation: when a cluster passes validation. */
module Validation {
  import opened Prelude

  datatype Condition = Condition(kind: string, status: string)

  /** role is the text of util.GetNodeRole, empty when the node carries no role label. */
  datatype Node = Node(role: string, hostname: string, zone: string, conditions: seq<Condition>)

  datatype Component = Component(name: string, conditions: seq<Condition>)

  datatype Pod = Pod(name: string, phase: string, containersReady: seq<bool>)

  /** What the API server answers during one validation; None is a failed call. */
  datatype Snapshot = Snapshot(instanceGroups: nat, hasClient: bool,
                               nodes: Option<seq<Node>>, components: Option<seq<Component>>, pods: Option<seq<Pod>>)

  datatype ValidationNode = ValidationNode(zone: string, role: string, hostname: string, status: string)

  // ----- pkg/validation/node_api_adapter.go

  /** The first condition of that kind. */
  ghost predicate IsFirst(conditions: seq<Condition>, kind: string, i: nat) {
    i < |conditions| && conditions[i].kind == kind && forall j :: 0 <= j < i ==> conditions[j].kind != kind
  }

  method FindNodeCondition(node: Node, kind: string) returns (found: Option<Condition>)
    ensures found == Lookup(node.conditions, kind)
    ensures found.None? <==> forall i :: 0 <= i < |node.conditions| ==> node.conditions[i].kind != kind
    ensures found.Some? ==> exists i: nat :: IsFirst(node.conditions, kind, i) && found.value == node.conditions[i]
  {
    for i := 0 to |node.conditions|
      invariant forall j :: 0 <= j < i ==> node.conditions[j].kind != kind
      invariant Lookup(node.conditions, kind) == Lookup(node.conditions[i..], kind)
    {
      if node.conditions[i].kind == kind {
        assert IsFirst(node.conditions, kind, i);
        return Some(node.conditions[i]);
      }
      assert node.conditions[i..][1..] == node.conditions[i + 1..];
    }
    return None;
  }

  function Lookup(conditions: seq<Condition>, kind: string): Option<Condition> {
    if conditions == [] then None
    else if conditions[0].kind == kind then Some(conditions[0])
    else Lookup(conditions[1..], kind)
  }

  function StatusIn(node: Node, kind: string, expected: set<string>): bool {
    var c := Lookup(node.conditions, kind);
    c.Some? && c.value.status in expected
  }

  /** IsNodeOrMasterReady */
  predicate Ready(node: Node) {
    StatusIn(node, "Ready", {"True"})
    && (Lookup(node.conditions, "NetworkUnavailable").None?
        || StatusIn(node, "NetworkUnavailable", {"False", "Unknown"}))
  }

  /** What a node that is fit for use reports: its Ready condition is True, and no lack of a network is known. */
  ghost predicate ReportsReady(conditions: seq<Condition>) {
    && (exists i: nat :: IsFirst(conditions, "Ready", i) && conditions[i].status == "True")
    && (forall i: nat :: IsFirst(conditions, "NetworkUnavailable", i) ==>
          conditions[i].status == "False" || conditions[i].status == "Unknown")
  }

  lemma {:induction false} LookupIsFirst(conditions: seq<Condition>, kind: string)
    ensures Lookup(conditions, kind).None? ==> forall i: nat :: !IsFirst(conditions, kind, i)
    ensures Lookup(conditions, kind).Some? ==>
              exists i: nat :: IsFirst(conditions, kind, i) && Lookup(conditions, kind).value == conditions[i]
  {
    if conditions != [] {
      if conditions[0].kind == kind {
        assert IsFirst(conditions, kind, 0);
      } else {
        LookupIsFirst(conditions[1..], kind);
        forall i: nat | IsFirst(conditions, kind, i) ensures IsFirst(conditions[1..], kind, i - 1) {
        }
        if Lookup(conditions, kind).Some? {
          var i: nat :| IsFirst(conditions[1..], kind, i) && Lookup(conditions, kind).value == conditions[1..][i];
          FirstAfter(conditions, kind, i);
        }
      }
    }
  }

  lemma FirstAfter(conditions: seq<Condition>, kind: string, i: nat)
    requires conditions != [] && conditions[0].kind != kind && IsFirst(conditions[1..], kind, i)
    ensures IsFirst(conditions, kind, i + 1)
  {
    forall j | 0 <= j < i + 1 ensures conditions[j].kind != kind {
      assert j > 0 ==> conditions[1..][j - 1] == conditions[j];
    }
  }

  lemma FirstIsUnique(conditions: seq<Condition>, kind: string, i: nat, j: nat)
    requires IsFirst(conditions, kind, i) && IsFirst(conditions, kind, j)
    ensures i == j
  {
  }

  /** The status that a lookup finds is that of the first condition of the kind. */
  lemma StatusIsFirst(conditions: seq<Condition>, kind: string, i: nat)
    requires IsFirst(conditions, kind, i)
    ensures Lookup(conditions, kind) == Some(conditions[i])
  {
    LookupIsFirst(conditions, kind);
    var j: nat :| IsFirst(conditions, kind, j) && Lookup(conditions, kind).value == conditions[j];
    FirstIsUnique(conditions, kind, i, j);
  }

  /** IsNodeOrMasterReady, in terms of the node's conditions. */
  lemma ReadyIff(node: Node)
    ensures Ready(node) <==> ReportsReady(node.conditions)
  {
    var cs := node.conditions;
    LookupIsFirst(cs, "Ready");
    LookupIsFirst(cs, "NetworkUnavailable");
    forall i: nat | IsFirst(cs, "Ready", i) ensures Lookup(cs, "Ready") == Some(cs[i]) {
      StatusIsFirst(cs, "Ready", i);
    }
    forall i: nat | IsFirst(cs, "NetworkUnavailable", i) ensures Lookup(cs, "NetworkUnavailable") == Some(cs[i]) {
      StatusIsFirst(cs, "NetworkUnavailable", i);
    }
  }

  /** GetNodeConditionStatus */
  function ReadyStatus(node: Node): string {
    var c := Lookup(node.conditions, "Ready");
    if c.Some? then c.value.status else "Unknown"
  }

  function RoleOf(node: Node): string {
    if node.role == "" then "node" else node.role
  }

  function Describe(node: Node): ValidationNode {
    ValidationNode(node.zone, RoleOf(node), node.hostname, ReadyStatus(node))
  }

  /** The entry on a node: its labels, its role (a node without one is a plain node) and its first Ready status. */
  lemma DescribedAsReported(node: Node)
    ensures var n := Describe(node);
            && n.zone == node.zone && n.hostname == node.hostname
            && (node.role == "" ==> n.role == "node") && (node.role != "" ==> n.role == node.role)
            && (forall i: nat :: IsFirst(node.conditions, "Ready", i) ==> n.status == node.conditions[i].status)
            && ((forall i: nat :: !IsFirst(node.conditions, "Ready", i)) ==> n.status == "Unknown")
  {
    LookupIsFirst(node.conditions, "Ready");
    forall i: nat | IsFirst(node.conditions, "Ready", i) ensures Describe(node).status == node.conditions[i].status {
      StatusIsFirst(node.conditions, "Ready", i);
    }
  }

  // ----- pkg/validation/validate_cluster.go

  function Report(n: Node, role: string, ready: bool): seq<ValidationNode> {
    if RoleOf(n) == role && Ready(n) == ready then [Describe(n)] else []
  }

  /** The reports on the nodes of one role that are ready, or that are not. */
  function Reports(nodes: seq<Node>, role: string, ready: bool): seq<ValidationNode> {
    if nodes == [] then [] else Reports(nodes[..|nodes| - 1], role, ready) + Report(nodes[|nodes| - 1], role, ready)
  }

  function Members(nodes: seq<Node>, role: string): nat {
    if nodes == [] then 0
    else Members(nodes[..|nodes| - 1], role) + if RoleOf(nodes[|nodes| - 1]) == role then 1 else 0
  }

  /** The four lists of a ValidationCluster and its two counts. */
  datatype Tally = Tally(mastersReady: seq<ValidationNode>, mastersNotReady: seq<ValidationNode>,
                         nodesReady: seq<ValidationNode>, nodesNotReady: seq<ValidationNode>,
                         masters: int, nodes: int)

  const NOTHING := Tally([], [], [], [], 0, 0)

  function FileOne(t: Tally, n: Node, countMasters: bool, countNodes: bool): Tally {
    Tally(t.mastersReady + Report(n, "master", true), t.mastersNotReady + Report(n, "master", false),
          t.nodesReady + Report(n, "node", true), t.nodesNotReady + Report(n, "node", false),
          t.masters + if countMasters && RoleOf(n) == "master" then 1 else 0,
          t.nodes + if countNodes && RoleOf(n) == "node" then 1 else 0)
  }

  /** The node checks: no master and no node is unready, and the counts are covered by the ready ones. */
  predicate NodesPass(t: Tally) {
    |t.mastersNotReady| == 0 && t.masters == |t.mastersReady| && |t.nodesNotReady| == 0 && t.nodes <= |t.nodesReady|
  }

  function FileAll(t: Tally, nodes: seq<Node>, countMasters: bool, countNodes: bool): Tally {
    if nodes == [] then t
    else
      var before := FileAll(t, nodes[..|nodes| - 1], countMasters, countNodes);
      FileOne(before, nodes[|nodes| - 1], countMasters, countNodes)
  }

  /** Filing every node appends its role's ready nodes and unready nodes, in order, and counts them. */
  lemma {:induction false} FiledInOrder(t: Tally, nodes: seq<Node>, countMasters: bool, countNodes: bool)
    ensures FileAll(t, nodes, countMasters, countNodes)
         == Tally(t.mastersReady + Reports(nodes, "master", true), t.mastersNotReady + Reports(nodes, "master", false),
                  t.nodesReady + Reports(nodes, "node", true), t.nodesNotReady + Reports(nodes, "node", false),
                  t.masters + if countMasters then Members(nodes, "master") else 0,
                  t.nodes + if countNodes then Members(nodes, "node") else 0)
  {
    if nodes != [] {
      var front, n := nodes[..|nodes| - 1], nodes[|nodes| - 1];
      FiledInOrder(t, front, countMasters, countNodes);
      Assoc(t.mastersReady, Reports(front, "master", true), Report(n, "master", true));
      Assoc(t.mastersNotReady, Reports(front, "master", false), Report(n, "master", false));
      Assoc(t.nodesReady, Reports(front, "node", true), Report(n, "node", true));
      Assoc(t.nodesNotReady, Reports(front, "node", false), Report(n, "node", false));
    }
  }

  lemma {:induction false} MembersAreReported(nodes: seq<Node>, role: string)
    ensures Members(nodes, role) == |Reports(nodes, role, true)| + |Reports(nodes, role, false)|
  {
    if nodes != [] {
      MembersAreReported(nodes[..|nodes| - 1], role);
    }
  }

  function FailuresIn(c: Component, n: nat): seq<string>
    requires n <= |c.conditions|
  {
    if n == 0 then []
    else FailuresIn(c, n - 1) + if c.conditions[n - 1].status != "True" then [c.name] else []
  }

  function ComponentFailures(cs: seq<Component>): seq<string> {
    if cs == [] then []
    else ComponentFailures(cs[..|cs| - 1]) + FailuresIn(cs[|cs| - 1], |cs[|cs| - 1].conditions|)
  }

  function UnreadyIn(p: Pod, n: nat): seq<string>
    requires n <= |p.containersReady|
  {
    if n == 0 then [] else UnreadyIn(p, n - 1) + if !p.containersReady[n - 1] then [p.name] else []
  }

  function PodFailures(ps: seq<Pod>): seq<string> {
    if ps == [] then []
    else
      var p := ps[|ps| - 1];
      PodFailures(ps[..|ps| - 1]) + if p.phase == "Succeeded" then [] else UnreadyIn(p, |p.containersReady|)
  }

  /** One failure, named after the component, for each condition that is not True, and in their order. */
  lemma ComponentFailuresAre(cs: seq<Component>, name: string, conditions: seq<Condition>, last: Condition)
    ensures ComponentFailures([]) == []
    ensures ComponentFailures(cs + [Component(name, [])]) == ComponentFailures(cs)
    ensures ComponentFailures(cs + [Component(name, conditions + [last])])
         == ComponentFailures(cs + [Component(name, conditions)]) + if last.status == "True" then [] else [name]
  {
    var longer, shorter := Component(name, conditions + [last]), Component(name, conditions);
    assert (cs + [Component(name, [])])[..|cs|] == cs;
    assert (cs + [longer])[..|cs|] == cs && (cs + [shorter])[..|cs|] == cs;
    FailuresInPrefix(longer, shorter, |conditions|);
    Assoc(ComponentFailures(cs), FailuresIn(shorter, |conditions|), if last.status == "True" then [] else [name]);
  }

  lemma {:induction false} FailuresInPrefix(a: Component, b: Component, n: nat)
    requires n <= |a.conditions| && n <= |b.conditions| && a.name == b.name && a.conditions[..n] == b.conditions[..n]
    ensures FailuresIn(a, n) == FailuresIn(b, n)
  {
    if n > 0 {
      assert a.conditions[..n - 1] == a.conditions[..n][..n - 1] == b.conditions[..n - 1];
      assert a.conditions[n - 1] == a.conditions[..n][n - 1] == b.conditions[n - 1];
      FailuresInPrefix(a, b, n - 1);
    }
  }

  /** One failure, named after the pod, for each container that is not ready, and in their order. */
  lemma PodFailuresAre(ps: seq<Pod>, name: string, phase: string, ready: seq<bool>, last: bool)
    ensures PodFailures([]) == []
    ensures phase == "Succeeded" || ready == [] ==> PodFailures(ps + [Pod(name, phase, ready)]) == PodFailures(ps)
    ensures phase != "Succeeded" ==>
              PodFailures(ps + [Pod(name, phase, ready + [last])])
              == PodFailures(ps + [Pod(name, phase, ready)]) + if last then [] else [name]
  {
    var longer, shorter := Pod(name, phase, ready + [last]), Pod(name, phase, ready);
    assert (ps + [longer])[..|ps|] == ps && (ps + [shorter])[..|ps|] == ps;
    UnreadyInPrefix(longer, shorter, |ready|);
    Assoc(PodFailures(ps), UnreadyIn(shorter, |ready|), if last then [] else [name]);
  }

  lemma {:induction false} UnreadyInPrefix(a: Pod, b: Pod, n: nat)
    requires n <= |a.containersReady| && n <= |b.containersReady| && a.name == b.name
    requires a.containersReady[..n] == b.containersReady[..n]
    ensures UnreadyIn(a, n) == UnreadyIn(b, n)
  {
    if n > 0 {
      assert a.containersReady[..n - 1] == a.containersReady[..n][..n - 1] == b.containersReady[..n - 1];
      assert a.containersReady[n - 1] == a.containersReady[..n][n - 1] == b.containersReady[n - 1];
      UnreadyInPrefix(a, b, n - 1);
    }
  }

  method CollectComponentFailures(cs: seq<Component>) returns (failures: seq<string>)
    ensures failures == ComponentFailures(cs)
  {
    failures := [];
    for i := 0 to |cs|
      invariant failures == ComponentFailures(cs[..i])
    {
      var before := failures;
      for j := 0 to |cs[i].conditions|
        invariant failures == before + FailuresIn(cs[i], j)
      {
        if cs[i].conditions[j].status != "True" {
          failures := failures + [cs[i].name];
        }
      }
      assert cs[..i + 1][..i] == cs[..i];
    }
    assert cs[..|cs|] == cs;
  }

  method CollectPodFailures(ps: seq<Pod>) returns (failures: seq<string>)
    ensures failures == PodFailures(ps)
  {
    failures := [];
    for i := 0 to |ps|
      invariant failures == PodFailures(ps[..i])
    {
      assert ps[..i + 1][..i] == ps[..i];
      if ps[i].phase == "Succeeded" {
        continue;
      }
      var before := failures;
      for j := 0 to |ps[i].containersReady|
        invariant failures == before + UnreadyIn(ps[i], j)
      {
        if !ps[i].containersReady[j] {
          failures := failures + [ps[i].name];
        }
      }
    }
    assert ps[..|ps|] == ps;
  }

  class ValidationCluster {
    var mastersReady: bool
    var mastersReadyArray: seq<ValidationNode>
    var mastersNotReadyArray: seq<ValidationNode>
    var mastersCount: int
    var nodesReady: bool
    var nodesReadyArray: seq<ValidationNode>
    var nodesNotReadyArray: seq<ValidationNode>
    var nodesCount: int
    var nodeList: seq<Node>
    var componentFailures: seq<string>
    var podFailures: seq<string>
    var status: string

    constructor (nodes: seq<Node>, componentFailures: seq<string>, podFailures: seq<string>)
      ensures Filed() == NOTHING && status == ""
      ensures nodeList == nodes && this.componentFailures == componentFailures && this.podFailures == podFailures
    {
      mastersReady, nodesReady, mastersCount, nodesCount, status := false, false, 0, 0, "";
      mastersReadyArray, mastersNotReadyArray, nodesReadyArray, nodesNotReadyArray := [], [], [], [];
      nodeList, this.componentFailures, this.podFailures := nodes, componentFailures, podFailures;
    }

    ghost function Filed(): Tally
      reads this
    {
      Tally(mastersReadyArray, mastersNotReadyArray, nodesReadyArray, nodesNotReadyArray, mastersCount, nodesCount)
    }

    /** One round of the loop: files the report on a node, and counts it where a count was asked for. */
    method File(node: Node, countMasters: bool, countNodes: bool)
      modifies this`mastersReadyArray, this`mastersNotReadyArray, this`mastersCount
      modifies this`nodesReadyArray, this`nodesNotReadyArray, this`nodesCount
      ensures Filed() == FileOne(old(Filed()), node, countMasters, countNodes)
    {
      var n := Describe(node);
      var ready := Ready(node);
      if n.role == "master" {
        if countMasters {
          mastersCount := mastersCount + 1;
        }
        if ready {
          mastersReadyArray := mastersReadyArray + [n];
        } else {
          mastersNotReadyArray := mastersNotReadyArray + [n];
        }
      } else if n.role == "node" {
        if countNodes {
          nodesCount := nodesCount + 1;
        }
        if ready {
          nodesReadyArray := nodesReadyArray + [n];
        } else {
          nodesNotReadyArray := nodesNotReadyArray + [n];
        }
      }
    }

    /** The loop over the node list. */
    method FileNodes(countMasters: bool, countNodes: bool)
      modifies this`mastersReadyArray, this`mastersNotReadyArray, this`mastersCount
      modifies this`nodesReadyArray, this`nodesNotReadyArray, this`nodesCount
      ensures Filed() == FileAll(old(Filed()), nodeList, countMasters, countNodes)
    {
      for i := 0 to |nodeList|
        invariant Filed() == FileAll(old(Filed()), nodeList[..i], countMasters, countNodes)
      {
        File(nodeList[i], countMasters, countNodes);
        assert nodeList[..i + 1][..i] == nodeList[..i];
      }
      assert nodeList[..|nodeList|] == nodeList;
    }

    /** The checks after the loop. */
    method Verdict() returns (ok: bool)
      modifies this`mastersReady, this`nodesReady, this`status
      ensures ok <==> NodesPass(Filed()) && |componentFailures| == 0 && |podFailures| == 0
      ensures status == if ok then old(status) else "FAILED"
    {
      mastersReady := |mastersNotReadyArray| == 0 && mastersCount == |mastersReadyArray|;
      nodesReady := |nodesNotReadyArray| == 0 && nodesCount <= |nodesReadyArray|;
      if !mastersReady {
        status := "FAILED";
        return false;
      }
      if !nodesReady {
        status := "FAILED";
        return false;
      }
      if |componentFailures| != 0 {
        status := "FAILED";
        return false;
      }
      if |podFailures| != 0 {
        status := "FAILED";
        return false;
      }
      return true;
    }

    /** Counts that are set beforehand are kept; a count of zero is filled in from the node list. */
    method ValidateTheNodes() returns (ok: bool)
      modifies this
      ensures nodeList == old(nodeList)
      ensures componentFailures == old(componentFailures) && podFailures == old(podFailures)
      ensures Filed() == FileAll(old(Filed()), nodeList, old(mastersCount) == 0, old(nodesCount) == 0)
      ensures ok <==> nodeList != [] && NodesPass(Filed()) && |componentFailures| == 0 && |podFailures| == 0
      ensures status == if ok || nodeList == [] then old(status) else "FAILED"
    {
      if nodeList == [] {
        return false;
      }
      FileNodes(mastersCount == 0, nodesCount == 0);
      ok := Verdict();
    }
  }

  /** Every node that is a master or a plain node, which needs no label, reports that it is ready. */
  ghost predicate AllReportReady(nodes: seq<Node>) {
    forall n :: n in nodes && (n.role == "master" || n.role == "node" || n.role == "") ==> ReportsReady(n.conditions)
  }

  /** A cluster is healthy when every master and plain node is ready and nothing reports a failure. */
  ghost predicate Healthy(nodes: seq<Node>, components: seq<Component>, pods: seq<Pod>) {
    && nodes != []
    && AllReportReady(nodes)
    && (forall c, d :: c in components && d in c.conditions ==> d.status == "True")
    && (forall p :: p in pods && p.phase != "Succeeded" ==> false !in p.containersReady)
  }

  ghost predicate Passes(s: Snapshot) {
    s.instanceGroups > 0 && s.hasClient && s.nodes.Some? && s.components.Some? && s.pods.Some?
    && Healthy(s.nodes.value, s.components.value, s.pods.value)
  }

  lemma {:induction false} NoReportsIff(nodes: seq<Node>, role: string, ready: bool)
    ensures Reports(nodes, role, ready) == [] <==> forall n :: n in nodes && RoleOf(n) == role ==> Ready(n) != ready
  {
    if nodes != [] {
      var front, last := nodes[..|nodes| - 1], nodes[|nodes| - 1];
      assert nodes == front + [last];
      NoReportsIff(front, role, ready);
      if RoleOf(last) == role && Ready(last) == ready {
        assert last in nodes;
      }
    }
  }

  lemma NoneUnreadyIff(nodes: seq<Node>)
    ensures Reports(nodes, "master", false) == [] && Reports(nodes, "node", false) == [] <==> AllReportReady(nodes)
  {
    NoReportsIff(nodes, "master", false);
    NoReportsIff(nodes, "node", false);
    forall n: Node ensures Ready(n) <==> ReportsReady(n.conditions) {
      ReadyIff(n);
    }
  }

  /** From empty lists and zero counts, the node checks pass exactly when every master and every node is ready. */
  lemma NodesPassIff(nodes: seq<Node>)
    ensures NodesPass(FileAll(NOTHING, nodes, true, true)) <==> AllReportReady(nodes)
  {
    PresetCountsIff(nodes, 0, 0);
  }

  /** How many nodes carry one of these roles. */
  function WithRole(nodes: seq<Node>, roles: set<string>): nat {
    if nodes == [] then 0 else (if nodes[0].role in roles then 1 else 0) + WithRole(nodes[1..], roles)
  }

  lemma {:induction false} WithRoleAppend(a: seq<Node>, b: seq<Node>, roles: set<string>)
    ensures WithRole(a + b, roles) == WithRole(a, roles) + WithRole(b, roles)
  {
    if a == [] {
      assert a + b == b;
    } else {
      assert (a + b)[1..] == a[1..] + b;
      WithRoleAppend(a[1..], b, roles);
    }
  }

  lemma {:induction false} MembersHaveRole(nodes: seq<Node>)
    ensures Members(nodes, "master") == WithRole(nodes, {"master"})
    ensures Members(nodes, "node") == WithRole(nodes, {"node", ""})
  {
    if nodes != [] {
      var front, last := nodes[..|nodes| - 1], nodes[|nodes| - 1];
      assert nodes == front + [last];
      MembersHaveRole(front);
      WithRoleAppend(front, [last], {"master"});
      WithRoleAppend(front, [last], {"node", ""});
    }
  }

  /**
   * With counts that are set beforehand, zero standing for one that is not: the node checks pass exactly when every
   * master and plain node is ready, there are exactly as many masters as set, and at least as many plain nodes.
   */
  lemma PresetCountsIff(nodes: seq<Node>, masters: int, plain: int)
    ensures NodesPass(FileAll(NOTHING.(masters := masters, nodes := plain), nodes, masters == 0, plain == 0))
       <==> (&& AllReportReady(nodes)
             && (masters == 0 || masters == WithRole(nodes, {"master"}))
             && plain <= WithRole(nodes, {"node", ""}))
  {
    FiledInOrder(NOTHING.(masters := masters, nodes := plain), nodes, masters == 0, plain == 0);
    MembersAreReported(nodes, "master");
    MembersAreReported(nodes, "node");
    MembersHaveRole(nodes);
    NoneUnreadyIff(nodes);
  }

  lemma {:induction false} NoFailuresInIff(c: Component, n: nat)
    requires n <= |c.conditions|
    ensures FailuresIn(c, n) == [] <==> forall j :: 0 <= j < n ==> c.conditions[j].status == "True"
  {
    if n > 0 {
      NoFailuresInIff(c, n - 1);
    }
  }

  lemma {:induction false} NoComponentFailuresIff(cs: seq<Component>)
    ensures ComponentFailures(cs) == [] <==> forall c, d :: c in cs && d in c.conditions ==> d.status == "True"
  {
    if cs != [] {
      var front, last := cs[..|cs| - 1], cs[|cs| - 1];
      assert cs == front + [last];
      NoComponentFailuresIff(front);
      NoFailuresInIff(last, |last.conditions|);
      if ComponentFailures(cs) != [] && ComponentFailures(front) == [] {
        var j :| 0 <= j < |last.conditions| && last.conditions[j].status != "True";
        assert last in cs && last.conditions[j] in last.conditions;
      }
    }
  }

  lemma {:induction false} NoUnreadyInIff(p: Pod, n: nat)
    requires n <= |p.containersReady|
    ensures UnreadyIn(p, n) == [] <==> forall j :: 0 <= j < n ==> p.containersReady[j]
  {
    if n > 0 {
      NoUnreadyInIff(p, n - 1);
    }
  }

  lemma {:induction false} NoPodFailuresIff(ps: seq<Pod>)
    ensures PodFailures(ps) == [] <==> forall p :: p in ps && p.phase != "Succeeded" ==> false !in p.containersReady
  {
    if ps != [] {
      var front, last := ps[..|ps| - 1], ps[|ps| - 1];
      assert ps == front + [last];
      NoPodFailuresIff(front);
      NoUnreadyInIff(last, |last.containersReady|);
      if PodFailures(ps) != [] && PodFailures(front) == [] {
        assert last in ps;
      }
    }
  }

  lemma HealthyIff(nodes: seq<Node>, components: seq<Component>, pods: seq<Pod>)
    ensures Healthy(nodes, components, pods)
       <==> (&& nodes != []
             && NodesPass(FileAll(NOTHING, nodes, true, true))
             && |ComponentFailures(components)| == 0
             && |PodFailures(pods)| == 0)
  {
    NodesPassIff(nodes);
    NoComponentFailuresIff(components);
    NoPodFailuresIff(pods);
  }

  lemma PassesIff(s: Snapshot)
    requires s.nodes.Some? && s.components.Some? && s.pods.Some?
    ensures Passes(s)
       <==> (&& s.instanceGroups > 0 && s.hasClient && s.nodes.value != []
             && NodesPass(FileAll(NOTHING, s.nodes.value, true, true))
             && |ComponentFailures(s.components.value)| == 0
             && |PodFailures(s.pods.value)| == 0)
  {
    HealthyIff(s.nodes.value, s.components.value, s.pods.value);
  }

  /** ValidateCluster succeeds exactly when the answers show a healthy cluster. */
  method ValidateCluster(s: Snapshot) returns (ok: bool)
    ensures ok <==> Passes(s)
    ensures ok <==>
            && s.instanceGroups > 0 && s.hasClient && s.nodes.Some? && s.components.Some? && s.pods.Some?
            && s.nodes.value != [] && AllReportReady(s.nodes.value)
            && (forall c, d :: c in s.components.value && d in c.conditions ==> d.status == "True")
            && (forall p :: p in s.pods.value && p.phase != "Succeeded" ==> false !in p.containersReady)
  {
    if s.instanceGroups == 0 || !s.hasClient || s.nodes.None? || s.components.None? || s.pods.None? {
      return false;
    }
    var componentFailures := CollectComponentFailures(s.components.value);
    var podFailures := CollectPodFailures(s.pods.value);
    var vc := new ValidationCluster(s.nodes.value, componentFailures, podFailures);
    ok := vc.ValidateTheNodes();
    PassesIff(s);
  }
}
