/** The validator of workflow definitions: per-node and per-edge checks, then a
    depth-first walk that colours nodes while they are on the stack. */
module WorkflowValidator {
  import opened Text
  import opened WorkflowGraph

  datatype Fault =
    | BadSize | BadNode(id: Id) | RoleRequired(id: Id) | BadChannel(id: Id) | RecipientRequired(id: Id)
    | BadStartsOrEnds | BadEdge(edge: Edge) | BadBranches(id: Id)
    | Cycle(id: Id) | NoWayOut(id: Id) | Unreachable

  datatype Verdict = Fine | Bad(fault: Fault)

  function Lookup(out: map<Id, seq<Edge>>, id: Id): seq<Edge> {
    if id in out then out[id] else []
  }

  /** The table of outgoing edges. */
  ghost predicate Indexes(out: map<Id, seq<Edge>>, edges: seq<Edge>) {
    forall id :: Lookup(out, id) == Out(edges, id)
  }

  ghost predicate AllLeadTo(edges: seq<Edge>, stack: set<Id>, id: Id) {
    forall x :: x in stack ==> Leads(edges, x, id)
  }

  ghost predicate AllReachedFrom(edges: seq<Edge>, id: Id, found: set<Id>) {
    forall u :: u in found ==> Reaches(edges, id, u)
  }

  /** Going down an edge, the grown stack still leads to where the walk is. */
  lemma StackLeadsOn(edges: seq<Edge>, stack: set<Id>, id: Id, next: Id)
    requires AllLeadTo(edges, stack, id) && HasEdge(edges, id, next)
    ensures AllLeadTo(edges, stack + {id}, next)
  {
    forall x | x in stack + {id} ensures Leads(edges, x, next) {
      LeadsThenEdge(edges, x, id, next);
    }
  }

  /** What a child found, its parent reaches. */
  lemma FoundThrough(edges: seq<Edge>, id: Id, next: Id, first: set<Id>, mid: set<Id>, last: set<Id>)
    requires AllReachedFrom(edges, id, mid - first) && HasEdge(edges, id, next)
        && AllReachedFrom(edges, next, last - mid)
    ensures AllReachedFrom(edges, id, last - first)
  {
    forall u | u in last - first ensures Reaches(edges, id, u) {
      if u !in mid {
        assert u in last - mid;
        EdgeThenReaches(edges, id, next, u);
      } else {
        assert u in mid - first;
      }
    }
  }

  /** The first ways out lead to finished nodes. */
  ghost predicate Explored(ways: seq<Edge>, k: nat, visited: set<Id>)
    requires k <= |ways|
  {
    forall j :: 0 <= j < k ==> ways[j].to in visited
  }

  lemma ExploredNext(ways: seq<Edge>, k: nat, before: set<Id>, visited: set<Id>)
    requires k < |ways| && Explored(ways, k, before) && before <= visited && ways[k].to in visited
    ensures Explored(ways, k + 1, visited)
  {
  }

  lemma WayLeadsOn(nodes: seq<Node>, edges: seq<Edge>, id: Id, k: nat)
    requires k < |Out(edges, id)| && forall i :: 0 <= i < |edges| ==> EdgeAccepted(nodes, edges[i])
    ensures var next := Out(edges, id)[k].to; HasEdge(edges, id, next) && next in Ids(nodes)
  {
    OutMembers(edges, id);
    var e := Out(edges, id)[k];
    assert e in edges;
  }

  lemma AllWaysExplored(edges: seq<Edge>, id: Id, visited: set<Id>)
    requires Explored(Out(edges, id), |Out(edges, id)|, visited)
    ensures forall e :: e in edges && e.from == id ==> e.to in visited
  {
    OutMembers(edges, id);
    var ways := Out(edges, id);
    forall e | e in edges && e.from == id ensures e.to in visited {
      assert e in ways;
      var k :| 0 <= k < |ways| && ways[k] == e;
    }
  }

  /** The walk's state: `visiting` is the stack, `visited` what is finished. */
  class Walker {
    const byId: map<Id, Node>
    const out: map<Id, seq<Edge>>
    ghost const nodes: seq<Node>
    ghost const edges: seq<Edge>
    var visiting: set<Id>
    var visited: set<Id>
    ghost var place: map<Id, int> // finished nodes, each before everything finished earlier
    ghost var clock: int

    constructor (byId: map<Id, Node>, out: map<Id, seq<Edge>>, ghost nodes: seq<Node>, ghost edges: seq<Edge>)
      ensures this.byId == byId && this.out == out && this.nodes == nodes && this.edges == edges
      ensures visiting == {} && visited == {} && place == map[]
    {
      this.byId, this.out, this.nodes, this.edges := byId, out, nodes, edges;
      visiting, visited, place, clock := {}, {}, map[], 0;
    }

    /** The tables say what the definition says. */
    ghost predicate Tables() {
      && byId.Keys == Ids(nodes)
      && (forall id :: id in byId ==> byId[id] in nodes && byId[id].id == id)
      && (forall i :: 0 <= i < |edges| ==> EdgeAccepted(nodes, edges[i]))
      && Indexes(out, edges)
    }

    /** Finished nodes have ways out, all of which lead to nodes finished before. */
    ghost predicate Settled()
      reads this
    {
      && visiting <= Ids(nodes) && visited <= Ids(nodes) && visiting !! visited
      && place.Keys == visited
      && (forall u :: u in visited ==> place[u] > -clock)
      && (forall u :: u in visited && u in byId ==> !DeadEnd(byId[u], edges))
      && (forall e :: e in edges && e.from in visited ==> e.to in visited && place[e.from] < place[e.to])
    }

    /** A node goes on the stack. */
    method Enter(id: Id)
      requires Settled() && id in Ids(nodes) && id !in visited
      modifies this`visiting
      ensures Settled() && visiting == old(visiting) + {id}
    {
      visiting := visiting + {id};
    }

    /** A node whose ways all lead to finished nodes is finished too. */
    method Leave(id: Id)
      requires Tables() && Settled() && id in visiting && !DeadEnd(byId[id], edges)
      requires forall e :: e in edges && e.from == id ==> e.to in visited
      modifies this
      ensures Settled() && visiting == old(visiting) - {id} && visited == old(visited) + {id}
    {
      visiting := visiting - {id};
      visited := visited + {id};
      place := place[id := -clock];
      clock := clock + 1;
    }

    method Walk(id: Id) returns (v: Verdict)
      requires Tables() && Settled() && id in byId
      requires AllLeadTo(edges, visiting, id)
      modifies this
      ensures Settled() && old(visited) <= visited
      ensures v.Fine? ==>
        visiting == old(visiting) && id in visited && AllReachedFrom(edges, id, visited - old(visited))
      ensures v.Bad? ==>
        || (v.fault.Cycle? && Leads(edges, v.fault.id, v.fault.id))
        || (v.fault.NoWayOut? && v.fault.id in byId && DeadEnd(byId[v.fault.id], edges))
      decreases Ids(nodes) - visiting - visited
    {
      if id in visiting { return Bad(Cycle(id)); }
      if id in visited { return Fine; }
      assert id in Ids(nodes) - visiting - visited;
      Enter(id);
      var ways := Lookup(out, id);
      if !byId[id].kind.End? && ways == [] { return Bad(NoWayOut(id)); }
      var k := 0;
      while k < |ways|
        invariant 0 <= k <= |ways|
        invariant Settled() && visiting == old(visiting) + {id} && old(visited) <= visited
        invariant Explored(ways, k, visited)
        invariant AllReachedFrom(edges, id, visited - old(visited))
      {
        var next := ways[k].to;
        WayLeadsOn(nodes, edges, id, k);
        StackLeadsOn(edges, old(visiting), id, next);
        ghost var before := visited;
        assert Ids(nodes) - visiting - visited <= old(Ids(nodes) - visiting - visited) - {id};
        v := Walk(next);
        if v.Bad? { return v; }
        FoundThrough(edges, id, next, old(visited), before, visited);
        ExploredNext(ways, k, before, visited);
        k := k + 1;
      }
      AllWaysExplored(edges, id, visited);
      Leave(id);
      return Fine;
    }
  }

  /** Counting the answers a condition's edges carry. */
  method CountAnswers(out: seq<Edge>) returns (yes: nat, no: nat)
    ensures |out| == 2 ==> (yes == 1 && no == 1 <==> ForksOnAnswer(out))
  {
    yes, no := 0, 0;
    var k := 0;
    while k < |out|
      invariant 0 <= k <= |out|
      invariant yes == Answers(out[..k], "true") && no == Answers(out[..k], "false")
    {
      assert out[..k + 1][..k] == out[..k];
      if out[k].condition == "true" { yes := yes + 1; }
      if out[k].condition == "false" { no := no + 1; }
      k := k + 1;
    }
    assert out[..k] == out;
    if |out| == 2 {
      assert out[..1][..0] == [] && out[..1][0] == out[0];
      assert Answers(out, "true") == Answers(out[..1], "true") + if out[1].condition == "true" then 1 else 0;
      assert Answers(out, "false") == Answers(out[..1], "false") + if out[1].condition == "false" then 1 else 0;
    }
  }

  function Answers(out: seq<Edge>, answer: string): nat {
    if out == [] then 0 else
      Answers(out[..|out| - 1], answer) + if out[|out| - 1].condition == answer then 1 else 0
  }

  ghost predicate Catalogues(byId: map<Id, Node>, nodes: seq<Node>) {
    byId.Keys == Ids(nodes) && forall id :: id in byId ==> byId[id] in nodes && byId[id].id == id
  }

  ghost predicate NodesFit(nodes: seq<Node>) {
    DistinctIds(nodes) && forall i :: 0 <= i < |nodes| ==> NodeAccepted(nodes[i])
  }

  lemma OneMoreNode(nodes: seq<Node>, i: nat, byId: map<Id, Node>)
    requires i < |nodes| && Catalogues(byId, nodes[..i]) && NodesFit(nodes[..i])
    ensures NodeAccepted(nodes[i]) && nodes[i].id !in byId <==> NodesFit(nodes[..i + 1])
    ensures Catalogues(byId[nodes[i].id := nodes[i]], nodes[..i + 1]) || nodes[i].id in byId
  {
    var front, more := nodes[..i], nodes[..i + 1];
    assert more == front + [nodes[i]];
    if nodes[i].id in byId {
      var j :| 0 <= j < |front| && front[j].id == nodes[i].id;
      assert more[j].id == more[i].id;
    } else {
      assert Ids(more) == Ids(front) + {nodes[i].id} by {
        assert more[i].id in Ids(more);
        assert forall j :: 0 <= j < |front| ==> more[j] == front[j] && more[j].id in Ids(more);
      }
    }
  }

  lemma OneMisfitSpoils(nodes: seq<Node>, i: nat)
    requires i <= |nodes| && !NodesFit(nodes[..i])
    ensures !NodesFit(nodes)
  {
    var front := nodes[..i];
    if k :| 0 <= k < |front| && !NodeAccepted(front[k]) {
      assert nodes[k] == front[k];
    } else {
      var j, k :| 0 <= j < k < |front| && front[j].id == front[k].id;
      assert nodes[j].id == nodes[k].id;
    }
  }

  lemma CountNext(nodes: seq<Node>, i: nat)
    requires i < |nodes|
    ensures forall kind ::
      Count(nodes[..i + 1], kind) == Count(nodes[..i], kind) + if nodes[i].kind == kind then 1 else 0
  {
    assert nodes[..i + 1][..i] == nodes[..i];
  }

  /** The configuration an approval or a notification needs. */
  method CheckConfig(node: Node) returns (v: Verdict)
    requires node.id != "" && !node.kind.Unknown?
    ensures v.Fine? <==> NodeAccepted(node)
  {
    if node.kind.Approval? && node.role == "" { return Bad(RoleRequired(node.id)); }
    if node.kind.Notification? {
      if node.channel != "inapp" && node.channel != "email" && node.channel != "webhook" {
        return Bad(BadChannel(node.id));
      }
      TrimEmptyIffBlank(node.recipient);
      if node.channel != "inapp" && TrimSpace(node.recipient) == "" { return Bad(RecipientRequired(node.id)); }
    }
    return Fine;
  }

  method CheckNodes(nodes: seq<Node>) returns (v: Verdict, byId: map<Id, Node>)
    ensures v.Fine? <==> NodesFit(nodes) && Count(nodes, Start) == 1 && Count(nodes, End) >= 1
    ensures v.Fine? ==> Catalogues(byId, nodes)
  {
    byId := map[];
    var starts, ends := 0, 0;
    var i := 0;
    while i < |nodes|
      invariant 0 <= i <= |nodes|
      invariant Catalogues(byId, nodes[..i]) && NodesFit(nodes[..i])
      invariant starts == Count(nodes[..i], Start) && ends == Count(nodes[..i], End)
    {
      var node := nodes[i];
      OneMoreNode(nodes, i, byId);
      CountNext(nodes, i);
      if node.id == "" || node.id in byId || node.kind.Unknown? {
        OneMisfitSpoils(nodes, i + 1);
        return Bad(BadNode(node.id)), byId;
      }
      byId := byId[node.id := node];
      if node.kind.Start? { starts := starts + 1; }
      if node.kind.End? { ends := ends + 1; }
      v := CheckConfig(node);
      if v.Bad? {
        OneMisfitSpoils(nodes, i + 1);
        return;
      }
      i := i + 1;
    }
    assert nodes[..i] == nodes;
    if starts != 1 || ends < 1 { return Bad(BadStartsOrEnds), byId; }
    return Fine, byId;
  }

  lemma IndexNext(out: map<Id, seq<Edge>>, edges: seq<Edge>, i: nat)
    requires i < |edges| && Indexes(out, edges[..i])
    ensures Indexes(out[edges[i].from := Lookup(out, edges[i].from) + [edges[i]]], edges[..i + 1])
  {
    assert edges[..i + 1][..i] == edges[..i];
    var next := out[edges[i].from := Lookup(out, edges[i].from) + [edges[i]]];
    forall id ensures Lookup(next, id) == Out(edges[..i + 1], id) {
      assert Lookup(out, id) == Out(edges[..i], id);
    }
  }

  method CollectEdges(nodes: seq<Node>, edges: seq<Edge>, byId: map<Id, Node>)
    returns (v: Verdict, out: map<Id, seq<Edge>>)
    requires byId.Keys == Ids(nodes)
    ensures v.Fine? <==> forall i :: 0 <= i < |edges| ==> EdgeAccepted(nodes, edges[i])
    ensures v.Fine? ==> Indexes(out, edges)
  {
    out := map[];
    var i := 0;
    while i < |edges|
      invariant 0 <= i <= |edges|
      invariant forall k :: 0 <= k < i ==> EdgeAccepted(nodes, edges[k])
      invariant Indexes(out, edges[..i])
    {
      var edge := edges[i];
      if edge.from !in byId.Keys || edge.to !in byId.Keys || edge.from == edge.to { return Bad(BadEdge(edge)), out; }
      IndexNext(out, edges, i);
      out := out[edge.from := Lookup(out, edge.from) + [edge]];
      i := i + 1;
    }
    assert edges[..i] == edges;
    return Fine, out;
  }

  method CheckBranches(nodes: seq<Node>, edges: seq<Edge>, out: map<Id, seq<Edge>>) returns (v: Verdict)
    requires Indexes(out, edges)
    ensures v.Fine? <==> forall i :: 0 <= i < |nodes| && nodes[i].kind.Condition?
                          ==> ForksOnAnswer(Out(edges, nodes[i].id))
  {
    var i := 0;
    while i < |nodes|
      invariant 0 <= i <= |nodes|
      invariant forall k :: 0 <= k < i && nodes[k].kind.Condition? ==> ForksOnAnswer(Out(edges, nodes[k].id))
    {
      if nodes[i].kind.Condition? {
        var ways := Lookup(out, nodes[i].id);
        var yes, no := CountAnswers(ways);
        if yes != 1 || no != 1 || |ways| != 2 { return Bad(BadBranches(nodes[i].id)); }
      }
      i := i + 1;
    }
    return Fine;
  }

  method FindStart(nodes: seq<Node>) returns (id: Id)
    requires Count(nodes, Start) == 1
    ensures exists i :: 0 <= i < |nodes| && nodes[i].kind.Start? && nodes[i].id == id
  {
    id := "";
    CountPositive(nodes, Start);
    var i := 0;
    while i < |nodes|
      invariant 0 <= i <= |nodes|
      invariant (exists k :: 0 <= k < i && nodes[k].kind.Start?)
          ==> exists k :: 0 <= k < i && nodes[k].kind.Start? && nodes[k].id == id
    {
      if nodes[i].kind.Start? { id := nodes[i].id; }
      i := i + 1;
    }
  }

  /** What the walk left unvisited cannot be reached from where it started. */
  lemma VisitedIsAllThereIs(edges: seq<Edge>, visited: set<Id>, start: Id, id: Id)
    requires start in visited && (forall e :: e in edges && e.from in visited ==> e.to in visited)
    requires Reaches(edges, start, id)
    ensures id in visited
  {
    if id != start {
      var p :| |p| >= 2 && IsPathBetween(edges, p, start, id);
      InsideAlong(edges, visited, p, |p| - 1);
    }
  }

  lemma {:induction false} InsideAlong(edges: seq<Edge>, visited: set<Id>, p: seq<Id>, i: nat)
    requires (forall e :: e in edges && e.from in visited ==> e.to in visited) && IsPath(edges, p) && p[0] in visited
        && i < |p|
    ensures p[i] in visited
  {
    if i > 0 {
      InsideAlong(edges, visited, p, i - 1);
      assert HasEdge(edges, p[i - 1], p[i - 1 + 1]);
    }
  }

  /** In an accepted definition the walk from the start finishes every node. */
  lemma AcceptedIsAllVisited(nodes: seq<Node>, edges: seq<Edge>, visited: set<Id>, s: nat)
    requires Accepted(nodes, edges) && s < |nodes| && nodes[s].kind.Start? && nodes[s].id in visited
    requires visited <= Ids(nodes) && forall e :: e in edges && e.from in visited ==> e.to in visited
    ensures visited == Ids(nodes)
  {
    forall id | id in Ids(nodes) ensures id in visited {
      var j :| 0 <= j < |nodes| && nodes[j].id == id;
      VisitedIsAllThereIs(edges, visited, nodes[s].id, nodes[j].id);
    }
  }

  /** A walk that finished every node proves the definition accepted. */
  lemma AllVisitedIsAccepted(nodes: seq<Node>, edges: seq<Edge>, byId: map<Id, Node>, place: map<Id, int>, s: nat)
    requires Wellformed(nodes, edges) && Topological(edges, place)
    requires byId.Keys == Ids(nodes) && forall id :: id in byId
                                         ==> byId[id] in nodes && byId[id].id == id && !DeadEnd(byId[id], edges)
    requires s < |nodes| && nodes[s].kind.Start? && forall id :: id in byId ==> Reaches(edges, nodes[s].id, id)
    ensures Accepted(nodes, edges)
  {
    TopologicalIsAcyclic(edges, place);
    forall i | 0 <= i < |nodes| ensures !DeadEnd(nodes[i], edges) {
      assert nodes[i].id in byId;
      var k :| 0 <= k < |nodes| && nodes[k] == byId[nodes[i].id];
      assert k == i;
    }
    forall i, j | 0 <= i < |nodes| && 0 <= j < |nodes| && nodes[i].kind.Start?
      ensures Reaches(edges, nodes[i].id, nodes[j].id)
    {
      CountOneIsUnique(nodes, Start, i, s);
      assert nodes[j].id in byId;
    }
  }

  /** Runs the checks on single nodes and edges. */
  method CheckShape(nodes: seq<Node>, edges: seq<Edge>)
    returns (v: Verdict, byId: map<Id, Node>, out: map<Id, seq<Edge>>)
    ensures v.Fine? <==> Wellformed(nodes, edges)
    ensures v.Fine? ==> Catalogues(byId, nodes) && Indexes(out, edges)
  {
    byId, out := map[], map[];
    if |nodes| < 2 || |nodes| > 100 { return Bad(BadSize), byId, out; }
    v, byId := CheckNodes(nodes);
    if v.Bad? { return; }
    v, out := CollectEdges(nodes, edges, byId);
    if v.Bad? { return; }
    v := CheckBranches(nodes, edges, out);
  }

  ghost predicate HasTopologicalOrder(nodes: seq<Node>, edges: seq<Edge>) {
    exists place: map<Id, int> :: place.Keys == Ids(nodes) && Topological(edges, place)
  }

  lemma FaultIsReal(nodes: seq<Node>, edges: seq<Edge>, byId: map<Id, Node>, fault: Fault)
    requires Catalogues(byId, nodes)
    requires (fault.Cycle? && Leads(edges, fault.id, fault.id))
        || (fault.NoWayOut? && fault.id in byId && DeadEnd(byId[fault.id], edges))
    ensures !Accepted(nodes, edges)
  {
    if fault.NoWayOut? {
      var i :| 0 <= i < |nodes| && nodes[i] == byId[fault.id];
      assert DeadEnd(nodes[i], edges);
    }
  }

  /** The walk from the start decides whether a wellformed definition is accepted. */
  method CheckReach(nodes: seq<Node>, edges: seq<Edge>, byId: map<Id, Node>, out: map<Id, seq<Edge>>)
    returns (v: Verdict)
    requires Wellformed(nodes, edges) && Catalogues(byId, nodes) && Indexes(out, edges)
    ensures v.Fine? <==> Accepted(nodes, edges)
    ensures v.Fine? ==> HasTopologicalOrder(nodes, edges)
  {
    var start := FindStart(nodes);
    ghost var s :| 0 <= s < |nodes| && nodes[s].kind.Start? && nodes[s].id == start;
    var walker := new Walker(byId, out, nodes, edges);
    v := walker.Walk(start);
    if v.Bad? {
      FaultIsReal(nodes, edges, byId, v.fault);
      return;
    }
    IdsAreFew(nodes);
    if |walker.visited| != |nodes| {
      if Accepted(nodes, edges) { AcceptedIsAllVisited(nodes, edges, walker.visited, s); }
      return Bad(Unreachable);
    }
    SubsetOfSameSize(walker.visited, Ids(nodes));
    EdgesHavePlaces(nodes, edges, walker.place);
    AllVisitedIsAccepted(nodes, edges, byId, walker.place, s);
  }

  /** The validator accepts exactly the accepted definitions, and an accepted one
      comes with a topological order of its nodes. */
  method Validate(nodes: seq<Node>, edges: seq<Edge>) returns (v: Verdict)
    ensures v.Fine? <==> Accepted(nodes, edges)
    ensures v.Fine? ==> HasTopologicalOrder(nodes, edges)
    ensures v.Fine? ==> 2 <= |nodes| <= 100 && forall i :: 0 <= i < |nodes| ==>
      var n := nodes[i];
      && n.id != "" && n.kind in {Start, Approval, Condition, Notification, End} && (n.kind.Approval? ==> n.role != "")
      && (n.kind.Notification? ==> n.channel in {"inapp", "email", "webhook"})
      && (n.kind.Notification? && n.channel != "inapp" ==> !AllSpace(n.recipient))
  {
    var byId, out;
    v, byId, out := CheckShape(nodes, edges);
    if v.Fine? {
      v := CheckReach(nodes, edges, byId, out);
    }
  }

  lemma EdgesHavePlaces(nodes: seq<Node>, edges: seq<Edge>, place: map<Id, int>)
    requires Wellformed(nodes, edges) && place.Keys == Ids(nodes)
    requires forall e :: e in edges && e.from in place ==> e.to in place && place[e.from] < place[e.to]
    ensures Topological(edges, place)
  {
    forall e | e in edges ensures e.from in place {
      var i :| 0 <= i < |edges| && edges[i] == e;
      assert EdgeAccepted(nodes, edges[i]);
      assert e.from in place.Keys;
    }
  }

  lemma SubsetOfSameSize(a: set<Id>, b: set<Id>)
    requires a <= b && |a| == |b|
    ensures a == b
  {
    assert |b - a| == |b| - |a|;
    assert a == b - (b - a);
  }
}
