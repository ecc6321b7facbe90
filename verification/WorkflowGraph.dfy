/** Workflow definitions, and what it means for one to be accepted. */
module WorkflowGraph {
  import opened Text

  type Id = string

  datatype Kind = Start | Approval | Condition | Notification | End | Unknown

  /** A node with the configuration entries the engine reads; an entry that is
      missing or not a string is the empty string. */
  datatype Node = Node(id: Id, kind: Kind, role: string, channel: string, recipient: string, subject: string,
    body: string)

  datatype Edge = Edge(from: Id, to: Id, condition: string)

  // ---- Looking things up -------------------------------------------------------

  function Ids(nodes: seq<Node>): set<Id> {
    set i | 0 <= i < |nodes| :: nodes[i].id
  }

  ghost predicate DistinctIds(nodes: seq<Node>) {
    forall i, j :: 0 <= i < j < |nodes| ==> nodes[i].id != nodes[j].id
  }

  /** The first node with the id. */
  function IndexOf(nodes: seq<Node>, id: Id): (i: nat)
    requires id in Ids(nodes)
    ensures i < |nodes| && nodes[i].id == id
  {
    if nodes[0].id == id then 0 else
      assert id in Ids(nodes[1..]) by {
        var i :| 0 <= i < |nodes| && nodes[i].id == id;
        assert nodes[1..][i - 1].id == id;
      }
      1 + IndexOf(nodes[1..], id)
  }

  function NodeOf(nodes: seq<Node>, id: Id): (node: Node)
    requires id in Ids(nodes)
    ensures node in nodes && node.id == id
  {
    nodes[IndexOf(nodes, id)]
  }

  /** The edges leaving a node, in definition order. */
  function Out(edges: seq<Edge>, id: Id): seq<Edge> {
    if edges == [] then [] else
      var e := edges[|edges| - 1];
      Out(edges[..|edges| - 1], id) + if e.from == id then [e] else []
  }

  lemma {:induction false} OutMembers(edges: seq<Edge>, id: Id)
    ensures forall e :: e in Out(edges, id) <==> e in edges && e.from == id
  {
    if edges != [] {
      OutMembers(edges[..|edges| - 1], id);
      assert edges == edges[..|edges| - 1] + [edges[|edges| - 1]];
    }
  }

  // ---- Paths ---------------------------------------------------------------------

  ghost predicate HasEdge(edges: seq<Edge>, a: Id, b: Id) {
    exists e :: e in edges && e.from == a && e.to == b
  }

  ghost predicate IsPath(edges: seq<Edge>, p: seq<Id>) {
    p != [] && forall i :: 0 <= i < |p| - 1 ==> HasEdge(edges, p[i], p[i + 1])
  }

  ghost predicate IsPathBetween(edges: seq<Edge>, p: seq<Id>, a: Id, b: Id) {
    IsPath(edges, p) && p[0] == a && p[|p| - 1] == b
  }

  /** One or more edges lead from a to b. */
  ghost predicate Leads(edges: seq<Edge>, a: Id, b: Id) {
    exists p :: |p| >= 2 && IsPathBetween(edges, p, a, b)
  }

  ghost predicate Reaches(edges: seq<Edge>, a: Id, b: Id) {
    a == b || Leads(edges, a, b)
  }

  ghost predicate Acyclic(edges: seq<Edge>) {
    forall id :: !Leads(edges, id, id)
  }

  lemma EdgeLeads(edges: seq<Edge>, a: Id, b: Id)
    requires HasEdge(edges, a, b)
    ensures Leads(edges, a, b)
  {
    assert IsPathBetween(edges, [a, b], a, b);
  }

  lemma LeadsThenEdge(edges: seq<Edge>, a: Id, b: Id, c: Id)
    requires Reaches(edges, a, b) && HasEdge(edges, b, c)
    ensures Leads(edges, a, c)
  {
    if a == b {
      EdgeLeads(edges, a, c);
    } else {
      var p :| |p| >= 2 && IsPathBetween(edges, p, a, b);
      assert IsPathBetween(edges, p + [c], a, c);
    }
  }

  lemma EdgeThenReaches(edges: seq<Edge>, a: Id, b: Id, c: Id)
    requires HasEdge(edges, a, b) && Reaches(edges, b, c)
    ensures Leads(edges, a, c)
  {
    if b == c {
      EdgeLeads(edges, a, c);
    } else {
      var p :| |p| >= 2 && IsPathBetween(edges, p, b, c);
      var q := [a] + p;
      forall i | 0 <= i < |q| - 1 ensures HasEdge(edges, q[i], q[i + 1]) {
        if i > 0 { assert q[i] == p[i - 1] && q[i + 1] == p[i]; }
      }
      assert IsPathBetween(edges, q, a, c);
    }
  }

  ghost predicate NoRepeats(p: seq<Id>) {
    forall i, j :: 0 <= i < j < |p| ==> p[i] != p[j]
  }

  /** A path through an acyclic graph never meets a node twice. */
  lemma AcyclicPathsDoNotRepeat(edges: seq<Edge>, p: seq<Id>)
    requires Acyclic(edges) && IsPath(edges, p)
    ensures NoRepeats(p)
  {
    forall i, j | 0 <= i < j < |p| ensures p[i] != p[j] {
      var q := p[i..j + 1];
      forall k | 0 <= k < |q| - 1 ensures HasEdge(edges, q[k], q[k + 1]) {
        assert HasEdge(edges, p[i + k], p[i + k + 1]);
      }
      assert IsPathBetween(edges, q, p[i], p[j]);
      assert p[i] == p[j] ==> Leads(edges, p[i], p[i]);
    }
  }

  lemma {:induction false} Pigeonhole(p: seq<Id>, ids: set<Id>)
    requires NoRepeats(p) && forall i :: 0 <= i < |p| ==> p[i] in ids
    ensures |p| <= |ids|
  {
    if p != [] {
      var last := p[|p| - 1];
      Pigeonhole(p[..|p| - 1], ids - {last});
    }
  }

  // ---- Accepted definitions ----------------------------------------------------------

  predicate NodeAccepted(node: Node) {
    && node.id != "" && !node.kind.Unknown?
    && (node.kind.Approval? ==> node.role != "")
    && (node.kind.Notification? ==>
          || node.channel == "inapp"
          || ((node.channel == "email" || node.channel == "webhook") && !AllSpace(node.recipient)))
  }

  function Count(nodes: seq<Node>, kind: Kind): nat {
    if nodes == [] then 0 else Count(nodes[..|nodes| - 1], kind) + if nodes[|nodes| - 1].kind == kind then 1 else 0
  }

  predicate EdgeAccepted(nodes: seq<Node>, edge: Edge) {
    edge.from in Ids(nodes) && edge.to in Ids(nodes) && edge.from != edge.to
  }

  /** A condition has two ways out, one for each answer. */
  predicate ForksOnAnswer(out: seq<Edge>) {
    |out| == 2 && (|| (out[0].condition == "true" && out[1].condition == "false")
                   || (out[0].condition == "false" && out[1].condition == "true"))
  }

  /** The rules on single nodes and edges. */
  ghost predicate Wellformed(nodes: seq<Node>, edges: seq<Edge>) {
    && 2 <= |nodes| <= 100 && DistinctIds(nodes)
    && (forall i :: 0 <= i < |nodes| ==> NodeAccepted(nodes[i]))
    && Count(nodes, Start) == 1 && Count(nodes, End) >= 1
    && (forall i :: 0 <= i < |edges| ==> EdgeAccepted(nodes, edges[i]))
    && (forall i :: 0 <= i < |nodes| && nodes[i].kind.Condition? ==> ForksOnAnswer(Out(edges, nodes[i].id)))
  }

  predicate DeadEnd(node: Node, edges: seq<Edge>) {
    !node.kind.End? && Out(edges, node.id) == []
  }

  /** What a definition must be to be accepted. */
  ghost predicate Accepted(nodes: seq<Node>, edges: seq<Edge>) {
    && Wellformed(nodes, edges)
    && (forall i :: 0 <= i < |nodes| ==> !DeadEnd(nodes[i], edges))
    && Acyclic(edges)
    && (forall i, j :: 0 <= i < |nodes| && 0 <= j < |nodes| && nodes[i].kind.Start?
         ==> Reaches(edges, nodes[i].id, nodes[j].id))
  }

  lemma {:induction false} CountPositive(nodes: seq<Node>, kind: Kind)
    ensures Count(nodes, kind) > 0 <==> exists i :: 0 <= i < |nodes| && nodes[i].kind == kind
  {
    if nodes != [] {
      var front := nodes[..|nodes| - 1];
      CountPositive(front, kind);
      if Count(front, kind) > 0 {
        var i :| 0 <= i < |front| && front[i].kind == kind;
        assert nodes[i].kind == kind;
      }
      if i :| 0 <= i < |nodes| && nodes[i].kind == kind && i < |front| {
        assert front[i].kind == kind;
      }
    }
  }

  lemma {:induction false} CountOneIsUnique(nodes: seq<Node>, kind: Kind, i: nat, j: nat)
    requires Count(nodes, kind) == 1 && i < |nodes| && j < |nodes| && nodes[i].kind == nodes[j].kind == kind
    ensures i == j
  {
    var n := |nodes| - 1;
    CountPositive(nodes[..n], kind);
    assert i < n ==> nodes[..n][i].kind == kind;
    assert j < n ==> nodes[..n][j].kind == kind;
    if i < n && j < n {
      CountOneIsUnique(nodes[..n], kind, i, j);
    }
  }

  lemma EdgesStayInside(nodes: seq<Node>, edges: seq<Edge>, p: seq<Id>)
    requires Wellformed(nodes, edges) && IsPath(edges, p) && p[0] in Ids(nodes)
    ensures forall i :: 0 <= i < |p| ==> p[i] in Ids(nodes)
  {
    forall i | 0 <= i < |p| ensures p[i] in Ids(nodes) {
      if i > 0 {
        assert HasEdge(edges, p[i - 1], p[i - 1 + 1]);
        var e :| e in edges && e.from == p[i - 1] && e.to == p[i];
      }
    }
  }

  /** A path through an accepted graph has at most as many nodes as the graph. */
  lemma PathsAreShort(nodes: seq<Node>, edges: seq<Edge>, p: seq<Id>)
    requires Wellformed(nodes, edges) && Acyclic(edges) && IsPath(edges, p) && p[0] in Ids(nodes)
    ensures NoRepeats(p) && |p| <= |nodes|
  {
    AcyclicPathsDoNotRepeat(edges, p);
    EdgesStayInside(nodes, edges, p);
    Pigeonhole(p, Ids(nodes));
    IdsAreFew(nodes);
  }

  lemma {:induction false} IdsAreFew(nodes: seq<Node>)
    ensures |Ids(nodes)| <= |nodes|
    ensures DistinctIds(nodes) ==> |Ids(nodes)| == |nodes|
  {
    if nodes == [] {
      assert Ids(nodes) == {};
    } else {
      var n := |nodes| - 1;
      IdsAreFew(nodes[..n]);
      assert Ids(nodes) == Ids(nodes[..n]) + {nodes[n].id} by {
        forall id | id in Ids(nodes) ensures id in Ids(nodes[..n]) + {nodes[n].id} {
          var i :| 0 <= i < |nodes| && nodes[i].id == id;
          if i < n { assert nodes[..n][i].id == id; }
        }
        forall id | id in Ids(nodes[..n]) ensures id in Ids(nodes) {
          var i :| 0 <= i < n && nodes[..n][i].id == id;
          assert nodes[i].id == id;
        }
      }
    }
  }

  /** From every node of an accepted graph an end can be reached. */
  lemma EveryNodeReachesAnEnd(nodes: seq<Node>, edges: seq<Edge>, id: Id)
    requires Accepted(nodes, edges) && id in Ids(nodes)
    ensures exists j :: 0 <= j < |nodes| && nodes[j].kind.End? && Reaches(edges, id, nodes[j].id)
  {
    var j := FollowToEnd(nodes, edges, [id]);
    var p :| IsPathBetween(edges, p, id, nodes[j].id);
    assert |p| == 1 ==> id == nodes[j].id;
  }

  lemma FollowToEnd(nodes: seq<Node>, edges: seq<Edge>, p: seq<Id>) returns (j: nat)
    requires Accepted(nodes, edges) && IsPath(edges, p) && p[0] in Ids(nodes)
    ensures j < |nodes| && nodes[j].kind.End? && exists q :: IsPathBetween(edges, q, p[0], nodes[j].id)
    decreases |nodes| + 1 - |p|
  {
    PathsAreShort(nodes, edges, p);
    EdgesStayInside(nodes, edges, p);
    var last := p[|p| - 1];
    j := IndexOf(nodes, last);
    if nodes[j].kind.End? {
      assert IsPathBetween(edges, p, p[0], nodes[j].id);
    } else {
      var e := Out(edges, last)[0];
      OutMembers(edges, last);
      assert HasEdge(edges, last, e.to);
      assert IsPath(edges, p + [e.to]);
      PathsAreShort(nodes, edges, p + [e.to]);
      j := FollowToEnd(nodes, edges, p + [e.to]);
    }
  }

  // ---- Topological orders --------------------------------------------------------------

  /** Every edge goes from an earlier to a later place in the order. */
  ghost predicate Topological(edges: seq<Edge>, place: map<Id, int>) {
    forall e :: e in edges ==> e.from in place && e.to in place && place[e.from] < place[e.to]
  }

  ghost predicate Increasing(place: map<Id, int>, p: seq<Id>) {
    (forall i :: 0 <= i < |p| ==> p[i] in place) && forall i, j :: 0 <= i < j < |p| ==> place[p[i]] < place[p[j]]
  }

  lemma PathsFollowTheOrder(edges: seq<Edge>, place: map<Id, int>, p: seq<Id>)
    requires Topological(edges, place) && IsPath(edges, p) && p[0] in place
    ensures Increasing(place, p)
  {
    forall i | 0 <= i < |p| ensures p[i] in place {
      if i > 0 { Forward(edges, place, p, 0, i); }
    }
    forall i, j | 0 <= i < j < |p| ensures place[p[i]] < place[p[j]] {
      Forward(edges, place, p, i, j);
    }
  }

  lemma {:induction false} Forward(edges: seq<Edge>, place: map<Id, int>, p: seq<Id>, i: nat, j: nat)
    requires Topological(edges, place) && IsPath(edges, p) && i < j < |p|
    ensures p[i] in place && p[j] in place && place[p[i]] < place[p[j]]
  {
    assert HasEdge(edges, p[j - 1], p[j - 1 + 1]);
    var e :| e in edges && e.from == p[j - 1] && e.to == p[j];
    if i < j - 1 { Forward(edges, place, p, i, j - 1); }
  }

  lemma TopologicalIsAcyclic(edges: seq<Edge>, place: map<Id, int>)
    requires Topological(edges, place)
    ensures Acyclic(edges)
  {
    forall id ensures !Leads(edges, id, id) {
      if Leads(edges, id, id) {
        var p :| |p| >= 2 && IsPathBetween(edges, p, id, id);
        Forward(edges, place, p, 0, |p| - 1);
      }
    }
  }
}
