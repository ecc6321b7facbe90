/** Which accepted definitions a traversal can fail on: those with an ordinary node that has
    several ways out and that some traversal comes to. */
module WorkflowBranching {
  import opened WorkflowGraph
  import opened WorkflowTraversal

  /** Where a traversal may begin: at the start, or after an approval. */
  predicate Entry(nodes: seq<Node>, after: Id) {
    after == "" || IsKind(nodes, after, Approval)
  }

  /** A path from there that meets no end. */
  ghost predicate OpenPath(nodes: seq<Node>, edges: seq<Edge>, after: Id, p: seq<Id>) {
    && Entry(nodes, after) && IsPath(edges, p) && p[0] == Origin(nodes, after)
    && forall i :: 0 <= i < |p| ==> !IsKind(nodes, p[i], End)
  }

  /** A node with several ways out that such a path comes to. */
  ghost predicate Exposed(nodes: seq<Node>, edges: seq<Edge>, id: Id) {
    Branches(nodes, edges, id) && exists after, p :: OpenPath(nodes, edges, after, p) && p[|p| - 1] == id
  }

  /** Whatever the conditions answer, a traversal that begins here moves the instance. */
  ghost predicate Moves(nodes: seq<Node>, edges: seq<Edge>, after: Id, user: string) {
    forall answers: Answers :: OutcomeOf(nodes, FullWalk(nodes, edges, after, answers), user).Moved?
  }

  ghost predicate AlwaysMoves(nodes: seq<Node>, edges: seq<Edge>, user: string) {
    forall after :: Entry(nodes, after) ==> Moves(nodes, edges, after, user)
  }

  // ---- A traversal that comes to the node ------------------------------------------------------

  /** An open path on which no node but the last branches and no approval follows the first. */
  ghost predicate DirectPath(nodes: seq<Node>, edges: seq<Edge>, after: Id, p: seq<Id>) {
    && OpenPath(nodes, edges, after, p) && Branches(nodes, edges, p[|p| - 1])
    && (forall i :: 0 <= i < |p| - 1 ==> !Branches(nodes, edges, p[i]))
    && (forall i :: 0 < i < |p| ==> !IsKind(nodes, p[i], Approval))
  }

  lemma PathPart(edges: seq<Edge>, p: seq<Id>, i: nat, j: nat)
    requires IsPath(edges, p) && i < j <= |p|
    ensures IsPath(edges, p[i..j])
  {
    forall k | 0 <= k < j - i - 1 ensures HasEdge(edges, p[i..j][k], p[i..j][k + 1]) {
      assert HasEdge(edges, p[i + k], p[i + k + 1]);
    }
  }

  lemma OpenPrefix(nodes: seq<Node>, edges: seq<Edge>, after: Id, p: seq<Id>, i: nat)
    requires OpenPath(nodes, edges, after, p) && i < |p|
    ensures OpenPath(nodes, edges, after, p[..i + 1]) && p[..i + 1][i] == p[i]
  {
    PathPart(edges, p, 0, i + 1);
  }

  lemma OpenSuffix(nodes: seq<Node>, edges: seq<Edge>, after: Id, p: seq<Id>, i: nat)
    requires Wellformed(nodes, edges) && OpenPath(nodes, edges, after, p) && i < |p| && IsKind(nodes, p[i], Approval)
    ensures OpenPath(nodes, edges, p[i], p[i..])
  {
    PathPart(edges, p, i, |p|);
    NamedNodes(nodes, edges, p[i]);
  }

  /** Cut before the first node that branches, and begin at the last approval before it. */
  lemma CutToDirect(nodes: seq<Node>, edges: seq<Edge>, after: Id, p: seq<Id>) returns (from: Id, q: seq<Id>)
    requires Wellformed(nodes, edges) && OpenPath(nodes, edges, after, p) && Branches(nodes, edges, p[|p| - 1])
    ensures DirectPath(nodes, edges, from, q)
    decreases |p|
  {
    if i :| 0 <= i < |p| - 1 && Branches(nodes, edges, p[i]) {
      OpenPrefix(nodes, edges, after, p, i);
      from, q := CutToDirect(nodes, edges, after, p[..i + 1]);
    } else if i :| 0 < i < |p| && IsKind(nodes, p[i], Approval) {
      OpenSuffix(nodes, edges, after, p, i);
      from, q := CutToDirect(nodes, edges, p[i], p[i..]);
    } else {
      from, q := after, p;
    }
  }

  lemma NamedNodes(nodes: seq<Node>, edges: seq<Edge>, id: Id)
    requires Wellformed(nodes, edges) && id in Ids(nodes)
    ensures id != ""
  {
    assert NodeAccepted(nodes[IndexOf(nodes, id)]);
  }

  /** A true way out of a leads to b. */
  ghost predicate YesLeads(edges: seq<Edge>, a: Id, b: Id) {
    exists e :: e in Out(edges, a) && e.to == b && e.condition == "true"
  }

  /** Answers that keep to the path. */
  ghost predicate KeepTo(edges: seq<Edge>, p: seq<Id>, answers: Answers) {
    forall i :: 0 <= i < |p| - 1 ==> answers(p[i]) == YesLeads(edges, p[i], p[i + 1])
  }

  ghost predicate YesOn(edges: seq<Edge>, p: seq<Id>, id: Id) {
    exists i :: 0 <= i < |p| - 1 && p[i] == id && YesLeads(edges, id, p[i + 1])
  }

  lemma PathsCanBeKeptTo(edges: seq<Edge>, p: seq<Id>) returns (answers: Answers)
    requires Acyclic(edges) && IsPath(edges, p)
    ensures KeepTo(edges, p, answers)
  {
    AcyclicPathsDoNotRepeat(edges, p);
    var yes := set id | id in p && YesOn(edges, p, id);
    answers := id => id in yes;
    forall i | 0 <= i < |p| - 1 ensures answers(p[i]) == YesLeads(edges, p[i], p[i + 1]) {
      assert YesLeads(edges, p[i], p[i + 1]) ==> YesOn(edges, p, p[i]);
    }
  }

  /** Where nothing branches, the walk takes the edge of the path. */
  lemma ChoiceKeepsTo(nodes: seq<Node>, edges: seq<Edge>, a: Id, b: Id, answers: Answers)
    requires WaysOn(nodes, edges) && a in Ids(nodes) && !IsKind(nodes, a, End) && !Branches(nodes, edges, a)
    requires HasEdge(edges, a, b) && answers(a) == YesLeads(edges, a, b)
    ensures var next := Choice(NodeOf(nodes, a), edges, answers); next != [] && next[0].to == b
  {
    OutMembers(edges, a);
    var out := Out(edges, a);
    var e :| e in edges && e.from == a && e.to == b;
    assert e in out;
    if IsKind(nodes, a, Condition) {
      assert out == [out[0], out[1]];
      assert FirstWith(out[1..], out[1].condition) == [out[1]];
    } else {
      assert out == [e];
    }
  }

  ghost predicate FailsAt(nodes: seq<Node>, edges: seq<Edge>, after: Id, id: Id, answers: Answers, fuel: nat,
    last: Id) {
    var w := WalkFrom(nodes, edges, after, id, answers, fuel);
    w.Ambiguous? && w.at == last
  }

  lemma StandsAtBranch(nodes: seq<Node>, edges: seq<Edge>, after: Id, id: Id, answers: Answers, fuel: nat)
    requires Branches(nodes, edges, id) && fuel > 0 && (IsKind(nodes, id, Approval) ==> id == after)
    ensures FailsAt(nodes, edges, after, id, answers, fuel, id)
  {
  }

  lemma GoesThrough(nodes: seq<Node>, edges: seq<Edge>, after: Id, a: Id, b: Id, answers: Answers, fuel: nat)
    requires WaysOn(nodes, edges) && a in Ids(nodes) && !IsKind(nodes, a, End) && !Branches(nodes, edges, a)
    requires HasEdge(edges, a, b) && answers(a) == YesLeads(edges, a, b) && fuel > 0
        && (IsKind(nodes, a, Approval) ==> a == after)
    ensures WalkFrom(nodes, edges, after, a, answers, fuel)
        == Ahead([a], WalkFrom(nodes, edges, after, b, answers, fuel - 1))
  {
    ChoiceKeepsTo(nodes, edges, a, b, answers);
  }

  /** Everything a step of the walk along the path needs. */
  ghost predicate Kept(nodes: seq<Node>, edges: seq<Edge>, after: Id, p: seq<Id>, answers: Answers) {
    && DirectPath(nodes, edges, after, p) && KeepTo(edges, p, answers)
    && (forall k :: 0 <= k < |p| ==> p[k] in Ids(nodes))
    && (IsKind(nodes, p[0], Approval) ==> after == p[0])
  }

  lemma StepKeepsTo(nodes: seq<Node>, edges: seq<Edge>, after: Id, p: seq<Id>, i: nat, answers: Answers, fuel: nat,
    last: Id)
    requires WaysOn(nodes, edges) && Kept(nodes, edges, after, p, answers) && i < |p| - 1 && fuel > 0
    requires FailsAt(nodes, edges, after, p[i + 1], answers, fuel - 1, last)
    ensures FailsAt(nodes, edges, after, p[i], answers, fuel, last)
  {
    GoesThrough(nodes, edges, after, p[i], p[i + 1], answers, fuel);
  }

  lemma {:induction false} WalkKeepsTo(nodes: seq<Node>, edges: seq<Edge>, after: Id, p: seq<Id>, i: nat,
    answers: Answers, fuel: nat)
    requires WaysOn(nodes, edges) && Kept(nodes, edges, after, p, answers) && i < |p| && fuel >= |p| - i
    ensures FailsAt(nodes, edges, after, p[i], answers, fuel, p[|p| - 1])
    decreases |p| - i
  {
    if i < |p| - 1 {
      WalkKeepsTo(nodes, edges, after, p, i + 1, answers, fuel - 1);
      StepKeepsTo(nodes, edges, after, p, i, answers, fuel, p[|p| - 1]);
    } else {
      StandsAtBranch(nodes, edges, after, p[i], answers, fuel);
    }
  }

  lemma HeadIsOrigin(nodes: seq<Node>, edges: seq<Edge>, after: Id, p: seq<Id>)
    requires Accepted(nodes, edges) && Entry(nodes, after) && IsPath(edges, p) && p[0] == Origin(nodes, after)
    ensures IsKind(nodes, p[0], Approval) ==> after == p[0]
    ensures |p| <= |nodes| && forall k :: 0 <= k < |p| ==> p[k] in Ids(nodes)
  {
    var origin := OriginExists(nodes, edges, after);
    EdgesStayInside(nodes, edges, p);
    PathsAreShort(nodes, edges, p);
  }

  lemma FullWalkKeepsTo(nodes: seq<Node>, edges: seq<Edge>, after: Id, p: seq<Id>, answers: Answers)
    requires WaysOn(nodes, edges) && Kept(nodes, edges, after, p, answers) && |p| <= |nodes|
    ensures var w := FullWalk(nodes, edges, after, answers); w.Ambiguous? && w.at == p[|p| - 1]
  {
    WalkKeepsTo(nodes, edges, after, p, 0, answers, |nodes| + 1);
  }

  /** A traversal that begins at the head of a direct path, under answers that keep to it,
      fails at its last node. */
  lemma DirectPathFails(nodes: seq<Node>, edges: seq<Edge>, after: Id, p: seq<Id>) returns (answers: Answers)
    requires Accepted(nodes, edges) && DirectPath(nodes, edges, after, p)
    ensures var w := FullWalk(nodes, edges, after, answers); w.Ambiguous? && w.at == p[|p| - 1]
  {
    HeadIsOrigin(nodes, edges, after, p);
    AcceptedIsWalkable(nodes, edges);
    answers := PathsCanBeKeptTo(edges, p);
    FullWalkKeepsTo(nodes, edges, after, p, answers);
  }

  lemma ExposedFails(nodes: seq<Node>, edges: seq<Edge>, id: Id, user: string)
    requires Accepted(nodes, edges) && Exposed(nodes, edges, id)
    ensures !AlwaysMoves(nodes, edges, user)
  {
    var after, p :| OpenPath(nodes, edges, after, p) && p[|p| - 1] == id;
    var from, q := CutToDirect(nodes, edges, after, p);
    var answers := DirectPathFails(nodes, edges, from, q);
    assert OutcomeOf(nodes, FullWalk(nodes, edges, from, answers), user).Failed?;
    assert !Moves(nodes, edges, from, user);
  }

  // ---- A node a traversal failed at --------------------------------------------------------------

  lemma FailureIsExposed(nodes: seq<Node>, edges: seq<Edge>, after: Id, answers: Answers, user: string)
    requires Accepted(nodes, edges) && Entry(nodes, after)
    requires OutcomeOf(nodes, FullWalk(nodes, edges, after, answers), user).Failed?
    ensures Exposed(nodes, edges, FullWalk(nodes, edges, after, answers).at)
  {
    var w := FullWalk(nodes, edges, after, answers);
    TraversalIsSound(nodes, edges, after, answers);
    SucceedsUnlessItBranches(nodes, edges, after, answers, user);
    assert OpenPath(nodes, edges, after, w.Trail());
  }

  /** On an accepted definition every traversal succeeds, from the start and after every
      approval and whatever the conditions answer, exactly when no path from one of those
      comes to an ordinary node with several ways out before it comes to an end. */
  lemma AlwaysMovesExactly(nodes: seq<Node>, edges: seq<Edge>, user: string)
    requires Accepted(nodes, edges)
    ensures AlwaysMoves(nodes, edges, user) <==> forall id :: !Exposed(nodes, edges, id)
  {
    if id :| Exposed(nodes, edges, id) {
      ExposedFails(nodes, edges, id, user);
    }
    forall after | Entry(nodes, after) && !Moves(nodes, edges, after, user)
      ensures exists id :: Exposed(nodes, edges, id)
    {
      var answers: Answers :| !OutcomeOf(nodes, FullWalk(nodes, edges, after, answers), user).Moved?;
      FailureIsExposed(nodes, edges, after, answers, user);
    }
  }

  // ---- Why a traversal of any definition fails ---------------------------------------------------

  /** Everything it left is a node, and its trail a path. */
  ghost predicate WalksOnNodes(nodes: seq<Node>, edges: seq<Edge>, w: Walk) {
    IsPath(edges, w.Trail()) && forall i :: 0 <= i < |w.path| ==> w.path[i] in Ids(nodes)
  }

  lemma OneStepFurther(nodes: seq<Node>, edges: seq<Edge>, id: Id, rest: Walk)
    requires WalksOnNodes(nodes, edges, rest) && id in Ids(nodes) && HasEdge(edges, id, rest.Trail()[0])
    ensures WalksOnNodes(nodes, edges, Ahead([id], rest))
  {
    var w := Ahead([id], rest);
    assert w.Trail() == [id] + rest.Trail();
    forall i | 0 <= i < |w.Trail()| - 1 ensures HasEdge(edges, w.Trail()[i], w.Trail()[i + 1]) {
      if i > 0 { assert HasEdge(edges, rest.Trail()[i - 1], rest.Trail()[i]); }
    }
  }

  lemma {:induction false} AnyWalk(nodes: seq<Node>, edges: seq<Edge>, after: Id, current: Id, answers: Answers,
    fuel: nat)
    ensures var w := WalkFrom(nodes, edges, after, current, answers, fuel);
      && WalksOnNodes(nodes, edges, w) && w.Trail()[0] == current
      && (w.Exhausted? ==> |w.path| == fuel) && (w.Missing? ==> w.at !in Ids(nodes))
    decreases fuel
  {
    var w := WalkFrom(nodes, edges, after, current, answers, fuel);
    if w.path != [] {
      var node := NodeOf(nodes, current);
      var next := Choice(node, edges, answers)[0].to;
      ChoiceIsAnEdge(node, edges, answers);
      AnyWalk(nodes, edges, after, next, answers, fuel - 1);
      OneStepFurther(nodes, edges, current, WalkFrom(nodes, edges, after, next, answers, fuel - 1));
    }
  }

  /** On any definition, accepted or not: the step limit is only reached in a cycle, and a node
      is only not found when the first or one an edge leads to is no node. */
  lemma FailuresHaveCauses(nodes: seq<Node>, edges: seq<Edge>, after: Id, answers: Answers, user: string)
    ensures var o := OutcomeOf(nodes, FullWalk(nodes, edges, after, answers), user);
      && (o == Failed(LimitExceeded) ==> !Acyclic(edges))
      && (o == Failed(NodeNotFound) ==>
            Origin(nodes, after) !in Ids(nodes) || exists e :: e in edges && e.to !in Ids(nodes))
  {
    var w := FullWalk(nodes, edges, after, answers);
    AnyWalk(nodes, edges, after, Origin(nodes, after), answers, |nodes| + 1);
    if w.Exhausted? && Acyclic(edges) {
      AcyclicPathsDoNotRepeat(edges, w.Trail());
      assert forall i :: 0 <= i < |w.path| ==> w.path[i] == w.Trail()[i];
      Pigeonhole(w.path, Ids(nodes));
      IdsAreFew(nodes);
    }
    if w.Missing? && w.path != [] {
      var n := |w.path|;
      assert HasEdge(edges, w.Trail()[n - 1], w.Trail()[n]);
    }
  }

  // ---- When ends end -------------------------------------------------------------------------------

  predicate EndsAreLast(nodes: seq<Node>, edges: seq<Edge>) {
    forall id :: id in Ids(nodes) && IsKind(nodes, id, End) ==> Out(edges, id) == []
  }

  lemma BranchesAreExposed(nodes: seq<Node>, edges: seq<Edge>, id: Id)
    requires Accepted(nodes, edges) && EndsAreLast(nodes, edges) && Branches(nodes, edges, id)
    ensures Exposed(nodes, edges, id)
  {
    var start := OriginExists(nodes, edges, "");
    var i, j := IndexOf(nodes, start), IndexOf(nodes, id);
    assert nodes[i].kind.Start? && Reaches(edges, nodes[i].id, nodes[j].id);
    var p := [start];
    if start != id {
      p :| |p| >= 2 && IsPathBetween(edges, p, start, id);
    }
    forall k | 0 <= k < |p| ensures !IsKind(nodes, p[k], End) {
      if k < |p| - 1 {
        assert HasEdge(edges, p[k], p[k + 1]);
        OutMembers(edges, p[k]);
      }
    }
    assert OpenPath(nodes, edges, "", p);
  }

  /** Where no end has a way out, the nodes alone decide: every traversal succeeds exactly
      when only conditions have several ways out. */
  lemma NodesAloneDecide(nodes: seq<Node>, edges: seq<Edge>, user: string)
    requires Accepted(nodes, edges) && EndsAreLast(nodes, edges)
    ensures AlwaysMoves(nodes, edges, user) <==> forall id :: !Branches(nodes, edges, id)
  {
    AlwaysMovesExactly(nodes, edges, user);
    if id :| Branches(nodes, edges, id) {
      BranchesAreExposed(nodes, edges, id);
    }
  }

  // ---- Two accepted definitions --------------------------------------------------------------------

  function Plain(id: Id, kind: Kind): Node {
    Node(id, kind, "", "inapp", "", "", "")
  }

  lemma OutNext(edges: seq<Edge>, e: Edge, id: Id)
    ensures Out(edges + [e], id) == Out(edges, id) + if e.from == id then [e] else []
  {
    assert (edges + [e])[..|edges|] == edges;
  }

  lemma CountNext(nodes: seq<Node>, n: Node, kind: Kind)
    ensures Count(nodes + [n], kind) == Count(nodes, kind) + if n.kind == kind then 1 else 0
  {
    assert (nodes + [n])[..|nodes|] == nodes;
  }

  /** A start that leads to an end, behind which a notification leads to another end:
      `twice` is the edge that stands there a second time. */
  function Nodes(): seq<Node> {
    [Plain("s", Start)] + [Plain("e", End)] + [Plain("n", Notification)] + [Plain("f", End)]
  }

  function Edges(twice: Edge): seq<Edge> {
    [Edge("s", "e", "")] + [Edge("e", "n", "")] + [Edge("n", "f", "")] + [twice]
  }

  lemma Outs(twice: Edge, id: Id)
    ensures Out(Edges(twice), id)
      == (if id == "s" then [Edge("s", "e", "")] else if id == "e" then [Edge("e", "n", "")]
          else if id == "n" then [Edge("n", "f", "")] else []) + if twice.from == id then [twice] else []
  {
    assert [Edge("s", "e", "")] == [] + [Edge("s", "e", "")];
    OutNext([], Edge("s", "e", ""), id);
    OutNext([Edge("s", "e", "")], Edge("e", "n", ""), id);
    OutNext([Edge("s", "e", "")] + [Edge("e", "n", "")], Edge("n", "f", ""), id);
    OutNext([Edge("s", "e", "")] + [Edge("e", "n", "")] + [Edge("n", "f", "")], twice, id);
  }

  lemma Kinds(kind: Kind)
    ensures Count(Nodes(), kind) == if kind == End then 2 else if kind == Start || kind == Notification then 1 else 0
  {
    assert [Plain("s", Start)] == [] + [Plain("s", Start)];
    CountNext([], Plain("s", Start), kind);
    CountNext([Plain("s", Start)], Plain("e", End), kind);
    CountNext([Plain("s", Start)] + [Plain("e", End)], Plain("n", Notification), kind);
    CountNext([Plain("s", Start)] + [Plain("e", End)] + [Plain("n", Notification)], Plain("f", End), kind);
  }

  lemma NodesByName()
    ensures Ids(Nodes()) == {"s", "e", "n", "f"}
    ensures NodeOf(Nodes(), "s").kind == Start && NodeOf(Nodes(), "e").kind == End
    ensures NodeOf(Nodes(), "n").kind == Notification && NodeOf(Nodes(), "f").kind == End
  {
    var nodes := Nodes();
    assert nodes[0].id == "s" && nodes[1].id == "e" && nodes[2].id == "n" && nodes[3].id == "f";
  }

  lemma NodesFit()
    ensures DistinctIds(Nodes()) && forall i :: 0 <= i < |Nodes()|
                                     ==> NodeAccepted(Nodes()[i]) && !Nodes()[i].kind.Condition?
  {
    var nodes := Nodes();
    assert nodes == [Plain("s", Start), Plain("e", End), Plain("n", Notification), Plain("f", End)];
    assert "s" != "e" && "s" != "n" && "s" != "f" && "e" != "n" && "e" != "f" && "n" != "f";
  }

  lemma EdgeFits(e: Edge)
    requires e == Edge("s", "e", "") || e == Edge("e", "n", "") || e == Edge("n", "f", "")
    ensures EdgeAccepted(Nodes(), e)
  {
    NodesByName();
  }

  lemma EdgesFit(twice: Edge)
    requires twice in Edges(Edge("s", "e", ""))
    ensures forall i :: 0 <= i < |Edges(twice)| ==> EdgeAccepted(Nodes(), Edges(twice)[i])
  {
    EdgeFits(Edge("s", "e", ""));
    EdgeFits(Edge("e", "n", ""));
    EdgeFits(Edge("n", "f", ""));
  }

  lemma EdgesAreAcyclic(twice: Edge)
    requires twice in Edges(Edge("s", "e", ""))
    ensures Acyclic(Edges(twice))
  {
    TopologicalIsAcyclic(Edges(twice), map["s" := 0, "e" := 1, "n" := 2, "f" := 3]);
  }

  lemma EdgesThere(twice: Edge)
    ensures HasEdge(Edges(twice), "s", "e") && HasEdge(Edges(twice), "e", "n") && HasEdge(Edges(twice), "n", "f")
  {
    var edges := Edges(twice);
    assert edges[0] in edges && edges[1] in edges && edges[2] in edges;
  }

  lemma AllReached(twice: Edge, id: Id)
    requires id in Ids(Nodes())
    ensures Reaches(Edges(twice), "s", id)
  {
    NodesByName();
    EdgesThere(twice);
    var edges := Edges(twice);
    LeadsThenEdge(edges, "s", "s", "e");
    LeadsThenEdge(edges, "s", "e", "n");
    LeadsThenEdge(edges, "s", "n", "f");
  }

  lemma WayOut(twice: Edge, id: Id)
    requires id in {"s", "e", "n"}
    ensures Out(Edges(twice), id) != []
  {
    Outs(twice, id);
  }

  lemma NoDeadEnds(twice: Edge)
    ensures forall i :: 0 <= i < |Nodes()| ==> !DeadEnd(Nodes()[i], Edges(twice))
  {
    WayOut(twice, "s");
    WayOut(twice, "e");
    WayOut(twice, "n");
    assert Nodes()[3].kind.End?;
  }

  lemma BothAccepted(twice: Edge)
    requires twice in Edges(Edge("s", "e", ""))
    ensures Accepted(Nodes(), Edges(twice))
  {
    var nodes, edges := Nodes(), Edges(twice);
    Kinds(Start);
    Kinds(End);
    NodesFit();
    EdgesFit(twice);
    EdgesAreAcyclic(twice);
    NoDeadEnds(twice);
    forall i, j | 0 <= i < |nodes| && 0 <= j < |nodes| && nodes[i].kind.Start?
      ensures Reaches(edges, nodes[i].id, nodes[j].id)
    {
      assert nodes[j].id in Ids(nodes);
      AllReached(twice, nodes[j].id);
    }
  }

  lemma StartIsForked(twice: Edge)
    requires twice == Edge("s", "e", "")
    ensures Exposed(Nodes(), Edges(twice), "s")
  {
    NodesByName();
    Outs(twice, "s");
    assert OpenPath(Nodes(), Edges(twice), "", ["s"]);
  }

  /** With the second way out of the start, an accepted definition cannot be started. */
  lemma ForkedStartFails(user: string)
    ensures var edges := Edges(Edge("s", "e", "")); Accepted(Nodes(), edges) && !AlwaysMoves(Nodes(), edges, user)
  {
    var twice := Edge("s", "e", "");
    BothAccepted(twice);
    StartIsForked(twice);
    ExposedFails(Nodes(), Edges(twice), "s", user);
  }

  /** Behind the end, it harms nobody. */
  lemma ForkBehindAnEndIsHarmless(user: string)
    ensures var edges := Edges(Edge("n", "f", ""));
      Accepted(Nodes(), edges) && Branches(Nodes(), edges, "n") && AlwaysMoves(Nodes(), edges, user)
  {
    var twice := Edge("n", "f", "");
    BothAccepted(twice);
    NodesByName();
    Outs(twice, "n");
    forall id ensures !Exposed(Nodes(), Edges(twice), id) {
      Outs(twice, "s");
      if after, p :| OpenPath(Nodes(), Edges(twice), after, p) && p[|p| - 1] == id
                   && Branches(Nodes(), Edges(twice), id) {
        StaysAtStart(twice, after, p);
      }
    }
    AlwaysMovesExactly(Nodes(), Edges(twice), user);
  }

  lemma WayFromStart(twice: Edge, id: Id)
    requires twice == Edge("n", "f", "") && HasEdge(Edges(twice), "s", id)
    ensures id == "e"
  {
  }

  lemma OnlyEntry(after: Id)
    requires Entry(Nodes(), after)
    ensures Origin(Nodes(), after) == "s" && IsKind(Nodes(), "e", End)
  {
    NodesByName();
  }

  lemma StaysAtStart(twice: Edge, after: Id, p: seq<Id>)
    requires twice == Edge("n", "f", "") && OpenPath(Nodes(), Edges(twice), after, p)
    ensures p == ["s"]
  {
    OnlyEntry(after);
    if |p| > 1 { WayFromStart(twice, p[1]); }
  }
}
