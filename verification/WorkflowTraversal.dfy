/** The interpreter: from the start, or from an approval that was just given, follow
    the chosen edges to the next approval or to an end, collecting notifications. */
module WorkflowTraversal {
  import opened WorkflowGraph

  /** What comparing the record's values answers at each condition node. */
  type Answers = Id -> bool

  datatype Status = Pending | Completed | Rejected

  datatype Message = Message(user: string, channel: string, recipient: string, subject: string, body: string)

  datatype Transition = Transition(current: Id, status: Status, messages: seq<Message>)

  datatype Failure = NodeNotFound | NoMatchingPath(id: Id) | LimitExceeded

  datatype Outcome = Moved(transition: Transition) | Failed(failure: Failure)

  // ---- Choosing an edge --------------------------------------------------------------

  function FirstWith(out: seq<Edge>, condition: string): (r: seq<Edge>)
    ensures |r| <= 1 && (r != [] ==> r[0] in out && r[0].condition == condition)
  {
    if out == [] then [] else if out[0].condition == condition then [out[0]] else FirstWith(out[1..], condition)
  }

  /** The edge taken from a node: none or one. */
  function Choice(node: Node, edges: seq<Edge>, answers: Answers): (r: seq<Edge>)
    ensures |r| <= 1
  {
    var candidates := Out(edges, node.id);
    if !node.kind.Condition? then (if |candidates| == 1 then candidates else [])
    else FirstWith(candidates, if answers(node.id) then "true" else "false")
  }

  lemma ChoiceIsAnEdge(node: Node, edges: seq<Edge>, answers: Answers)
    requires Choice(node, edges, answers) != []
    ensures var e := Choice(node, edges, answers)[0]; e in edges && e.from == node.id && HasEdge(edges, node.id, e.to)
  {
    OutMembers(edges, node.id);
  }

  method ChooseEdge(node: Node, edges: seq<Edge>, answers: Answers) returns (r: seq<Edge>)
    ensures r == Choice(node, edges, answers)
  {
    var candidates := [];
    var i := 0;
    while i < |edges|
      invariant 0 <= i <= |edges| && candidates == Out(edges[..i], node.id)
    {
      assert edges[..i + 1][..i] == edges[..i];
      if edges[i].from == node.id { candidates := candidates + [edges[i]]; }
      i := i + 1;
    }
    assert edges[..i] == edges;
    if !node.kind.Condition? {
      return if |candidates| == 1 then candidates else [];
    }
    var wanted := if answers(node.id) then "true" else "false";
    i := 0;
    while i < |candidates|
      invariant 0 <= i <= |candidates| && FirstWith(candidates, wanted) == FirstWith(candidates[i..], wanted)
    {
      if candidates[i].condition == wanted { return [candidates[i]]; }
      assert candidates[i..][1..] == candidates[i + 1..];
      i := i + 1;
    }
    return [];
  }

  predicate IsKind(nodes: seq<Node>, id: Id, kind: Kind) {
    id in Ids(nodes) && NodeOf(nodes, id).kind == kind
  }

  // ---- The walk -------------------------------------------------------------------------

  /** How a walk ends: the nodes it left behind, and the one it stands on. */
  datatype Walk =
    | Stopped(path: seq<Id>, at: Id, status: Status)
    | Ambiguous(path: seq<Id>, at: Id)
    | Missing(path: seq<Id>, at: Id)
    | Exhausted(path: seq<Id>, at: Id)
  {
    function Trail(): seq<Id> { path + [at] }
  }

  function Ahead(path: seq<Id>, walk: Walk): Walk {
    walk.(path := path + walk.path)
  }

  function WalkFrom(nodes: seq<Node>, edges: seq<Edge>, after: Id, current: Id, answers: Answers, fuel: nat): Walk
    decreases fuel
  {
    if fuel == 0 then Exhausted([], current)
    else if current !in Ids(nodes) then Missing([], current)
    else
      var node := NodeOf(nodes, current);
      if node.kind.Approval? && current != after then Stopped([], current, Pending)
      else if node.kind.End? then Stopped([], current, Completed)
      else
        var next := Choice(node, edges, answers);
        if next == [] then Ambiguous([], current)
        else Ahead([current], WalkFrom(nodes, edges, after, next[0].to, answers, fuel - 1))
  }

  /** The messages of the notification nodes along a trail, in order. */
  function Messages(nodes: seq<Node>, trail: seq<Id>, user: string): seq<Message> {
    if trail == [] then [] else
      var id := trail[|trail| - 1];
      Messages(nodes, trail[..|trail| - 1], user) + Emitted(nodes, id, user)
  }

  function Emitted(nodes: seq<Node>, id: Id, user: string): seq<Message> {
    if id in Ids(nodes) && NodeOf(nodes, id).kind.Notification? then [MessageOf(NodeOf(nodes, id), user)] else []
  }

  function MessageOf(node: Node, user: string): Message {
    Message(user, node.channel, node.recipient, node.subject, node.body)
  }

  function Origin(nodes: seq<Node>, after: Id): Id {
    if after != "" then after else FirstStart(nodes)
  }

  function FirstStart(nodes: seq<Node>): Id {
    if nodes == [] then "" else if nodes[0].kind.Start? then nodes[0].id else FirstStart(nodes[1..])
  }

  function OutcomeOf(nodes: seq<Node>, walk: Walk, user: string): Outcome {
    match walk
    case Stopped(path, at, status) => Moved(Transition(at, status, Messages(nodes, path, user)))
    case Ambiguous(_, at) => Failed(NoMatchingPath(at))
    case Missing(_, _) => Failed(NodeNotFound)
    case Exhausted(_, _) => Failed(LimitExceeded)
  }

  function FullWalk(nodes: seq<Node>, edges: seq<Edge>, after: Id, answers: Answers): Walk {
    WalkFrom(nodes, edges, after, Origin(nodes, after), answers, |nodes| + 1)
  }

  lemma FirstStartAt(nodes: seq<Node>, i: nat)
    requires i <= |nodes| && forall k :: 0 <= k < i ==> !nodes[k].kind.Start?
    ensures FirstStart(nodes) == FirstStart(nodes[i..])
    decreases i
  {
    if i > 0 {
      FirstStartAt(nodes, i - 1);
      assert nodes[i - 1..][1..] == nodes[i..];
    }
  }

  method FindNode(nodes: seq<Node>, id: Id) returns (i: int)
    ensures i == -1 <==> id !in Ids(nodes)
    ensures i != -1 ==> 0 <= i < |nodes| && nodes[i] == NodeOf(nodes, id)
  {
    i := 0;
    while i < |nodes|
      invariant 0 <= i <= |nodes|
      invariant forall k :: 0 <= k < i ==> nodes[k].id != id
    {
      if nodes[i].id == id {
        assert nodes[i].id in Ids(nodes);
        IndexIsFirst(nodes, id, i);
        return i;
      }
      i := i + 1;
    }
    return -1;
  }

  lemma IndexIsFirst(nodes: seq<Node>, id: Id, i: nat)
    requires i < |nodes| && nodes[i].id == id && (forall k :: 0 <= k < i ==> nodes[k].id != id) && id in Ids(nodes)
    ensures IndexOf(nodes, id) == i
  {
    if i > 0 {
      assert nodes[1..][i - 1].id == id;
      assert id in Ids(nodes[1..]);
      IndexIsFirst(nodes[1..], id, i - 1);
    }
  }

  lemma MessagesNext(nodes: seq<Node>, trail: seq<Id>, id: Id, user: string)
    ensures Messages(nodes, trail + [id], user) == Messages(nodes, trail, user) + Emitted(nodes, id, user)
  {
    assert (trail + [id])[..|trail|] == trail;
  }

  /** What is still to come when the walk stands at a node with some steps left. */
  function Onward(nodes: seq<Node>, edges: seq<Edge>, after: Id, answers: Answers, user: string, path: seq<Id>,
    current: Id, fuel: nat): Outcome {
    OutcomeOf(nodes, Ahead(path, WalkFrom(nodes, edges, after, current, answers, fuel)), user)
  }

  lemma OnwardFromStart(nodes: seq<Node>, edges: seq<Edge>, after: Id, answers: Answers, user: string)
    ensures Onward(nodes, edges, after, answers, user, [], Origin(nodes, after), |nodes| + 1)
      == OutcomeOf(nodes, FullWalk(nodes, edges, after, answers), user)
  {
    var w := FullWalk(nodes, edges, after, answers);
    assert [] + w.path == w.path;
  }

  lemma OnwardFromNowhere(nodes: seq<Node>, edges: seq<Edge>, after: Id, answers: Answers, user: string, path: seq<Id>,
    current: Id)
    ensures Onward(nodes, edges, after, answers, user, path, current, 0) == Failed(LimitExceeded)
  {
  }

  lemma OnwardStops(nodes: seq<Node>, edges: seq<Edge>, after: Id, answers: Answers, user: string, path: seq<Id>,
    current: Id, fuel: nat)
    requires fuel > 0
    ensures var o := Onward(nodes, edges, after, answers, user, path, current, fuel);
      && (current !in Ids(nodes) ==> o == Failed(NodeNotFound))
      && (IsKind(nodes, current, Approval) && current != after
          ==> o == Moved(Transition(current, Pending, Messages(nodes, path, user))))
      && (IsKind(nodes, current, End) ==> o == Moved(Transition(current, Completed, Messages(nodes, path, user))))
  {
    assert path + [] == path;
  }

  lemma OnwardGoesOn(nodes: seq<Node>, edges: seq<Edge>, after: Id, answers: Answers, user: string, path: seq<Id>,
    current: Id, fuel: nat)
    requires fuel > 0 && current in Ids(nodes) && !IsKind(nodes, current, End)
        && (IsKind(nodes, current, Approval) ==> current == after)
    ensures var o := Onward(nodes, edges, after, answers, user, path, current, fuel);
      var next := Choice(NodeOf(nodes, current), edges, answers);
      o == if next == [] then Failed(NoMatchingPath(current))
           else Onward(nodes, edges, after, answers, user, path + [current], next[0].to, fuel - 1)
  {
    var next := Choice(NodeOf(nodes, current), edges, answers);
    if next != [] {
      var rest := WalkFrom(nodes, edges, after, next[0].to, answers, fuel - 1);
      assert path + ([current] + rest.path) == (path + [current]) + rest.path;
    }
  }

  /** The start of a traversal: after the given approval, or at the first start node. */
  method FindOrigin(nodes: seq<Node>, after: Id) returns (id: Id)
    ensures id == Origin(nodes, after)
  {
    id := after;
    if id == "" {
      var i := 0;
      while i < |nodes| && !nodes[i].kind.Start?
        invariant 0 <= i <= |nodes| && forall k :: 0 <= k < i ==> !nodes[k].kind.Start?
      {
        i := i + 1;
      }
      FirstStartAt(nodes, i);
      if i < |nodes| { id := nodes[i].id; }
    }
  }

  /** The loop the engine runs, on any definition, accepted or not. */
  method Follow(nodes: seq<Node>, edges: seq<Edge>, after: Id, answers: Answers, user: string, origin: Id)
    returns (r: Outcome)
    ensures r == Onward(nodes, edges, after, answers, user, [], origin, |nodes| + 1)
  {
    var current := origin;
    var messages := [];
    ghost var path := [];
    ghost var fuel: nat := |nodes| + 1;
    ghost var goal := Onward(nodes, edges, after, answers, user, path, current, fuel);
    var steps := 0;
    while steps <= |nodes|
      invariant 0 <= steps <= |nodes| + 1 && fuel == |nodes| + 1 - steps
      invariant messages == Messages(nodes, path, user)
      invariant goal == Onward(nodes, edges, after, answers, user, path, current, fuel)
    {
      OnwardStops(nodes, edges, after, answers, user, path, current, fuel);
      var i := FindNode(nodes, current);
      if i == -1 {
        return Failed(NodeNotFound);
      }
      var node := nodes[i];
      if node.kind.Approval? && current != after {
        return Moved(Transition(current, Pending, messages));
      }
      if node.kind.End? {
        return Moved(Transition(current, Completed, messages));
      }
      OnwardGoesOn(nodes, edges, after, answers, user, path, current, fuel);
      MessagesNext(nodes, path, current, user);
      if node.kind.Notification? {
        messages := messages + [Message(user, node.channel, node.recipient, node.subject, node.body)];
      }
      var edge := ChooseEdge(node, edges, answers);
      if edge == [] {
        return Failed(NoMatchingPath(current));
      }
      path, fuel := path + [current], fuel - 1;
      current := edge[0].to;
      steps := steps + 1;
    }
    OnwardFromNowhere(nodes, edges, after, answers, user, path, current);
    return Failed(LimitExceeded);
  }

  method Traverse(nodes: seq<Node>, edges: seq<Edge>, after: Id, answers: Answers, user: string) returns (r: Outcome)
    ensures r == OutcomeOf(nodes, FullWalk(nodes, edges, after, answers), user)
  {
    var origin := FindOrigin(nodes, after);
    OnwardFromStart(nodes, edges, after, answers, user);
    r := Follow(nodes, edges, after, answers, user, origin);
  }

  // ---- On accepted definitions ------------------------------------------------------------

  /** The edge chosen at one node leads to the other: the only way out of an ordinary
      node, the way carrying the answer out of a condition. */
  ghost predicate Takes(nodes: seq<Node>, edges: seq<Edge>, answers: Answers, a: Id, b: Id) {
    exists e ::
      && e in edges && e.from == a && e.to == b
      && if IsKind(nodes, a, Condition) then e.condition == (if answers(a) then "true" else "false")
          else Out(edges, a) == [e]
  }

  /** Every step of the walk takes the chosen edge, and nothing it passes is an end or
      an approval other than the one it came from. */
  ghost predicate PassesThrough(nodes: seq<Node>, edges: seq<Edge>, after: Id, answers: Answers, w: Walk) {
    forall i :: 0 <= i < |w.path| ==>
      && w.path[i] in Ids(nodes) && !IsKind(nodes, w.path[i], End)
      && (IsKind(nodes, w.path[i], Approval) ==> w.path[i] == after)
      && Takes(nodes, edges, answers, w.path[i], w.Trail()[i + 1])
  }

  /** It stops at a new approval or an end, or at a node it cannot choose a way out of:
      neither condition nor end, with two or more ways. */
  ghost predicate StopsRight(nodes: seq<Node>, edges: seq<Edge>, after: Id, w: Walk) {
    match w
    case Stopped(_, at, status) =>
      || (status == Pending && IsKind(nodes, at, Approval) && at != after)
      || (status == Completed && IsKind(nodes, at, End))
    case Ambiguous(_, at) =>
      at in Ids(nodes) && !IsKind(nodes, at, Condition) && !IsKind(nodes, at, End) && |Out(edges, at)| >= 2
    case _ => false
  }

  ghost predicate SoundWalk(nodes: seq<Node>, edges: seq<Edge>, after: Id, answers: Answers, w: Walk) {
    PassesThrough(nodes, edges, after, answers, w) && StopsRight(nodes, edges, after, w)
  }

  /** What the walk needs of a definition, node by node and path by path. */
  ghost predicate WaysOn(nodes: seq<Node>, edges: seq<Edge>) {
    forall id :: id in Ids(nodes) && !IsKind(nodes, id, End) ==>
      && Out(edges, id) != []
      && (forall e :: e in Out(edges, id) ==> e.to in Ids(nodes))
      && (IsKind(nodes, id, Condition) ==> ForksOnAnswer(Out(edges, id)))
  }

  lemma AcceptedIsWalkable(nodes: seq<Node>, edges: seq<Edge>)
    requires Accepted(nodes, edges)
    ensures WaysOn(nodes, edges)
  {
    forall id | id in Ids(nodes) && !IsKind(nodes, id, End)
      ensures Out(edges, id) != [] && (IsKind(nodes, id, Condition) ==> ForksOnAnswer(Out(edges, id)))
      ensures forall e :: e in Out(edges, id) ==> e.to in Ids(nodes)
    {
      var i := IndexOf(nodes, id);
      assert !DeadEnd(nodes[i], edges);
      OutMembers(edges, id);
    }
  }

  /** One step of the walk from a node that is not a stop. */
  lemma StepTakes(nodes: seq<Node>, edges: seq<Edge>, id: Id, answers: Answers)
    requires WaysOn(nodes, edges) && id in Ids(nodes) && !IsKind(nodes, id, End)
    ensures var next := Choice(NodeOf(nodes, id), edges, answers);
      && (next != [] ==> Takes(nodes, edges, answers, id, next[0].to) && HasEdge(edges, id, next[0].to)
                         && next[0].to in Ids(nodes))
      && (next == [] ==> !IsKind(nodes, id, Condition) && |Out(edges, id)| >= 2)
  {
    OutMembers(edges, id);
    if IsKind(nodes, id, Condition) {
      var out := Out(edges, id);
      var wanted := if answers(id) then "true" else "false";
      assert FirstWith(out, wanted) == if out[0].condition == wanted then [out[0]] else FirstWith(out[1..], wanted);
    }
  }

  lemma PassesOn(nodes: seq<Node>, edges: seq<Edge>, after: Id, answers: Answers, current: Id, rest: Walk)
    requires PassesThrough(nodes, edges, after, answers, rest)
    requires current in Ids(nodes) && !IsKind(nodes, current, End)
        && (IsKind(nodes, current, Approval) ==> current == after)
    requires Takes(nodes, edges, answers, current, rest.Trail()[0])
    ensures PassesThrough(nodes, edges, after, answers, Ahead([current], rest))
  {
    var w := Ahead([current], rest);
    assert w.Trail() == [current] + rest.Trail();
    forall i | 0 <= i < |w.path|
      ensures w.path[i] in Ids(nodes) && !IsKind(nodes, w.path[i], End)
      ensures IsKind(nodes, w.path[i], Approval) ==> w.path[i] == after
      ensures Takes(nodes, edges, answers, w.path[i], w.Trail()[i + 1])
    {
      if i > 0 { assert w.path[i] == rest.path[i - 1] && w.Trail()[i + 1] == rest.Trail()[i]; }
    }
  }

  /** Where the walk has to stop, it stops right. */
  lemma StopIsRight(nodes: seq<Node>, edges: seq<Edge>, after: Id, current: Id, answers: Answers, fuel: nat)
    requires WaysOn(nodes, edges) && current in Ids(nodes) && fuel > 0
    requires WalkFrom(nodes, edges, after, current, answers, fuel).path == []
    ensures StopsRight(nodes, edges, after, WalkFrom(nodes, edges, after, current, answers, fuel))
  {
    if !IsKind(nodes, current, End) { StepTakes(nodes, edges, current, answers); }
  }

  /** A walk that goes on leaves an ordinary node, a condition, or the approval it came from. */
  lemma WalkGoesOn(nodes: seq<Node>, edges: seq<Edge>, after: Id, current: Id, answers: Answers, fuel: nat)
    returns (next: Id)
    requires WaysOn(nodes, edges) && WalkFrom(nodes, edges, after, current, answers, fuel).path != []
    ensures fuel > 0 && current in Ids(nodes) && !IsKind(nodes, current, End)
        && (IsKind(nodes, current, Approval) ==> current == after)
    ensures next in Ids(nodes) && Takes(nodes, edges, answers, current, next)
    ensures WalkFrom(nodes, edges, after, current, answers, fuel)
        == Ahead([current], WalkFrom(nodes, edges, after, next, answers, fuel - 1))
  {
    next := Choice(NodeOf(nodes, current), edges, answers)[0].to;
    StepTakes(nodes, edges, current, answers);
  }

  /** It stops right, or it used up every step it was allowed. */
  ghost predicate EndsRight(nodes: seq<Node>, edges: seq<Edge>, after: Id, w: Walk, fuel: nat) {
    if w.Exhausted? then |w.path| == fuel else StopsRight(nodes, edges, after, w)
  }

  lemma EndsAhead(nodes: seq<Node>, edges: seq<Edge>, after: Id, id: Id, rest: Walk, fuel: nat)
    requires EndsRight(nodes, edges, after, rest, fuel)
    ensures EndsRight(nodes, edges, after, Ahead([id], rest), fuel + 1)
  {
  }

  lemma StartsHere(nodes: seq<Node>, edges: seq<Edge>, after: Id, current: Id, answers: Answers, fuel: nat)
    ensures WalkFrom(nodes, edges, after, current, answers, fuel).Trail()[0] == current
  {
  }

  lemma {:induction false} WalkFollowsEdges(nodes: seq<Node>, edges: seq<Edge>, after: Id, current: Id,
    answers: Answers, fuel: nat)
    requires WaysOn(nodes, edges) && current in Ids(nodes)
    ensures PassesThrough(nodes, edges, after, answers, WalkFrom(nodes, edges, after, current, answers, fuel))
    decreases fuel
  {
    if WalkFrom(nodes, edges, after, current, answers, fuel).path != [] {
      var next := WalkGoesOn(nodes, edges, after, current, answers, fuel);
      StartsHere(nodes, edges, after, next, answers, fuel - 1);
      WalkFollowsEdges(nodes, edges, after, next, answers, fuel - 1);
      PassesOn(nodes, edges, after, answers, current, WalkFrom(nodes, edges, after, next, answers, fuel - 1));
    }
  }

  lemma {:induction false} WalkEndsRight(nodes: seq<Node>, edges: seq<Edge>, after: Id, current: Id, answers: Answers,
    fuel: nat)
    requires WaysOn(nodes, edges) && current in Ids(nodes)
    ensures EndsRight(nodes, edges, after, WalkFrom(nodes, edges, after, current, answers, fuel), fuel)
    decreases fuel
  {
    if WalkFrom(nodes, edges, after, current, answers, fuel).path != [] {
      var next := WalkGoesOn(nodes, edges, after, current, answers, fuel);
      WalkEndsRight(nodes, edges, after, next, answers, fuel - 1);
      EndsAhead(nodes, edges, after, current, WalkFrom(nodes, edges, after, next, answers, fuel - 1), fuel - 1);
    } else if fuel > 0 {
      StopIsRight(nodes, edges, after, current, answers, fuel);
    }
  }

  lemma TrailIsPath(nodes: seq<Node>, edges: seq<Edge>, after: Id, answers: Answers, w: Walk)
    requires PassesThrough(nodes, edges, after, answers, w)
    ensures IsPath(edges, w.Trail())
  {
    forall i | 0 <= i < |w.path| ensures HasEdge(edges, w.Trail()[i], w.Trail()[i + 1]) {
      assert Takes(nodes, edges, answers, w.path[i], w.Trail()[i + 1]);
    }
  }

  lemma {:induction false} FirstStartIsStart(nodes: seq<Node>)
    requires Count(nodes, Start) >= 1
    ensures exists i :: 0 <= i < |nodes| && nodes[i].kind.Start? && nodes[i].id == FirstStart(nodes)
  {
    CountPositive(nodes, Start);
    var k :| 0 <= k < |nodes| && nodes[k].kind.Start?;
    FirstStartUpTo(nodes, k);
  }

  lemma {:induction false} FirstStartUpTo(nodes: seq<Node>, k: nat)
    requires k < |nodes| && nodes[k].kind.Start?
    ensures exists i :: 0 <= i < |nodes| && nodes[i].kind.Start? && nodes[i].id == FirstStart(nodes)
  {
    if !nodes[0].kind.Start? {
      assert nodes[1..][k - 1] == nodes[k];
      FirstStartUpTo(nodes[1..], k - 1);
      var i :| 0 <= i < |nodes[1..]| && nodes[1..][i].kind.Start? && nodes[1..][i].id == FirstStart(nodes[1..]);
      assert nodes[i + 1] == nodes[1..][i];
    }
  }

  lemma OriginExists(nodes: seq<Node>, edges: seq<Edge>, after: Id) returns (origin: Id)
    requires Accepted(nodes, edges) && (after == "" || IsKind(nodes, after, Approval))
    ensures origin == Origin(nodes, after) && origin in Ids(nodes) && (after == "" ==> IsKind(nodes, origin, Start))
  {
    origin := Origin(nodes, after);
    if after == "" {
      FirstStartIsStart(nodes);
      var i :| 0 <= i < |nodes| && nodes[i].kind.Start? && nodes[i].id == origin;
      assert nodes[i].id in Ids(nodes);
      assert NodeOf(nodes, origin) == nodes[i];
    }
  }

  /** A walk along edges cannot be longer than an acyclic graph allows, so it never uses
      up one step more than there are nodes. */
  lemma NeverExhausted(nodes: seq<Node>, edges: seq<Edge>, after: Id, w: Walk)
    requires Wellformed(nodes, edges) && Acyclic(edges) && w.Trail()[0] in Ids(nodes)
    requires IsPath(edges, w.Trail()) && EndsRight(nodes, edges, after, w, |nodes| + 1)
    ensures StopsRight(nodes, edges, after, w)
  {
    PathsAreShort(nodes, edges, w.Trail());
  }

  /** Passing, stopping, following edges from where it should begin. */
  ghost predicate FollowsTheRules(nodes: seq<Node>, edges: seq<Edge>, after: Id, answers: Answers) {
    var w := FullWalk(nodes, edges, after, answers);
    SoundWalk(nodes, edges, after, answers, w) && IsPath(edges, w.Trail()) && w.Trail()[0] == Origin(nodes, after)
  }

  lemma WalkIsSound(nodes: seq<Node>, edges: seq<Edge>, after: Id, origin: Id, answers: Answers, fuel: nat)
    requires WaysOn(nodes, edges) && Wellformed(nodes, edges) && Acyclic(edges)
    requires origin in Ids(nodes) && origin == Origin(nodes, after) && fuel == |nodes| + 1
    ensures FollowsTheRules(nodes, edges, after, answers)
  {
    assert FullWalk(nodes, edges, after, answers) == WalkFrom(nodes, edges, after, origin, answers, fuel);
    WalkFollowsEdges(nodes, edges, after, origin, answers, fuel);
    WalkEndsRight(nodes, edges, after, origin, answers, fuel);
    StartsHere(nodes, edges, after, origin, answers, fuel);
    TrailIsPath(nodes, edges, after, answers, WalkFrom(nodes, edges, after, origin, answers, fuel));
    NeverExhausted(nodes, edges, after, WalkFrom(nodes, edges, after, origin, answers, fuel));
  }

  /** On an accepted definition a traversal from the start or from an approval never
      misses a node and never runs into the step limit; it follows the chosen edges,
      skips no approval, and stops at an approval or an end, its only failure being an
      ordinary node with several ways out. */
  lemma TraversalIsSound(nodes: seq<Node>, edges: seq<Edge>, after: Id, answers: Answers)
    requires Accepted(nodes, edges) && (after == "" || IsKind(nodes, after, Approval))
    ensures FollowsTheRules(nodes, edges, after, answers)
  {
    var origin := OriginExists(nodes, edges, after);
    AcceptedIsWalkable(nodes, edges);
    WalkIsSound(nodes, edges, after, origin, answers, |nodes| + 1);
  }

  /** An ordinary node the walk cannot get past. */
  predicate Branches(nodes: seq<Node>, edges: seq<Edge>, id: Id) {
    id in Ids(nodes) && !IsKind(nodes, id, Condition) && !IsKind(nodes, id, End) && |Out(edges, id)| >= 2
  }

  lemma TakenIsNoBranch(nodes: seq<Node>, edges: seq<Edge>, answers: Answers, a: Id, b: Id)
    requires Takes(nodes, edges, answers, a, b)
    ensures !Branches(nodes, edges, a)
  {
  }

  /** So a traversal succeeds exactly when it is not left standing at such a node, and
      it never passes one. */
  lemma SucceedsUnlessItBranches(nodes: seq<Node>, edges: seq<Edge>, after: Id, answers: Answers, user: string)
    requires Accepted(nodes, edges) && (after == "" || IsKind(nodes, after, Approval))
    ensures var w := FullWalk(nodes, edges, after, answers);
      && (OutcomeOf(nodes, w, user).Failed? <==> w.Ambiguous?)
      && (w.Ambiguous? ==> Branches(nodes, edges, w.at) && OutcomeOf(nodes, w, user) == Failed(NoMatchingPath(w.at)))
      && (forall i :: 0 <= i < |w.path| ==> !Branches(nodes, edges, w.path[i]))
  {
    TraversalIsSound(nodes, edges, after, answers);
    var w := FullWalk(nodes, edges, after, answers);
    forall i | 0 <= i < |w.path| ensures !Branches(nodes, edges, w.path[i]) {
      TakenIsNoBranch(nodes, edges, answers, w.path[i], w.Trail()[i + 1]);
    }
  }
}
