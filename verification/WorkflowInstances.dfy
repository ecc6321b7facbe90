/** Running instances: the rows a workflow writes, and any number of actors reading
    and advancing one instance concurrently under a fixed accepted definition. */
module WorkflowInstances {
  import opened Text
  import opened WorkflowGraph
  import opened WorkflowTraversal

  datatype Verb = Approve | Reject

  datatype Instance = Instance(current: Id, status: Status, version: nat, submittedBy: string)

  datatype Action = Action(node: Id, actor: string, verb: Verb)

  /** Everything stored for one instance. */
  datatype Record = Record(row: Instance, actions: seq<Action>, outbox: seq<Message>)

  const NOBODY := "00000000-0000-0000-0000-000000000000"

  function Addressed(messages: seq<Message>): seq<Message> {
    if messages == [] then [] else
      var m := messages[|messages| - 1];
      Addressed(messages[..|messages| - 1]) + [if m.user == "" then m.(user := NOBODY) else m]
  }

  function Started(t: Transition, actor: string): Record {
    Record(Instance(t.current, t.status, 1, actor), [], Addressed(t.messages))
  }

  /** What an actor decided after reading the instance at a version. */
  datatype Draft = Draft(expected: nat, node: Id, verb: Verb, transition: Transition)

  predicate Current(r: Record, d: Draft) {
    r.row.status == Pending && r.row.version == d.expected
  }

  /** The conditional update, with the action row and the messages in one transaction. */
  function Advanced(r: Record, d: Draft, actor: string): Record {
    if !Current(r, d) then r else
      Record(r.row.(current := d.transition.current, status := d.transition.status, version := r.row.version + 1),
             r.actions + [Action(d.node, actor, d.verb)],
             r.outbox + Addressed(d.transition.messages))
  }

  datatype Denial = BadRequest | NotActionable | NotAnApproval | RoleMissing | Traversal(failure: Failure)

  datatype Decision = Go(draft: Draft) | No(denial: Denial)

  /** The reading half of an action: checks, then the transition it would make. */
  function Decide(nodes: seq<Node>, edges: seq<Edge>, row: Instance, expected: nat, roles: seq<string>, verb: Verb,
    answers: Answers): Decision {
    if expected < 1 then No(BadRequest)
    else if row.status != Pending || row.version != expected then No(NotActionable)
    else if !IsKind(nodes, row.current, Approval) then No(NotAnApproval)
    else if NodeOf(nodes, row.current).role != "" && NodeOf(nodes, row.current).role !in roles
      && "super_admin" !in roles then No(RoleMissing)
    else if verb == Reject then Go(Draft(expected, row.current, verb, Transition(row.current, Rejected, [])))
    else
      match OutcomeOf(nodes, FullWalk(nodes, edges, row.current, answers), row.submittedBy)
      case Failed(f) => No(Traversal(f))
      case Moved(t) => Go(Draft(expected, row.current, verb, t))
  }

  /** Somebody with these roles may decide the approval. */
  predicate Entitled(nodes: seq<Node>, id: Id, roles: seq<string>)
    requires id in Ids(nodes)
  {
    NodeOf(nodes, id).role == "" || NodeOf(nodes, id).role in roles || "super_admin" in roles
  }

  /** The instance waits at an approval, at the version the actor saw. */
  predicate Actionable(nodes: seq<Node>, row: Instance, expected: nat) {
    expected >= 1 && row.status == Pending && row.version == expected && IsKind(nodes, row.current, Approval)
  }

  // ---- The tables -----------------------------------------------------------------------

  datatype ActionRow = ActionRow(instance: nat, action: Action)
  datatype OutboxRow = OutboxRow(instance: nat, message: Message)

  ghost function ActionsOf(rows: seq<ActionRow>, id: nat): seq<Action> {
    if rows == [] then [] else
      var r := rows[|rows| - 1];
      ActionsOf(rows[..|rows| - 1], id) + if r.instance == id then [r.action] else []
  }

  ghost function MessagesOf(rows: seq<OutboxRow>, id: nat): seq<Message> {
    if rows == [] then [] else
      var r := rows[|rows| - 1];
      MessagesOf(rows[..|rows| - 1], id) + if r.instance == id then [r.message] else []
  }

  class Tables {
    var instances: map<nat, Instance>
    var actions: seq<ActionRow>
    var outbox: seq<OutboxRow>

    constructor ()
      ensures instances == map[] && actions == [] && outbox == []
    {
      instances, actions, outbox := map[], [], [];
    }

    ghost function Of(id: nat): Record
      requires id in instances
      reads this
    {
      Record(instances[id], ActionsOf(actions, id), MessagesOf(outbox, id))
    }

    method CreateNotifications(id: nat, messages: seq<Message>)
      modifies this`outbox
      ensures MessagesOf(outbox, id) == MessagesOf(old(outbox), id) + Addressed(messages)
      ensures forall other :: other != id ==> MessagesOf(outbox, other) == MessagesOf(old(outbox), other)
    {
      var i := 0;
      while i < |messages|
        invariant 0 <= i <= |messages|
        invariant MessagesOf(outbox, id) == MessagesOf(old(outbox), id) + Addressed(messages[..i])
        invariant forall other :: other != id ==> MessagesOf(outbox, other) == MessagesOf(old(outbox), other)
      {
        var m := messages[i];
        if m.user == "" { m := m.(user := NOBODY); }
        assert messages[..i + 1][..i] == messages[..i];
        assert (outbox + [OutboxRow(id, m)])[..|outbox|] == outbox;
        outbox := outbox + [OutboxRow(id, m)];
        i := i + 1;
      }
      assert messages[..i] == messages;
    }

    method Start(id: nat, t: Transition, actor: string)
      requires id !in instances && ActionsOf(actions, id) == [] && MessagesOf(outbox, id) == []
      modifies this
      ensures instances.Keys == old(instances).Keys + {id} && Of(id) == Started(t, actor)
      ensures forall other :: other in old(instances) ==> Of(other) == old(Of(other))
    {
      instances := instances[id := Instance(t.current, t.status, 1, actor)];
      CreateNotifications(id, t.messages);
    }

    /** The compare-and-swap on status and version. */
    method Advance(id: nat, d: Draft, actor: string) returns (ok: bool)
      requires id in instances
      modifies this
      ensures instances.Keys == old(instances).Keys
      ensures ok == Current(old(Of(id)), d) && Of(id) == Advanced(old(Of(id)), d, actor)
      ensures forall other :: other in old(instances) && other != id ==> Of(other) == old(Of(other))
    {
      var row := instances[id];
      if row.status != Pending || row.version != d.expected { return false; }
      instances := instances[id := row.(current := d.transition.current, status := d.transition.status,
        version := row.version + 1)];
      assert (actions + [ActionRow(id, Action(d.node, actor, d.verb))])[..|actions|] == actions;
      actions := actions + [ActionRow(id, Action(d.node, actor, d.verb))];
      CreateNotifications(id, d.transition.messages);
      return true;
    }
  }

  method HasRole(roles: seq<string>, wanted: string) returns (found: bool)
    ensures found == (wanted in roles)
  {
    var i := 0;
    while i < |roles|
      invariant 0 <= i <= |roles| && wanted !in roles[..i]
    {
      if roles[i] == wanted { return true; }
      i := i + 1;
    }
    return false;
  }

  method DecideAction(nodes: seq<Node>, edges: seq<Edge>, row: Instance, expected: nat, roles: seq<string>, verb: Verb,
    answers: Answers)
    returns (r: Decision)
    ensures r == Decide(nodes, edges, row, expected, roles, verb, answers)
    ensures r == No(RoleMissing) <==> Actionable(nodes, row, expected) && !Entitled(nodes, row.current, roles)
    ensures r == No(NotAnApproval) <==>
      expected >= 1 && row.status == Pending && row.version == expected && !IsKind(nodes, row.current, Approval)
    ensures r == No(NotActionable) <==> expected >= 1 && (row.status != Pending || row.version != expected)
    ensures r.Go? ==>
      && Actionable(nodes, row, expected) && Entitled(nodes, row.current, roles)
      && r.draft.expected == expected && r.draft.node == row.current && r.draft.verb == verb
    ensures Actionable(nodes, row, expected) && Entitled(nodes, row.current, roles) && verb == Reject ==>
      r.Go? && r.draft.transition == Transition(row.current, Rejected, [])
  {
    if expected < 1 { return No(BadRequest); }
    if row.status != Pending || row.version != expected { return No(NotActionable); }
    var i := FindNode(nodes, row.current);
    if i == -1 || !nodes[i].kind.Approval? { return No(NotAnApproval); }
    var required := HasRole(roles, nodes[i].role);
    var admin := HasRole(roles, "super_admin");
    if nodes[i].role != "" && !required && !admin { return No(RoleMissing); }
    if verb == Reject { return Go(Draft(expected, row.current, verb, Transition(row.current, Rejected, []))); }
    var outcome := Traverse(nodes, edges, row.current, answers, row.submittedBy);
    match outcome
    case Failed(f) => return No(Traversal(f));
    case Moved(t) => return Go(Draft(expected, row.current, verb, t));
  }

  // ---- Concurrent actors --------------------------------------------------------------------

  /** A draft in somebody's hands: who decided, with which roles, and the nodes it would move along. */
  datatype Held = Held(draft: Draft, actor: string, roles: seq<string>, steps: seq<Id>)

  datatype System = System(record: Record, held: map<nat, Held>, trail: seq<Id>)

  datatype Event =
    | Read(p: nat, actor: string, expected: nat, roles: seq<string>, verb: Verb, answers: Answers)
    | Write(p: nat, actor: string)

  /** A fixed definition. */
  datatype Definition = Definition(nodes: seq<Node>, edges: seq<Edge>)

  ghost function Steps(def: Definition, from: Id, verb: Verb, answers: Answers): seq<Id> {
    if verb == Reject then [] else FullWalk(def.nodes, def.edges, from, answers).Trail()[1..]
  }

  ghost predicate Enabled(s: System, e: Event) {
    e.Write? ==> e.p in s.held && s.held[e.p].actor == e.actor
  }

  ghost function Step(def: Definition, s: System, e: Event): System
    requires Enabled(s, e)
  {
    match e
    case Read(p, actor, expected, roles, verb, answers) =>
      (match Decide(def.nodes, def.edges, s.record.row, expected, roles, verb, answers)
       case No(_) => s
       case Go(draft) =>
         s.(held := s.held[p := Held(draft, actor, roles, Steps(def, s.record.row.current, verb, answers))]))
    case Write(p, actor) =>
      var h := s.held[p];
      System(Advanced(s.record, h.draft, actor), s.held - {p},
             if Current(s.record, h.draft) then s.trail + h.steps else s.trail)
  }

  /** A write that will change the instance. */
  ghost predicate Writes(s: System, p: nat, actor: string) {
    Enabled(s, Write(p, actor)) && Current(s.record, s.held[p].draft)
  }

  ghost predicate CanStart(def: Definition, answers: Answers) {
    FullWalk(def.nodes, def.edges, "", answers).Stopped?
  }

  ghost function Begin(def: Definition, answers: Answers, actor: string): System
    requires CanStart(def, answers)
  {
    var w := FullWalk(def.nodes, def.edges, "", answers);
    System(Started(Transition(w.at, w.status, Messages(def.nodes, w.path, actor)), actor), map[], w.Trail())
  }

  ghost function Approvals(nodes: seq<Node>, trail: seq<Id>): seq<Id> {
    if trail == [] then [] else
      var id := trail[|trail| - 1];
      Approvals(nodes, trail[..|trail| - 1]) + if IsKind(nodes, id, Approval) then [id] else []
  }

  ghost function ActedOn(actions: seq<Action>): seq<Id> {
    if actions == [] then [] else ActedOn(actions[..|actions| - 1]) + [actions[|actions| - 1].node]
  }

  /** The part of the trail whose approvals have been decided. */
  ghost function Decided(s: System): seq<Id> {
    if s.record.row.status == Pending && s.trail != [] then s.trail[..|s.trail| - 1] else s.trail
  }

  ghost predicate StatusFits(nodes: seq<Node>, row: Instance) {
    match row.status
    case Pending => IsKind(nodes, row.current, Approval)
    case Completed => IsKind(nodes, row.current, End)
    case Rejected => IsKind(nodes, row.current, Approval)
  }

  /** A move an actor may hold: a rejection in place, or a walk from the node it read. */
  ghost predicate FairMove(def: Definition, h: Held, user: string) {
    IsKind(def.nodes, h.draft.node, Approval) &&
    match h.draft.verb
    case Reject => h.draft.transition == Transition(h.draft.node, Rejected, []) && h.steps == []
    case Approve => exists answers ::
      var w := FullWalk(def.nodes, def.edges, h.draft.node, answers);
      && w.Stopped? && h.steps == w.Trail()[1..]
      && h.draft.transition == Transition(w.at, w.status, Messages(def.nodes, w.path, user))
  }

  /** A draft is fair, and one that is still current was computed from where the instance is. */
  ghost predicate HeldFits(def: Definition, row: Instance, h: Held) {
    && h.draft.expected <= row.version && FairMove(def, h, row.submittedBy)
    && h.draft.node in Ids(def.nodes) && Entitled(def.nodes, h.draft.node, h.roles)
    && (h.draft.expected == row.version ==> h.draft.node == row.current && row.status == Pending)
  }

  ghost predicate PathFits(def: Definition, s: System) {
    && s.trail != [] && IsPath(def.edges, s.trail) && s.trail[0] == FirstStart(def.nodes)
    && s.trail[|s.trail| - 1] == s.record.row.current && StatusFits(def.nodes, s.record.row)
  }

  ghost predicate RowsFit(def: Definition, s: System) {
    && s.record.outbox == Addressed(Messages(def.nodes, s.trail, s.record.row.submittedBy))
    && ActedOn(s.record.actions) == Approvals(def.nodes, Decided(s))
  }

  ghost predicate AllHeldFit(def: Definition, s: System) {
    forall p :: p in s.held ==> HeldFits(def, s.record.row, s.held[p])
  }

  ghost predicate Inv(def: Definition, s: System) {
    s.record.row.version == 1 + |s.record.actions| && PathFits(def, s) && RowsFit(def, s) && AllHeldFit(def, s)
  }

  // ---- Lists of things along a trail ---------------------------------------------------------

  lemma Associates<T>(a: seq<T>, b: seq<T>, c: seq<T>)
    ensures a + b + c == a + (b + c)
  {
  }

  lemma {:induction false} MessagesConcat(nodes: seq<Node>, a: seq<Id>, b: seq<Id>, user: string)
    ensures Messages(nodes, a + b, user) == Messages(nodes, a, user) + Messages(nodes, b, user)
  {
    if b == [] {
      assert a + b == a;
    } else {
      var front, last := b[..|b| - 1], b[|b| - 1];
      MessagesConcat(nodes, a, front, user);
      MessagesNext(nodes, a + front, last, user);
      MessagesNext(nodes, front, last, user);
      Associates(a, front, [last]);
      Associates(Messages(nodes, a, user), Messages(nodes, front, user), Emitted(nodes, last, user));
      assert b == front + [last];
    }
  }

  lemma {:induction false} ApprovalsConcat(nodes: seq<Node>, a: seq<Id>, b: seq<Id>)
    ensures Approvals(nodes, a + b) == Approvals(nodes, a) + Approvals(nodes, b)
  {
    if b == [] {
      assert a + b == a;
    } else {
      ApprovalsConcat(nodes, a, b[..|b| - 1]);
      assert (a + b)[..|a + b| - 1] == a + b[..|b| - 1];
    }
  }

  lemma {:induction false} AddressedConcat(a: seq<Message>, b: seq<Message>)
    ensures Addressed(a + b) == Addressed(a) + Addressed(b)
  {
    if b == [] {
      assert a + b == a;
    } else {
      AddressedConcat(a, b[..|b| - 1]);
      assert (a + b)[..|a + b| - 1] == a + b[..|b| - 1];
    }
  }

  lemma {:induction false} NoApprovals(nodes: seq<Node>, ids: seq<Id>)
    requires forall i :: 0 <= i < |ids| ==> !IsKind(nodes, ids[i], Approval)
    ensures Approvals(nodes, ids) == []
  {
    if ids != [] { NoApprovals(nodes, ids[..|ids| - 1]); }
  }

  // ---- A walk that stopped ------------------------------------------------------------------

  ghost predicate StopsWhereItMay(nodes: seq<Node>, at: Id, status: Status) {
    && (status == Pending ==> IsKind(nodes, at, Approval))
    && (status == Completed ==> IsKind(nodes, at, End)) && status != Rejected
  }

  /** It leaves the approval, passes no other, and its messages are those of the nodes
      it moved along. */
  ghost predicate LeavesApproval(nodes: seq<Node>, from: Id, w: Walk, user: string) {
    && w.path != [] && w.path[0] == from
    && Messages(nodes, w.path, user) == Messages(nodes, w.path[1..] + [w.at], user)
    && Approvals(nodes, w.path[1..]) == []
  }

  /** Shifting a stretch by one node changes no message when neither end emits one. */
  lemma MessagesShift(nodes: seq<Node>, first: Id, inner: seq<Id>, last: Id, user: string)
    requires Emitted(nodes, first, user) == Emitted(nodes, last, user) == []
    ensures Messages(nodes, [first] + inner, user) == Messages(nodes, inner + [last], user)
  {
    MessagesConcat(nodes, [first], inner, user);
    MessagesNext(nodes, inner, last, user);
    assert [first][..0] == [];
  }

  lemma InnerIsNoApproval(nodes: seq<Node>, edges: seq<Edge>, from: Id, answers: Answers, w: Walk, i: nat)
    requires 0 < i < |w.path| && w.path[0] == from && NoRepeats(w.Trail())
        && PassesThrough(nodes, edges, from, answers, w)
    ensures !IsKind(nodes, w.path[i], Approval)
  {
    assert w.Trail()[i] == w.path[i] && w.Trail()[0] == w.path[0];
  }

  lemma WalkLeavesApproval(nodes: seq<Node>, edges: seq<Edge>, from: Id, answers: Answers, w: Walk, user: string)
    requires IsKind(nodes, from, Approval) && w.Stopped? && w.Trail()[0] == from && NoRepeats(w.Trail())
    requires SoundWalk(nodes, edges, from, answers, w)
    ensures LeavesApproval(nodes, from, w, user)
  {
    assert w.path != [];
    var inner := w.path[1..];
    assert w.path == [from] + inner;
    MessagesShift(nodes, from, inner, w.at, user);
    forall i | 0 <= i < |inner| ensures !IsKind(nodes, inner[i], Approval) {
      InnerIsNoApproval(nodes, edges, from, answers, w, i + 1);
    }
    NoApprovals(nodes, inner);
  }

  lemma WalkFromApproval(def: Definition, from: Id, answers: Answers, user: string)
    requires Accepted(def.nodes, def.edges) && IsKind(def.nodes, from, Approval)
    requires FullWalk(def.nodes, def.edges, from, answers).Stopped?
    ensures var w := FullWalk(def.nodes, def.edges, from, answers);
      LeavesApproval(def.nodes, from, w, user) && IsPath(def.edges, w.Trail())
        && StopsWhereItMay(def.nodes, w.at, w.status)
  {
    var w := FullWalk(def.nodes, def.edges, from, answers);
    ApprovalIdNotEmpty(def, from);
    TraversalIsSound(def.nodes, def.edges, from, answers);
    AcyclicPathsDoNotRepeat(def.edges, w.Trail());
    WalkLeavesApproval(def.nodes, def.edges, from, answers, w, user);
  }

  lemma ApprovalIdNotEmpty(def: Definition, id: Id)
    requires Accepted(def.nodes, def.edges) && id in Ids(def.nodes)
    ensures id != ""
  {
    var i := IndexOf(def.nodes, id);
    assert NodeAccepted(def.nodes[i]);
  }

  lemma WalkFromStart(def: Definition, answers: Answers, user: string)
    requires Accepted(def.nodes, def.edges) && CanStart(def, answers)
    ensures var w := FullWalk(def.nodes, def.edges, "", answers);
      && IsPath(def.edges, w.Trail()) && w.Trail()[0] == FirstStart(def.nodes)
      && Messages(def.nodes, w.path, user) == Messages(def.nodes, w.Trail(), user)
      && Approvals(def.nodes, w.path) == []
      && (w.status == Pending ==> IsKind(def.nodes, w.at, Approval))
      && (w.status == Completed ==> IsKind(def.nodes, w.at, End)) && w.status != Rejected
  {
    var w := FullWalk(def.nodes, def.edges, "", answers);
    TraversalIsSound(def.nodes, def.edges, "", answers);
    MessagesConcat(def.nodes, w.path, [w.at], user);
    assert [w.at][..0] == [];
    forall i | 0 <= i < |w.path| ensures !IsKind(def.nodes, w.path[i], Approval) {
      if w.path[i] == "" { if "" in Ids(def.nodes) { ApprovalIdNotEmpty(def, ""); } }
    }
    NoApprovals(def.nodes, w.path);
  }

  // ---- The invariant ---------------------------------------------------------------------------

  lemma BeginInv(def: Definition, answers: Answers, actor: string)
    requires Accepted(def.nodes, def.edges) && CanStart(def, answers)
    ensures Inv(def, Begin(def, answers, actor))
  {
    var w := FullWalk(def.nodes, def.edges, "", answers);
    WalkFromStart(def, answers, actor);
    ApprovalsConcat(def.nodes, w.path, [w.at]);
    assert [w.at][..0] == [] && w.Trail()[..|w.path|] == w.path;
  }

  lemma DecisionIsFair(def: Definition, row: Instance, actor: string, expected: nat, roles: seq<string>, verb: Verb,
    answers: Answers)
    requires Accepted(def.nodes, def.edges)
    requires Decide(def.nodes, def.edges, row, expected, roles, verb, answers).Go?
    ensures var d := Decide(def.nodes, def.edges, row, expected, roles, verb, answers).draft;
      HeldFits(def, row, Held(d, actor, roles, Steps(def, row.current, verb, answers)))
  {
    if verb == Approve {
      SucceedsUnlessItBranches(def.nodes, def.edges, row.current, answers, row.submittedBy);
    }
  }

  lemma ReadKeepsInv(def: Definition, s: System, e: Event)
    requires Accepted(def.nodes, def.edges) && Inv(def, s) && Enabled(s, e) && e.Read?
    ensures Inv(def, Step(def, s, e))
  {
    if Decide(def.nodes, def.edges, s.record.row, e.expected, e.roles, e.verb, e.answers).Go? {
      DecisionIsFair(def, s.record.row, e.actor, e.expected, e.roles, e.verb, e.answers);
    }
  }

  /** What an approval in somebody's hands was computed from. */
  ghost predicate ApprovedSteps(def: Definition, h: Held, user: string, inner: seq<Id>, at: Id) {
    && h.steps == inner + [at] && h.draft.transition.current == at
    && IsPath(def.edges, [h.draft.node] + h.steps)
    && h.draft.transition.messages == Messages(def.nodes, h.steps, user)
    && Approvals(def.nodes, inner) == []
    && StopsWhereItMay(def.nodes, at, h.draft.transition.status)
  }

  lemma ApprovedWalk(def: Definition, h: Held, user: string) returns (inner: seq<Id>, at: Id)
    requires Accepted(def.nodes, def.edges) && FairMove(def, h, user) && h.draft.verb == Approve
    ensures ApprovedSteps(def, h, user, inner, at)
  {
    var answers :|
      var w := FullWalk(def.nodes, def.edges, h.draft.node, answers);
      && w.Stopped? && h.steps == w.Trail()[1..]
      && h.draft.transition == Transition(w.at, w.status, Messages(def.nodes, w.path, user));
    WalkFromApproval(def, h.draft.node, answers, user);
    var w := FullWalk(def.nodes, def.edges, h.draft.node, answers);
    inner, at := w.path[1..], w.at;
    StepsOfTrail(w, h.steps);
  }

  lemma StepsOfTrail(w: Walk, steps: seq<Id>)
    requires w.path != [] && steps == w.Trail()[1..]
    ensures steps == w.path[1..] + [w.at] && w.Trail() == [w.path[0]] + steps
  {
  }

  lemma ApprovalExtendsOutbox(def: Definition, r: Record, trail: seq<Id>, steps: seq<Id>)
    requires r.outbox == Addressed(Messages(def.nodes, trail, r.row.submittedBy))
    ensures r.outbox + Addressed(Messages(def.nodes, steps, r.row.submittedBy))
        == Addressed(Messages(def.nodes, trail + steps, r.row.submittedBy))
  {
    var user := r.row.submittedBy;
    MessagesConcat(def.nodes, trail, steps, user);
    AddressedConcat(Messages(def.nodes, trail, user), Messages(def.nodes, steps, user));
  }

  lemma ActedOnNext(actions: seq<Action>, a: Action)
    ensures ActedOn(actions + [a]) == ActedOn(actions) + [a.node]
  {
    assert (actions + [a])[..|actions|] == actions;
  }

  lemma EndIsNoApproval(nodes: seq<Node>, id: Id)
    requires IsKind(nodes, id, End)
    ensures !IsKind(nodes, id, Approval)
  {
  }

  /** A write by an actor whose draft is current moves the instance along the walk
      from the node it is on. */
  lemma ApprovalExtendsPath(def: Definition, s: System, p: nat, actor: string, at: Id)
    requires PathFits(def, s) && Writes(s, p, actor)
    requires var h := s.held[p]; var t := h.draft.transition;
      && h.draft.node == s.record.row.current && h.steps != [] && h.steps[|h.steps| - 1] == at == t.current
      && IsPath(def.edges, [h.draft.node] + h.steps)
      && (t.status == Pending ==> IsKind(def.nodes, at, Approval))
      && (t.status == Completed ==> IsKind(def.nodes, at, End)) && t.status != Rejected
    ensures PathFits(def, Step(def, s, Write(p, actor)))
  {
    var h := s.held[p];
    assert ([h.draft.node] + h.steps)[1..] == h.steps;
    JoinPaths(def.edges, s.trail, [h.draft.node] + h.steps);
  }

  lemma ApprovalExtendsActions(def: Definition, actions: seq<Action>, trail: seq<Id>, a: Action, inner: seq<Id>, at: Id)
    requires trail != [] && ActedOn(actions) == Approvals(def.nodes, trail[..|trail| - 1])
    requires a.node == trail[|trail| - 1] && IsKind(def.nodes, a.node, Approval) && Approvals(def.nodes, inner) == []
    ensures var longer := trail + (inner + [at]);
      && ActedOn(actions + [a]) == Approvals(def.nodes, longer[..|longer| - 1])
      && (IsKind(def.nodes, at, End) ==> ActedOn(actions + [a]) == Approvals(def.nodes, longer))
  {
    var longer := trail + (inner + [at]);
    ApprovalsAfter(def, trail, inner, at);
    ActedOnNext(actions, a);
    assert longer == trail + inner + [at];
    assert longer[..|longer| - 1] == trail + inner;
    if IsKind(def.nodes, at, End) { EndIsNoApproval(def.nodes, at); }
  }

  /** What a successful write leaves behind. */
  lemma Committed(def: Definition, s: System, p: nat, actor: string)
    requires Writes(s, p, actor)
    ensures var h := s.held[p]; var t := Step(def, s, Write(p, actor));
      && t.trail == s.trail + h.steps
      && t.record.outbox == s.record.outbox + Addressed(h.draft.transition.messages)
      && t.record.actions == s.record.actions + [Action(h.draft.node, actor, h.draft.verb)]
      && t.record.row.status == h.draft.transition.status && t.record.row.submittedBy == s.record.row.submittedBy
  {
  }

  lemma ApprovalExtendsRows(def: Definition, s: System, p: nat, actor: string, inner: seq<Id>, at: Id)
    requires RowsFit(def, s) && Writes(s, p, actor)
    requires s.trail != [] && s.trail[|s.trail| - 1] == s.record.row.current
        && IsKind(def.nodes, s.record.row.current, Approval)
    requires s.held[p].draft.node == s.record.row.current && s.record.row.status == Pending
    requires ApprovedSteps(def, s.held[p], s.record.row.submittedBy, inner, at)
    ensures RowsFit(def, Step(def, s, Write(p, actor)))
  {
    var h := s.held[p];
    Committed(def, s, p, actor);
    ApprovalExtendsOutbox(def, s.record, s.trail, h.steps);
    ActionsAfterApproval(def, s, Step(def, s, Write(p, actor)), Action(h.draft.node, actor, h.draft.verb), inner, at);
  }

  lemma ActionsAfterApproval(def: Definition, s: System, t: System, a: Action, inner: seq<Id>, at: Id)
    requires s.trail != [] && ActedOn(s.record.actions) == Approvals(def.nodes, s.trail[..|s.trail| - 1])
    requires a.node == s.trail[|s.trail| - 1] && IsKind(def.nodes, a.node, Approval)
        && Approvals(def.nodes, inner) == []
    requires t.trail == s.trail + (inner + [at]) && t.record.actions == s.record.actions + [a]
    requires StopsWhereItMay(def.nodes, at, t.record.row.status)
    ensures ActedOn(t.record.actions) == Approvals(def.nodes, Decided(t))
  {
    ApprovalExtendsActions(def, s.record.actions, s.trail, a, inner, at);
  }

  lemma JoinPaths(edges: seq<Edge>, a: seq<Id>, b: seq<Id>)
    requires IsPath(edges, a) && IsPath(edges, b) && a[|a| - 1] == b[0]
    ensures IsPath(edges, a + b[1..])
  {
    var q := a + b[1..];
    forall i | 0 <= i < |q| - 1 ensures HasEdge(edges, q[i], q[i + 1]) {
      if i < |a| - 1 {
        assert HasEdge(edges, a[i], a[i + 1]);
      } else {
        var k := i - |a| + 1;
        assert q[i] == b[k] && q[i + 1] == b[k + 1];
        assert HasEdge(edges, b[k], b[k + 1]);
      }
    }
  }

  /** Leaving the approval the trail ends in, the decided approvals grow by it alone. */
  lemma ApprovalsAfter(def: Definition, trail: seq<Id>, inner: seq<Id>, at: Id)
    requires trail != [] && IsKind(def.nodes, trail[|trail| - 1], Approval) && Approvals(def.nodes, inner) == []
    ensures var front := trail[..|trail| - 1];
      && Approvals(def.nodes, trail + inner) == Approvals(def.nodes, front) + [trail[|trail| - 1]]
      && (!IsKind(def.nodes, at, Approval)
          ==> Approvals(def.nodes, trail + inner + [at]) == Approvals(def.nodes, trail + inner))
  {
    ApprovalsConcat(def.nodes, trail, inner);
    ApprovalsConcat(def.nodes, trail + inner, [at]);
    assert [at][..0] == [];
  }

  lemma RejectionKeepsTrail(def: Definition, s: System, p: nat, actor: string)
    requires PathFits(def, s) && RowsFit(def, s) && Writes(s, p, actor)
    requires s.held[p].draft.node == s.record.row.current && s.held[p].steps == []
    requires s.held[p].draft.transition == Transition(s.record.row.current, Rejected, [])
        && s.record.row.status == Pending
    requires IsKind(def.nodes, s.record.row.current, Approval)
    ensures PathFits(def, Step(def, s, Write(p, actor))) && RowsFit(def, Step(def, s, Write(p, actor)))
  {
    var h := s.held[p];
    var t := Step(def, s, Write(p, actor));
    Committed(def, s, p, actor);
    assert t.trail == s.trail && Addressed([]) == [] && t.record.outbox == s.record.outbox;
    ActedOnNext(s.record.actions, Action(h.draft.node, actor, h.draft.verb));
    assert s.trail == s.trail[..|s.trail| - 1] + [s.record.row.current];
  }

  lemma WriteKeepsHeld(def: Definition, s: System, p: nat, actor: string)
    requires AllHeldFit(def, s) && Enabled(s, Write(p, actor))
    ensures AllHeldFit(def, Step(def, s, Write(p, actor)))
  {
  }

  /** An approval was computed from the node the instance is on, so it moves on from there. */
  lemma ApprovalMovesOn(def: Definition, s: System, p: nat, actor: string)
    requires Accepted(def.nodes, def.edges) && PathFits(def, s) && RowsFit(def, s) && Writes(s, p, actor)
    requires FairMove(def, s.held[p], s.record.row.submittedBy) && s.held[p].draft.node == s.record.row.current
        && s.held[p].draft.verb == Approve
    ensures PathFits(def, Step(def, s, Write(p, actor))) && RowsFit(def, Step(def, s, Write(p, actor)))
  {
    var inner, at := ApprovedWalk(def, s.held[p], s.record.row.submittedBy);
    ApprovalExtendsPath(def, s, p, actor, at);
    ApprovalExtendsRows(def, s, p, actor, inner, at);
  }

  lemma EventKeepsInv(def: Definition, s: System, e: Event)
    requires Accepted(def.nodes, def.edges) && Inv(def, s) && Enabled(s, e)
    ensures Inv(def, Step(def, s, e))
  {
    if e.Read? {
      ReadKeepsInv(def, s, e);
    } else {
      var h := s.held[e.p];
      WriteKeepsHeld(def, s, e.p, e.actor);
      assert HeldFits(def, s.record.row, h);
      if Current(s.record, h.draft) {
        if h.draft.verb == Approve {
          ApprovalMovesOn(def, s, e.p, e.actor);
        } else {
          RejectionKeepsTrail(def, s, e.p, e.actor);
        }
      }
    }
  }

  // ---- Runs ----------------------------------------------------------------------------------------

  /** The states of a run from its start, under whatever record values each read sees. */
  ghost predicate Run(def: Definition, answers: Answers, actor: string, es: seq<Event>, states: seq<System>) {
    && CanStart(def, answers) && |states| == |es| + 1 && states[0] == Begin(def, answers, actor)
    && forall i :: 0 <= i < |es| ==> Enabled(states[i], es[i]) && states[i + 1] == Step(def, states[i], es[i])
  }

  lemma {:induction false} RunKeepsInv(def: Definition, answers: Answers, actor: string, es: seq<Event>,
    states: seq<System>, i: nat)
    requires Accepted(def.nodes, def.edges) && Run(def, answers, actor, es, states) && i < |states|
    ensures Inv(def, states[i])
  {
    if i == 0 {
      BeginInv(def, answers, actor);
    } else {
      RunKeepsInv(def, answers, actor, es, states, i - 1);
      assert states[i - 1 + 1] == Step(def, states[i - 1], es[i - 1]);
      EventKeepsInv(def, states[i - 1], es[i - 1]);
    }
  }

  /** A write of the run that changed the instance. */
  ghost predicate Commits(es: seq<Event>, states: seq<System>, i: nat)
    requires |states| == |es| + 1
  {
    i < |es| && es[i].Write? && es[i].p in states[i].held && Current(states[i].record, states[i].held[es[i].p].draft)
  }

  lemma ApprovalsHaveRoles(def: Definition, id: Id)
    requires Accepted(def.nodes, def.edges) && IsKind(def.nodes, id, Approval)
    ensures NodeOf(def.nodes, id).role != ""
  {
    assert NodeAccepted(def.nodes[IndexOf(def.nodes, id)]);
  }

  /** Linearizable: every committed transition was computed from the node and version
      the instance is on at that moment, even though it was read earlier, and decided by
      the actor on its action row, who had the role of that approval or was an administrator. */
  lemma CommitsAreComputedFromTheTruth(def: Definition, answers: Answers, actor: string, es: seq<Event>,
    states: seq<System>, i: nat)
    requires Accepted(def.nodes, def.edges) && Run(def, answers, actor, es, states) && Commits(es, states, i)
    ensures var h := states[i].held[es[i].p]; var row := states[i].record.row;
      && h.draft.node == row.current && h.draft.expected == row.version && FairMove(def, h, row.submittedBy)
      && states[i + 1].record.row.version == row.version + 1
      && states[i + 1].record.actions == states[i].record.actions + [Action(row.current, es[i].actor, h.draft.verb)]
      && row.current in Ids(def.nodes) && es[i].actor == h.actor
      && (NodeOf(def.nodes, row.current).role in h.roles || "super_admin" in h.roles)
  {
    RunKeepsInv(def, answers, actor, es, states, i);
    ApprovalsHaveRoles(def, states[i].record.row.current);
  }

  lemma {:induction false} VersionsGrow(def: Definition, answers: Answers, actor: string, es: seq<Event>,
    states: seq<System>, i: nat, j: nat)
    requires Run(def, answers, actor, es, states) && i <= j < |states|
    ensures states[i].record.row.version <= states[j].record.row.version
    ensures states[i].record.row.status != Pending ==> states[j].record == states[i].record
  {
    if i < j {
      VersionsGrow(def, answers, actor, es, states, i, j - 1);
      assert states[j - 1 + 1] == Step(def, states[j - 1], es[j - 1]);
    }
  }

  /** Of all the actions that expect a version, at most one succeeds. */
  lemma OneSuccessPerVersion(def: Definition, answers: Answers, actor: string, es: seq<Event>, states: seq<System>,
    i: nat, j: nat)
    requires Accepted(def.nodes, def.edges) && Run(def, answers, actor, es, states)
    requires i < j && Commits(es, states, i) && Commits(es, states, j)
    ensures states[i].held[es[i].p].draft.expected < states[j].held[es[j].p].draft.expected
  {
    assert states[i + 1] == Step(def, states[i], es[i]);
    VersionsGrow(def, answers, actor, es, states, i + 1, j);
  }

  /** A completed or rejected instance never changes again: no row, no action, no message. */
  lemma EndedIsForEver(def: Definition, answers: Answers, actor: string, es: seq<Event>, states: seq<System>, i: nat,
    j: nat)
    requires Run(def, answers, actor, es, states) && i <= j < |states| && states[i].record.row.status != Pending
    ensures states[j].record == states[i].record
  {
    VersionsGrow(def, answers, actor, es, states, i, j);
  }

  // ---- Counting approvals ------------------------------------------------------------------------------

  function ApprovalIds(nodes: seq<Node>): set<Id> {
    set i | 0 <= i < |nodes| && nodes[i].kind.Approval? :: nodes[i].id
  }

  lemma {:induction false} ApprovalIdsAreFew(nodes: seq<Node>)
    ensures |ApprovalIds(nodes)| <= Count(nodes, Approval)
  {
    if nodes == [] {
      assert ApprovalIds(nodes) == {};
    } else {
      var n := |nodes| - 1;
      ApprovalIdsAreFew(nodes[..n]);
      var more := if nodes[n].kind.Approval? then {nodes[n].id} else {};
      assert ApprovalIds(nodes) <= ApprovalIds(nodes[..n]) + more by {
        forall id | id in ApprovalIds(nodes) ensures id in ApprovalIds(nodes[..n]) + more {
          var i :| 0 <= i < |nodes| && nodes[i].kind.Approval? && nodes[i].id == id;
          if i < n { assert nodes[..n][i].id == id; }
        }
      }
      SubsetIsSmaller(ApprovalIds(nodes), ApprovalIds(nodes[..n]) + more);
    }
  }

  lemma SubsetIsSmaller(a: set<Id>, b: set<Id>)
    requires a <= b
    ensures |a| <= |b|
  {
    assert |b| == |a| + |b - a| by { assert b == a + (b - a); }
  }

  lemma {:induction false} ApprovalsOfTrail(nodes: seq<Node>, trail: seq<Id>)
    requires NoRepeats(trail)
    ensures var a := Approvals(nodes, trail);
      && NoRepeats(a) && (forall i :: 0 <= i < |a| ==> a[i] in trail && IsKind(nodes, a[i], Approval))
  {
    if trail != [] {
      var front := trail[..|trail| - 1];
      ApprovalsOfTrail(nodes, front);
      assert forall id :: id in front ==> id in trail && id != trail[|trail| - 1];
    }
  }

  lemma {:induction false} ActedOnLength(actions: seq<Action>)
    ensures |ActedOn(actions)| == |actions|
  {
    if actions != [] { ActedOnLength(actions[..|actions| - 1]); }
  }

  lemma FewApprovals(nodes: seq<Node>, trail: seq<Id>)
    requires NoRepeats(trail)
    ensures |Approvals(nodes, trail)| <= Count(nodes, Approval)
  {
    ApprovalsOfTrail(nodes, trail);
    var a := Approvals(nodes, trail);
    forall i | 0 <= i < |a| ensures a[i] in ApprovalIds(nodes) {
      assert IsKind(nodes, a[i], Approval);
      var k := IndexOf(nodes, a[i]);
      assert nodes[k].id in ApprovalIds(nodes);
    }
    Pigeonhole(a, ApprovalIds(nodes));
    ApprovalIdsAreFew(nodes);
  }

  /** The whole run, whatever actors interleave and whatever the record says at each
      step: the instance moves along one path from the start that never meets a node
      twice and goes forward in every topological order; the action rows are the
      approvals it left, in order, so there are never more than the definition has;
      and the messages created are those of the notification nodes on the path, once
      each and in path order. */
  lemma WholeRun(def: Definition, answers: Answers, actor: string, es: seq<Event>, states: seq<System>,
    place: map<Id, int>)
    requires Accepted(def.nodes, def.edges) && Run(def, answers, actor, es, states)
    requires Topological(def.edges, place) && FirstStart(def.nodes) in place
    ensures var s := states[|es|];
      && IsPath(def.edges, s.trail) && s.trail[0] == FirstStart(def.nodes)
          && s.trail[|s.trail| - 1] == s.record.row.current
      && NoRepeats(s.trail) && Increasing(place, s.trail)
      && ActedOn(s.record.actions) == Approvals(def.nodes, Decided(s))
      && s.record.row.version == 1 + |s.record.actions|
      && |s.record.actions| <= Count(def.nodes, Approval)
      && (s.record.row.status == Pending ==> |s.record.actions| < Count(def.nodes, Approval))
      && s.record.outbox == Addressed(Messages(def.nodes, s.trail, s.record.row.submittedBy))
  {
    var s := states[|es|];
    RunKeepsInv(def, answers, actor, es, states, |es|);
    AcyclicPathsDoNotRepeat(def.edges, s.trail);
    PathsFollowTheOrder(def.edges, place, s.trail);
    ActedOnLength(s.record.actions);
    FewApprovals(def.nodes, s.trail);
  }

  // ---- What is sent --------------------------------------------------------------------------------

  /** The notification nodes of a trail, in order. */
  ghost function Notifiers(nodes: seq<Node>, trail: seq<Id>): seq<Id> {
    if trail == [] then [] else
      var id := trail[|trail| - 1];
      Notifiers(nodes, trail[..|trail| - 1]) + if IsKind(nodes, id, Notification) then [id] else []
  }

  /** What each message says: the configuration of its node, for the user it is addressed to. */
  ghost predicate Carries(m: Message, nodes: seq<Node>, id: Id, user: string) {
    && IsKind(nodes, id, Notification) && m.user == user
    && m.channel == NodeOf(nodes, id).channel && m.recipient == NodeOf(nodes, id).recipient
    && m.subject == NodeOf(nodes, id).subject && m.body == NodeOf(nodes, id).body
  }

  /** A trail gives one message per notification node on it, in order. */
  lemma {:induction false} MessagesCarryTheirNodes(nodes: seq<Node>, trail: seq<Id>, user: string)
    ensures var messages, ids := Messages(nodes, trail, user), Notifiers(nodes, trail);
      |messages| == |ids| && forall k :: 0 <= k < |ids| ==> Carries(messages[k], nodes, ids[k], user)
  {
    if trail != [] {
      MessagesCarryTheirNodes(nodes, trail[..|trail| - 1], user);
    }
  }

  /** Only a missing recipient is replaced, by the nil user. */
  lemma {:induction false} AddressedKeepsMessages(messages: seq<Message>)
    ensures |Addressed(messages)| == |messages|
    ensures forall i :: 0 <= i < |messages| ==>
      Addressed(messages)[i] == if messages[i].user != "" then messages[i]
        else messages[i].(user := "00000000-0000-0000-0000-000000000000")
  {
    if messages != [] { AddressedKeepsMessages(messages[..|messages| - 1]); }
  }

  predicate Deliverable(m: Message) {
    m.user != "" && (m.channel == "inapp" || (m.channel in {"email", "webhook"} && !AllSpace(m.recipient)))
  }

  /** After any run the outbox has one message for each notification node passed, in path
      order, with that node's configuration, for the user who submitted; and each can be
      delivered. */
  lemma EveryMessageIsDeliverable(def: Definition, answers: Answers, actor: string, es: seq<Event>,
    states: seq<System>, i: nat, k: nat)
    requires Accepted(def.nodes, def.edges) && Run(def, answers, actor, es, states) && i < |states|
    requires k < |states[i].record.outbox|
    ensures var s := states[i]; var m := s.record.outbox[k]; var user := s.record.row.submittedBy;
      && Deliverable(m) && |s.record.outbox| == |Notifiers(def.nodes, s.trail)|
      && Carries(m, def.nodes, Notifiers(def.nodes, s.trail)[k], if user != "" then user else NOBODY)
  {
    var s := states[i];
    RunKeepsInv(def, answers, actor, es, states, i);
    var messages := Messages(def.nodes, s.trail, s.record.row.submittedBy);
    AddressedKeepsMessages(messages);
    MessagesCarryTheirNodes(def.nodes, s.trail, s.record.row.submittedBy);
    var id := Notifiers(def.nodes, s.trail)[k];
    assert NodeAccepted(def.nodes[IndexOf(def.nodes, id)]);
  }

  /** Whoever started the instance stays the one who submitted it. */
  lemma {:induction false} SubmitterStays(def: Definition, answers: Answers, actor: string, es: seq<Event>,
    states: seq<System>, i: nat)
    requires Run(def, answers, actor, es, states) && i < |states|
    ensures states[i].record.row.submittedBy == actor
  {
    if i > 0 {
      SubmitterStays(def, answers, actor, es, states, i - 1);
      assert states[i - 1 + 1] == Step(def, states[i - 1], es[i - 1]);
    }
  }
}
