/** Claims and status changes of goal tasks: the single statements, and what
    holds over every run of them, interleaved or one at a time. */
module TaskLifecycle {
  import opened Common
  import opened TaskTypes
  import opened TaskTable
  import opened TaskTree

  predicate LegalTransition(from: Status, to: Status) {
    if to.Cancelled? then !from.Done? && !from.Failed? && !from.Cancelled?
    else match from
      case Proposed => to.Approved?
      case Approved => to.Claimed?
      case Claimed => to.InProgress? || to.AwaitingVerification?
      case InProgress => to.AwaitingVerification?
      case AwaitingVerification => to.Done? || to.Failed?
      case _ => false
  }

  // ------------------------------------------------- single statements

  predicate Claimable(t: Table, k: nat) {
    k in t && t[k].assignee.None? && t[k].status.Approved?
  }

  /** The optimistic-lock UPDATE of a claim. */
  function AfterClaim(t: Table, k: nat, agent: nat, message: Option<nat>, now: int): Table {
    if !Claimable(t, k) then t
    else t[k := t[k].(assignee := Some(agent), status := Claimed, claimedAt := Some(now), claimMessage := message)]
  }

  function Coalesce<T>(a: Option<T>, b: Option<T>): Option<T> {
    if a.Some? then a else b
  }

  /** The unconditional UPDATE of a status change. */
  function AfterWrite(t: Table, k: nat, status: Status, extras: Extras, now: int): Table {
    if k !in t || status.Unknown? then t
    else
      var row := t[k];
      t[k := row.(status := status,
                  startedAt := Coalesce(row.startedAt, if status.InProgress? then Some(now) else None),
                  completedAt := if Terminal(status) then Some(now) else row.completedAt,
                  failureReason := Coalesce(NullableString(extras.failureReason), row.failureReason),
                  completionMessage := Coalesce(extras.completionMessage, row.completionMessage))]
  }

  /** The columns no claim, transition or spend ever touches. */
  ghost predicate SameOrigin(a: Task, b: Task) {
    SameAsked(a, b) && a.goalId == b.goalId && a.ancestry == b.ancestry && a.depth == b.depth
    && a.byAgent == b.byAgent && a.byUser == b.byUser
  }

  /** What a status change does to a row: a given failure reason or completion
      message is stored and a missing one leaves the old; the start time is set by
      the first move into progress, the completion time by every final status. */
  ghost predicate StatusSet(a: Task, b: Task, status: Status, extras: Extras, now: int) {
    && SameOrigin(a, b) && b.status == status
    && b.assignee == a.assignee && b.claimedAt == a.claimedAt && b.claimMessage == a.claimMessage
    && b.spentTokens == a.spentTokens && b.spentCents == a.spentCents
    && (extras.failureReason != "" ==> b.failureReason == Some(extras.failureReason))
    && (extras.failureReason == "" ==> b.failureReason == a.failureReason)
    && (extras.completionMessage != None ==> b.completionMessage == extras.completionMessage)
    && (extras.completionMessage == None ==> b.completionMessage == a.completionMessage)
    && (a.startedAt != None || status != InProgress ==> b.startedAt == a.startedAt)
    && (a.startedAt == None && status == InProgress ==> b.startedAt == Some(now))
    && (status in {Done, Failed, Cancelled} ==> b.completedAt == Some(now))
    && (status !in {Done, Failed, Cancelled} ==> b.completedAt == a.completedAt)
  }

  /** What a claim does to a row. */
  ghost predicate ClaimSet(a: Task, b: Task, agent: nat, message: Option<nat>, now: int) {
    && SameOrigin(a, b) && b.status == Claimed && b.assignee == Some(agent)
    && b.claimedAt == Some(now) && b.claimMessage == message
    && b.spentTokens == a.spentTokens && b.spentCents == a.spentCents
    && b.failureReason == a.failureReason && b.completionMessage == a.completionMessage
    && b.startedAt == a.startedAt && b.completedAt == a.completedAt
  }

  /** No row but `k` differs. */
  ghost predicate OnlyRow(t: Table, u: Table, k: nat) {
    u.Keys == t.Keys && forall j | j in t && j != k :: u[j] == t[j]
  }

  function AfterSpend(t: Table, k: nat, tokens: int, cents: int): Table {
    if k !in t then t
    else t[k := t[k].(spentTokens := t[k].spentTokens + tokens, spentCents := t[k].spentCents + cents)]
  }

  /** Column by column, what the two statements do, and to no other row. */
  lemma StatementEffects(t: Table, k: nat, agent: nat, message: Option<nat>, status: Status, extras: Extras, now: int)
    requires k in t
    ensures Claimable(t, k) ==>
              OnlyRow(t, AfterClaim(t, k, agent, message, now), k)
              && ClaimSet(t[k], AfterClaim(t, k, agent, message, now)[k], agent, message, now)
    ensures !status.Unknown? ==>
              OnlyRow(t, AfterWrite(t, k, status, extras, now), k)
              && StatusSet(t[k], AfterWrite(t, k, status, extras, now)[k], status, extras, now)
  {
  }

  /** None of the statements touches what the denormalized index is made of. */
  lemma StatementsKeepShape(t: Table, k: nat, agent: nat, message: Option<nat>, status: Status, extras: Extras,
                            now: int, tokens: int, cents: int)
    requires Linked(t)
    ensures Linked(AfterClaim(t, k, agent, message, now))
    ensures Linked(AfterWrite(t, k, status, extras, now))
    ensures Linked(AfterSpend(t, k, tokens, cents))
  {
    if k in t {
      RowUpdateKeepsIndex(t, k, AfterClaim(t, k, agent, message, now));
      RowUpdateKeepsIndex(t, k, AfterWrite(t, k, status, extras, now));
      RowUpdateKeepsIndex(t, k, AfterSpend(t, k, tokens, cents));
    }
  }

  lemma RowUpdateKeepsIndex(t: Table, k: nat, u: Table)
    requires Linked(t) && k in t && u.Keys == t.Keys
    requires forall j | j in t && j != k :: u[j] == t[j]
    requires && u[k].goalId == t[k].goalId && u[k].parent == t[k].parent && u[k].ancestry == t[k].ancestry
             && u[k].depth == t[k].depth && u[k].title == t[k].title && u[k].criteria == t[k].criteria
             && u[k].billing == t[k].billing
    ensures Linked(u)
  {
    assert SameShape(t, u);
    LinkedSameShape(t, u);
  }

  /** What the database accepts as a new row. `refuses` stands for everything
      outside the row itself: foreign keys, a full disk, a lost connection. */
  predicate Insertable(row: Task, id: nat, refuses: set<nat>) {
    && AncestryBytes(row.ancestry) <= MAX_ANCESTRY_BYTES
    && !row.status.Unknown?
    && (row.byAgent.Some? || row.byUser.Some?)
    && id !in refuses
  }

  /** What the refusal of a row is reported as. */
  function Refused(row: Task): TaskError {
    if AncestryBytes(row.ancestry) > MAX_ANCESTRY_BYTES then AncestryOverflow else DatabaseError
  }

  predicate AllInsertable(plan: Table, refuses: set<nat>) {
    forall k {:trigger Insertable(plan[k], k, refuses)} | k in plan :: Insertable(plan[k], k, refuses)
  }

  function PlanAt(inp: CreateTreeInput, n: nat): Table {
    Planned(inp, inp.root, None, [], n)
  }

  // ------------------------------------------------- interleaved runs

  /** A status change whose read and legality check are done and whose write is still to come. */
  datatype Pending = Pending(task: nat, status: Status, extras: Extras)

  datatype System = System(t: Table, n: nat, pending: seq<Pending>)

  datatype Event =
    | Claim(task: nat, agent: nat, message: Option<nat>, now: int)
    | Read(task: nat, status: Status, extras: Extras)
    | Write(index: nat, now: int)
    | Spend(task: nat, tokens: int, cents: int)
    | Create(inp: CreateTreeInput, refuses: set<nat>)

  function Step(s: System, e: Event): System {
    match e
    case Claim(k, agent, message, now) => s.(t := AfterClaim(s.t, k, agent, message, now))
    case Read(k, status, extras) =>
      if k in s.t && LegalTransition(s.t[k].status, status)
      then s.(pending := s.pending + [Pending(k, status, extras)])
      else s
    case Write(i, now) =>
      if i >= |s.pending| then s
      else
        var p := s.pending[i];
        s.(t := AfterWrite(s.t, p.task, p.status, p.extras, now), pending := s.pending[..i] + s.pending[i + 1..])
    case Spend(k, tokens, cents) => s.(t := AfterSpend(s.t, k, tokens, cents))
    case Create(inp, refuses) =>
      if AllInsertable(PlanAt(inp, s.n), refuses)
      then s.(t := s.t + PlanAt(inp, s.n), n := s.n + Size(inp.root))
      else s
  }

  function Run(s: System, events: seq<Event>): System
    decreases |events|
  {
    if events == [] then s else Run(Step(s, events[0]), events[1..])
  }

  ghost predicate Sound(s: System) {
    Linked(s.t) && Below(s.t, s.n)
  }

  lemma StepSound(s: System, e: Event)
    requires Sound(s)
    ensures Sound(Step(s, e))
    ensures forall k | k in s.t :: k in Step(s, e).t
  {
    match e {
      case Claim(k, agent, message, now) =>
        StatementsKeepShape(s.t, k, agent, message, Proposed, Extras("", None), now, 0, 0);
      case Read(_, _, _) =>
      case Write(i, now) =>
        if i < |s.pending| {
          var p := s.pending[i];
          StatementsKeepShape(s.t, p.task, 0, None, p.status, p.extras, now, 0, 0);
        }
      case Spend(k, tokens, cents) =>
        StatementsKeepShape(s.t, k, 0, None, Proposed, Extras("", None), 0, tokens, cents);
      case Create(inp, refuses) =>
        GrownLinked(s.t, s.n, inp);
    }
  }

  /** Whatever happens, in whatever order, every snapshot stays the true chain. */
  lemma {:induction false} RunKeepsIndex(s: System, events: seq<Event>)
    requires Sound(s)
    ensures var u := Run(s, events).t;
            && PointersDown(u)
            && forall k | k in u :: u[k].ancestry == Chain(u, k) && u[k].depth == |Chain(u, k)|
    decreases |events|
  {
    if events == [] {
      SnapshotIsChain(s.t);
    } else {
      StepSound(s, events[0]);
      RunKeepsIndex(Step(s, events[0]), events[1..]);
    }
  }

  lemma StepKeeps(s: System, e: Event)
    requires Sound(s)
    ensures Keeps(s.t, Step(s, e).t, s.n) && s.n <= Step(s, e).n
  {
    if e.Create? {
      PlanHangsFree(s.t, s.n, e.inp);
    } else {
      forall k | k in s.t ensures KeepsRow(s.t, Step(s, e).t, k) {
      }
    }
  }

  lemma PlanHangsFree(t: Table, n: nat, inp: CreateTreeInput)
    requires Below(t, n)
    ensures Keeps(t, t + PlanAt(inp, n), n) && Keeps(t, t, n)
  {
    PlannedKeys(inp, inp.root, None, [], n);
    PlannedParents(inp, inp.root, None, [], n);
    forall k | k in t ensures KeepsRow(t, t + PlanAt(inp, n), k) && KeepsRow(t, t, k) {
    }
  }

  /** Whatever happens, the tree at a row stays the tree that was asked for there. */
  lemma {:induction false} RunKeepsTree(s: System, events: seq<Event>, r: nat)
    requires Sound(s) && r in s.t
    ensures var end := Run(s, events);
            Sound(end) && r in end.t && SameTree(TableTree(s.t, s.n, r), TableTree(end.t, end.n, r))
    decreases |events|
  {
    if events == [] {
      SameTreeSelf(TableTree(s.t, s.n, r));
    } else {
      var next := Step(s, events[0]);
      StepSound(s, events[0]);
      StepKeeps(s, events[0]);
      KeptTree(s.t, s.n, next.t, next.n, r);
      RunKeepsTree(next, events[1..], r);
      var end := Run(next, events[1..]);
      SameTreeChain(TableTree(s.t, s.n, r), TableTree(next.t, next.n, r), TableTree(end.t, end.n, r));
    }
  }

  function AssigneeOf(s: System, k: nat): Option<nat> {
    if k in s.t then s.t[k].assignee else None
  }

  function StartOf(s: System, k: nat): Option<int> {
    if k in s.t then s.t[k].startedAt else None
  }

  function EndOf(s: System, k: nat): Option<int> {
    if k in s.t then s.t[k].completedAt else None
  }

  /** The agents whose claim of `k` succeeds during a run, in order. */
  function Winners(s: System, events: seq<Event>, k: nat): seq<nat>
    decreases |events|
  {
    if events == [] then []
    else
      var e := events[0];
      (if e.Claim? && e.task == k && Claimable(s.t, k) then [e.agent] else [])
      + Winners(Step(s, e), events[1..], k)
  }

  lemma StepWritesOnce(s: System, e: Event, k: nat)
    requires Sound(s)
    ensures AssigneeOf(s, k).Some? ==> AssigneeOf(Step(s, e), k) == AssigneeOf(s, k)
    ensures AssigneeOf(s, k).None? ==>
              AssigneeOf(Step(s, e), k) == if e.Claim? && e.task == k && Claimable(s.t, k) then Some(e.agent) else None
    ensures StartOf(s, k).Some? ==> StartOf(Step(s, e), k) == StartOf(s, k)
    ensures EndOf(s, k).Some? ==> EndOf(Step(s, e), k).Some?
  {
    if e.Create? {
      var plan := PlanAt(e.inp, s.n);
      PlannedKeys(e.inp, e.inp.root, None, [], s.n);
      PlannedFresh(e.inp, e.inp.root, None, [], s.n);
      assert k in s.t ==> k !in plan;
    }
  }

  lemma {:induction false} PlannedFresh(inp: CreateTreeInput, node: TreeNode, parent: Option<nat>,
                                        ancestry: seq<AncestryNode>, id: nat)
    ensures forall k | k in Planned(inp, node, parent, ancestry, id) ::
              Fresh(inp, Planned(inp, node, parent, ancestry, id)[k])
    decreases node, 1
  {
    PlannedFirstFresh(inp, node.children, |node.children|, id, Extend(ancestry, id, node), id + 1);
  }

  lemma {:induction false} PlannedFirstFresh(inp: CreateTreeInput, nodes: seq<TreeNode>, i: nat, parent: nat,
                                             ancestry: seq<AncestryNode>, id: nat)
    requires i <= |nodes|
    ensures forall k | k in PlannedFirst(inp, nodes, i, parent, ancestry, id) ::
              Fresh(inp, PlannedFirst(inp, nodes, i, parent, ancestry, id)[k])
    decreases nodes, 0, i
  {
    if i > 0 {
      PlannedFirstFresh(inp, nodes, i - 1, parent, ancestry, id);
      PlannedFresh(inp, nodes[i - 1], Some(parent), ancestry, id + SizeFirst(nodes, i - 1));
    }
  }

  /** A newly created row: unassigned, unspent, untimed. */
  predicate Fresh(inp: CreateTreeInput, row: Task) {
    && row.assignee.None? && row.startedAt.None? && row.completedAt.None?
    && row.status == StatusFor(inp) && row.spentTokens == 0 && row.spentCents == 0
  }

  /** Claim exclusivity over every interleaving, stale writes included: a task
      is won at most once, never after it had an assignee, and the winner is
      the assignee from then on. The start time is written at most once too. */
  lemma {:induction false} ClaimedOnce(s: System, events: seq<Event>, k: nat)
    requires Sound(s)
    ensures var won := Winners(s, events, k);
            && |won| <= 1
            && (AssigneeOf(s, k).Some? ==> won == [])
            && AssigneeOf(Run(s, events), k) == if won == [] then AssigneeOf(s, k) else Some(won[0])
    ensures StartOf(s, k).Some? ==> StartOf(Run(s, events), k) == StartOf(s, k)
    ensures EndOf(s, k).Some? ==> EndOf(Run(s, events), k).Some?
    decreases |events|
  {
    if events != [] {
      StepSound(s, events[0]);
      StepWritesOnce(s, events[0], k);
      ClaimedOnce(Step(s, events[0]), events[1..], k);
    }
  }

  /** The status alone is no lock: a transition that read `proposed` before
      another one approved the task, and writes after the claim, puts an
      assigned task back to approved. It still cannot be claimed again. */
  lemma StaleWriteReapproves(s: System, k: nat, a: nat, b: nat)
    requires k in s.t && s.t[k].status.Proposed? && s.t[k].assignee.None? && s.pending == []
    ensures var none := Extras("", None);
            var events := [Read(k, Approved, none), Read(k, Approved, none), Write(0, 1),
                           Claim(k, a, None, 2), Write(0, 3), Claim(k, b, None, 4)];
            var end := Run(s, events);
            && k in end.t && end.t[k].status.Approved? && end.t[k].assignee == Some(a)
            && Winners(s, events, k) == [a]
  {
    var none := Extras("", None);
    var p := Pending(k, Approved, none);
    var tail := [Claim(k, a, None, 2), Write(0, 3), Claim(k, b, None, 4)];
    var s2 := s.(pending := [p, p]);
    assert Step(s, Read(k, Approved, none)) == s.(pending := [p]);
    assert Step(s.(pending := [p]), Read(k, Approved, none)) == s2;
    var s3 := Step(s2, Write(0, 1));
    assert s3.pending == [p];
    StaleWriteLands(s3, k, a, b);
    Unfold(s2, Write(0, 1), tail);
    Unfold(s.(pending := [p]), Read(k, Approved, none), [Write(0, 1)] + tail);
    Unfold(s, Read(k, Approved, none), [Read(k, Approved, none)] + ([Write(0, 1)] + tail));
    assert [Read(k, Approved, none)] + ([Read(k, Approved, none)] + ([Write(0, 1)] + tail))
        == [Read(k, Approved, none), Read(k, Approved, none), Write(0, 1),
            Claim(k, a, None, 2), Write(0, 3), Claim(k, b, None, 4)];
  }

  lemma StaleWriteLands(s: System, k: nat, a: nat, b: nat)
    requires Claimable(s.t, k) && s.pending == [Pending(k, Approved, Extras("", None))]
    ensures var events := [Claim(k, a, None, 2), Write(0, 3), Claim(k, b, None, 4)];
            var end := Run(s, events);
            && k in end.t && end.t[k].status.Approved? && end.t[k].assignee == Some(a)
            && Winners(s, events, k) == [a]
  {
    var s1 := Step(s, Claim(k, a, None, 2));
    var s2 := Step(s1, Write(0, 3));
    assert s2.t[k].status.Approved? && s2.t[k].assignee == Some(a);
    Unfold(s2, Claim(k, b, None, 4), []);
    Unfold(s1, Write(0, 3), [Claim(k, b, None, 4)]);
    Unfold(s, Claim(k, a, None, 2), [Write(0, 3)] + [Claim(k, b, None, 4)]);
    assert [Claim(k, a, None, 2)] + ([Write(0, 3)] + [Claim(k, b, None, 4)])
        == [Claim(k, a, None, 2), Write(0, 3), Claim(k, b, None, 4)];
    assert [Claim(k, b, None, 4)] + [] == [Claim(k, b, None, 4)];
  }

  /** An assigned task is past being proposed or approved. */
  predicate Proper(s: System, k: nat) {
    AssigneeOf(s, k).Some? ==> k in s.t && !s.t[k].status.Proposed? && !s.t[k].status.Approved?
  }

  /** Nothing on its way back to the start, or to a status the column rejects; no legality check lets that through. */
  ghost predicate Forward(s: System) {
    forall i | 0 <= i < |s.pending| :: !s.pending[i].status.Proposed? && !s.pending[i].status.Unknown?
  }

  predicate WriteTo(s: System, e: Event, k: nat) {
    e.Write? && e.index < |s.pending| && s.pending[e.index].task == k && k in s.t
  }

  /** An approval that was checked earlier lands on a task that is assigned by now. */
  predicate StaleApproval(s: System, e: Event, k: nat) {
    WriteTo(s, e, k) && s.pending[e.index].status.Approved? && AssigneeOf(s, k).Some?
  }

  /** A write checked earlier lands on a task that is further on by now. */
  predicate LateWrite(s: System, e: Event, k: nat) {
    WriteTo(s, e, k) && Rank(s.pending[e.index].status) < Rank(s.t[k].status)
  }

  function RankOf(s: System, k: nat): nat {
    if k in s.t then Rank(s.t[k].status) else 0
  }

  lemma StepProper(s: System, e: Event, k: nat)
    requires Sound(s) && Forward(s)
    ensures Forward(Step(s, e))
    ensures Proper(s, k) ==> (Proper(Step(s, e), k) <==> !StaleApproval(s, e, k))
    ensures RankOf(Step(s, e), k) < RankOf(s, k) <==> LateWrite(s, e, k)
  {
    if e.Create? {
      PlannedKeys(e.inp, e.inp.root, None, [], s.n);
      PlannedFresh(e.inp, e.inp.root, None, [], s.n);
    }
  }

  ghost predicate AlwaysProper(s: System, events: seq<Event>, k: nat)
    decreases |events|
  {
    Proper(s, k) && (events != [] ==> AlwaysProper(Step(s, events[0]), events[1..], k))
  }

  ghost predicate SomeStaleApproval(s: System, events: seq<Event>, k: nat)
    decreases |events|
  {
    events != [] && (StaleApproval(s, events[0], k) || SomeStaleApproval(Step(s, events[0]), events[1..], k))
  }

  /** Over every interleaving: an assigned task is never proposed or approved,
      exactly if no approval lands on a task that is already assigned. */
  lemma {:induction false} ProperExactly(s: System, events: seq<Event>, k: nat)
    requires Sound(s) && Forward(s) && Proper(s, k)
    ensures AlwaysProper(s, events, k) <==> !SomeStaleApproval(s, events, k)
    decreases |events|
  {
    if events != [] {
      StepSound(s, events[0]);
      StepProper(s, events[0], k);
      if !StaleApproval(s, events[0], k) {
        ProperExactly(Step(s, events[0]), events[1..], k);
      } else {
        assert !AlwaysProper(Step(s, events[0]), events[1..], k);
      }
    }
  }

  ghost predicate NeverFallsBack(s: System, events: seq<Event>, k: nat)
    decreases |events|
  {
    events != [] ==>
      RankOf(s, k) <= RankOf(Step(s, events[0]), k) && NeverFallsBack(Step(s, events[0]), events[1..], k)
  }

  ghost predicate SomeLateWrite(s: System, events: seq<Event>, k: nat)
    decreases |events|
  {
    events != [] && (LateWrite(s, events[0], k) || SomeLateWrite(Step(s, events[0]), events[1..], k))
  }

  /** Over every interleaving: a task's rank never falls, exactly if no write
      lands on a task that is further on than the write's own status. */
  lemma {:induction false} RankExactly(s: System, events: seq<Event>, k: nat)
    requires Sound(s) && Forward(s)
    ensures NeverFallsBack(s, events, k) <==> !SomeLateWrite(s, events, k)
    decreases |events|
  {
    if events != [] {
      StepSound(s, events[0]);
      StepProper(s, events[0], k);
      RankExactly(Step(s, events[0]), events[1..], k);
    }
  }

  lemma Unfold(s: System, e: Event, rest: seq<Event>)
    ensures Run(s, [e] + rest) == Run(Step(s, e), rest)
    ensures forall k :: Winners(s, [e] + rest, k)
                     == (if e.Claim? && e.task == k && Claimable(s.t, k) then [e.agent] else [])
                        + Winners(Step(s, e), rest, k)
  {
    assert ([e] + rest)[1..] == rest;
  }

  // ------------------------------------------------- one call at a time

  datatype Call =
    | CallClaim(task: nat, agent: nat, message: Option<nat>, now: int)
    | CallTransition(task: nat, status: Status, extras: Extras, now: int)
    | CallSpend(task: nat, tokens: int, cents: int)

  /** A call runs its statements without anything in between. */
  function CallStep(s: System, c: Call): System {
    match c
    case CallClaim(k, agent, message, now) => Step(s, Claim(k, agent, message, now))
    case CallTransition(k, status, extras, now) =>
      var read := Step(s, Read(k, status, extras));
      if |read.pending| == |s.pending| then s else Step(read, Write(|s.pending|, now))
    case CallSpend(k, tokens, cents) => Step(s, Spend(k, tokens, cents))
  }

  function CallRun(s: System, calls: seq<Call>): System
    decreases |calls|
  {
    if calls == [] then s else CallRun(CallStep(s, calls[0]), calls[1..])
  }

  /** Place in the life of a task; the three final states share the last one. */
  function Rank(s: Status): nat {
    match s
    case Proposed => 0
    case Approved => 1
    case Claimed => 2
    case InProgress => 3
    case AwaitingVerification => 4
    case _ => 5
  }

  /** The state machine as a ladder: a live task may be cancelled or go up one
      rung, and a claimed one may skip the rung of being in progress; nothing else. */
  lemma LegalByRank(from: Status, to: Status)
    ensures LegalTransition(from, to)
       <==> && !Terminal(from)
            && (|| to.Cancelled?
                || (&& !from.Unknown? && !to.Unknown?
                    && (Rank(to) == Rank(from) + 1 || (from.Claimed? && to.AwaitingVerification?))))
  {
  }

  predicate Accepted(s: System, c: Call, k: nat) {
    && c.task == k && k in s.t
    && match c
       case CallClaim(_, _, _, _) => Claimable(s.t, k)
       case CallTransition(_, status, _, _) => LegalTransition(s.t[k].status, status)
       case CallSpend(_, _, _) => false
  }

  function AcceptedCount(s: System, calls: seq<Call>, k: nat): nat
    decreases |calls|
  {
    if calls == [] then 0
    else (if Accepted(s, calls[0], k) then 1 else 0) + AcceptedCount(CallStep(s, calls[0]), calls[1..], k)
  }

  function StartWrites(s: System, calls: seq<Call>, k: nat): nat
    decreases |calls|
  {
    if calls == [] then 0
    else (if StartOf(CallStep(s, calls[0]), k) != StartOf(s, k) then 1 else 0)
         + StartWrites(CallStep(s, calls[0]), calls[1..], k)
  }

  predicate Tidy(row: Task) {
    && !row.status.Unknown?
    && (row.completedAt.Some? <==> Terminal(row.status))
    && (row.assignee.Some? ==> !row.status.Proposed? && !row.status.Approved?)
    && (row.status.InProgress? ==> row.startedAt.Some?)
  }

  /** Which initial statuses start a task off tidily: all but the final ones,
      `in_progress`, and texts the column rejects. */
  lemma FreshTidy(inp: CreateTreeInput, row: Task)
    requires Fresh(inp, row)
    ensures Tidy(row) <==> Rank(StatusFor(inp)) < 5 && !StatusFor(inp).InProgress?
  {
  }

  /** One call: refused calls leave the task's life alone, accepted ones raise its rank. */
  lemma CallAdvances(s: System, c: Call, k: nat)
    requires k in s.t && Tidy(s.t[k])
    ensures k in CallStep(s, c).t && Tidy(CallStep(s, c).t[k])
    ensures Accepted(s, c, k) ==> Rank(CallStep(s, c).t[k].status) > Rank(s.t[k].status)
    ensures !Accepted(s, c, k) ==>
              && CallStep(s, c).t[k].status == s.t[k].status
              && CallStep(s, c).t[k].assignee == s.t[k].assignee
              && CallStep(s, c).t[k].completedAt == s.t[k].completedAt
              && CallStep(s, c).t[k].startedAt == s.t[k].startedAt
    ensures s.t[k].startedAt.Some? ==> CallStep(s, c).t[k].startedAt == s.t[k].startedAt
  {
  }

  /** The whole life of a task under serialized calls: at most five accepted
      steps, final states absorb, the completion time is set exactly in them, the
      start time is written at most once, an assignee never sits on an unclaimed status. */
  lemma {:induction false} Lifecycle(s: System, calls: seq<Call>, k: nat)
    requires k in s.t && Tidy(s.t[k])
    ensures var end := CallRun(s, calls);
            && k in end.t && Tidy(end.t[k])
            && Rank(s.t[k].status) + AcceptedCount(s, calls, k) <= Rank(end.t[k].status) <= 5
            && (Terminal(s.t[k].status) ==> end.t[k].status == s.t[k].status && end.t[k].completedAt == s.t[k].completedAt)
    ensures StartWrites(s, calls, k) <= if s.t[k].startedAt.Some? then 0 else 1
    decreases |calls|
  {
    if calls != [] {
      CallAdvances(s, calls[0], k);
      Lifecycle(CallStep(s, calls[0]), calls[1..], k);
    }
  }

  // ------------------------------------------------- claimed by whom

  /** Some accepted call of the run puts `k` into `claimed` by a transition. */
  predicate MovedToClaimed(s: System, calls: seq<Call>, k: nat)
    decreases |calls|
  {
    calls != []
    && (|| (calls[0].CallTransition? && calls[0].status.Claimed? && Accepted(s, calls[0], k))
        || MovedToClaimed(CallStep(s, calls[0]), calls[1..], k))
  }

  predicate Unclaimed(status: Status) {
    status.Proposed? || status.Approved?
  }

  /** A transition may claim a task for nobody; no claim wins it any more. */
  lemma ClaimedByNobody(s: System, k: nat, agent: nat)
    requires k in s.t && s.t[k].status.Approved? && s.t[k].assignee.None?
    ensures var calls := [CallTransition(k, Claimed, Extras("", None), 1), CallClaim(k, agent, None, 2)];
            var end := CallRun(s, calls);
            && k in end.t && end.t[k].status.Claimed? && end.t[k].assignee.None?
            && MovedToClaimed(s, calls, k)
  {
    var c, d := CallTransition(k, Claimed, Extras("", None), 1), CallClaim(k, agent, None, 2);
    var s1 := CallStep(s, c);
    assert k in s1.t && s1.t[k].status.Claimed? && s1.t[k].assignee.None?;
    assert CallStep(s1, d) == s1;
    assert [c, d][1..] == [d] && [d][1..] == [];
    assert CallRun(s1, [d]) == CallRun(s1, []) == s1;
  }

  /** Past the claim the assignee is settled, and no call moves the task to claimed again. */
  lemma {:induction false} AssigneeSettled(s: System, calls: seq<Call>, k: nat)
    requires k in s.t && Tidy(s.t[k]) && !Unclaimed(s.t[k].status)
    ensures var end := CallRun(s, calls);
            k in end.t && end.t[k].assignee == s.t[k].assignee && !Unclaimed(end.t[k].status)
    ensures !MovedToClaimed(s, calls, k)
    decreases |calls|
  {
    if calls != [] {
      CallAdvances(s, calls[0], k);
      AssigneeSettled(CallStep(s, calls[0]), calls[1..], k);
    }
  }

  /** Exactly when a task that has left its starting statuses, other than by
      being cancelled, has nobody assigned: when a transition took it there. */
  lemma {:induction false} UnassignedExactly(s: System, calls: seq<Call>, k: nat)
    requires k in s.t && Tidy(s.t[k]) && Unclaimed(s.t[k].status)
    ensures var end := CallRun(s, calls);
            && k in end.t
            && (!Unclaimed(end.t[k].status) && !end.t[k].status.Cancelled? ==>
                  (end.t[k].assignee.None? <==> MovedToClaimed(s, calls, k)))
    decreases |calls|
  {
    if calls != [] {
      var next := CallStep(s, calls[0]);
      CallAdvances(s, calls[0], k);
      if Unclaimed(next.t[k].status) {
        UnassignedExactly(next, calls[1..], k);
      } else {
        AssigneeSettled(next, calls[1..], k);
        if next.t[k].status.Cancelled? {
          Lifecycle(next, calls[1..], k);
        }
      }
    }
  }
}
