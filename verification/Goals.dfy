/** Goals: creation, status changes and the budget cascade over the task rollup. */
module Goals {
  import opened Common
  import opened TaskTypes
  import opened TaskTable
  import opened TaskLifecycle
  import opened Rollup
  import opened Slug
  import Channels

  datatype GoalStatus = Draft | Active | Paused | Completed | Cancelled | Stuck

  datatype Goal = Goal(
    slug: string,
    title: string,
    description: string,
    owner: nat,
    channel: nat,
    coordinator: Option<nat>,
    rootTask: Option<nat>,
    status: GoalStatus,
    budgetTokens: Option<int>,
    budgetCents: Option<int>,
    maxSpawnDepth: int,
    alertPosted: bool,
    completedAt: Option<int>,
    summary: Option<string>,
    message: Option<nat>)

  datatype GoalError = Incomplete | GoalNotFound | IllegalMove | ChannelRefused | SlugTaken

  predicate LegalMove(from: GoalStatus, to: GoalStatus) {
    match from
    case Draft => to.Active? || to.Completed? || to.Stuck? || to.Cancelled?
    case Active => to.Paused? || to.Completed? || to.Stuck? || to.Cancelled?
    case Paused => to.Active? || to.Completed? || to.Stuck? || to.Cancelled?
    case Stuck => to.Active? || to.Completed? || to.Cancelled?
    case _ => false
  }

  /** The moves in one sentence: away from a status that is not final, never
      back to draft, and to paused only from active. */
  lemma LegalMoves(from: GoalStatus, to: GoalStatus)
    ensures LegalMove(from, to)
       <==> && from != to && !from.Completed? && !from.Cancelled? && !to.Draft?
            && (to.Paused? ==> from.Active?)
  {
  }

  function Moved(g: Goal, to: GoalStatus): Goal {
    if LegalMove(g.status, to) then g.(status := to) else g
  }

  function Finished(g: Goal, to: GoalStatus, summary: string, message: nat, now: int): Goal {
    if g.status == to || !LegalMove(g.status, to) then g
    else g.(status := to, summary := Some(summary), message := Some(message),
            completedAt := if to.Completed? || to.Stuck? || to.Cancelled? then Some(now) else g.completedAt)
  }

  // ------------------------------------------------------- the budget verdict

  datatype Verdict = Verdict(percent: real, softAlert: bool, hardPause: bool)

  /** Spend as a percentage of the budget; none without a positive budget. */
  function Percent(g: Goal, spent: int): Option<real> {
    if g.budgetCents.None? || g.budgetCents.value <= 0 then None
    else Some(spent as real / g.budgetCents.value as real * 100.0)
  }

  predicate AtLeast(g: Goal, spent: int, limit: real) {
    Percent(g, spent).Some? && Percent(g, spent).value >= limit
  }

  /** The same comparison without division. */
  lemma AtLeastScaled(g: Goal, spent: int, limit: nat)
    ensures AtLeast(g, spent, limit as real)
       <==> g.budgetCents.Some? && g.budgetCents.value > 0 && spent * 100 >= g.budgetCents.value * limit
  {
    if g.budgetCents.Some? && g.budgetCents.value > 0 {
      var s, b := spent as real, g.budgetCents.value as real;
      var q := s / b;
      assert q * b == s;
      ScaleOrder(q, b, limit as real);
      assert (spent * 100) as real == s * 100.0 && (g.budgetCents.value * limit) as real == b * limit as real;
    }
  }

  lemma ScaleOrder(q: real, b: real, limit: real)
    requires b > 0.0
    ensures q * 100.0 >= limit <==> q * b * 100.0 >= b * limit
  {
    var d := q * 100.0 - limit;
    assert q * b * 100.0 - b * limit == d * b;
    assert d >= 0.0 <==> d * b >= 0.0;
  }

  function VerdictOn(g: Goal, spent: int): Verdict {
    match Percent(g, spent)
    case None => Verdict(0.0, false, false)
    case Some(p) => Verdict(p, p >= 80.0 && !g.alertPosted, p >= 100.0 && g.status.Active?)
  }

  /** At least `limit` percent of a positive budget in cents, in whole numbers. */
  predicate Reaches(budget: Option<int>, cents: int, limit: nat) {
    budget.Some? && budget.value > 0 && cents * 100 >= budget.value * limit
  }

  /** The verdict in whole cents: an alert from 80% on unless it was posted, a
      pause from 100% on for active goals, and the percentage times the budget is
      a hundred times the spend. */
  ghost predicate VerdictIs(g: Goal, spent: int, v: Verdict) {
    && (v.softAlert <==> Reaches(g.budgetCents, spent, 80) && !g.alertPosted)
    && (v.hardPause <==> Reaches(g.budgetCents, spent, 100) && g.status == Active)
    && (if g.budgetCents.Some? && g.budgetCents.value > 0 then v.percent * g.budgetCents.value as real == spent as real * 100.0
        else v.percent == 0.0)
  }

  lemma VerdictExactly(g: Goal, spent: int)
    ensures VerdictIs(g, spent, VerdictOn(g, spent))
  {
    AtLeastScaled(g, spent, 80);
    AtLeastScaled(g, spent, 100);
    if g.budgetCents.Some? && g.budgetCents.value > 0 {
      PercentTimes(spent as real, g.budgetCents.value as real);
    }
  }

  lemma PercentTimes(s: real, b: real)
    requires b > 0.0
    ensures (s / b * 100.0) * b == s * 100.0
  {
    var q := s / b;
    assert q * b == s;
  }

  /** What completing does to a goal that is neither in the status already nor barred from it. */
  ghost predicate CompletedAs(g: Goal, h: Goal, to: GoalStatus, summary: string, message: nat, now: int) {
    && h.status == to && h.summary == Some(summary) && h.message == Some(message)
    && (to in {Completed, Stuck, GoalStatus.Cancelled} ==> h.completedAt == Some(now))
    && (to !in {Completed, Stuck, GoalStatus.Cancelled} ==> h.completedAt == g.completedAt)
    && h == g.(status := to, summary := h.summary, message := h.message, completedAt := h.completedAt)
  }

  lemma FinishedAs(g: Goal, to: GoalStatus, summary: string, message: nat, now: int)
    ensures if g.status == to || !LegalMove(g.status, to) then Finished(g, to, summary, message, now) == g
            else CompletedAs(g, Finished(g, to, summary, message, now), to, summary, message, now)
  {
  }

  // ------------------------------------------------------- whole runs

  /** One goal and the task table its spend is rolled up from. */
  datatype Budget = Budget(goal: Goal, t: Table, n: nat)

  datatype Event =
    | Spend(task: nat, tokens: nat, cents: nat)
    | Check
    | Move(to: GoalStatus)
    | Finish(to: GoalStatus, summary: string, message: nat, now: int)
    | SetRoot(task: nat)

  ghost predicate Sound(s: Budget) {
    Linked(s.t) && Below(s.t, s.n)
  }

  ghost function Spent(s: Budget): int
    requires Sound(s)
  {
    if s.goal.rootTask.None? then 0 else RollupOf(s.t, s.n, s.goal.rootTask.value).cents
  }

  /** Evaluate, then apply: post the alert and remember it, pause if asked to. */
  function Applied(g: Goal, spent: int): Goal {
    var v := VerdictOn(g, spent);
    var g' := if v.softAlert then g.(alertPosted := true) else g;
    if v.hardPause then Moved(g', Paused) else g'
  }

  /** A check in whole cents: what it alerts, remembers and pauses. */
  ghost predicate CheckedAs(g: Goal, h: Goal, spent: int, alert: bool) {
    && (alert <==> Reaches(g.budgetCents, spent, 80) && !g.alertPosted)
    && (h.alertPosted <==> g.alertPosted || Reaches(g.budgetCents, spent, 80))
    && h.status == (if Reaches(g.budgetCents, spent, 100) && g.status == Active then Paused else g.status)
    && h == g.(alertPosted := h.alertPosted, status := h.status)
  }

  lemma AppliedExactly(g: Goal, spent: int)
    ensures CheckedAs(g, Applied(g, spent), spent, VerdictOn(g, spent).softAlert)
  {
    VerdictExactly(g, spent);
  }

  ghost function Step(s: Budget, e: Event): Budget
    requires Sound(s)
  {
    match e
    case Spend(task, tokens, cents) => s.(t := AfterSpend(s.t, task, tokens, cents))
    case Check => s.(goal := Applied(s.goal, Spent(s)))
    case Move(to) => s.(goal := Moved(s.goal, to))
    case Finish(to, summary, message, now) => s.(goal := Finished(s.goal, to, summary, message, now))
    case SetRoot(task) => s.(goal := s.goal.(rootTask := Some(task)))
  }

  lemma StepSound(s: Budget, e: Event)
    requires Sound(s)
    ensures Sound(Step(s, e))
    ensures Step(s, e).goal.budgetCents == s.goal.budgetCents
    ensures s.goal.status.Completed? || s.goal.status.Cancelled? ==> Step(s, e).goal.status == s.goal.status
  {
    if e.Spend? {
      StatementsKeepShape(s.t, e.task, 0, None, Proposed, Extras("", None), 0, e.tokens, e.cents);
    }
  }

  ghost function Run(s: Budget, events: seq<Event>): Budget
    requires Sound(s)
    decreases |events|
  {
    if events == [] then s
    else
      StepSound(s, events[0]);
      Run(Step(s, events[0]), events[1..])
  }

  ghost predicate AlertsOn(s: Budget, e: Event)
    requires Sound(s)
  {
    e.Check? && VerdictOn(s.goal, Spent(s)).softAlert
  }

  /** How often the 80% alert is posted during a run. */
  ghost function Alerts(s: Budget, events: seq<Event>): nat
    requires Sound(s)
    decreases |events|
  {
    if events == [] then 0
    else
      StepSound(s, events[0]);
      (if AlertsOn(s, events[0]) then 1 else 0) + Alerts(Step(s, events[0]), events[1..])
  }

  /** Some check of the run finds at least 80% spent. */
  ghost predicate SeesEighty(s: Budget, events: seq<Event>)
    requires Sound(s)
    decreases |events|
  {
    events != []
    && (|| (events[0].Check? && AtLeast(s.goal, Spent(s), 80.0))
        || (StepSound(s, events[0]);
            SeesEighty(Step(s, events[0]), events[1..])))
  }

  /** Over every run, whatever is spent, moved or re-rooted in between: the alert
      is posted exactly once if a check ever sees 80% and it had not been posted
      before, and otherwise never. */
  lemma {:induction false} AlertOnce(s: Budget, events: seq<Event>)
    requires Sound(s)
    ensures Alerts(s, events) == if !s.goal.alertPosted && SeesEighty(s, events) then 1 else 0
    ensures Run(s, events).goal.alertPosted <==> s.goal.alertPosted || SeesEighty(s, events)
    decreases |events|
  {
    if events != [] {
      StepSound(s, events[0]);
      AlertOnce(Step(s, events[0]), events[1..]);
    }
  }

  /** Right after an applied check that sees the whole budget spent, the goal is
      not active; and the check pauses only active goals. */
  lemma CheckPauses(s: Budget)
    requires Sound(s)
    ensures AtLeast(s.goal, Spent(s), 100.0) ==> !Step(s, Check).goal.status.Active?
    ensures Step(s, Check).goal.status
         == if AtLeast(s.goal, Spent(s), 100.0) && s.goal.status.Active? then Paused else s.goal.status
  {
  }

  /** Completed and cancelled goals keep their status over every run. */
  lemma {:induction false} FinalStays(s: Budget, events: seq<Event>)
    requires Sound(s) && (s.goal.status.Completed? || s.goal.status.Cancelled?)
    ensures Run(s, events).goal.status == s.goal.status
    decreases |events|
  {
    if events != [] {
      StepSound(s, events[0]);
      FinalStays(Step(s, events[0]), events[1..]);
    }
  }

  // ------------------------------------------------------- overlapping status changes

  /** A status change that has passed its legality check and is still to be written. */
  datatype Pending = Setting(to: GoalStatus) | Completing(to: GoalStatus, summary: string, message: nat)

  datatype Race = Race(goal: Goal, pending: seq<Pending>)

  datatype RaceEvent =
    | ReadMove(to: GoalStatus)
    | ReadFinish(to: GoalStatus, summary: string, message: nat)
    | WriteOne(index: nat, now: int)

  /** The unconditional UPDATE. */
  function Written(g: Goal, p: Pending, now: int): Goal {
    match p
    case Setting(to) => g.(status := to)
    case Completing(to, summary, message) =>
      g.(status := to, summary := Some(summary), message := Some(message),
         completedAt := if to.Completed? || to.Stuck? || to.Cancelled? then Some(now) else g.completedAt)
  }

  function RaceStep(s: Race, e: RaceEvent): Race {
    match e
    case ReadMove(to) => if LegalMove(s.goal.status, to) then s.(pending := s.pending + [Setting(to)]) else s
    case ReadFinish(to, summary, message) =>
      if s.goal.status != to && LegalMove(s.goal.status, to)
      then s.(pending := s.pending + [Completing(to, summary, message)]) else s
    case WriteOne(i, now) =>
      if i >= |s.pending| then s
      else Race(Written(s.goal, s.pending[i], now), s.pending[..i] + s.pending[i + 1..])
  }

  function RaceRun(s: Race, events: seq<RaceEvent>): Race
    decreases |events|
  {
    if events == [] then s else RaceRun(RaceStep(s, events[0]), events[1..])
  }

  predicate Final(status: GoalStatus) {
    status.Completed? || status.Cancelled?
  }

  /** With nothing in between, the read and the write make up the whole call. */
  lemma ReadThenWrite(g: Goal, to: GoalStatus, summary: string, message: nat, now: int)
    ensures RaceStep(RaceStep(Race(g, []), ReadMove(to)), WriteOne(0, now)).goal == Moved(g, to)
    ensures RaceStep(RaceStep(Race(g, []), ReadFinish(to, summary, message)), WriteOne(0, now)).goal
         == Finished(g, to, summary, message, now)
  {
  }

  /** A change that was checked before lands on a goal that is final by now. */
  predicate StaleMove(s: Race, e: RaceEvent) {
    e.WriteOne? && e.index < |s.pending| && Final(s.goal.status) && s.pending[e.index].to != s.goal.status
  }

  ghost predicate SomeStaleMove(s: Race, events: seq<RaceEvent>)
    decreases |events|
  {
    events != [] && (StaleMove(s, events[0]) || SomeStaleMove(RaceStep(s, events[0]), events[1..]))
  }

  /** Whenever the goal is final, the next event leaves its status alone. */
  ghost predicate FinalHolds(s: Race, events: seq<RaceEvent>)
    decreases |events|
  {
    events != [] ==>
      && (Final(s.goal.status) ==> RaceStep(s, events[0]).goal.status == s.goal.status)
      && FinalHolds(RaceStep(s, events[0]), events[1..])
  }

  /** Over every interleaving: final statuses are final, exactly if no change to
      another status lands on a goal that is final by then. */
  lemma {:induction false} FinalExactly(s: Race, events: seq<RaceEvent>)
    ensures FinalHolds(s, events) <==> !SomeStaleMove(s, events)
    decreases |events|
  {
    if events != [] {
      FinalExactly(RaceStep(s, events[0]), events[1..]);
    }
  }

  /** A pause decided on before the goal was completed, and written after, reopens it. */
  lemma PausedAfterCompletion(g: Goal, summary: string, message: nat, now: int)
    requires g.status.Active?
    ensures var events := [ReadMove(Paused), ReadFinish(Completed, summary, message), WriteOne(1, now), WriteOne(0, now)];
            var end := RaceRun(Race(g, []), events).goal;
            end.status.Paused? && end.completedAt == Some(now) && SomeStaleMove(Race(g, []), events)
  {
    var a, b, c, d := ReadMove(Paused), ReadFinish(Completed, summary, message), WriteOne(1, now), WriteOne(0, now);
    var p, q := Setting(Paused), Completing(Completed, summary, message);
    var s0, s2 := Race(g, []), Race(g, [p, q]);
    var s3 := Race(Written(g, q, now), [p]);
    assert RaceStep(s0, a) == Race(g, [p]) && RaceStep(Race(g, [p]), b) == s2;
    assert [p, q][..1] + [p, q][2..] == [p];
    assert RaceStep(s2, c) == s3;
    assert [a, b, c, d][1..] == [b, c, d] && [b, c, d][1..] == [c, d] && [c, d][1..] == [d] && [d][1..] == [];
    assert RaceRun(s3, [d]) == RaceRun(RaceStep(s3, d), []) == RaceStep(s3, d);
    assert RaceRun(s2, [c, d]) == RaceRun(s3, [d]);
    assert RaceRun(Race(g, [p]), [b, c, d]) == RaceRun(s2, [c, d]);
    assert StaleMove(s3, d) && SomeStaleMove(s3, [d]) && SomeStaleMove(s2, [c, d]);
    assert SomeStaleMove(Race(g, [p]), [b, c, d]);
  }

  ghost predicate KeepsRoot(events: seq<Event>) {
    forall i | 0 <= i < |events| :: !events[i].SetRoot?
  }

  /** Spend under a fixed root never goes down. */
  lemma SpendGrows(s: Budget, e: Event)
    requires Sound(s) && !e.SetRoot?
    ensures Sound(Step(s, e)) && Spent(s) <= Spent(Step(s, e))
  {
    StepSound(s, e);
    if e.Spend? && s.goal.rootTask.Some? && e.task in s.t {
      SpendReachesAncestors(s.t, s.n, e.task, e.tokens, e.cents, s.goal.rootTask.value);
    }
  }

  lemma AtLeastGrows(g: Goal, h: Goal, spent: int, more: int, limit: real)
    requires g.budgetCents == h.budgetCents && spent <= more && AtLeast(g, spent, limit)
    ensures AtLeast(h, more, limit)
  {
    var b := g.budgetCents.value as real;
    assert spent as real / b <= more as real / b by {
      var d := (more - spent) as real / b;
      assert d >= 0.0 && more as real / b == spent as real / b + d;
    }
  }

  /** Under a fixed root the outcome can be read off the final rollup: a run that
      ends with a check has posted the alert exactly once if by then the cents spent
      at and below the root task are at least 80% of the budget, and not at all if less. */
  lemma {:induction false} AlertFollowsRollup(s: Budget, events: seq<Event>)
    requires Sound(s) && KeepsRoot(events) && !s.goal.alertPosted
    requires events != [] && events[|events| - 1].Check?
    ensures var end := Run(s, events);
            && Sound(end)
            && Alerts(s, events) == if && end.goal.rootTask.Some?
                                       && Reaches(s.goal.budgetCents, RollupOf(end.t, end.n, end.goal.rootTask.value).cents, 80)
                                    then 1 else 0
  {
    AlertOnce(s, events);
    SeenStays(s, events);
    BudgetStays(s, events);
    var end := Run(s, events);
    AtLeastScaled(end.goal, Spent(end), 80);
  }

  lemma {:induction false} BudgetStays(s: Budget, events: seq<Event>)
    requires Sound(s)
    ensures Run(s, events).goal.budgetCents == s.goal.budgetCents
    decreases |events|
  {
    if events != [] {
      StepSound(s, events[0]);
      BudgetStays(Step(s, events[0]), events[1..]);
    }
  }

  lemma {:induction false} SeenStays(s: Budget, events: seq<Event>)
    requires Sound(s) && KeepsRoot(events) && events != [] && events[|events| - 1].Check?
    ensures var end := Run(s, events);
            Sound(end) && (SeesEighty(s, events) <==> AtLeast(end.goal, Spent(end), 80.0))
    decreases |events|
  {
    var u := Step(s, events[0]);
    SpendGrows(s, events[0]);
    StepSound(s, events[0]);
    if |events| == 1 {
      assert Run(u, events[1..]) == u;
      assert Spent(u) == Spent(s);
    } else {
      var rest := events[1..];
      SeenStays(u, rest);
      if AtLeast(s.goal, Spent(s), 80.0) {
        AtLeastGrows(s.goal, u.goal, Spent(s), Spent(u), 80.0);
        EndGrows(u, rest);
      }
    }
  }

  lemma {:induction false} EndGrows(s: Budget, events: seq<Event>)
    requires Sound(s) && KeepsRoot(events) && AtLeast(s.goal, Spent(s), 80.0)
    ensures var end := Run(s, events);
            Sound(end) && AtLeast(end.goal, Spent(end), 80.0)
    decreases |events|
  {
    if events != [] {
      var u := Step(s, events[0]);
      StepSound(s, events[0]);
      SpendGrows(s, events[0]);
      AtLeastGrows(s.goal, u.goal, Spent(s), Spent(u), 80.0);
      EndGrows(u, events[1..]);
    }
  }

  // ------------------------------------------------------- the service

  function ChannelName(slug: string): string {
    "goal-" + slug
  }

  /** The goal's channel exists, carries its slug, and is a private system channel. */
  ghost predicate Backed(g: Goal, s: Channels.State) {
    && g.channel in s.channels && s.channels[g.channel].name == ChannelName(g.slug)
    && s.channels[g.channel].isPrivate && s.channels[g.channel].isSystem
  }

  /** Slugs are slugs, no two goals share one, and each goal is backed by its channel. */
  ghost predicate Registered(goals: map<nat, Goal>, nextId: nat, s: Channels.State) {
    && (forall k | k in goals :: k < nextId)
    && (forall j, k | j in goals && k in goals && goals[j].slug == goals[k].slug :: j == k)
    && (forall k | k in goals :: IsSlug(goals[k].slug))
    && (forall k | k in goals :: Backed(goals[k], s))
  }

  /** A system channel is never deleted and never changes. */
  lemma SystemStays(s: Channels.State, call: Channels.Call, c: nat)
    requires Channels.Inv(s) && c in s.channels && s.channels[c].isSystem
    ensures var u := Channels.After(s, call);
            c in u.channels && u.channels[c] == s.channels[c]
  {
    Channels.CallKeepsInv(s, call);
    if call.EnsureMine? || call.JoinMine? || call.Create? {
      assert c < s.nextId;
    }
  }

  /** Whatever is done with the channels, every goal keeps its channel. */
  lemma {:induction false} ChannelsStay(goals: map<nat, Goal>, nextId: nat, s: Channels.State, calls: seq<Channels.Call>)
    requires Channels.Inv(s) && Registered(goals, nextId, s)
    ensures Registered(goals, nextId, Channels.Run(s, calls))
    decreases |calls|
  {
    if calls != [] {
      var u := Channels.After(s, calls[0]);
      Channels.CallKeepsInv(s, calls[0]);
      forall k | k in goals ensures Backed(goals[k], u) {
        assert Backed(goals[k], s);
        SystemStays(s, calls[0], goals[k].channel);
      }
      ChannelsStay(goals, nextId, u, calls[1..]);
    }
  }

  /** The call that creates the channel of a slug. */
  function ChannelCall(slug: string, ownerName: string): Channels.Call {
    Channels.Create(ChannelName(slug), Channels.Blackboard, true, true, ownerName)
  }

  lemma RegisterGoal(goals: map<nat, Goal>, nextId: nat, s: Channels.State, g: Goal, ownerName: string)
    requires Channels.Inv(s) && Registered(goals, nextId, s) && IsSlug(g.slug)
    requires Channels.Refusal(s, ChannelCall(g.slug, ownerName)).None? && g.channel == s.nextId
    ensures Registered(goals[nextId := g], nextId + 1, Channels.After(s, ChannelCall(g.slug, ownerName)))
    ensures forall k | k in goals :: goals[k].slug != g.slug
  {
    var call := ChannelCall(g.slug, ownerName);
    var u := Channels.After(s, call);
    GoalChannelName(g.slug);
    forall k | k in goals ensures goals[k].slug != g.slug && Backed(goals[k], u) {
      assert Backed(goals[k], s);
      SystemStays(s, call, goals[k].channel);
    }
    assert Backed(g, u);
  }

  /** Updates of a goal's working columns keep it registered. */
  lemma UpdateRegistered(goals: map<nat, Goal>, nextId: nat, s: Channels.State, id: nat, g: Goal)
    requires Registered(goals, nextId, s) && id in goals && g.slug == goals[id].slug && g.channel == goals[id].channel
    ensures Registered(goals[id := g], nextId, s)
  {
    forall k | k in goals ensures Backed(goals[id := g][k], s) {
      assert Backed(goals[k], s);
    }
  }

  datatype GoalInput = GoalInput(title: string, description: string, owner: nat, ownerName: string,
                                 coordinator: Option<nat>, budgetTokens: Option<int>, budgetCents: Option<int>,
                                 maxSpawnDepth: int)

  /** The row of a new goal. */
  function DraftGoal(inp: GoalInput, slug: string, channel: nat): Goal {
    Goal(slug, inp.title, inp.description, inp.owner, channel, inp.coordinator, None, Draft,
         inp.budgetTokens, inp.budgetCents, if inp.maxSpawnDepth <= 0 then 3 else inp.maxSpawnDepth,
         false, None, None, None)
  }

  /** The columns of a new goal are the caller's; it is a draft, three levels
      deep unless said otherwise, and nothing has happened to it. */
  ghost predicate IsDraftOf(g: Goal, inp: GoalInput, slug: string) {
    && g.slug == slug && g.title == inp.title && g.description == inp.description && g.owner == inp.owner
    && g.coordinator == inp.coordinator && g.budgetTokens == inp.budgetTokens && g.budgetCents == inp.budgetCents
    && (inp.maxSpawnDepth > 0 ==> g.maxSpawnDepth == inp.maxSpawnDepth)
    && (inp.maxSpawnDepth <= 0 ==> g.maxSpawnDepth == 3)
    && g.status == Draft && g.rootTask == None && !g.alertPosted
    && g.completedAt == None && g.summary == None && g.message == None
  }

  /** The channel behind a goal, column by column, with its creator as owner. */
  ghost predicate IsChannelOf(s: Channels.State, c: nat, slug: string, ownerName: string) {
    && c in s.channels
    && s.channels[c] == Channels.Channel("goal-" + slug, Channels.Blackboard, true, true, ownerName)
    && Channels.Seat(c, ownerName) in s.members && s.members[Channels.Seat(c, ownerName)] == Channels.Owner
  }

  lemma ChannelCallMakes(s: Channels.State, slug: string, ownerName: string)
    requires Channels.Inv(s) && IsSlug(slug) && Channels.Refusal(s, ChannelCall(slug, ownerName)).None?
    ensures IsChannelOf(Channels.After(s, ChannelCall(slug, ownerName)), s.nextId, slug, ownerName)
  {
    GoalChannelName(slug);
  }

  method FreeSlug(taken: set<string>, title: string, lower: char -> char) returns (slug: string, ghost at: nat)
    ensures FirstFree(taken, Slugified(title, lower), at)
    ensures slug == Candidate(Slugified(title, lower), at) && IsSlug(slug)
  {
    var base := Slugify(title, lower);
    slug, at := PickSlug(taken, base);
    CandidateIsSlug(base, at);
  }

  class Service {
    var goals: map<nat, Goal>
    var nextId: nat
    const chans: Channels.Service

    ghost predicate Valid()
      reads this, chans
    {
      Channels.Inv(chans.Now()) && Registered(goals, nextId, chans.Now())
    }

    ghost function Slugs(): set<string>
      reads this
    {
      set k | k in goals :: goals[k].slug
    }

    constructor (chans: Channels.Service)
      requires Channels.Inv(chans.Now())
      ensures this.chans == chans && Valid() && goals == map[]
    {
      this.chans := chans;
      goals, nextId := map[], 1;
    }

    /** Creates the channel, then the goal; refused only for the channel's name, and then nothing has changed. */
    method BackAndInsert(inp: GoalInput, slug: string) returns (r: Result<nat, GoalError>)
      requires Valid() && IsSlug(slug)
      modifies this, chans
      ensures Valid()
      ensures r.Err? ==> r.error == ChannelRefused
      ensures r.Err? ==> goals == old(goals) && nextId == old(nextId) && chans.Now() == old(chans.Now())
      ensures r.Err? <==> |slug| > 59 || Channels.NameTaken(old(chans.Now()), ChannelName(slug))
      ensures r.Ok? ==> slug !in old(Slugs()) && r.value == old(nextId) && nextId == old(nextId) + 1
      ensures r.Ok? ==> chans.Now() == Channels.After(old(chans.Now()), ChannelCall(slug, inp.ownerName))
      ensures r.Ok? ==> goals == old(goals)[old(nextId) := DraftGoal(inp, slug, old(chans.nextId))]
      ensures r.Ok? ==> IsChannelOf(chans.Now(), old(chans.nextId), slug, inp.ownerName)
    {
      GoalChannelName(slug);
      ghost var before := chans.Now();
      if Channels.Refusal(before, ChannelCall(slug, inp.ownerName)).None? {
        ChannelCallMakes(before, slug, inp.ownerName);
      }
      var channel := chans.CreateChannel(ChannelName(slug), Channels.Blackboard, true, true, inp.ownerName);
      if channel.Err? {
        return Err(ChannelRefused);
      }
      var goal := DraftGoal(inp, slug, channel.value);
      RegisterGoal(goals, nextId, before, goal, inp.ownerName);
      if exists k :: k in goals && goals[k].slug == slug {
        return Err(SlugTaken);
      }
      var id := nextId;
      goals, nextId := goals[id := goal], id + 1;
      return Ok(id);
    }

    /** A goal gets the first free slug for its title, draft status, and a new
        private system channel named after the slug. It is refused only for a
        missing text or for that channel's name, too long or taken; then nothing
        has changed. In particular no channel is left behind without a goal: when
        all ninety-nine slugs are taken, so is the channel name. */
    method CreateGoal(inp: GoalInput, lower: char -> char) returns (r: Result<nat, GoalError>, ghost at: nat)
      requires Valid()
      modifies this, chans
      ensures Valid()
      ensures r.Err? ==> goals == old(goals) && nextId == old(nextId) && chans.Now() == old(chans.Now())
      ensures r == Err(Incomplete) <==> inp.title == "" || inp.description == ""
      ensures r.Ok? || r == Err(Incomplete) || r == Err(ChannelRefused)
      ensures r != Err(Incomplete) ==> FirstFree(old(Slugs()), Slugified(inp.title, lower), at)
      ensures r != Err(Incomplete) ==>
                var slug := Candidate(Slugified(inp.title, lower), at);
                r == Err(ChannelRefused) <==> |slug| > 59 || Channels.NameTaken(old(chans.Now()), ChannelName(slug))
      ensures r.Ok? ==>
                var slug := Candidate(Slugified(inp.title, lower), at);
                && slug !in old(Slugs()) && r.value == old(nextId) && nextId == old(nextId) + 1
                && chans.Now() == Channels.After(old(chans.Now()), ChannelCall(slug, inp.ownerName))
                && goals == old(goals)[old(nextId) := DraftGoal(inp, slug, old(chans.nextId))]
                && IsDraftOf(goals[r.value], inp, slug)
                && IsChannelOf(chans.Now(), goals[r.value].channel, slug, inp.ownerName)
    {
      at := 1;
      if inp.title == "" || inp.description == "" {
        return Err(Incomplete), at;
      }
      var taken := set k | k in goals :: goals[k].slug;
      var slug;
      slug, at := FreeSlug(taken, inp.title, lower);
      r := BackAndInsert(inp, slug);
    }

    method SetStatus(id: nat, to: GoalStatus)
      requires id in goals
      modifies `goals
      ensures goals == old(goals)[id := old(goals)[id].(status := to)]
    {
      goals := goals[id := goals[id].(status := to)];
    }

    method TransitionStatus(id: nat, to: GoalStatus) returns (r: Result<(), GoalError>)
      requires Valid()
      modifies `goals
      ensures Valid()
      ensures goals == if id in old(goals) then old(goals)[id := Moved(old(goals)[id], to)] else old(goals)
      ensures r == if id !in old(goals) then Err(GoalNotFound)
                   else if LegalMove(old(goals)[id].status, to) then Ok(()) else Err(IllegalMove)
      ensures r.Ok? ==> goals == old(goals)[id := old(goals)[id].(status := to)]
      ensures r.Err? ==> goals == old(goals)
    {
      if id !in goals {
        return Err(GoalNotFound);
      }
      if !LegalMove(goals[id].status, to) {
        return Err(IllegalMove);
      }
      UpdateRegistered(goals, nextId, chans.Now(), id, goals[id].(status := to));
      SetStatus(id, to);
      return Ok(());
    }

    method Complete(id: nat, to: GoalStatus, summary: string, message: nat, now: int) returns (r: Result<(), GoalError>)
      requires Valid()
      modifies `goals
      ensures Valid()
      ensures goals == if id in old(goals) then old(goals)[id := Finished(old(goals)[id], to, summary, message, now)]
                       else old(goals)
      ensures r == if id !in old(goals) then Err(GoalNotFound)
                   else if old(goals)[id].status == to || LegalMove(old(goals)[id].status, to) then Ok(())
                   else Err(IllegalMove)
      ensures r.Err? || old(goals)[id].status == to ==> goals == old(goals)
      ensures r.Ok? && old(goals)[id].status != to ==>
                && goals.Keys == old(goals).Keys && (forall k | k in goals && k != id :: goals[k] == old(goals)[k])
                && CompletedAs(old(goals)[id], goals[id], to, summary, message, now)
    {
      if id !in goals {
        return Err(GoalNotFound);
      }
      var g := goals[id];
      FinishedAs(g, to, summary, message, now);
      if g.status == to {
        return Ok(());
      }
      if !LegalMove(g.status, to) {
        return Err(IllegalMove);
      }
      var completedAt := if to in {Completed, Stuck, GoalStatus.Cancelled} then Some(now) else None;
      UpdateRegistered(goals, nextId, chans.Now(), id, Finished(g, to, summary, message, now));
      goals := goals[id := g.(status := to, summary := Some(summary), message := Some(message),
                              completedAt := if completedAt.Some? then completedAt else g.completedAt)];
      return Ok(());
    }

    /** Reads only: what a check would do about the spend it is given. */
    method EvaluateBudget(id: nat, spent: int) returns (r: Result<Verdict, GoalError>)
      ensures r == if id in goals then Ok(VerdictOn(goals[id], spent)) else Err(GoalNotFound)
      ensures r.Ok? ==> VerdictIs(goals[id], spent, r.value)
    {
      if id !in goals {
        return Err(GoalNotFound);
      }
      var g := goals[id];
      VerdictExactly(g, spent);
      if g.budgetCents.None? || g.budgetCents.value <= 0 {
        return Ok(Verdict(0.0, false, false));
      }
      var percent := spent as real / g.budgetCents.value as real * 100.0;
      var soft, hard := false, false;
      if percent >= 80.0 && !g.alertPosted {
        soft := true;
      }
      if percent >= 100.0 && g.status == Active {
        hard := true;
      }
      return Ok(Verdict(percent, soft, hard));
    }

    method MarkSoftAlertPosted(id: nat)
      requires Valid()
      modifies `goals
      ensures Valid()
      ensures goals == if id in old(goals) then old(goals)[id := old(goals)[id].(alertPosted := true)] else old(goals)
    {
      if id in goals {
        UpdateRegistered(goals, nextId, chans.Now(), id, goals[id].(alertPosted := true));
        goals := goals[id := goals[id].(alertPosted := true)];
      }
    }

    /** The check the verdict is meant for: evaluate, then apply with the two setters. */
    method CheckBudget(id: nat, spent: int) returns (alert: bool)
      requires Valid() && id in goals
      modifies `goals
      ensures Valid()
      ensures goals == old(goals)[id := Applied(old(goals)[id], spent)]
      ensures alert <==> VerdictOn(old(goals)[id], spent).softAlert
      ensures CheckedAs(old(goals)[id], goals[id], spent, alert)
    {
      ghost var g := goals[id];
      var verdict := EvaluateBudget(id, spent);
      alert := verdict.value.softAlert;
      if alert {
        MarkSoftAlertPosted(id);
      }
      if verdict.value.hardPause {
        var moved := TransitionStatus(id, Paused);
      }
      assert goals[id] == Applied(g, spent);
      AppliedExactly(g, spent);
    }
  }

  /** A slug's channel name matches the pattern and is stored as it is; only its length can be refused. */
  lemma GoalChannelName(slug: string)
    requires IsSlug(slug)
    ensures Channels.ValidName("goal-" + slug) <==> |slug| <= 59
    ensures Channels.Lower("goal-" + slug) == "goal-" + slug
  {
    var name := "goal-" + slug;
    CandidateIsSlug(slug, 1);
    forall i | 0 <= i < |name| ensures Channels.LowerChar(name[i]) == name[i] {
      if i >= 5 {
        assert name[i] == slug[i - 5] && IsSlugChar(slug[i - 5]);
      }
    }
  }
}
