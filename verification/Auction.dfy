/** The task auction of internal/channels: posting, bidding, accepting, completing, expiring. */
module Auction {
  import opened Common

  datatype TaskStatus = Open | Assigned | Completed | Cancelled

  datatype BidStatus = Pending | Accepted | Rejected

  /** `assignedTo` is empty while nobody is assigned. */
  datatype AuctionTask = AuctionTask(channel: nat, postedBy: string, title: string, description: string,
                                     requirements: string, deadline: Option<int>, status: TaskStatus, assignedTo: string)

  datatype Bid = Bid(task: nat, agent: string, capabilities: string, timeEstimate: string, message: string, status: BidStatus)

  /** The tasks and task_bids tables with their id counters. */
  datatype State = State(tasks: map<nat, AuctionTask>, bids: map<nat, Bid>, nextTask: nat, nextBid: nat)

  /** What the channel store answers at the time of a call. */
  datatype Channels = Channels(known: set<nat>, auction: set<nat>, members: set<(nat, string)>)

  datatype Failure =
    | ChannelNotFound | NotAuctionChannel | NotMember | DeadlinePassed
    | TaskNotFound | TaskNotOpen | OwnTask | AlreadyBid
    | NotPoster | BidNotFound | OtherTasksBid | TaskNotAssigned | NotAssignee

  datatype Call =
    | Post(channel: nat, agent: string, title: string, description: string, requirements: string, deadline: Option<int>, now: int)
    | PlaceBid(task: nat, agent: string, capabilities: string, timeEstimate: string, message: string)
    | Accept(task: nat, bid: nat, agent: string)
    | Complete(task: nat, agent: string)
    | Expire(now: int)
    | CancelChannel(channel: nat)

  function OrBraces(s: string): string {
    if s == "" then "{}" else s
  }

  predicate HasBid(s: State, task: nat, agent: string) {
    exists b :: b in s.bids && s.bids[b].task == task && s.bids[b].agent == agent
  }

  /** Why a call is refused, if it is. */
  function Refusal(s: State, ch: Channels, c: Call): Option<Failure> {
    match c
    case Post(channel, agent, _, _, _, deadline, now) =>
      if channel !in ch.known then Some(ChannelNotFound)
      else if channel !in ch.auction then Some(NotAuctionChannel)
      else if (channel, agent) !in ch.members then Some(NotMember)
      else if deadline.Some? && deadline.value < now then Some(DeadlinePassed)
      else None
    case PlaceBid(task, agent, _, _, _) =>
      if task !in s.tasks then Some(TaskNotFound)
      else if !s.tasks[task].status.Open? then Some(TaskNotOpen)
      else if s.tasks[task].postedBy == agent then Some(OwnTask)
      else if (s.tasks[task].channel, agent) !in ch.members then Some(NotMember)
      else if HasBid(s, task, agent) then Some(AlreadyBid)
      else None
    case Accept(task, bid, agent) =>
      if task !in s.tasks then Some(TaskNotFound)
      else if s.tasks[task].postedBy != agent then Some(NotPoster)
      else if !s.tasks[task].status.Open? then Some(TaskNotOpen)
      else if bid !in s.bids then Some(BidNotFound)
      else if s.bids[bid].task != task then Some(OtherTasksBid)
      else None
    case Complete(task, agent) =>
      if task !in s.tasks then Some(TaskNotFound)
      else if s.tasks[task].status.Completed? && s.tasks[task].assignedTo == agent then None
      else if !s.tasks[task].status.Assigned? then Some(TaskNotAssigned)
      else if s.tasks[task].assignedTo != agent then Some(NotAssignee)
      else None
    case _ => None
  }

  function Expirable(tasks: map<nat, AuctionTask>, now: int): set<nat> {
    set k | k in tasks && tasks[k].status.Open? && tasks[k].deadline.Some? && tasks[k].deadline.value < now
  }

  function OpenIn(tasks: map<nat, AuctionTask>, channel: nat): set<nat> {
    set k | k in tasks && tasks[k].status.Open? && tasks[k].channel == channel
  }

  function CancelAll(tasks: map<nat, AuctionTask>, ids: set<nat>): map<nat, AuctionTask> {
    map k | k in tasks :: if k in ids then tasks[k].(status := Cancelled) else tasks[k]
  }

  /** The given bid accepted and, among the task's other bids in `others`, the pending ones rejected. */
  function Decide(bids: map<nat, Bid>, task: nat, winner: nat, others: set<nat>): map<nat, Bid> {
    map b | b in bids ::
      if b == winner then bids[b].(status := Accepted)
      else if b in others && bids[b].task == task && bids[b].status.Pending? then bids[b].(status := Rejected)
      else bids[b]
  }

  function BidsOf(bids: map<nat, Bid>, task: nat): set<nat> {
    set b | b in bids && bids[b].task == task
  }

  /** The tables after a call that nothing interrupts. */
  function After(s: State, ch: Channels, c: Call): State {
    if Refusal(s, ch, c).Some? then s
    else match c
      case Post(channel, agent, title, description, requirements, deadline, _) =>
        s.(tasks := s.tasks[s.nextTask := AuctionTask(channel, agent, title, description, OrBraces(requirements), deadline, Open, "")],
           nextTask := s.nextTask + 1)
      case PlaceBid(task, agent, capabilities, timeEstimate, message) =>
        s.(bids := s.bids[s.nextBid := Bid(task, agent, OrBraces(capabilities), timeEstimate, message, Pending)],
           nextBid := s.nextBid + 1)
      case Accept(task, bid, _) =>
        s.(tasks := s.tasks[task := s.tasks[task].(status := Assigned,
                                                   assignedTo := if s.bids[bid].agent != "" then s.bids[bid].agent
                                                                 else s.tasks[task].assignedTo)],
           bids := Decide(s.bids, task, bid, BidsOf(s.bids, task)))
      case Complete(task, _) => s.(tasks := s.tasks[task := s.tasks[task].(status := Completed)])
      case Expire(now) => s.(tasks := CancelAll(s.tasks, Expirable(s.tasks, now)))
      case CancelChannel(channel) => s.(tasks := CancelAll(s.tasks, OpenIn(s.tasks, channel)))
  }

  // ------------------------------------------------------- the invariant

  ghost predicate WellKeyed(s: State) {
    && (forall k | k in s.tasks :: k < s.nextTask)
    && (forall b | b in s.bids :: b < s.nextBid)
  }

  /** A bid is on a known task, not the bidder's own, and the bidder's only one there. */
  ghost predicate BidFair(s: State, b: nat)
    requires b in s.bids
  {
    && s.bids[b].task in s.tasks
    && s.bids[b].agent != s.tasks[s.bids[b].task].postedBy
    && (forall c | c in s.bids && s.bids[c].task == s.bids[b].task && s.bids[c].agent == s.bids[b].agent :: c == b)
  }

  /** `w` is the one accepted bid of task `k`: its agent is the assignee and all other bids are rejected. */
  ghost predicate WonBy(s: State, k: nat, w: nat)
    requires k in s.tasks
  {
    && w in s.bids && s.bids[w].task == k && s.bids[w].status.Accepted?
    && s.bids[w].agent == s.tasks[k].assignedTo
    && (forall b | b in s.bids && s.bids[b].task == k && b != w :: s.bids[b].status.Rejected?)
  }

  ghost predicate Settled(s: State, k: nat)
    requires k in s.tasks
  {
    match s.tasks[k].status
    case Open => Undecided(s, k)
    case Cancelled => Undecided(s, k)
    case Assigned => exists w :: WonBy(s, k, w)
    case Completed => exists w :: WonBy(s, k, w)
  }

  /** Nobody is assigned and every bid is still pending. */
  ghost predicate Undecided(s: State, k: nat)
    requires k in s.tasks
  {
    s.tasks[k].assignedTo == "" && forall b | b in s.bids && s.bids[b].task == k :: s.bids[b].status.Pending?
  }

  ghost predicate Inv(s: State) {
    && WellKeyed(s)
    && (forall b {:trigger BidFair(s, b)} | b in s.bids :: BidFair(s, b))
    && (forall k {:trigger Settled(s, k)} | k in s.tasks :: Settled(s, k))
  }

  /** The only ways a status may change. */
  predicate Moves(from: TaskStatus, to: TaskStatus) {
    from == to || (from.Open? && (to.Assigned? || to.Cancelled?)) || (from.Assigned? && to.Completed?)
  }

  /** One call later: tasks and bids are all still there, statuses moved
      legally, posters never change, and an assignment made earlier still stands. */
  ghost predicate Follows(s: State, u: State) {
    && (forall k | k in s.tasks ::
          && k in u.tasks
          && u.tasks[k].postedBy == s.tasks[k].postedBy && u.tasks[k].deadline == s.tasks[k].deadline
          && (s.tasks[k].status.Assigned? || s.tasks[k].status.Completed? ==> u.tasks[k].assignedTo == s.tasks[k].assignedTo))
    && (forall b | b in s.bids ::
          && b in u.bids && u.bids[b].task == s.bids[b].task && u.bids[b].agent == s.bids[b].agent
          && (!s.bids[b].status.Pending? ==> u.bids[b].status == s.bids[b].status))
  }

  lemma CallKeepsInv(s: State, ch: Channels, c: Call)
    requires Inv(s)
    ensures Inv(After(s, ch, c))
    ensures Follows(s, After(s, ch, c))
    ensures forall k | k in s.tasks :: Moves(s.tasks[k].status, After(s, ch, c).tasks[k].status)
  {
    if Refusal(s, ch, c).None? {
      CallStaysFair(s, ch, c);
      CallFollows(s, ch, c);
      var u := After(s, ch, c);
      forall k | k in u.tasks ensures Settled(u, k) {
        CallSettles(s, ch, c, k);
      }
    }
  }

  lemma CallFollows(s: State, ch: Channels, c: Call)
    requires Inv(s) && Refusal(s, ch, c).None?
    ensures Follows(s, After(s, ch, c))
    ensures forall k | k in s.tasks :: Moves(s.tasks[k].status, After(s, ch, c).tasks[k].status)
  {
    if c.Accept? {
      assert Settled(s, c.task);
    }
  }

  lemma CallStaysFair(s: State, ch: Channels, c: Call)
    requires Inv(s) && Refusal(s, ch, c).None?
    ensures WellKeyed(After(s, ch, c))
    ensures forall b {:trigger BidFair(After(s, ch, c), b)} | b in After(s, ch, c).bids :: BidFair(After(s, ch, c), b)
  {
    var u := After(s, ch, c);
    if c.PlaceBid? {
      forall b | b in s.bids ensures u.bids[b] == s.bids[b] && BidFair(s, b)
                                     && (s.bids[b].task == c.task ==> s.bids[b].agent != c.agent) {
        assert BidFair(s, b);
      }
    }
    forall b | b in u.bids ensures BidFair(u, b) {
      if b in s.bids {
        assert BidFair(s, b);
      }
    }
  }

  lemma CallSettles(s: State, ch: Channels, c: Call, k: nat)
    requires Inv(s) && Refusal(s, ch, c).None? && k in After(s, ch, c).tasks
    ensures Settled(After(s, ch, c), k)
  {
    var u := After(s, ch, c);
    if k in s.tasks {
      assert Settled(s, k);
      if c.Accept? && c.task == k {
        assert Undecided(s, k);
        assert WonBy(u, k, c.bid);
      } else if s.tasks[k].status.Assigned? || s.tasks[k].status.Completed? {
        var w :| WonBy(s, k, w);
        assert WonBy(u, k, w);
      } else {
        assert Undecided(u, k);
      }
    } else {
      forall b | b in u.bids ensures u.bids[b].task != k {
        assert BidFair(s, b);
      }
    }
  }

  // ------------------------------------------------------- whole runs

  function Run(s: State, calls: seq<(Channels, Call)>): State
    decreases |calls|
  {
    if calls == [] then s else Run(After(s, calls[0].0, calls[0].1), calls[1..])
  }

  ghost predicate Reaches(from: TaskStatus, to: TaskStatus) {
    Moves(from, to) || (from.Open? && to.Completed?)
  }

  /** Over every run of serialized calls: the auction stays settled, statuses
      only go open, assigned, completed or open, cancelled, what was assigned or
      decided stays so, and no bid or task disappears. */
  lemma {:induction false} RunKeepsInv(s: State, calls: seq<(Channels, Call)>)
    requires Inv(s)
    ensures Inv(Run(s, calls)) && Follows(s, Run(s, calls))
    ensures forall k | k in s.tasks :: Reaches(s.tasks[k].status, Run(s, calls).tasks[k].status)
    decreases |calls|
  {
    if calls != [] {
      var u := After(s, calls[0].0, calls[0].1);
      CallKeepsInv(s, calls[0].0, calls[0].1);
      RunKeepsInv(u, calls[1..]);
    }
  }

  // ------------------------------------------------------- who may do what

  /** Who may make a call: posting and bidding is for members of the channel, a
      post not past its deadline, one bid an agent and none on one's own task;
      accepting is for the poster of an open task, among its own bids; completing
      is for the assignee. */
  ghost predicate Allowed(s: State, ch: Channels, c: Call) {
    match c
    case Post(channel, agent, _, _, _, deadline, now) =>
      && channel in ch.known && channel in ch.auction && (channel, agent) in ch.members
      && (deadline == None || now <= deadline.value)
    case PlaceBid(task, agent, _, _, _) =>
      && task in s.tasks && s.tasks[task].status == Open && (s.tasks[task].channel, agent) in ch.members
      && agent != s.tasks[task].postedBy
      && (forall b | b in s.bids && s.bids[b].task == task :: s.bids[b].agent != agent)
    case Accept(task, bid, agent) =>
      && task in s.tasks && s.tasks[task].status == Open && agent == s.tasks[task].postedBy
      && bid in s.bids && s.bids[bid].task == task
    case Complete(task, agent) =>
      && task in s.tasks && agent == s.tasks[task].assignedTo
      && (s.tasks[task].status == Assigned || s.tasks[task].status == Completed)
    case Expire(_) => true
    case CancelChannel(_) => true
  }

  /** The reason a refusal gives is true. */
  ghost predicate Reason(s: State, ch: Channels, c: Call, e: Failure) {
    match c
    case Post(channel, agent, _, _, _, deadline, now) =>
      (match e
       case ChannelNotFound => channel !in ch.known
       case NotAuctionChannel => channel in ch.known && channel !in ch.auction
       case NotMember => (channel, agent) !in ch.members
       case DeadlinePassed => deadline != None && deadline.value < now
       case _ => false)
    case PlaceBid(task, agent, _, _, _) =>
      (match e
       case TaskNotFound => task !in s.tasks
       case TaskNotOpen => task in s.tasks && s.tasks[task].status != Open
       case OwnTask => task in s.tasks && agent == s.tasks[task].postedBy
       case NotMember => task in s.tasks && (s.tasks[task].channel, agent) !in ch.members
       case AlreadyBid => exists b :: b in s.bids && s.bids[b].task == task && s.bids[b].agent == agent
       case _ => false)
    case Accept(task, bid, agent) =>
      (match e
       case TaskNotFound => task !in s.tasks
       case NotPoster => task in s.tasks && agent != s.tasks[task].postedBy
       case TaskNotOpen => task in s.tasks && s.tasks[task].status != Open
       case BidNotFound => bid !in s.bids
       case OtherTasksBid => bid in s.bids && s.bids[bid].task != task
       case _ => false)
    case Complete(task, agent) =>
      (match e
       case TaskNotFound => task !in s.tasks
       case TaskNotAssigned => task in s.tasks && s.tasks[task].status != Assigned
       case NotAssignee => task in s.tasks && agent != s.tasks[task].assignedTo
       case _ => false)
    case Expire(_) => false
    case CancelChannel(_) => false
  }

  /** A call is refused exactly if it is not allowed, and then for a true reason. */
  lemma RefusedUnlessAllowed(s: State, ch: Channels, c: Call)
    ensures Refusal(s, ch, c).None? <==> Allowed(s, ch, c)
    ensures Refusal(s, ch, c).Some? ==> Reason(s, ch, c, Refusal(s, ch, c).value)
  {
  }

  /** Between `s` and `u` task `k` has been assigned to the agent of bid `b`, that
      bid accepted, the task's other pending bids rejected, and nothing else done. */
  ghost predicate GivenTo(s: State, u: State, k: nat, b: nat)
    requires k in s.tasks && b in s.bids
  {
    && u.tasks.Keys == s.tasks.Keys && (forall j | j in s.tasks && j != k :: u.tasks[j] == s.tasks[j])
    && u.tasks[k] == s.tasks[k].(status := Assigned, assignedTo := u.tasks[k].assignedTo)
    && (s.bids[b].agent != "" ==> u.tasks[k].assignedTo == s.bids[b].agent)
    && u.bids.Keys == s.bids.Keys && u.bids[b] == s.bids[b].(status := Accepted)
    && (forall d | d in s.bids && d != b && s.bids[d].task == k && s.bids[d].status == Pending ::
          u.bids[d] == s.bids[d].(status := Rejected))
    && (forall d | d in s.bids && d != b && !(s.bids[d].task == k && s.bids[d].status == Pending) ::
          u.bids[d] == s.bids[d])
  }

  lemma AcceptGives(s: State, ch: Channels, k: nat, b: nat, agent: string)
    requires Refusal(s, ch, Accept(k, b, agent)).None?
    ensures GivenTo(s, After(s, ch, Accept(k, b, agent)), k, b)
  {
  }

  /** What one call can do to a task or bid, and whose call it has to be: only the
      poster's accept assigns, and to the bidder; only the assignee's call
      completes; only expiry past the deadline or the end of the channel cancels;
      tasks and bids come from members of the channel. */
  lemma WhoseCall(s: State, ch: Channels, c: Call, k: nat)
    requires Inv(s) && k in After(s, ch, c).tasks
    ensures var u := After(s, ch, c);
            && (k !in s.tasks ==> c.Post? && (c.channel, c.agent) in ch.members && u.tasks[k].postedBy == c.agent
                                  && u.tasks[k].channel == c.channel && u.tasks[k].status == Open)
            && (k in s.tasks && s.tasks[k].status == Open && u.tasks[k].status == Assigned ==>
                  && c.Accept? && c.task == k && c.agent == s.tasks[k].postedBy
                  && c.bid in s.bids && s.bids[c.bid].task == k
                  && (s.bids[c.bid].agent != "" ==> u.tasks[k].assignedTo == s.bids[c.bid].agent))
            && (k in s.tasks && s.tasks[k].status == Assigned && u.tasks[k].status == Completed ==>
                  c.Complete? && c.task == k && c.agent == s.tasks[k].assignedTo)
            && (k in s.tasks && s.tasks[k].status == Open && u.tasks[k].status == Cancelled ==>
                  || (c.Expire? && s.tasks[k].deadline != None && s.tasks[k].deadline.value < c.now)
                  || (c.CancelChannel? && c.channel == s.tasks[k].channel))
    ensures forall b | b in After(s, ch, c).bids && b !in s.bids ::
              var bid := After(s, ch, c).bids[b];
              && c.PlaceBid? && bid.task == c.task && bid.agent == c.agent && bid.status == Pending
              && c.task in s.tasks && (s.tasks[c.task].channel, c.agent) in ch.members
  {
    CallKeepsInv(s, ch, c);
  }

  /** Some call of the run is an accept of task `k` by `poster`. */
  ghost predicate AcceptedBy(calls: seq<(Channels, Call)>, k: nat, poster: string) {
    exists i :: 0 <= i < |calls| && calls[i].1.Accept? && calls[i].1.task == k && calls[i].1.agent == poster
  }

  /** Over every run, nobody but its poster gives a task away. */
  lemma {:induction false} OnlyPosterAssigns(s: State, calls: seq<(Channels, Call)>, k: nat)
    requires Inv(s) && k in s.tasks && s.tasks[k].status == Open
    ensures k in Run(s, calls).tasks
    ensures Run(s, calls).tasks[k].status == Assigned || Run(s, calls).tasks[k].status == Completed ==>
              AcceptedBy(calls, k, s.tasks[k].postedBy)
    decreases |calls|
  {
    if calls != [] {
      var ch, c := calls[0].0, calls[0].1;
      var u := After(s, ch, c);
      CallKeepsInv(s, ch, c);
      WhoseCall(s, ch, c, k);
      RunKeepsInv(u, calls[1..]);
      if u.tasks[k].status == Open {
        OnlyPosterAssigns(u, calls[1..], k);
        if AcceptedBy(calls[1..], k, s.tasks[k].postedBy) {
          var i :| 0 <= i < |calls[1..]| && calls[1..][i].1.Accept? && calls[1..][i].1.task == k
                   && calls[1..][i].1.agent == s.tasks[k].postedBy;
          assert calls[i + 1] == calls[1..][i];
        }
      } else if u.tasks[k].status == Assigned {
        assert calls[0].1.Accept?;
      }
    }
  }

  /** What the invariant says of one task at the end of a run that began empty. */
  lemma AuctionOutcome(calls: seq<(Channels, Call)>, k: nat) returns (w: nat)
    requires k in Run(State(map[], map[], 1, 1), calls).tasks
    ensures var s := Run(State(map[], map[], 1, 1), calls);
            var task := s.tasks[k];
            if task.status.Open? || task.status.Cancelled?
            then task.assignedTo == "" && forall b | b in s.bids && s.bids[b].task == k :: s.bids[b].status.Pending?
            else && w in s.bids && s.bids[w].task == k && s.bids[w].status.Accepted?
                 && task.assignedTo == s.bids[w].agent && task.assignedTo != task.postedBy
                 && forall b | b in s.bids && s.bids[b].task == k && b != w ::
                      s.bids[b].status.Rejected? && s.bids[b].agent != task.assignedTo
  {
    var s := Run(State(map[], map[], 1, 1), calls);
    RunKeepsInv(State(map[], map[], 1, 1), calls);
    assert Settled(s, k);
    w := 0;
    if !(s.tasks[k].status.Open? || s.tasks[k].status.Cancelled?) {
      w :| WonBy(s, k, w);
      assert BidFair(s, w);
      forall b | b in s.bids && s.bids[b].task == k && b != w
        ensures s.bids[b].status.Rejected? && s.bids[b].agent != s.tasks[k].assignedTo
      {
        assert BidFair(s, b);
      }
    }
  }

  /** Cancelling open tasks, however many of them, keeps the auction settled. */
  lemma CancelKeepsInv(s: State, ids: set<nat>)
    requires Inv(s) && forall k | k in ids :: k in s.tasks && s.tasks[k].status.Open?
    ensures Inv(s.(tasks := CancelAll(s.tasks, ids)))
  {
    var u := s.(tasks := CancelAll(s.tasks, ids));
    forall b | b in u.bids ensures BidFair(u, b) {
      assert BidFair(s, b);
    }
    forall k | k in u.tasks ensures Settled(u, k) {
      assert Settled(s, k);
      if s.tasks[k].status.Assigned? || s.tasks[k].status.Completed? {
        var w :| WonBy(s, k, w);
        assert WonBy(u, k, w);
      } else {
        assert Undecided(s, k) && Undecided(u, k);
      }
    }
  }

  // ------------------------------------------------------- overlapping calls

  /** A call whose reads and checks are done and whose writes are still to come. */
  datatype InFlight =
    | BidWrites(task: nat, agent: string, capabilities: string, timeEstimate: string, message: string)
    | AcceptWrites(task: nat, bid: nat)
    | CompleteWrites(task: nat)

  datatype System = System(s: State, pending: seq<InFlight>)

  /** The checks of a call, the writes of one that has passed them, or a single
      statement: a new task, or an UPDATE that cancels those of some tasks that
      are open, as the expiry batches and the deletion of a channel do. */
  datatype Event =
    | Check(ch: Channels, call: Call)
    | Land(index: nat)
    | PostOne(ch: Channels, call: Call)
    | CancelOpen(ids: set<nat>)

  function OpenAmong(tasks: map<nat, AuctionTask>, ids: set<nat>): set<nat> {
    set k | k in ids && k in tasks && tasks[k].status.Open?
  }

  /** What a call leaves to be written once its checks have passed. A second bid
      of the same agent is not among the checks: the INSERT refuses it. */
  function Checked(s: State, ch: Channels, c: Call): Option<InFlight> {
    match c
    case PlaceBid(task, agent, capabilities, timeEstimate, message) =>
      if Refusal(s, ch, c).None? || Refusal(s, ch, c).value.AlreadyBid?
      then Some(BidWrites(task, agent, OrBraces(capabilities), timeEstimate, message)) else None
    case Accept(task, bid, _) => if Refusal(s, ch, c).None? then Some(AcceptWrites(task, bid)) else None
    case Complete(task, _) =>
      if Refusal(s, ch, c).None? && s.tasks[task].status.Assigned? then Some(CompleteWrites(task)) else None
    case _ => None
  }

  /** The pending call is about rows that exist, as no row is ever deleted. */
  predicate Grounded(s: State, p: InFlight) {
    && p.task in s.tasks
    && match p
       case BidWrites(task, agent, _, _, _) => agent != s.tasks[task].postedBy
       case AcceptWrites(task, bid) => bid in s.bids && s.bids[bid].task == task
       case CompleteWrites(task) => s.tasks[task].status.Assigned? || s.tasks[task].status.Completed?
  }

  /** The writes, whatever the tables look like by now. */
  function Landed(s: State, p: InFlight): State
    requires Grounded(s, p)
  {
    match p
    case BidWrites(task, agent, capabilities, timeEstimate, message) =>
      if HasBid(s, task, agent) then s
      else s.(bids := s.bids[s.nextBid := Bid(task, agent, capabilities, timeEstimate, message, Pending)],
              nextBid := s.nextBid + 1)
    case AcceptWrites(task, bid) =>
      s.(tasks := s.tasks[task := s.tasks[task].(status := Assigned,
                                                 assignedTo := if s.bids[bid].agent != "" then s.bids[bid].agent
                                                               else s.tasks[task].assignedTo)],
         bids := Decide(s.bids, task, bid, BidsOf(s.bids, task)))
    case CompleteWrites(task) => s.(tasks := s.tasks[task := s.tasks[task].(status := Completed)])
  }

  ghost predicate AllGrounded(y: System) {
    forall i {:trigger y.pending[i]} | 0 <= i < |y.pending| :: Grounded(y.s, y.pending[i])
  }

  function Step(y: System, e: Event): System
    requires AllGrounded(y)
  {
    match e
    case Check(ch, c) =>
      var p := Checked(y.s, ch, c);
      if p.Some? then y.(pending := y.pending + [p.value]) else y
    case Land(i) =>
      if i >= |y.pending| then y
      else System(Landed(y.s, y.pending[i]), y.pending[..i] + y.pending[i + 1..])
    case PostOne(ch, c) => if c.Post? then y.(s := After(y.s, ch, c)) else y
    case CancelOpen(ids) => y.(s := y.s.(tasks := CancelAll(y.s.tasks, OpenAmong(y.s.tasks, ids))))
  }

  /** With nothing in between, checks and writes make up the whole call. */
  lemma CheckThenLand(s: State, ch: Channels, c: Call)
    requires c.PlaceBid? || c.Accept? || c.Complete?
    ensures var p := Checked(s, ch, c);
            && (p.Some? ==> Grounded(s, p.value))
            && After(s, ch, c) == if p.Some? then Landed(s, p.value) else s
  {
    if c.Complete? && c.task in s.tasks && s.tasks[c.task].status.Completed? {
      assert s.tasks[c.task].(status := Completed) == s.tasks[c.task];
      assert s.tasks[c.task := s.tasks[c.task]] == s.tasks;
    }
  }

  /** The writes come too late: a bid for a task that has a winner, or an accept
      for a task that is neither open nor already given to the very same bid. */
  predicate Stale(s: State, p: InFlight)
    requires Grounded(s, p)
  {
    match p
    case BidWrites(task, agent, _, _, _) =>
      !HasBid(s, task, agent) && (s.tasks[task].status.Assigned? || s.tasks[task].status.Completed?)
    case AcceptWrites(task, bid) =>
      !s.tasks[task].status.Open? && !(s.tasks[task].status.Assigned? && s.bids[bid].status.Accepted?)
    case CompleteWrites(_) => false
  }

  predicate StaleLanding(y: System, e: Event)
    requires AllGrounded(y)
  {
    e.Land? && e.index < |y.pending| && Stale(y.s, y.pending[e.index])
  }

  /** Settled, and every status where it may have gone from `s`. */
  ghost predicate GoneWell(s: State, u: State) {
    Inv(u) && forall k | k in s.tasks :: k in u.tasks && Moves(s.tasks[k].status, u.tasks[k].status)
  }

  /** Writes about task `k` leave every other task as it was decided. */
  lemma OthersStaySettled(s: State, u: State, k: nat)
    requires Inv(s)
    requires forall j | j in s.tasks && j != k :: j in u.tasks && u.tasks[j] == s.tasks[j]
    requires forall b | b in s.bids && s.bids[b].task != k :: b in u.bids && u.bids[b] == s.bids[b]
    requires forall b | b in u.bids && u.bids[b].task != k :: b in s.bids && u.bids[b] == s.bids[b]
    ensures forall j {:trigger Settled(u, j)} | j in s.tasks && j != k :: Settled(u, j)
  {
    forall j | j in s.tasks && j != k ensures Settled(u, j) {
      assert Settled(s, j);
      if s.tasks[j].status.Assigned? || s.tasks[j].status.Completed? {
        var w :| WonBy(s, j, w);
        assert WonBy(u, j, w);
      } else {
        assert Undecided(u, j);
      }
    }
  }

  lemma LandedBid(s: State, p: InFlight)
    requires Inv(s) && p.BidWrites? && Grounded(s, p)
    ensures GoneWell(s, Landed(s, p)) <==> !Stale(s, p)
  {
    var u := Landed(s, p);
    var k := p.task;
    if !HasBid(s, k, p.agent) {
      forall b | b in u.bids ensures BidFair(u, b) {
        if b in s.bids {
          assert BidFair(s, b);
        }
      }
      OthersStaySettled(s, u, k);
      assert Settled(s, k);
      if Stale(s, p) {
        assert u.bids[s.nextBid].status.Pending? && u.bids[s.nextBid].task == k;
        assert !Settled(u, k) by {
          assert forall w :: !WonBy(u, k, w);
        }
      } else {
        assert Undecided(u, k);
      }
    }
  }

  lemma LandedAccept(s: State, p: InFlight)
    requires Inv(s) && p.AcceptWrites? && Grounded(s, p)
    ensures GoneWell(s, Landed(s, p)) <==> !Stale(s, p)
  {
    var u, k, bid := Landed(s, p), p.task, p.bid;
    forall b | b in u.bids ensures BidFair(u, b) {
      assert BidFair(s, b);
    }
    OthersStaySettled(s, u, k);
    WinnerAfterAccept(s, p);
    assert u.tasks.Keys == s.tasks.Keys && WellKeyed(u);
  }

  /** Who wins the task when an accept lands on it. */
  lemma WinnerAfterAccept(s: State, p: InFlight)
    requires Inv(s) && p.AcceptWrites? && Grounded(s, p)
    ensures s.tasks[p.task].status.Open? ==> Settled(Landed(s, p), p.task)
    ensures s.tasks[p.task].status.Assigned? ==> (Settled(Landed(s, p), p.task) <==> s.bids[p.bid].status.Accepted?)
  {
    var u, k, bid := Landed(s, p), p.task, p.bid;
    assert Settled(s, k);
    if s.tasks[k].status.Open? {
      assert Undecided(s, k) && WonBy(u, k, bid);
    } else if s.tasks[k].status.Assigned? {
      var w :| WonBy(s, k, w);
      if w == bid {
        assert WonBy(u, k, w);
      } else {
        assert u.bids[w].status.Accepted? && u.bids[bid].status.Accepted?;
        assert forall v :: WonBy(u, k, v) ==> v == w && v == bid;
      }
    }
  }

  lemma LandedComplete(s: State, p: InFlight)
    requires Inv(s) && p.CompleteWrites? && Grounded(s, p)
    ensures GoneWell(s, Landed(s, p))
  {
    var u, k := Landed(s, p), p.task;
    forall b | b in u.bids ensures BidFair(u, b) {
      assert BidFair(s, b);
    }
    OthersStaySettled(s, u, k);
    assert Settled(s, k);
    var w :| WonBy(s, k, w);
    assert WonBy(u, k, w);
  }

  /** Tasks and bids stay, with posters and agents, and a task with a winner never reopens. */
  ghost predicate Grows(s: State, u: State) {
    && (forall k | k in s.tasks ::
          && k in u.tasks && u.tasks[k].postedBy == s.tasks[k].postedBy
          && (s.tasks[k].status.Assigned? || s.tasks[k].status.Completed? ==>
                u.tasks[k].status.Assigned? || u.tasks[k].status.Completed?))
    && (forall b | b in s.bids :: b in u.bids && u.bids[b].task == s.bids[b].task)
  }

  lemma StaysGrounded(s: State, u: State, p: InFlight)
    requires Grounded(s, p) && Grows(s, u)
    ensures Grounded(u, p)
  {
  }

  lemma StepGrows(y: System, e: Event)
    requires AllGrounded(y) && WellKeyed(y.s)
    ensures Grows(y.s, Step(y, e).s) && WellKeyed(Step(y, e).s)
  {
    if e.Land? && e.index < |y.pending| {
      LandedGrows(y.s, y.pending[e.index]);
    }
  }

  lemma LandedGrows(s: State, p: InFlight)
    requires Grounded(s, p) && WellKeyed(s)
    ensures Grows(s, Landed(s, p)) && WellKeyed(Landed(s, p))
  {
  }

  lemma StepGrounded(y: System, e: Event)
    requires AllGrounded(y) && WellKeyed(y.s)
    ensures AllGrounded(Step(y, e)) && WellKeyed(Step(y, e).s)
  {
    var z := Step(y, e);
    StepGrows(y, e);
    forall i | 0 <= i < |z.pending| ensures Grounded(z.s, z.pending[i]) {
      if e.Check? && i == |y.pending| {
        assert z.pending[i] == Checked(y.s, e.ch, e.call).value;
      } else {
        var was := if e.Land? && e.index < |y.pending| && i >= e.index then i + 1 else i;
        assert z.pending[i] == y.pending[was];
        StaysGrounded(y.s, z.s, y.pending[was]);
      }
    }
  }

  /** One step: the auction stays settled and moves legally, exactly if the step is no stale landing. */
  lemma StepGoesWell(y: System, e: Event)
    requires Inv(y.s) && AllGrounded(y)
    ensures GoneWell(y.s, Step(y, e).s) <==> !StaleLanding(y, e)
  {
    match e {
      case Check(ch, c) =>
      case Land(i) =>
        if i < |y.pending| {
          var p := y.pending[i];
          match p {
            case BidWrites(_, _, _, _, _) => LandedBid(y.s, p);
            case AcceptWrites(_, _) => LandedAccept(y.s, p);
            case CompleteWrites(_) => LandedComplete(y.s, p);
          }
        }
      case PostOne(ch, c) =>
        if c.Post? {
          CallKeepsInv(y.s, ch, c);
        }
      case CancelOpen(ids) => CancelKeepsInv(y.s, OpenAmong(y.s.tasks, ids));
    }
  }

  ghost predicate AlwaysGoesWell(y: System, events: seq<Event>)
    requires AllGrounded(y) && WellKeyed(y.s)
    decreases |events|
  {
    events != [] ==>
      && GoneWell(y.s, Step(y, events[0]).s)
      && (StepGrounded(y, events[0]);
          AlwaysGoesWell(Step(y, events[0]), events[1..]))
  }

  ghost predicate SomeStaleLanding(y: System, events: seq<Event>)
    requires AllGrounded(y) && WellKeyed(y.s)
    decreases |events|
  {
    events != []
    && (|| StaleLanding(y, events[0])
        || (StepGrounded(y, events[0]);
            SomeStaleLanding(Step(y, events[0]), events[1..])))
  }

  /** Over every run of overlapping calls, expiry batches among them: the auction
      is settled and moves legally throughout, exactly if no bid or accept lands stale. */
  lemma {:induction false} SettledExactly(y: System, events: seq<Event>)
    requires Inv(y.s) && AllGrounded(y)
    ensures AlwaysGoesWell(y, events) <==> !SomeStaleLanding(y, events)
    decreases |events|
  {
    if events != [] {
      StepGrounded(y, events[0]);
      StepGoesWell(y, events[0]);
      if !StaleLanding(y, events[0]) {
        SettledExactly(Step(y, events[0]), events[1..]);
      }
    }
  }

  /** Two accepts that both found the task open leave it with two accepted bids. */
  lemma TwoWinners(s: State, ch: Channels, k: nat, a: nat, b: nat)
    requires Inv(s) && k in s.tasks && s.tasks[k].status.Open?
    requires a in s.bids && b in s.bids && a != b && s.bids[a].task == k && s.bids[b].task == k
    ensures var p, q := AcceptWrites(k, a), AcceptWrites(k, b);
            && Checked(s, ch, Accept(k, a, s.tasks[k].postedBy)) == Some(p)
            && Checked(s, ch, Accept(k, b, s.tasks[k].postedBy)) == Some(q)
            && var u := Landed(Landed(s, p), q);
               && u.tasks[k].status.Assigned? && u.bids[a].status.Accepted? && u.bids[b].status.Accepted?
               && !Settled(u, k)
  {
    var u := Landed(Landed(s, AcceptWrites(k, a)), AcceptWrites(k, b));
    assert u.bids[a].status.Accepted? && u.bids[b].status.Accepted?;
    assert forall w :: WonBy(u, k, w) ==> w == a && w == b;
  }

  /** An accept that found the task open assigns it even if it has expired in between. */
  lemma ExpiredButAssigned(s: State, ch: Channels, k: nat, b: nat)
    requires Inv(s) && k in s.tasks && s.tasks[k].status.Open? && b in s.bids && s.bids[b].task == k
    ensures var p := AcceptWrites(k, b);
            && Checked(s, ch, Accept(k, b, s.tasks[k].postedBy)) == Some(p)
            && var u := s.(tasks := CancelAll(s.tasks, {k}));
               && u.tasks[k].status.Cancelled? && Grounded(u, p) && Landed(u, p).tasks[k].status.Assigned?
  {
  }

  // ------------------------------------------------------- the service

  lemma DecideNone(bids: map<nat, Bid>, task: nat, winner: nat)
    requires winner in bids && bids[winner].task == task
    ensures Decide(bids, task, winner, {}) == bids[winner := bids[winner].(status := Accepted)]
    ensures BidsOf(bids[winner := bids[winner].(status := Accepted)], task) == BidsOf(bids, task)
  {
  }

  /** Rejecting one more of the others. */
  lemma DecideOne(bids: map<nat, Bid>, task: nat, winner: nat, done: set<nat>, b: nat)
    requires b in BidsOf(bids, task) && b !in done
    ensures var now := Decide(bids, task, winner, done);
            Decide(bids, task, winner, done + {b})
            == if b != winner && now[b].status.Pending? then now[b := now[b].(status := Rejected)] else now
  {
  }

  const EXPIRE_BATCH: nat := 500

  lemma SubsetSize(a: set<nat>, b: set<nat>)
    requires a <= b
    ensures |a| <= |b| && (|a| == |b| ==> a == b) && |b - a| == |b| - |a|
  {
    assert b == a + (b - a);
  }

  /** `gone`, all due at `now`, has been cancelled so far and counted. */
  ghost predicate PartlyExpired(before: map<nat, AuctionTask>, now: int, gone: set<nat>, tasks: map<nat, AuctionTask>, total: nat) {
    && gone <= Expirable(before, now)
    && tasks == CancelAll(before, gone)
    && Expirable(tasks, now) == Expirable(before, now) - gone
    && total == |gone|
  }

  /** Row by row: nothing but open tasks with a deadline before `now` has been
      cancelled, and every one of them if `all`. */
  ghost predicate OnlyDueCancelled(before: map<nat, AuctionTask>, tasks: map<nat, AuctionTask>, now: int, all: bool) {
    && tasks.Keys == before.Keys
    && forall k | k in before ::
         if before[k].status == Open && before[k].deadline != None && before[k].deadline.value < now
         then tasks[k] == before[k].(status := Cancelled) || (!all && tasks[k] == before[k])
         else tasks[k] == before[k]
  }

  lemma CancelsOnlyDue(before: map<nat, AuctionTask>, now: int, gone: set<nat>, all: bool)
    requires gone <= Expirable(before, now) && (all ==> gone == Expirable(before, now))
    ensures OnlyDueCancelled(before, CancelAll(before, gone), now, all)
  {
  }

  lemma NothingExpired(before: map<nat, AuctionTask>, now: int)
    ensures PartlyExpired(before, now, {}, before, 0)
  {
  }

  /** One batch on top of what is already cancelled. */
  lemma ExpireBatch(before: map<nat, AuctionTask>, now: int, gone: set<nat>, tasks: map<nat, AuctionTask>, total: nat,
                    batch: set<nat>)
    requires PartlyExpired(before, now, gone, tasks, total) && batch <= Expirable(tasks, now)
    ensures PartlyExpired(before, now, gone + batch, CancelAll(tasks, batch), total + |batch|)
    ensures |Expirable(CancelAll(tasks, batch), now)| == |Expirable(tasks, now)| - |batch|
    ensures |batch| == |Expirable(tasks, now)| ==> gone + batch == Expirable(before, now)
  {
    CancelTwice(before, gone, batch);
    CancelledNotDue(tasks, now, batch);
    BatchOf(Expirable(before, now), gone, batch);
  }

  lemma BatchOf(due: set<nat>, gone: set<nat>, batch: set<nat>)
    requires gone <= due && batch <= due - gone
    ensures gone + batch <= due && due - (gone + batch) == (due - gone) - batch
    ensures |gone + batch| == |gone| + |batch| && |(due - gone) - batch| == |due - gone| - |batch|
    ensures |batch| == |due - gone| ==> gone + batch == due
  {
    SubsetSize(batch, due - gone);
    assert gone !! batch;
  }

  lemma CancelTwice(tasks: map<nat, AuctionTask>, a: set<nat>, b: set<nat>)
    ensures CancelAll(CancelAll(tasks, a), b) == CancelAll(tasks, a + b)
  {
  }

  lemma CancelledNotDue(tasks: map<nat, AuctionTask>, now: int, batch: set<nat>)
    ensures Expirable(CancelAll(tasks, batch), now) == Expirable(tasks, now) - batch
  {
  }

  class SwarmService {
    var tasks: map<nat, AuctionTask>
    var bids: map<nat, Bid>
    var nextTask: nat
    var nextBid: nat

    ghost function Now(): State
      reads this
    {
      State(tasks, bids, nextTask, nextBid)
    }

    constructor ()
      ensures Now() == State(map[], map[], 1, 1)
    {
      tasks, bids, nextTask, nextBid := map[], map[], 1, 1;
    }

    method PostTask(ch: Channels, channel: nat, agent: string, title: string, description: string,
                    requirements: string, deadline: Option<int>, now: int) returns (r: Result<nat, Failure>)
      requires Inv(Now())
      modifies this
      ensures var c := Post(channel, agent, title, description, requirements, deadline, now);
              && Now() == After(old(Now()), ch, c) && Inv(Now())
              && r == (match Refusal(old(Now()), ch, c) case Some(e) => Err(e) case None => Ok(old(nextTask)))
      ensures r.Ok? <==> && channel in ch.known && channel in ch.auction && (channel, agent) in ch.members
                         && (deadline == None || now <= deadline.value)
      ensures r.Err? ==> Now() == old(Now())
      ensures r.Ok? ==>
                && r.value !in old(tasks) && bids == old(bids)
                && tasks == old(tasks)[r.value := AuctionTask(channel, agent, title, description,
                              if requirements == "" then "{}" else requirements, deadline, Open, "")]
    {
      CallKeepsInv(Now(), ch, Post(channel, agent, title, description, requirements, deadline, now));
      if channel !in ch.known {
        return Err(ChannelNotFound);
      }
      if channel !in ch.auction {
        return Err(NotAuctionChannel);
      }
      if (channel, agent) !in ch.members {
        return Err(NotMember);
      }
      if deadline.Some? && deadline.value < now {
        return Err(DeadlinePassed);
      }
      var reqs := if requirements == "" then "{}" else requirements;
      var id := nextTask;
      tasks := tasks[id := AuctionTask(channel, agent, title, description, reqs, deadline, Open, "")];
      nextTask := id + 1;
      return Ok(id);
    }

    method BidOnTask(ch: Channels, task: nat, agent: string, capabilities: string, timeEstimate: string, message: string)
      returns (r: Result<nat, Failure>)
      requires Inv(Now())
      modifies this
      ensures var c := PlaceBid(task, agent, capabilities, timeEstimate, message);
              && Now() == After(old(Now()), ch, c) && Inv(Now())
              && r == (match Refusal(old(Now()), ch, c) case Some(e) => Err(e) case None => Ok(old(nextBid)))
      ensures r.Ok? <==> Allowed(old(Now()), ch, PlaceBid(task, agent, capabilities, timeEstimate, message))
      ensures r.Err? ==> Now() == old(Now())
      ensures r.Ok? ==>
                && r.value !in old(bids) && tasks == old(tasks)
                && bids == old(bids)[r.value := Bid(task, agent, if capabilities == "" then "{}" else capabilities,
                                                    timeEstimate, message, Pending)]
    {
      CallKeepsInv(Now(), ch, PlaceBid(task, agent, capabilities, timeEstimate, message));
      RefusedUnlessAllowed(Now(), ch, PlaceBid(task, agent, capabilities, timeEstimate, message));
      if task !in tasks {
        return Err(TaskNotFound);
      }
      if tasks[task].status != Open {
        return Err(TaskNotOpen);
      }
      if tasks[task].postedBy == agent {
        return Err(OwnTask);
      }
      if (tasks[task].channel, agent) !in ch.members {
        return Err(NotMember);
      }
      var caps := if capabilities == "" then "{}" else capabilities;
      if exists b :: b in bids && bids[b].task == task && bids[b].agent == agent {
        return Err(AlreadyBid);
      }
      var id := nextBid;
      bids := bids[id := Bid(task, agent, caps, timeEstimate, message, Pending)];
      nextBid := id + 1;
      return Ok(id);
    }

    method UpdateTaskStatus(id: nat, status: TaskStatus, assignedTo: string)
      requires id in tasks
      modifies `tasks
      ensures tasks == old(tasks)[id := old(tasks)[id].(status := status,
                assignedTo := if assignedTo != "" then assignedTo else old(tasks)[id].assignedTo)]
    {
      if assignedTo != "" {
        tasks := tasks[id := tasks[id].(status := status, assignedTo := assignedTo)];
      } else {
        tasks := tasks[id := tasks[id].(status := status)];
      }
    }

    /** Assigns the task, accepts the bid, then rejects the others one by one in any order. */
    method AcceptBid(ch: Channels, task: nat, bid: nat, agent: string) returns (r: Result<(), Failure>)
      requires Inv(Now())
      modifies this
      ensures Now() == After(old(Now()), ch, Accept(task, bid, agent)) && Inv(Now())
      ensures r == (match Refusal(old(Now()), ch, Accept(task, bid, agent)) case Some(e) => Err(e) case None => Ok(()))
      ensures r.Ok? <==> && task in old(tasks) && old(tasks)[task].postedBy == agent && old(tasks)[task].status == Open
                         && bid in old(bids) && old(bids)[bid].task == task
      ensures r.Err? ==> Now() == old(Now())
      ensures r.Ok? ==> GivenTo(old(Now()), Now(), task, bid)
    {
      CallKeepsInv(Now(), ch, Accept(task, bid, agent));
      if task !in tasks {
        return Err(TaskNotFound);
      }
      if tasks[task].postedBy != agent {
        return Err(NotPoster);
      }
      if tasks[task].status != Open {
        return Err(TaskNotOpen);
      }
      if bid !in bids {
        return Err(BidNotFound);
      }
      if bids[bid].task != task {
        return Err(OtherTasksBid);
      }
      ghost var before := bids;
      UpdateTaskStatus(task, Assigned, bids[bid].agent);
      ghost var given := tasks;
      bids := bids[bid := bids[bid].(status := Accepted)];
      var all := BidsOf(bids, task);
      DecideNone(before, task, bid);
      var todo := all;
      while todo != {}
        invariant todo <= all
        invariant bids == Decide(before, task, bid, all - todo)
        invariant tasks == given && nextTask == old(nextTask) && nextBid == old(nextBid)
      {
        var b :| b in todo;
        DecideOne(before, task, bid, all - todo, b);
        assert all - (todo - {b}) == (all - todo) + {b};
        todo := todo - {b};
        if b != bid && bids[b].status == Pending {
          bids := bids[b := bids[b].(status := Rejected)];
        }
      }
      assert all - todo == BidsOf(before, task);
      assert Now() == After(old(Now()), ch, Accept(task, bid, agent));
      AcceptGives(old(Now()), ch, task, bid, agent);
      return Ok(());
    }

    method CompleteTask(ch: Channels, task: nat, agent: string) returns (r: Result<(), Failure>)
      requires Inv(Now())
      modifies this
      ensures Now() == After(old(Now()), ch, Complete(task, agent)) && Inv(Now())
      ensures r == (match Refusal(old(Now()), ch, Complete(task, agent)) case Some(e) => Err(e) case None => Ok(()))
      ensures r.Ok? <==> && task in old(tasks) && old(tasks)[task].assignedTo == agent
                         && (old(tasks)[task].status == Assigned || old(tasks)[task].status == Completed)
      ensures r.Err? ==> Now() == old(Now())
      ensures r.Ok? ==> bids == old(bids) && tasks == old(tasks)[task := old(tasks)[task].(status := Completed)]
    {
      CallKeepsInv(Now(), ch, Complete(task, agent));
      if task !in tasks {
        return Err(TaskNotFound);
      }
      if tasks[task].status == Completed && tasks[task].assignedTo == agent {
        assert tasks[task].(status := Completed) == tasks[task];
        assert tasks[task := tasks[task]] == tasks;
        return Ok(());
      }
      if tasks[task].status != Assigned {
        return Err(TaskNotAssigned);
      }
      if tasks[task].assignedTo != agent {
        return Err(NotAssignee);
      }
      UpdateTaskStatus(task, Completed, "");
      return Ok(());
    }

    /** At most `EXPIRE_BATCH` rows of the subquery, whichever the database picks. */
    method PickBatch(eligible: set<nat>) returns (batch: set<nat>)
      ensures batch <= eligible
      ensures |batch| == if |eligible| < EXPIRE_BATCH then |eligible| else EXPIRE_BATCH
      ensures |batch| <= 500
    {
      batch := {};
      while |batch| < EXPIRE_BATCH && batch != eligible
        invariant batch <= eligible && |batch| <= EXPIRE_BATCH && |batch| <= |eligible|
        decreases |eligible| - |batch|
      {
        SubsetSize(batch, eligible);
        var rest := eligible - batch;
        assert rest != {};
        var k :| k in rest;
        SubsetSize(batch + {k}, eligible);
        batch := batch + {k};
      }
      SubsetSize(batch, eligible);
    }

    /** The batched loop. If it finishes, it has cancelled exactly the rows one
        unbounded UPDATE would, and returns their number. If the context ends it
        between batches, the total counts the rows cancelled so far, all of them
        due, and every other row is as it was. */
    method ExpireRows(now: int, contextEnded: nat -> bool) returns (total: nat, finished: bool, ghost gone: set<nat>)
      modifies `tasks
      ensures gone <= Expirable(old(tasks), now) && tasks == CancelAll(old(tasks), gone) && total == |gone|
      ensures finished ==> gone == Expirable(old(tasks), now)
      ensures OnlyDueCancelled(old(tasks), tasks, now, finished)
      ensures (forall round :: !contextEnded(round)) ==> finished
    {
      ghost var before := tasks;
      NothingExpired(before, now);
      gone, total, finished := {}, 0, true;
      if Expirable(tasks, now) == {} {
        CancelsOnlyDue(before, now, gone, true);
        return;
      }
      var round := 0;
      while true
        invariant PartlyExpired(before, now, gone, tasks, total)
        decreases |Expirable(tasks, now)|
      {
        if contextEnded(round) {
          CancelsOnlyDue(before, now, gone, false);
          finished := false;
          return;
        }
        var batch := PickBatch(Expirable(tasks, now));
        ExpireBatch(before, now, gone, tasks, total, batch);
        tasks := CancelAll(tasks, batch);
        gone := gone + batch;
        var affected := |batch|;
        total := total + affected;
        if affected < EXPIRE_BATCH {
          CancelsOnlyDue(before, now, gone, true);
          return;
        }
        round := round + 1;
      }
    }

    /** The worker's call: an interrupted run reports no count, but still leaves a settled auction. */
    method ExpireTasks(now: int, contextEnded: nat -> bool) returns (r: Result<nat, ()>)
      requires Inv(Now())
      modifies `tasks
      ensures Inv(Now())
      ensures r.Ok? ==> Now() == After(old(Now()), Channels({}, {}, {}), Expire(now))
      ensures r.Ok? ==> r.value == |Expirable(old(tasks), now)|
      ensures exists gone :: gone <= Expirable(old(tasks), now) && tasks == CancelAll(old(tasks), gone)
      ensures OnlyDueCancelled(old(tasks), tasks, now, r.Ok?)
      ensures (forall round :: !contextEnded(round)) ==> r.Ok?
    {
      ghost var start := Now();
      var total, finished, gone := ExpireRows(now, contextEnded);
      CancelKeepsInv(start, gone);
      return if finished then Ok(total) else Err(());
    }

    method CancelTasksByChannel(channel: nat) returns (affected: nat)
      requires Inv(Now())
      modifies `tasks
      ensures Now() == After(old(Now()), Channels({}, {}, {}), CancelChannel(channel)) && Inv(Now())
      ensures affected == |OpenIn(old(tasks), channel)|
      ensures tasks.Keys == old(tasks).Keys
      ensures forall k | k in old(tasks) ::
                tasks[k] == if old(tasks)[k].channel == channel && old(tasks)[k].status == Open
                            then old(tasks)[k].(status := Cancelled) else old(tasks)[k]
    {
      CallKeepsInv(Now(), Channels({}, {}, {}), CancelChannel(channel));
      var open := OpenIn(tasks, channel);
      tasks := CancelAll(tasks, open);
      affected := |open|;
    }
  }
}
