/** Every interleaving of the event hub's calls: internal/api/sse_handler.go.
    Adding, removing and closing hold the write lock. A broadcast holds only the
    read lock, so broadcasts interleave send by send; a client takes at any time. */
module SseRuns {
  import opened Common
  import opened SseHub

  /** A broadcast under way: its event and the channels it has yet to offer it to. */
  datatype Casting = Casting(event: Event, todo: set<nat>)

  /** The hub and the broadcasts that hold the read lock, in the order they took it. */
  datatype System = System(hub: State, casts: seq<Casting>)

  /** `Begin` broadcasts to one owner, or to all if it names none. */
  datatype Step =
    | Whole(call: Call)
    | Begin(to: Option<int>, event: Event)
    | Send(index: nat, ch: nat)
    | Done(index: nat)

  // ------------------------------------------------------- steps

  predicate Awaits(casts: seq<Casting>, i: nat, ch: nat) {
    i < |casts| && ch in casts[i].todo
  }

  /** Writers wait for all broadcasts; the broadcasts themselves are not whole calls. */
  predicate Enabled(s: System, e: Step) {
    match e
    case Whole(call) => call.Take? || ((call.Add? || call.Remove? || call.Close?) && s.casts == [])
    case Begin(_, _) => true
    case Send(i, ch) => Awaits(s.casts, i, ch)
    case Done(i) => i < |s.casts| && s.casts[i].todo == {}
  }

  function Audience(h: State, to: Option<int>): set<nat> {
    if to.Some? then Of(h.clients, to.value) else Registered(h)
  }

  /** A step that is not enabled does nothing. */
  function Next(s: System, e: Step): System {
    if !Enabled(s, e) then s
    else match e
      case Whole(call) => s.(hub := After(s.hub, call))
      case Begin(to, event) => s.(casts := s.casts + [Casting(event, Audience(s.hub, to))])
      case Send(i, ch) =>
        System(s.hub.(chans := SentTo(s.hub.chans, {ch}, s.casts[i].event)),
               s.casts[i := s.casts[i].(todo := s.casts[i].todo - {ch})])
      case Done(i) => s.(casts := s.casts[..i] + s.casts[i + 1..])
  }

  function End(s: System, run: seq<Step>): System {
    if run == [] then s else Next(End(s, run[..|run| - 1]), run[|run| - 1])
  }

  /** A sound hub, and broadcasts that only await registered channels. */
  ghost predicate Sound(s: System) {
    && Inv(s.hub)
    && forall i, ch: nat {:trigger Awaits(s.casts, i, ch)} | Awaits(s.casts, i, ch) :: ch in Registered(s.hub)
  }

  /** One send of a broadcast. */
  lemma SendKeepsSound(s: System, i: nat, ch: nat)
    requires Sound(s) && Awaits(s.casts, i, ch)
    ensures Sound(Next(s, Send(i, ch)))
  {
    var t := Next(s, Send(i, ch));
    RegisteredOpen(s.hub, ch);
    assert t.hub.clients == s.hub.clients;
    forall j, d: nat | Awaits(t.casts, j, d) ensures d in Registered(t.hub) {
      assert Awaits(s.casts, j, d);
    }
    forall o, d: nat | Owns(t.hub.clients, o, d) ensures d < |t.hub.chans| && !t.hub.chans[d].closed {
      assert Owns(s.hub.clients, o, d);
    }
    assert forall o, d: nat :: Owns(t.hub.clients, o, d) == Owns(s.hub.clients, o, d);
  }

  lemma StepKeepsSound(s: System, e: Step)
    requires Sound(s)
    ensures Sound(Next(s, e))
  {
    if Enabled(s, e) {
      var t := Next(s, e);
      match e {
        case Whole(call) =>
          CallKeepsInv(s.hub, call);
          if call.Take? {
            assert t.hub.clients == s.hub.clients && t.casts == s.casts;
            assert Registered(t.hub) == Registered(s.hub);
            forall i, ch: nat | Awaits(t.casts, i, ch) ensures ch in Registered(t.hub) {
              assert Awaits(s.casts, i, ch);
            }
          }
        case Begin(to, event) =>
          forall i, ch: nat | Awaits(t.casts, i, ch) ensures ch in Registered(t.hub) {
            if i == |s.casts| {
              InRegistered(s.hub, ch);
              assert to.Some? ==> Owns(s.hub.clients, to.value, ch);
            } else {
              assert Awaits(s.casts, i, ch);
            }
          }
        case Send(i, ch) => SendKeepsSound(s, i, ch);
        case Done(i) =>
          forall j: nat, ch: nat | Awaits(t.casts, j, ch) ensures ch in Registered(t.hub) {
            assert Awaits(s.casts, if j < i then j else j + 1, ch);
          }
      }
    }
  }

  /** Over every interleaving: registered channels are open and have one owner,
      no owner is left with an empty set, no buffer is over capacity, and what a
      broadcast has yet to send to is registered. */
  lemma {:induction false} RunKeepsSound(s: System, run: seq<Step>)
    requires Sound(s)
    ensures Sound(End(s, run))
    ensures forall ch | 0 <= ch < |End(s, run).hub.chans| :: |End(s, run).hub.chans[ch].buf| <= 32
    decreases |run|
  {
    if run != [] {
      RunKeepsSound(s, run[..|run| - 1]);
      StepKeepsSound(End(s, run[..|run| - 1]), run[|run| - 1]);
    }
  }

  // ------------------------------------------------------- closing

  function ClosedBy(s: System, e: Step): set<nat> {
    if e.Whole? && Enabled(s, e) then Closes(s.hub, e.call) else {}
  }

  function SentToBy(s: System, e: Step): set<nat> {
    if e.Send? && Enabled(s, e) then {e.ch} else {}
  }

  function TimesClosed(s: System, run: seq<Step>, ch: nat): nat {
    if run == [] then 0
    else
      var before := run[..|run| - 1];
      TimesClosed(s, before, ch) + if ch in ClosedBy(End(s, before), run[|run| - 1]) then 1 else 0
  }

  function TimesSentTo(s: System, run: seq<Step>, ch: nat): nat {
    if run == [] then 0
    else
      var before := run[..|run| - 1];
      TimesSentTo(s, before, ch) + if ch in SentToBy(End(s, before), run[|run| - 1]) then 1 else 0
  }

  predicate IsClosed(s: System, ch: nat) {
    ch < |s.hub.chans| && s.hub.chans[ch].closed
  }

  /** What is sent to or closed is open, and what is closed stays so. */
  lemma StepAndClosing(s: System, e: Step, ch: nat)
    requires Sound(s)
    ensures ch in ClosedBy(s, e) || ch in SentToBy(s, e) ==> !IsClosed(s, ch)
    ensures IsClosed(Next(s, e), ch) <==> IsClosed(s, ch) || ch in ClosedBy(s, e)
  {
    if e.Whole? && Enabled(s, e) {
      ChansGrow(s.hub, e.call);
      if ch < |After(s.hub, e.call).chans| {
        ClosedAfter(s.hub, e.call, ch);
      }
      if ch in Closes(s.hub, e.call) {
        ClosesOpen(s.hub, e.call, ch);
      }
    } else if e.Send? && Enabled(s, e) {
      RegisteredOpen(s.hub, e.ch);
    }
  }

  /** Over every interleaving a closed channel is neither closed again nor sent to. */
  lemma {:induction false} ClosedIsLeftAlone(s: System, run: seq<Step>, ch: nat)
    requires Sound(s) && IsClosed(s, ch)
    ensures TimesClosed(s, run, ch) == 0 && TimesSentTo(s, run, ch) == 0 && IsClosed(End(s, run), ch)
    decreases |run|
  {
    if run != [] {
      ClosedIsLeftAlone(s, run[..|run| - 1], ch);
      RunKeepsSound(s, run[..|run| - 1]);
      StepAndClosing(End(s, run[..|run| - 1]), run[|run| - 1], ch);
    }
  }

  /** Over every interleaving no channel is closed twice, and one that was closed is closed at the end. */
  lemma {:induction false} ClosedAtMostOnce(s: System, run: seq<Step>, ch: nat)
    requires Sound(s)
    ensures TimesClosed(s, run, ch) <= 1
    ensures IsClosed(End(s, run), ch) <==> IsClosed(s, ch) || TimesClosed(s, run, ch) == 1
    decreases |run|
  {
    if run != [] {
      ClosedAtMostOnce(s, run[..|run| - 1], ch);
      RunKeepsSound(s, run[..|run| - 1]);
      StepAndClosing(End(s, run[..|run| - 1]), run[|run| - 1], ch);
    }
  }

  // ------------------------------------------------------- what one channel sees

  /** What is still to be taken off a channel. */
  function Waiting(h: State, ch: nat): seq<Event> {
    if ch < |h.chans| then h.chans[ch].buf else []
  }

  function TakenBy(s: System, e: Step, ch: nat): seq<Event> {
    if e == Whole(Take(ch)) && Waiting(s.hub, ch) != [] then [Waiting(s.hub, ch)[0]] else []
  }

  function SentBy(s: System, e: Step, ch: nat): seq<Event> {
    if e.Send? && Enabled(s, e) && e.ch == ch then [s.casts[e.index].event] else []
  }

  function AcceptedBy(s: System, e: Step, ch: nat): seq<Event> {
    if |Waiting(s.hub, ch)| < CAPACITY then SentBy(s, e, ch) else []
  }

  /** The events a client has taken over a run, in order. */
  function Received(s: System, run: seq<Step>, ch: nat): seq<Event> {
    if run == [] then []
    else Received(s, run[..|run| - 1], ch) + TakenBy(End(s, run[..|run| - 1]), run[|run| - 1], ch)
  }

  /** The events sent to the channel, in the order of the sends. */
  function Sent(s: System, run: seq<Step>, ch: nat): seq<Event> {
    if run == [] then []
    else Sent(s, run[..|run| - 1], ch) + SentBy(End(s, run[..|run| - 1]), run[|run| - 1], ch)
  }

  /** Those of them that found room. */
  function Accepted(s: System, run: seq<Step>, ch: nat): seq<Event> {
    if run == [] then []
    else Accepted(s, run[..|run| - 1], ch) + AcceptedBy(End(s, run[..|run| - 1]), run[|run| - 1], ch)
  }

  lemma StepBuffer(s: System, e: Step, ch: nat)
    requires Sound(s)
    ensures TakenBy(s, e, ch) + Waiting(Next(s, e).hub, ch) == Waiting(s.hub, ch) + AcceptedBy(s, e, ch)
  {
    var buf := Waiting(s.hub, ch);
    if e == Whole(Take(ch)) && buf != [] {
      assert [buf[0]] + buf[1..] == buf;
    } else if e.Send? && Enabled(s, e) {
      RegisteredOpen(s.hub, e.ch);
    } else if e.Whole? && Enabled(s, e) {
      ChansGrow(s.hub, e.call);
      assert Waiting(After(s.hub, e.call), ch) == buf;
    }
  }

  /** First in, first out, and nothing invented: what a client has received,
      followed by what still waits for it, is what waited at the start followed
      by the sends that found room. */
  lemma {:induction false} Fifo(s: System, run: seq<Step>, ch: nat)
    requires Sound(s)
    ensures Received(s, run, ch) + Waiting(End(s, run).hub, ch) == Waiting(s.hub, ch) + Accepted(s, run, ch)
    decreases |run|
  {
    if run != [] {
      var before, e := run[..|run| - 1], run[|run| - 1];
      var mid := End(s, before);
      Fifo(s, before, ch);
      RunKeepsSound(s, before);
      StepBuffer(mid, e, ch);
      Append(Received(s, before, ch), TakenBy(mid, e, ch), Waiting(Next(mid, e).hub, ch), Waiting(mid.hub, ch),
             AcceptedBy(mid, e, ch), Waiting(s.hub, ch), Accepted(s, before, ch));
    }
  }

  lemma Append(received: seq<Event>, taken: seq<Event>, end: seq<Event>, mid: seq<Event>, more: seq<Event>,
               start: seq<Event>, accepted: seq<Event>)
    requires received + mid == start + accepted && taken + end == mid + more
    ensures (received + taken) + end == start + (accepted + more)
  {
    calc {
      (received + taken) + end;
      received + (taken + end);
      (received + mid) + more;
      start + (accepted + more);
    }
  }

  /** `a` is what is left of `b` after striking out some of its elements. */
  ghost predicate Subsequence(a: seq<Event>, b: seq<Event>)
    decreases |b|
  {
    if a == [] then true
    else if b == [] then false
    else
      || (a[|a| - 1] == b[|b| - 1] && Subsequence(a[..|a| - 1], b[..|b| - 1]))
      || Subsequence(a, b[..|b| - 1])
  }

  lemma SubsequenceGrows(a: seq<Event>, b: seq<Event>, e: Event)
    requires Subsequence(a, b)
    ensures Subsequence(a, b + [e]) && Subsequence(a + [e], b + [e])
  {
    assert (b + [e])[..|b|] == b && (a + [e])[..|a|] == a;
  }

  /** Whole sends are lost, none is reordered. */
  lemma {:induction false} AcceptedInOrder(s: System, run: seq<Step>, ch: nat)
    ensures Subsequence(Accepted(s, run, ch), Sent(s, run, ch))
    decreases |run|
  {
    if run != [] {
      var before, e := run[..|run| - 1], run[|run| - 1];
      AcceptedInOrder(s, before, ch);
      SubsequenceAppends(Accepted(s, before, ch), Sent(s, before, ch), AcceptedBy(End(s, before), e, ch),
                         SentBy(End(s, before), e, ch));
    }
  }

  lemma SubsequenceAppends(a: seq<Event>, b: seq<Event>, x: seq<Event>, y: seq<Event>)
    requires Subsequence(a, b) && |y| <= 1 && (x == [] || x == y)
    ensures Subsequence(a + x, b + y)
  {
    assert a + [] == a && b + [] == b;
    if y != [] {
      assert y == [y[0]];
      SubsequenceGrows(a, b, y[0]);
    }
  }

  /** Nothing is lost while no more than a bufferful can be outstanding. */
  lemma {:induction false} FewSendsAllAccepted(s: System, run: seq<Step>, ch: nat)
    requires Sound(s) && |Waiting(s.hub, ch)| + |Sent(s, run, ch)| <= CAPACITY
    ensures Accepted(s, run, ch) == Sent(s, run, ch)
    decreases |run|
  {
    if run != [] {
      var before := run[..|run| - 1];
      FewSendsAllAccepted(s, before, ch);
      Fifo(s, before, ch);
      assert |Received(s, before, ch)| + |Waiting(End(s, before).hub, ch)|
          == |Waiting(s.hub, ch)| + |Accepted(s, before, ch)|;
    }
  }

  // ------------------------------------------------------- what was broadcast to it

  /** A channel belongs to this owner or to nobody. */
  ghost predicate Owned(h: State, owner: int, ch: nat) {
    ch < |h.chans| && forall o | Owns(h.clients, o, ch) :: o == owner
  }

  /** Ownership is for life: a channel is never handed to another owner. */
  lemma OwnedStays(s: System, e: Step, owner: int, ch: nat)
    requires Owned(s.hub, owner, ch)
    ensures Owned(Next(s, e).hub, owner, ch)
  {
    if Enabled(s, e) && e.Whole? {
      ChansGrow(s.hub, e.call);
      forall o | Owns(After(s.hub, e.call).clients, o, ch) ensures o == owner {
        OwnsAfter(s.hub, e.call, o, ch);
      }
    }
  }

  lemma {:induction false} OwnedAtEnd(s: System, run: seq<Step>, owner: int, ch: nat)
    requires Owned(s.hub, owner, ch)
    ensures Owned(End(s, run).hub, owner, ch)
    decreases |run|
  {
    if run != [] {
      OwnedAtEnd(s, run[..|run| - 1], owner, ch);
      OwnedStays(End(s, run[..|run| - 1]), run[|run| - 1], owner, ch);
    }
  }

  /** A broadcast to the owner or to all that begins while the channel is registered. */
  function AddressedBy(s: System, e: Step, owner: int, ch: nat): seq<Event> {
    if e.Begin? && Owns(s.hub.clients, owner, ch) && (e.to.None? || e.to.value == owner) then [e.event] else []
  }

  /** What was broadcast to the owner or to all while the channel was registered, in the order it began. */
  function Addressed(s: System, run: seq<Step>, owner: int, ch: nat): seq<Event> {
    if run == [] then []
    else
      Addressed(s, run[..|run| - 1], owner, ch) + AddressedBy(End(s, run[..|run| - 1]), run[|run| - 1], owner, ch)
  }

  /** The events still on their way to a channel, oldest broadcast first. */
  function Outstanding(casts: seq<Casting>, ch: nat): seq<Event> {
    if casts == [] then []
    else
      var last := casts[|casts| - 1];
      Outstanding(casts[..|casts| - 1], ch) + if ch in last.todo then [last.event] else []
  }

  function Share(c: Casting, ch: nat): seq<Event> {
    if ch in c.todo then [c.event] else []
  }

  lemma {:induction false} OutstandingJoin(a: seq<Casting>, b: seq<Casting>, ch: nat)
    ensures Outstanding(a + b, ch) == Outstanding(a, ch) + Outstanding(b, ch)
    decreases |b|
  {
    if b == [] {
      assert a + b == a;
    } else {
      assert (a + b)[..|a + b| - 1] == a + b[..|b| - 1];
      OutstandingJoin(a, b[..|b| - 1], ch);
    }
  }

  lemma OutstandingAround(casts: seq<Casting>, i: nat, c: Casting, ch: nat)
    requires i < |casts|
    ensures Outstanding(casts[i := c], ch)
         == Outstanding(casts[..i], ch) + Share(c, ch) + Outstanding(casts[i + 1..], ch)
  {
    assert [c][..0] == [];
    assert Outstanding([c], ch) == Share(c, ch);
    assert casts[i := c] == (casts[..i] + [c]) + casts[i + 1..];
    OutstandingJoin(casts[..i] + [c], casts[i + 1..], ch);
    OutstandingJoin(casts[..i], [c], ch);
  }

  /** How one step moves an event along: begun, on its way, sent. */
  lemma StepOutstanding(s: System, e: Step, owner: int, ch: nat)
    requires Sound(s) && Owned(s.hub, owner, ch)
    ensures SentBy(s, e, ch) == [] ==>
              Outstanding(Next(s, e).casts, ch) == Outstanding(s.casts, ch) + AddressedBy(s, e, owner, ch)
    ensures SentBy(s, e, ch) != [] ==>
              && AddressedBy(s, e, owner, ch) == []
              && e.index < |s.casts|
              && var front, back := Outstanding(s.casts[..e.index], ch), Outstanding(s.casts[e.index + 1..], ch);
                 && Outstanding(s.casts, ch) == front + SentBy(s, e, ch) + back
                 && Outstanding(Next(s, e).casts, ch) == front + back
  {
    if Enabled(s, e) {
      match e {
        case Whole(call) =>
        case Begin(to, event) => BeginOutstanding(s, to, event, owner, ch);
        case Send(i, d) => SendOutstanding(s.casts, i, d, ch);
        case Done(i) => DoneOutstanding(s.casts, i, ch);
      }
    }
  }

  lemma SendOutstanding(casts: seq<Casting>, i: nat, d: nat, ch: nat)
    requires Awaits(casts, i, d)
    ensures var front, back := Outstanding(casts[..i], ch), Outstanding(casts[i + 1..], ch);
            var later := Outstanding(casts[i := casts[i].(todo := casts[i].todo - {d})], ch);
            if d == ch then Outstanding(casts, ch) == front + [casts[i].event] + back && later == front + back
            else later == Outstanding(casts, ch)
  {
    OutstandingAround(casts, i, casts[i], ch);
    OutstandingAround(casts, i, casts[i].(todo := casts[i].todo - {d}), ch);
    assert casts[i := casts[i]] == casts;
    assert Outstanding(casts[..i], ch) + [] == Outstanding(casts[..i], ch);
  }

  lemma DoneOutstanding(casts: seq<Casting>, i: nat, ch: nat)
    requires i < |casts| && casts[i].todo == {}
    ensures Outstanding(casts[..i] + casts[i + 1..], ch) == Outstanding(casts, ch)
  {
    OutstandingAround(casts, i, casts[i], ch);
    assert casts[i := casts[i]] == casts;
    OutstandingJoin(casts[..i], casts[i + 1..], ch);
    assert Outstanding(casts[..i], ch) + [] == Outstanding(casts[..i], ch);
  }

  lemma BeginOutstanding(s: System, to: Option<int>, event: Event, owner: int, ch: nat)
    requires Owned(s.hub, owner, ch)
    ensures Outstanding(Next(s, Begin(to, event)).casts, ch)
         == Outstanding(s.casts, ch) + AddressedBy(s, Begin(to, event), owner, ch)
  {
    var c := Casting(event, Audience(s.hub, to));
    InRegistered(s.hub, ch);
    assert to.Some? ==> (ch in Audience(s.hub, to) <==> Owns(s.hub.clients, to.value, ch));
    assert (s.casts + [c])[..|s.casts|] == s.casts;
  }

  lemma StepOnce(s: System, e: Step, owner: int, ch: nat)
    requires Sound(s) && Owned(s.hub, owner, ch)
    ensures multiset(SentBy(s, e, ch)) + multiset(Outstanding(Next(s, e).casts, ch))
         == multiset(Outstanding(s.casts, ch)) + multiset(AddressedBy(s, e, owner, ch))
  {
    StepOutstanding(s, e, owner, ch);
  }

  /** Every broadcast to the owner or to all that begins while the channel is
      registered is sent to it exactly once or still on its way; nothing else is. */
  lemma {:induction false} EachBroadcastOnce(s: System, run: seq<Step>, owner: int, ch: nat)
    requires Sound(s) && Owned(s.hub, owner, ch)
    ensures multiset(Sent(s, run, ch)) + multiset(Outstanding(End(s, run).casts, ch))
         == multiset(Outstanding(s.casts, ch)) + multiset(Addressed(s, run, owner, ch))
    decreases |run|
  {
    if run != [] {
      var before, e := run[..|run| - 1], run[|run| - 1];
      var mid := End(s, before);
      EachBroadcastOnce(s, before, owner, ch);
      RunKeepsSound(s, before);
      OwnedAtEnd(s, before, owner, ch);
      StepOnce(mid, e, owner, ch);
      AddUp(multiset(Sent(s, before, ch)), multiset(SentBy(mid, e, ch)), multiset(Outstanding(Next(mid, e).casts, ch)),
            multiset(Outstanding(mid.casts, ch)), multiset(AddressedBy(mid, e, owner, ch)),
            multiset(Outstanding(s.casts, ch)), multiset(Addressed(s, before, owner, ch)));
    }
  }

  lemma AddUp(sent: multiset<Event>, more: multiset<Event>, end: multiset<Event>, mid: multiset<Event>,
              begun: multiset<Event>, start: multiset<Event>, addressed: multiset<Event>)
    requires sent + mid == start + addressed && more + end == mid + begun
    ensures (sent + more) + end == start + (addressed + begun)
  {
    calc {
      (sent + more) + end;
      sent + (more + end);
      (sent + mid) + begun;
      start + (addressed + begun);
    }
  }

  // ------------------------------------------------------- in which order

  /** A send to the channel while an older broadcast of something else still has it to do. */
  predicate Overtakes(s: System, e: Step, ch: nat) {
    && SentBy(s, e, ch) != []
    && exists j :: 0 <= j < |Outstanding(s.casts[..e.index], ch)|
                   && Outstanding(s.casts[..e.index], ch)[j] != s.casts[e.index].event
  }

  /** Sent or on their way, the events line up in the order their broadcasts began. */
  ghost predicate InOrder(s: System, run: seq<Step>, owner: int, ch: nat) {
    Sent(s, run, ch) + Outstanding(End(s, run).casts, ch) == Outstanding(s.casts, ch) + Addressed(s, run, owner, ch)
  }

  lemma {:induction false} Rotate(p: seq<Event>, e: Event)
    ensures [e] + p == p + [e] <==> forall j | 0 <= j < |p| :: p[j] == e
    decreases |p|
  {
    if [e] + p == p + [e] && p != [] {
      assert ([e] + p)[0] == e && (p + [e])[0] == p[0];
      forall j | 0 <= j < |p| ensures p[j] == e {
        RotateAt(p, e, j);
      }
    }
  }

  lemma {:induction false} RotateAt(p: seq<Event>, e: Event, j: nat)
    requires [e] + p == p + [e] && j < |p|
    ensures p[j] == e
    decreases j
  {
    assert ([e] + p)[j] == (p + [e])[j] == p[j];
    if j > 0 {
      RotateAt(p, e, j - 1);
    }
  }

  lemma StepInOrder(s: System, run: seq<Step>, owner: int, ch: nat)
    requires Sound(s) && Owned(s.hub, owner, ch) && run != []
    requires InOrder(s, run[..|run| - 1], owner, ch)
    ensures InOrder(s, run, owner, ch) <==> !Overtakes(End(s, run[..|run| - 1]), run[|run| - 1], ch)
  {
    var before, e := run[..|run| - 1], run[|run| - 1];
    var mid := End(s, before);
    RunKeepsSound(s, before);
    OwnedAtEnd(s, before, owner, ch);
    StepOutstanding(mid, e, owner, ch);
    var line := Sent(s, before, ch);
    var all := Outstanding(s.casts, ch) + Addressed(s, before, owner, ch);
    assert line + Outstanding(mid.casts, ch) == all;
    if SentBy(mid, e, ch) == [] {
      KeepsLine(line, Outstanding(mid.casts, ch), AddressedBy(mid, e, owner, ch),
                Outstanding(s.casts, ch), Addressed(s, before, owner, ch));
      assert line + [] == line;
    } else {
      var ev := mid.casts[e.index].event;
      var front, back := Outstanding(mid.casts[..e.index], ch), Outstanding(mid.casts[e.index + 1..], ch);
      assert Addressed(s, before, owner, ch) + [] == Addressed(s, before, owner, ch);
      MovesUp(line, front, back, ev);
      Rotate(front, ev);
    }
  }

  lemma KeepsLine(line: seq<Event>, out: seq<Event>, more: seq<Event>, old0: seq<Event>, added: seq<Event>)
    requires line + out == old0 + added
    ensures line + (out + more) == old0 + (added + more)
  {
    assert line + (out + more) == (line + out) + more;
    assert old0 + (added + more) == (old0 + added) + more;
  }

  /** Sending an event early keeps the line exactly if it is equal to all it passes. */
  lemma MovesUp(line: seq<Event>, front: seq<Event>, back: seq<Event>, e: Event)
    ensures (line + [e]) + (front + back) == line + (front + [e] + back) <==> [e] + front == front + [e]
  {
    assert (line + [e]) + (front + back) == line + (([e] + front) + back);
    var a, b := line + (([e] + front) + back), line + ((front + [e]) + back);
    if a == b {
      assert a[|line|..|line| + |front| + 1] == [e] + front;
      assert b[|line|..|line| + |front| + 1] == front + [e];
    }
  }

  ghost predicate AlwaysInOrder(s: System, run: seq<Step>, owner: int, ch: nat) {
    InOrder(s, run, owner, ch) && (run != [] ==> AlwaysInOrder(s, run[..|run| - 1], owner, ch))
  }

  ghost predicate SomeOvertake(s: System, run: seq<Step>, ch: nat) {
    run != []
    && (SomeOvertake(s, run[..|run| - 1], ch) || Overtakes(End(s, run[..|run| - 1]), run[|run| - 1], ch))
  }

  /** Over every interleaving: a channel sees broadcasts in the order they began,
      at every point of the run, exactly if no send overtakes an older broadcast. */
  lemma {:induction false} OrderExactly(s: System, run: seq<Step>, owner: int, ch: nat)
    requires Sound(s) && Owned(s.hub, owner, ch)
    ensures AlwaysInOrder(s, run, owner, ch) <==> !SomeOvertake(s, run, ch)
    decreases |run|
  {
    if run == [] {
      assert [] + Outstanding(s.casts, ch) == Outstanding(s.casts, ch) + [];
    } else {
      var before := run[..|run| - 1];
      OrderExactly(s, before, owner, ch);
      if AlwaysInOrder(s, before, owner, ch) {
        assert InOrder(s, before, owner, ch) by {
          assert AlwaysInOrder(s, before, owner, ch);
        }
        StepInOrder(s, run, owner, ch);
      }
    }
  }

  lemma OneMore(s: System, run: seq<Step>, e: Step)
    ensures End(s, run + [e]) == Next(End(s, run), e)
  {
    assert (run + [e])[..|run|] == run;
  }

  /** Two broadcasts under way: what a send of one of them to `ch` does, seen from `ch` and from `d`. */
  lemma SendOne(s: System, i: nat, ch: nat, d: nat)
    requires Sound(s) && |s.casts| == 2 && Awaits(s.casts, i, ch) && |Waiting(s.hub, ch)| < CAPACITY && d != ch
    ensures var t := Next(s, Send(i, ch));
            && Sound(t) && |t.casts| == 2
            && Waiting(t.hub, ch) == Waiting(s.hub, ch) + [s.casts[i].event]
            && Waiting(t.hub, d) == Waiting(s.hub, d)
            && t.casts[i] == s.casts[i].(todo := s.casts[i].todo - {ch})
            && t.casts[1 - i] == s.casts[1 - i]
  {
    StepKeepsSound(s, Send(i, ch));
    RegisteredOpen(s.hub, ch);
  }

  /** Two broadcasts to one owner can reach two of its clients in different orders. */
  lemma OrdersDiffer(h: State, owner: int, a: nat, b: nat, x: Event, y: Event)
    requires Inv(h) && Owns(h.clients, owner, a) && Owns(h.clients, owner, b) && a != b
    requires Waiting(h, a) == [] && Waiting(h, b) == []
    ensures var run := [Begin(Some(owner), x), Begin(Some(owner), y)] + [Send(0, a), Send(1, a), Send(1, b), Send(0, b)];
            var end := End(System(h, []), run).hub;
            Waiting(end, a) == [x, y] && Waiting(end, b) == [y, x]
  {
    var first, second := Begin(Some(owner), x), Begin(Some(owner), y);
    var s0 := System(h, []);
    assert [] + [first] == [first] && [first] + [second] == [first, second];
    OneMore(s0, [], first);
    OneMore(s0, [first], second);
    var casts := [Casting(x, Of(h.clients, owner)), Casting(y, Of(h.clients, owner))];
    assert End(s0, [first, second]) == System(h, casts);
    RunKeepsSound(s0, [first, second]);
    TwoCastsCross(System(h, casts), a, b, x, y);
    FourMore(s0, [first, second], Send(0, a), Send(1, a), Send(1, b), Send(0, b));
  }

  lemma TwoCastsCross(s: System, a: nat, b: nat, x: Event, y: Event)
    requires Sound(s) && |s.casts| == 2 && s.casts[0].event == x && s.casts[1].event == y && a != b
    requires {a, b} <= s.casts[0].todo && {a, b} <= s.casts[1].todo
    requires Waiting(s.hub, a) == [] && Waiting(s.hub, b) == []
    ensures var end := Next(Next(Next(Next(s, Send(0, a)), Send(1, a)), Send(1, b)), Send(0, b)).hub;
            Waiting(end, a) == [x, y] && Waiting(end, b) == [y, x]
  {
    BothTo(s, 0, a, b);
    var s2 := Next(Next(s, Send(0, a)), Send(1, a));
    BothTo(s2, 1, b, a);
    assert [] + [x] + [y] == [x, y] && [] + [y] + [x] == [y, x];
  }

  /** Both broadcasts send to `ch`, the `i`-th first. */
  lemma BothTo(s: System, i: nat, ch: nat, d: nat)
    requires Sound(s) && |s.casts| == 2 && i < 2 && d != ch && Waiting(s.hub, ch) == []
    requires ch in s.casts[i].todo && ch in s.casts[1 - i].todo
    ensures var t := Next(Next(s, Send(i, ch)), Send(1 - i, ch));
            && Sound(t) && |t.casts| == 2
            && Waiting(t.hub, ch) == [] + [s.casts[i].event] + [s.casts[1 - i].event]
            && Waiting(t.hub, d) == Waiting(s.hub, d)
            && (forall j | 0 <= j < 2 :: t.casts[j] == s.casts[j].(todo := s.casts[j].todo - {ch}))
  {
    SendOne(s, i, ch, d);
    SendOne(Next(s, Send(i, ch)), 1 - i, ch, d);
  }

  lemma FourMore(s: System, run: seq<Step>, d: Step, e: Step, f: Step, g: Step)
    ensures End(s, run + [d, e, f, g]) == Next(Next(Next(Next(End(s, run), d), e), f), g)
  {
    OneMore(s, run, d);
    OneMore(s, run + [d], e);
    assert run + [d] + [e] == run + [d, e];
    OneMore(s, run + [d, e], f);
    assert run + [d, e] + [f] == run + [d, e, f];
    OneMore(s, run + [d, e, f], g);
    assert run + [d, e, f] + [g] == run + [d, e, f, g];
  }

  // ------------------------------------------------------- the life of a client

  lemma AddedOwned(h: State, owner: int)
    requires Inv(h)
    ensures Owned(After(h, Add(owner)), owner, |h.chans|) && Waiting(After(h, Add(owner)), |h.chans|) == []
  {
    forall o | Owns(After(h, Add(owner)).clients, o, |h.chans|) ensures o == owner {
      OwnsAfter(h, Add(owner), o, |h.chans|);
    }
  }

  /** From the moment it connects, in any interleaving with other calls and
      overlapping broadcasts, a client sees, in the order of the sends, some of
      what is sent to it, and all of it if that is at most a bufferful. Each
      broadcast to its owner or to all, begun while it was registered, is sent to
      it once or still on its way. In the order they began, unless one overtakes. */
  lemma ClientSees(h: State, owner: int, run: seq<Step>)
    requires Inv(h)
    ensures var start, ch := System(After(h, Add(owner)), []), |h.chans|;
            var end, sent := End(start, run), Sent(start, run, ch);
            var seen := Received(start, run, ch) + Waiting(end.hub, ch);
            && Subsequence(seen, sent) && (|sent| <= 32 ==> seen == sent)
            && multiset(sent) + multiset(Outstanding(end.casts, ch)) == multiset(Addressed(start, run, owner, ch))
            && (!SomeOvertake(start, run, ch) ==> sent + Outstanding(end.casts, ch) == Addressed(start, run, owner, ch))
  {
    var start, ch := System(After(h, Add(owner)), []), |h.chans|;
    CallKeepsInv(h, Add(owner));
    AddedOwned(h, owner);
    assert Sound(start);
    Fifo(start, run, ch);
    AcceptedInOrder(start, run, ch);
    assert [] + Accepted(start, run, ch) == Accepted(start, run, ch);
    if |Sent(start, run, ch)| <= CAPACITY {
      FewSendsAllAccepted(start, run, ch);
    }
    EachBroadcastOnce(start, run, owner, ch);
    OrderExactly(start, run, owner, ch);
    assert [] + Addressed(start, run, owner, ch) == Addressed(start, run, owner, ch);
    assert AlwaysInOrder(start, run, owner, ch) ==> InOrder(start, run, owner, ch);
  }

  // ------------------------------------------------------- one broadcast alone

  function Sends(order: seq<nat>): seq<Step> {
    seq(|order|, i requires 0 <= i < |order| => Send(0, order[i]))
  }

  function Listed(order: seq<nat>): set<nat> {
    set i | 0 <= i < |order| :: order[i]
  }

  lemma {:induction false} SendsSoFar(h: State, to: Option<int>, event: Event, order: seq<nat>)
    requires Inv(h) && Distinct(order) && Listed(order) <= Audience(h, to)
    ensures End(System(h, []), [Begin(to, event)] + Sends(order))
         == System(h.(chans := SentTo(h.chans, Listed(order), event)), [Casting(event, Audience(h, to) - Listed(order))])
    decreases |order|
  {
    var run := [Begin(to, event)] + Sends(order);
    if order == [] {
      assert run == [] + [Begin(to, event)];
      OneMore(System(h, []), [], Begin(to, event));
      assert Listed(order) == {} && SentTo(h.chans, {}, event) == h.chans;
      assert Audience(h, to) - {} == Audience(h, to);
    } else {
      var init, ch := order[..|order| - 1], order[|order| - 1];
      assert run == ([Begin(to, event)] + Sends(init)) + [Send(0, ch)];
      OneMore(System(h, []), [Begin(to, event)] + Sends(init), Send(0, ch));
      ListedSnoc(init, ch);
      assert order == init + [ch];
      SendsSoFar(h, to, event, init);
      SentToUnion(h.chans, Listed(init), {ch}, event);
      assert Audience(h, to) - Listed(init) - {ch} == Audience(h, to) - Listed(order);
    }
  }

  lemma ListedSnoc(init: seq<nat>, ch: nat)
    requires Distinct(init + [ch])
    ensures Listed(init + [ch]) == Listed(init) + {ch} && ch !in Listed(init) && Distinct(init)
  {
    var order := init + [ch];
    forall i | 0 <= i < |init| ensures init[i] == order[i] && init[i] != ch {
      assert order[|init|] == ch;
    }
    forall d | d in Listed(init) + {ch} ensures d in Listed(order) {
      if d == ch {
        assert order[|init|] == d;
      } else {
        var i :| 0 <= i < |init| && init[i] == d;
        assert order[i] == d;
      }
    }
  }

  /** A broadcast that no other overlaps, its sends in whatever order, is the whole call. */
  lemma BroadcastIsItsSends(h: State, to: Option<int>, event: Event, order: seq<nat>)
    requires Inv(h) && Distinct(order) && Listed(order) == Audience(h, to)
    ensures End(System(h, []), [Begin(to, event)] + Sends(order) + [Done(0)])
         == System(After(h, if to.Some? then Cast(to.value, event) else CastAll(event)), [])
  {
    SendsSoFar(h, to, event, order);
    OneMore(System(h, []), [Begin(to, event)] + Sends(order), Done(0));
    assert Audience(h, to) - Listed(order) == {};
  }
}
