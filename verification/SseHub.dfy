/** The event hub: internal/api/sse_handler.go. A Go channel is a position in
    the list of all channels ever made; sending to a closed channel and closing
    one twice are errors there, so they are preconditions here. */
module SseHub {
  const CAPACITY := 32

  datatype Event = Event(kind: string, data: string)

  datatype Chan = Chan(buf: seq<Event>, closed: bool)

  datatype State = State(clients: map<int, set<nat>>, chans: seq<Chan>)

  /** One call of the hub, or a client taking the next event off its channel. */
  datatype Call =
    | Add(owner: int)
    | Remove(owner: int, ch: nat)
    | Cast(owner: int, event: Event)
    | CastAll(event: Event)
    | Close
    | Take(ch: nat)

  // ------------------------------------------------------- specification

  /** A send that gives up when the buffer is full. */
  function Offered(c: Chan, e: Event): Chan {
    if |c.buf| < CAPACITY then c.(buf := c.buf + [e]) else c
  }

  function SentTo(chans: seq<Chan>, to: set<nat>, e: Event): seq<Chan> {
    seq(|chans|, i requires 0 <= i < |chans| => if i in to then Offered(chans[i], e) else chans[i])
  }

  function Shut(chans: seq<Chan>, which: set<nat>): seq<Chan> {
    seq(|chans|, i requires 0 <= i < |chans| => if i in which then chans[i].(closed := true) else chans[i])
  }

  function Of(clients: map<int, set<nat>>, owner: int): set<nat> {
    if owner in clients then clients[owner] else {}
  }

  /** `ch` is registered to `owner`. */
  predicate Owns(clients: map<int, set<nat>>, owner: int, ch: nat) {
    ch in Of(clients, owner)
  }

  /** The channels of some owners. */
  function Members(clients: map<int, set<nat>>, owners: set<int>): set<nat> {
    set o, ch | o in owners && o in clients && ch in clients[o] :: ch
  }

  function Registered(s: State): set<nat> {
    Members(s.clients, s.clients.Keys)
  }

  function WithMembers(clients: map<int, set<nat>>, owner: int, members: set<nat>): map<int, set<nat>> {
    if members == {} then clients - {owner} else clients[owner := members]
  }

  function After(s: State, call: Call): State {
    match call
    case Add(o) => State(s.clients[o := Of(s.clients, o) + {|s.chans|}], s.chans + [Chan([], false)])
    case Remove(o, ch) =>
      if o !in s.clients then s
      else State(WithMembers(s.clients, o, s.clients[o] - {ch}), Shut(s.chans, s.clients[o] * {ch}))
    case Cast(o, e) => State(s.clients, SentTo(s.chans, Of(s.clients, o), e))
    case CastAll(e) => State(s.clients, SentTo(s.chans, Registered(s), e))
    case Close => State(map[], Shut(s.chans, Registered(s)))
    case Take(ch) =>
      if ch < |s.chans| && s.chans[ch].buf != [] then s.(chans := s.chans[ch := s.chans[ch].(buf := s.chans[ch].buf[1..])])
      else s
  }

  /** Registered channels exist and are open, no owner is left with an empty set,
      no channel has two owners, and no buffer is over capacity. */
  ghost predicate Inv(s: State) {
    && (forall o | o in s.clients :: s.clients[o] != {})
    && (forall o, ch: nat | Owns(s.clients, o, ch) :: ch < |s.chans| && !s.chans[ch].closed)
    && (forall o, p, ch: nat | Owns(s.clients, o, ch) && Owns(s.clients, p, ch) :: o == p)
    && (forall ch | 0 <= ch < |s.chans| :: |s.chans[ch].buf| <= CAPACITY)
  }

  /** Who owns what after a call: an independent account of the membership calls. */
  lemma OwnsAfter(s: State, call: Call, o: int, ch: nat)
    ensures Owns(After(s, call).clients, o, ch) <==>
              match call
              case Add(a) => Owns(s.clients, o, ch) || (o == a && ch == |s.chans|)
              case Remove(a, c) => Owns(s.clients, o, ch) && !(o == a && ch == c)
              case Close => false
              case _ => Owns(s.clients, o, ch)
  {
  }

  lemma InRegistered(s: State, ch: nat)
    ensures ch in Registered(s) <==> exists o :: Owns(s.clients, o, ch)
  {
    if ch in Registered(s) {
      var o :| o in s.clients && ch in s.clients[o];
      assert Owns(s.clients, o, ch);
    }
    if o :| Owns(s.clients, o, ch) {
      assert o in s.clients.Keys && ch in s.clients[o];
    }
  }

  /** The channels a call closes. */
  function Closes(s: State, call: Call): set<nat> {
    match call
    case Remove(o, ch) => Of(s.clients, o) * {ch}
    case Close => Registered(s)
    case _ => {}
  }

  lemma RegisteredOpen(s: State, ch: nat)
    requires Inv(s) && ch in Registered(s)
    ensures ch < |s.chans| && !s.chans[ch].closed
  {
    InRegistered(s, ch);
    var o :| Owns(s.clients, o, ch);
  }

  /** A call that closes a channel finds it registered, so open, and leaves it closed. */
  lemma ClosesOpen(s: State, call: Call, ch: nat)
    requires Inv(s) && ch in Closes(s, call)
    ensures ch < |s.chans| && !s.chans[ch].closed
    ensures ch < |After(s, call).chans| && After(s, call).chans[ch].closed
  {
    InRegistered(s, ch);
    if call.Remove? {
      assert Owns(s.clients, call.owner, ch);
    }
    RegisteredOpen(s, ch);
    ChansGrow(s, call);
    ClosedAfter(s, call, ch);
  }

  lemma ChansGrow(s: State, call: Call)
    ensures |s.chans| <= |After(s, call).chans|
  {
  }

  /** A channel is closed after a call exactly if it was before or the call closes it; new ones are open. */
  lemma ClosedAfter(s: State, call: Call, ch: nat)
    requires ch < |After(s, call).chans|
    ensures |s.chans| <= |After(s, call).chans|
    ensures After(s, call).chans[ch].closed <==> ch < |s.chans| && (s.chans[ch].closed || ch in Closes(s, call))
  {
  }

  lemma CallKeepsInv(s: State, call: Call)
    requires Inv(s)
    ensures Inv(After(s, call))
  {
    var t := After(s, call);
    forall o, ch: nat | Owns(t.clients, o, ch) ensures ch < |t.chans| && !t.chans[ch].closed {
      OwnsAfter(s, call, o, ch);
      if call.Add? {
        assert ch <= |s.chans|;
      }
      ClosedAfter(s, call, ch);
      if call.Remove? {
        assert ch in Closes(s, call) ==> ch == call.ch && Owns(s.clients, call.owner, ch);
      }
    }
    forall o, p, ch: nat | Owns(t.clients, o, ch) && Owns(t.clients, p, ch) ensures o == p {
      OwnsAfter(s, call, o, ch);
      OwnsAfter(s, call, p, ch);
    }
  }

  lemma MembersOpen(s: State, o: int)
    requires Inv(s) && o in s.clients
    ensures forall ch | ch in s.clients[o] :: ch < |s.chans| && !s.chans[ch].closed
  {
    forall ch | ch in s.clients[o] ensures ch < |s.chans| && !s.chans[ch].closed {
      assert Owns(s.clients, o, ch);
    }
  }

  /** One more owner's channels: none of them has been visited yet. */
  lemma MembersNext(s: State, done: set<int>, o: int)
    requires Inv(s) && o in s.clients && o !in done
    ensures Members(s.clients, done + {o}) == Members(s.clients, done) + s.clients[o]
    ensures Members(s.clients, done) !! s.clients[o]
  {
    forall ch | ch in Members(s.clients, done) ensures ch !in s.clients[o] {
      var p :| p in done && p in s.clients && ch in s.clients[p];
      assert Owns(s.clients, p, ch);
      assert Owns(s.clients, o, ch) ==> o == p;
    }
  }

  lemma NonEmpty(owners: set<int>)
    requires owners != {}
    ensures exists o :: o in owners
  {
    assert (forall o :: o !in owners) ==> owners == {};
  }

  lemma SentToUnion(chans: seq<Chan>, a: set<nat>, b: set<nat>, e: Event)
    requires a !! b
    ensures SentTo(SentTo(chans, a, e), b, e) == SentTo(chans, a + b, e)
  {
  }

  lemma ShutUnion(chans: seq<Chan>, a: set<nat>, b: set<nat>)
    ensures Shut(Shut(chans, a), b) == Shut(chans, a + b)
  {
  }

  // ------------------------------------------------------- what a call does, channel by channel

  /** Between `s` and `u` the event has been put behind what waits in each of the
      channels `to` that held fewer than 32, and nothing else has changed. */
  ghost predicate OfferedTo(s: State, u: State, to: set<nat>, event: Event) {
    && u.clients == s.clients && |u.chans| == |s.chans|
    && forall ch | 0 <= ch < |s.chans| ::
         && u.chans[ch].closed == s.chans[ch].closed
         && u.chans[ch].buf == if ch in to && |s.chans[ch].buf| < 32 then s.chans[ch].buf + [event] else s.chans[ch].buf
  }

  /** Exactly the channels `which` have been closed on top of those that were; what waits is kept. */
  ghost predicate ClosedToo(s: State, u: State, which: set<nat>) {
    && |u.chans| == |s.chans|
    && forall ch | 0 <= ch < |s.chans| ::
         u.chans[ch].buf == s.chans[ch].buf && u.chans[ch].closed == (s.chans[ch].closed || ch in which)
  }

  /** Every registered channel, whoever it belongs to. */
  ghost predicate IsEverybody(s: State, all: set<nat>) {
    forall ch :: ch in all <==> exists o :: o in s.clients && ch in s.clients[o]
  }

  ghost predicate OfferedToAll(s: State, u: State, event: Event) {
    exists all :: OfferedTo(s, u, all, event) && IsEverybody(s, all)
  }

  ghost predicate ClosedAll(s: State, u: State) {
    u.clients == map[] && exists all :: ClosedToo(s, u, all) && IsEverybody(s, all)
  }

  lemma RegisteredIsEverybody(s: State)
    ensures IsEverybody(s, Registered(s))
  {
    forall ch ensures ch in Registered(s) <==> exists o :: o in s.clients && ch in s.clients[o] {
      if o :| o in s.clients && ch in s.clients[o] {
        assert o in s.clients.Keys;
      }
    }
  }

  lemma CastsOffer(s: State, owner: int, event: Event)
    ensures OfferedTo(s, After(s, Cast(owner, event)), if owner in s.clients then s.clients[owner] else {}, event)
    ensures OfferedToAll(s, After(s, CastAll(event)), event)
    ensures ClosedAll(s, After(s, Close))
  {
    RegisteredIsEverybody(s);
    assert OfferedTo(s, After(s, CastAll(event)), Registered(s), event);
    assert ClosedToo(s, After(s, Close), Registered(s));
  }

  // ------------------------------------------------------- the hub

  class Hub {
    var clients: map<int, set<nat>>
    var chans: seq<Chan>

    function Contents(): State
      reads this
    {
      State(clients, chans)
    }

    constructor ()
      ensures Contents() == State(map[], []) && Inv(Contents())
    {
      clients, chans := map[], [];
    }

    method AddClient(owner: int) returns (ch: nat)
      requires Inv(Contents())
      modifies this
      ensures ch == |old(chans)| && Contents() == After(old(Contents()), Add(owner)) && Inv(Contents())
      ensures chans == old(chans) + [Chan([], false)] && owner in clients
      ensures forall o, d: nat :: Owns(clients, o, d) <==> Owns(old(clients), o, d) || (o == owner && d == ch)
    {
      CallKeepsInv(Contents(), Add(owner));
      ch := |chans|;
      chans := chans + [Chan([], false)];
      if owner !in clients {
        clients := clients[owner := {}];
      }
      clients := clients[owner := clients[owner] + {ch}];
    }

    method CloseChan(ch: nat)
      requires ch < |chans| && !chans[ch].closed
      modifies `chans
      ensures chans == Shut(old(chans), {ch})
    {
      chans := chans[ch := chans[ch].(closed := true)];
    }

    method RemoveClient(owner: int, ch: nat)
      requires Inv(Contents())
      modifies this
      ensures Contents() == After(old(Contents()), Remove(owner, ch)) && Inv(Contents())
      ensures forall o, d: nat :: Owns(clients, o, d) <==> Owns(old(clients), o, d) && !(o == owner && d == ch)
      ensures ClosedToo(old(Contents()), Contents(), if Owns(old(clients), owner, ch) then {ch} else {})
    {
      CallKeepsInv(Contents(), Remove(owner, ch));
      if owner in clients {
        MembersOpen(Contents(), owner);
        ghost var members := clients[owner];
        if ch in clients[owner] {
          clients := clients[owner := clients[owner] - {ch}];
          CloseChan(ch);
          assert members * {ch} == {ch};
        } else {
          assert members * {ch} == {} && members - {ch} == members && chans == Shut(chans, {});
        }
        if clients[owner] == {} {
          clients := clients - {owner};
        }
      }
    }

    /** The select with a default: never waits. */
    method TrySend(ch: nat, event: Event)
      requires ch < |chans| && !chans[ch].closed
      modifies `chans
      ensures chans == SentTo(old(chans), {ch}, event)
    {
      if |chans[ch].buf| < CAPACITY {
        chans := chans[ch := chans[ch].(buf := chans[ch].buf + [event])];
      }
    }

    /** Offers the event to every channel of a set, in any order. */
    method SendEach(clientSet: set<nat>, event: Event)
      requires forall ch | ch in clientSet :: ch < |chans| && !chans[ch].closed
      modifies `chans
      ensures chans == SentTo(old(chans), clientSet, event)
    {
      var todo := clientSet;
      while todo != {}
        invariant todo <= clientSet && chans == SentTo(old(chans), clientSet - todo, event)
        decreases todo
      {
        var ch :| ch in todo;
        TrySend(ch, event);
        todo := todo - {ch};
      }
    }

    method Broadcast(owner: int, event: Event)
      requires Inv(Contents())
      modifies this
      ensures Contents() == After(old(Contents()), Cast(owner, event)) && Inv(Contents())
      ensures OfferedTo(old(Contents()), Contents(), if owner in clients then clients[owner] else {}, event)
    {
      CastsOffer(Contents(), owner, event);
      CallKeepsInv(Contents(), Cast(owner, event));
      if owner !in clients {
        return;
      }
      MembersOpen(Contents(), owner);
      SendEach(clients[owner], event);
    }

    /** The loop over the owners. */
    method SendToOwners(event: Event)
      requires Inv(Contents())
      modifies `chans
      ensures chans == SentTo(old(chans), Registered(old(Contents())), event)
    {
      ghost var s := Contents();
      var owners := set o | o in clients;
      assert owners == clients.Keys;
      var todo := owners;
      while todo != {}
        invariant todo <= owners
        invariant chans == SentTo(s.chans, Members(s.clients, owners - todo), event)
        decreases todo
      {
        NonEmpty(todo);
        var owner :| owner in todo;
        MembersOpen(s, owner);
        MembersNext(s, owners - todo, owner);
        SendEach(clients[owner], event);
        SentToUnion(s.chans, Members(s.clients, owners - todo), clients[owner], event);
        todo := todo - {owner};
      }
    }

    method BroadcastAll(event: Event)
      requires Inv(Contents())
      modifies this
      ensures Contents() == After(old(Contents()), CastAll(event)) && Inv(Contents())
      ensures OfferedToAll(old(Contents()), Contents(), event)
    {
      CallKeepsInv(Contents(), CastAll(event));
      CastsOffer(Contents(), 0, event);
      SendToOwners(event);
    }

    method CloseEach(clientSet: set<nat>)
      requires forall ch | ch in clientSet :: ch < |chans| && !chans[ch].closed
      modifies `chans
      ensures chans == Shut(old(chans), clientSet)
    {
      var todo := clientSet;
      while todo != {}
        invariant todo <= clientSet && chans == Shut(old(chans), clientSet - todo)
      {
        var ch :| ch in todo;
        CloseChan(ch);
        todo := todo - {ch};
      }
    }

    /** The loop over the owners, each forgotten once its channels are closed. */
    method CloseOwners()
      requires Inv(Contents())
      modifies this
      ensures clients == map[] && chans == Shut(old(chans), Registered(old(Contents())))
    {
      ghost var s := Contents();
      var owners := set o | o in clients;
      assert owners == clients.Keys;
      var todo := owners;
      while todo != {}
        invariant todo <= owners && clients == s.clients - (owners - todo)
        invariant chans == Shut(s.chans, Members(s.clients, owners - todo))
        decreases todo
      {
        NonEmpty(todo);
        var owner :| owner in todo;
        MembersOpen(s, owner);
        MembersNext(s, owners - todo, owner);
        CloseEach(clients[owner]);
        ShutUnion(s.chans, Members(s.clients, owners - todo), s.clients[owner]);
        clients := clients - {owner};
        todo := todo - {owner};
      }
    }

    method CloseAll()
      requires Inv(Contents())
      modifies this
      ensures Contents() == After(old(Contents()), Close) && Inv(Contents())
      ensures ClosedAll(old(Contents()), Contents())
    {
      CallKeepsInv(Contents(), Close);
      CastsOffer(Contents(), 0, Event("", ""));
      CloseOwners();
    }
  }
}
