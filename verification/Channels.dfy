/** Channel membership and invitations: internal/channels service and store. */
module Channels {
  import opened Common

  datatype ChannelType = Standard | Blackboard | AuctionType

  datatype Channel = Channel(name: string, kind: ChannelType, isPrivate: bool, isSystem: bool, createdBy: string)

  datatype Role = Owner | Member

  datatype InviteStatus = Pending | Accepted | Declined

  datatype Invite = Invite(status: InviteStatus, invitedBy: string)

  /** Key of the channel_members and channel_invites tables. */
  datatype Seat = Seat(channel: nat, agent: string)

  datatype State = State(channels: map<nat, Channel>, members: map<Seat, Role>, invites: map<Seat, Invite>, nextId: nat)

  datatype Failure =
    | InvalidName | NameConflict | ChannelNotFound | NotMember | NotOwner
    | OwnerCannotLeave | NotInvited | SystemChannel | CannotKickSelf

  datatype Call =
    | Create(name: string, kind: ChannelType, isPrivate: bool, isSystem: bool, creator: string)
    | Join(channel: nat, agent: string)
    | Leave(channel: nat, agent: string)
    | InviteTo(channel: nat, agent: string, inviter: string)
    | Kick(channel: nat, agent: string, kicker: string)
    | Broadcast(channel: nat, agent: string)
    | EnsureMine(username: string, human: string)
    | JoinMine(username: string, agent: string)
    | Delete(channel: nat)

  // ------------------------------------------------------- names

  predicate NameStart(c: char) {
    'a' <= c <= 'z' || 'A' <= c <= 'Z' || '0' <= c <= '9'
  }

  predicate NameChar(c: char) {
    NameStart(c) || c == '_' || c == '-'
  }

  /** The pattern of channel names, and the 64-character cap. */
  predicate MatchesPattern(name: string) {
    name != "" && NameStart(name[0]) && forall i | 0 <= i < |name| :: NameChar(name[i])
  }

  predicate ValidName(name: string) {
    |name| <= 64 && MatchesPattern(name)
  }

  function LowerChar(c: char): char {
    if 'A' <= c <= 'Z' then c - 'A' + 'a' else c
  }

  function Lower(s: string): (r: string)
    ensures |r| == |s| && forall i :: 0 <= i < |s| ==> r[i] == LowerChar(s[i])
  {
    seq(|s|, i requires 0 <= i < |s| => LowerChar(s[i]))
  }

  /** The pattern in character codes: 1 to 64 letters, digits, dashes and
      underscores, the first a letter or digit. */
  lemma ValidNameExactly(name: string)
    ensures ValidName(name)
       <==> && 1 <= |name| <= 64 && AlphaNumeric(name[0] as int)
            && forall i | 0 <= i < |name| :: AlphaNumeric(name[i] as int) || name[i] as int == 45 || name[i] as int == 95
  {
  }

  predicate AlphaNumeric(u: int) {
    48 <= u <= 57 || 65 <= u <= 90 || 97 <= u <= 122
  }

  /** Stored names have no capitals, and only capitals are replaced, each by its small letter. */
  lemma LowerExactly(s: string)
    ensures |Lower(s)| == |s|
    ensures forall i | 0 <= i < |s| ::
              Lower(s)[i] as int == s[i] as int + if 65 <= s[i] as int <= 90 then 32 else 0
  {
  }

  const MINE := "my-agents-"

  function MineName(username: string): (r: string)
    ensures MINE <= r
  {
    var r := Lower(MINE + username);
    assert forall i | 0 <= i < |MINE| :: (MINE + username)[i] == MINE[i] && LowerChar(MINE[i]) == MINE[i];
    r
  }

  predicate NameTaken(s: State, name: string) {
    exists c :: c in s.channels && s.channels[c].name == name
  }

  ghost predicate IsNamed(s: State, c: nat, name: string) {
    c in s.channels && s.channels[c].name == name
  }

  // ------------------------------------------------------- calls

  predicate IsOwner(s: State, c: nat, agent: string) {
    Seat(c, agent) in s.members && s.members[Seat(c, agent)].Owner?
  }

  predicate IsPending(s: State, c: nat, agent: string) {
    Seat(c, agent) in s.invites && s.invites[Seat(c, agent)].status.Pending?
  }

  predicate IsMember(s: State, c: nat, agent: string) {
    Seat(c, agent) in s.members
  }

  predicate IsPrivate(s: State, c: nat) {
    c in s.channels && s.channels[c].isPrivate
  }

  function CreateRefusal(s: State, name: string): Option<Failure> {
    if !ValidName(name) then Some(InvalidName)
    else if NameTaken(s, Lower(name)) then Some(NameConflict)
    else None
  }

  function MembershipRefusal(s: State, c: nat, agent: string): Option<Failure> {
    if c !in s.channels then Some(ChannelNotFound) else if !IsMember(s, c, agent) then Some(NotMember) else None
  }

  /** Why a call is refused, if it is. */
  function Refusal(s: State, call: Call): Option<Failure> {
    match call
    case Create(name, _, _, _, _) => CreateRefusal(s, name)
    case Join(c, agent) =>
      if c !in s.channels then Some(ChannelNotFound)
      else if !IsMember(s, c, agent) && IsPrivate(s, c) && !IsPending(s, c, agent) then Some(NotInvited)
      else None
    case Leave(c, agent) =>
      if c in s.channels && s.channels[c].isSystem then Some(SystemChannel)
      else if MembershipRefusal(s, c, agent).Some? then MembershipRefusal(s, c, agent)
      else if IsOwner(s, c, agent) then Some(OwnerCannotLeave)
      else None
    case InviteTo(c, _, inviter) =>
      if MembershipRefusal(s, c, inviter).Some? then MembershipRefusal(s, c, inviter)
      else if !IsOwner(s, c, inviter) then Some(NotOwner)
      else None
    case Kick(c, agent, kicker) =>
      if MembershipRefusal(s, c, kicker).Some? then MembershipRefusal(s, c, kicker)
      else if !IsOwner(s, c, kicker) then Some(NotOwner)
      else if agent == kicker then Some(CannotKickSelf)
      else if !IsMember(s, c, agent) then Some(NotMember)
      else None
    case Broadcast(c, agent) =>
      if c !in s.channels then Some(ChannelNotFound)
      else if !IsMember(s, c, agent) && IsPrivate(s, c) then Some(NotMember)
      else None
    case EnsureMine(username, _) =>
      if NameTaken(s, MineName(username)) then None else CreateRefusal(s, MineName(username))
    case JoinMine(_, _) => None
    case Delete(c) =>
      if c !in s.channels then Some(ChannelNotFound)
      else if s.channels[c].isSystem then Some(SystemChannel)
      else None
  }

  /** Adding a member never touches a role already held. */
  function Added(s: State, c: nat, agent: string, role: Role): State {
    if IsMember(s, c, agent) then s else s.(members := s.members[Seat(c, agent) := role])
  }

  function Created(s: State, name: string, kind: ChannelType, isPrivate: bool, isSystem: bool, creator: string): State {
    Added(s.(channels := s.channels[s.nextId := Channel(Lower(name), kind, isPrivate, isSystem, creator)], nextId := s.nextId + 1),
          s.nextId, creator, Owner)
  }

  /** A private channel takes its invitee's pending invite in exchange. */
  function Joined(s: State, c: nat, agent: string): State {
    if IsMember(s, c, agent) then s
    else if IsPrivate(s, c) && IsPending(s, c, agent)
    then Added(s.(invites := s.invites[Seat(c, agent) := s.invites[Seat(c, agent)].(status := Accepted)]), c, agent, Member)
    else Added(s, c, agent, Member)
  }

  function ChannelNamed(s: State, name: string): (c: nat)
    requires NamesUnique(s) && NameTaken(s, name)
    ensures IsNamed(s, c, name)
  {
    assert exists c :: IsNamed(s, c, name) by {
      var c :| c in s.channels && s.channels[c].name == name;
      assert IsNamed(s, c, name);
    }
    OneNamed(s, name);
    var c :| c in s.channels && s.channels[c].name == name;
    c
  }

  lemma OneNamed(s: State, name: string)
    requires NamesUnique(s)
    ensures forall c, d | IsNamed(s, c, name) && IsNamed(s, d, name) :: c == d
  {
  }

  ghost predicate NamesUnique(s: State) {
    forall c, d | c in s.channels && d in s.channels && s.channels[c].name == s.channels[d].name :: c == d
  }

  ghost function After(s: State, call: Call): State
    requires NamesUnique(s)
  {
    if Refusal(s, call).Some? then s
    else match call
      case Create(name, kind, isPrivate, isSystem, creator) => Created(s, name, kind, isPrivate, isSystem, creator)
      case Join(c, agent) => Joined(s, c, agent)
      case Leave(c, agent) => s.(members := s.members - {Seat(c, agent)})
      case InviteTo(c, agent, inviter) =>
        if IsMember(s, c, agent) then s
        else s.(invites := s.invites[Seat(c, agent) := Invite(Pending, inviter)])
      case Kick(c, agent, _) => s.(members := s.members - {Seat(c, agent)})
      case Broadcast(c, agent) => Joined(s, c, agent)
      case EnsureMine(username, human) =>
        var name := MineName(username);
        if NameTaken(s, name) then Added(s, ChannelNamed(s, name), human, Owner)
        else Created(s, name, Standard, true, true, human)
      case JoinMine(username, agent) =>
        var name := MineName(username);
        if NameTaken(s, name) then Added(s, ChannelNamed(s, name), agent, Member) else s
      case Delete(c) =>
        s.(channels := s.channels - {c},
           members := map seat | seat in s.members && seat.channel != c :: s.members[seat],
           invites := map seat | seat in s.invites && seat.channel != c :: s.invites[seat])
  }

  // ------------------------------------------------------- what always holds

  /** Private and out of reach of the my-agents helpers, which go by name. */
  predicate InviteOnly(s: State, c: nat) {
    IsPrivate(s, c) && !(MINE <= s.channels[c].name)
  }

  ghost predicate HasOwner(s: State, c: nat) {
    exists agent :: IsOwner(s, c, agent)
  }

  ghost predicate Inv(s: State) {
    && NamesUnique(s)
    && (forall c | c in s.channels :: c < s.nextId)
    && (forall seat | seat in s.members :: seat.channel in s.channels)
    && (forall seat | seat in s.invites :: seat.channel in s.channels)
    && (forall c {:trigger HasOwner(s, c)} | c in s.channels :: HasOwner(s, c))
    && (forall c, agent {:trigger IsPending(s, c, agent)} :: InviteOnly(s, c) && IsMember(s, c, agent) ==> !IsPending(s, c, agent))
  }

  /** Between one state and the next: a channel keeps its name and privacy, and a
      member who stays keeps the same role. */
  ghost predicate Follows(s: State, u: State) {
    && (forall c | c in s.channels && c in u.channels :: u.channels[c] == s.channels[c])
    && (forall seat | seat in s.members && seat in u.members :: u.members[seat] == s.members[seat])
    && (forall c | c < s.nextId && c !in s.channels :: c !in u.channels)
    && s.nextId <= u.nextId
  }

  /** Same channels and invites; an owner of every channel keeps the seat. */
  lemma MembersChanged(s: State, u: State)
    requires Inv(s) && u == s.(members := u.members)
    requires forall seat | seat in u.members :: seat.channel in s.channels
    requires forall seat | seat in s.members && seat in u.members :: u.members[seat] == s.members[seat]
    requires forall c {:trigger HasOwner(s, c)} | c in s.channels :: exists agent :: IsOwner(s, c, agent) && IsMember(u, c, agent)
    requires forall c, agent {:trigger IsPending(s, c, agent)} ::
               InviteOnly(s, c) && IsMember(u, c, agent) ==> !IsPending(s, c, agent)
    ensures Inv(u) && Follows(s, u)
  {
    forall c | c in u.channels ensures HasOwner(u, c) {
      assert HasOwner(s, c);
      var agent :| IsOwner(s, c, agent) && IsMember(u, c, agent);
      assert IsOwner(u, c, agent);
    }
    forall c, agent | InviteOnly(u, c) && IsMember(u, c, agent) ensures !IsPending(u, c, agent) {
      assert InviteOnly(s, c) && IsPending(s, c, agent) == IsPending(u, c, agent);
    }
  }

  lemma AddedKeepsInv(s: State, c: nat, agent: string, role: Role)
    requires Inv(s) && c in s.channels && (InviteOnly(s, c) ==> !IsPending(s, c, agent))
    ensures Inv(Added(s, c, agent, role)) && Follows(s, Added(s, c, agent, role))
  {
    var u := Added(s, c, agent, role);
    forall d | d in s.channels ensures exists a :: IsOwner(s, d, a) && IsMember(u, d, a) {
      assert HasOwner(s, d);
      var a :| IsOwner(s, d, a);
      assert IsMember(u, d, a);
    }
    MembersChanged(s, u);
  }

  lemma RemovedKeepsInv(s: State, c: nat, agent: string, owner: string)
    requires Inv(s) && IsOwner(s, c, owner) && owner != agent
    ensures var u := s.(members := s.members - {Seat(c, agent)});
            Inv(u) && Follows(s, u)
  {
    var u := s.(members := s.members - {Seat(c, agent)});
    forall d | d in s.channels ensures exists a :: IsOwner(s, d, a) && IsMember(u, d, a) {
      assert HasOwner(s, d);
      var a :| IsOwner(s, d, a) && (d == c ==> a == owner);
      assert IsMember(u, d, a);
    }
    MembersChanged(s, u);
  }

  lemma InvitesChanged(s: State, c: nat, agent: string, invite: Invite)
    requires Inv(s) && c in s.channels
    requires invite.status.Pending? && InviteOnly(s, c) ==> !IsMember(s, c, agent)
    ensures var u := s.(invites := s.invites[Seat(c, agent) := invite]);
            Inv(u) && Follows(s, u)
  {
    var u := s.(invites := s.invites[Seat(c, agent) := invite]);
    forall d | d in u.channels ensures HasOwner(u, d) {
      assert HasOwner(s, d);
      var a :| IsOwner(s, d, a);
      assert IsOwner(u, d, a);
    }
    forall d, a | InviteOnly(u, d) && IsMember(u, d, a) ensures !IsPending(u, d, a) {
      assert InviteOnly(s, d) && IsMember(s, d, a) && !IsPending(s, d, a);
    }
  }

  /** An invitation written after its membership check has gone stale breaks the
      rule exactly if the agent has become a member of an invite-only channel. */
  lemma LateInvite(s: State, c: nat, agent: string, inviter: string)
    requires Inv(s) && c in s.channels
    ensures Inv(s.(invites := s.invites[Seat(c, agent) := Invite(Pending, inviter)]))
       <==> !(InviteOnly(s, c) && IsMember(s, c, agent))
  {
    var u := s.(invites := s.invites[Seat(c, agent) := Invite(Pending, inviter)]);
    if InviteOnly(s, c) && IsMember(s, c, agent) {
      assert InviteOnly(u, c) && IsMember(u, c, agent) && IsPending(u, c, agent);
    } else {
      InvitesChanged(s, c, agent, Invite(Pending, inviter));
    }
  }

  lemma CreatedKeepsInv(s: State, name: string, kind: ChannelType, isPrivate: bool, isSystem: bool, creator: string)
    requires Inv(s) && !NameTaken(s, Lower(name))
    ensures var u := Created(s, name, kind, isPrivate, isSystem, creator);
            Inv(u) && Follows(s, u)
  {
    var u := Created(s, name, kind, isPrivate, isSystem, creator);
    var c, ch := s.nextId, Channel(Lower(name), kind, isPrivate, isSystem, creator);
    assert Seat(c, creator) !in s.members;
    assert u == s.(channels := s.channels[c := ch], members := s.members[Seat(c, creator) := Owner], nextId := c + 1);
    CreatedOwned(s, u, c, ch, creator);
    forall d, e | d in u.channels && e in u.channels && u.channels[d].name == u.channels[e].name ensures d == e {
      assert d in s.channels ==> s.channels[d].name != ch.name;
      assert e in s.channels ==> s.channels[e].name != ch.name;
    }
  }

  lemma CreatedOwned(s: State, u: State, c: nat, ch: Channel, creator: string)
    requires Inv(s) && c == s.nextId
    requires u == s.(channels := s.channels[c := ch], members := s.members[Seat(c, creator) := Owner], nextId := c + 1)
    ensures forall d {:trigger HasOwner(u, d)} | d in u.channels :: HasOwner(u, d)
    ensures forall d, a {:trigger IsPending(u, d, a)} :: InviteOnly(u, d) && IsMember(u, d, a) ==> !IsPending(u, d, a)
  {
    forall d | d in u.channels ensures HasOwner(u, d) {
      if d == c {
        assert IsOwner(u, d, creator);
      } else {
        assert HasOwner(s, d);
        var a :| IsOwner(s, d, a);
        assert IsOwner(u, d, a);
      }
    }
    forall d, a | InviteOnly(u, d) && IsMember(u, d, a) ensures !IsPending(u, d, a) {
      if d == c {
        assert Seat(d, a) !in s.invites;
      } else {
        assert InviteOnly(s, d) && IsMember(s, d, a) && !IsPending(s, d, a);
      }
    }
  }

  lemma JoinedKeepsInv(s: State, c: nat, agent: string)
    requires Inv(s) && c in s.channels
    requires IsMember(s, c, agent) || !IsPrivate(s, c) || IsPending(s, c, agent)
    ensures Inv(Joined(s, c, agent)) && Follows(s, Joined(s, c, agent))
  {
    if !IsMember(s, c, agent) && IsPrivate(s, c) {
      var seat := Seat(c, agent);
      var accepted := s.invites[seat].(status := Accepted);
      InvitesChanged(s, c, agent, accepted);
      AddedKeepsInv(s.(invites := s.invites[seat := accepted]), c, agent, Member);
    } else {
      AddedKeepsInv(s, c, agent, Member);
    }
  }

  lemma DeletedKeepsInv(s: State, c: nat)
    requires Inv(s) && c in s.channels && !s.channels[c].isSystem
    ensures Inv(After(s, Delete(c))) && Follows(s, After(s, Delete(c)))
  {
    var u := After(s, Delete(c));
    forall d | d in u.channels ensures HasOwner(u, d) {
      assert HasOwner(s, d);
      var a :| IsOwner(s, d, a);
      assert IsOwner(u, d, a);
    }
    forall d, a | InviteOnly(u, d) && IsMember(u, d, a) ensures !IsPending(u, d, a) {
      assert InviteOnly(s, d) && IsMember(s, d, a) && !IsPending(s, d, a);
    }
  }

  lemma CallKeepsInv(s: State, call: Call)
    requires Inv(s)
    ensures Inv(After(s, call)) && Follows(s, After(s, call))
  {
    if Refusal(s, call).None? {
      match call {
        case Create(name, kind, isPrivate, isSystem, creator) =>
          CreatedKeepsInv(s, name, kind, isPrivate, isSystem, creator);
        case Join(c, agent) => JoinedKeepsInv(s, c, agent);
        case Leave(c, agent) =>
          assert HasOwner(s, c);
          var owner :| IsOwner(s, c, owner);
          RemovedKeepsInv(s, c, agent, owner);
        case InviteTo(c, agent, inviter) =>
          if !IsMember(s, c, agent) {
            InvitesChanged(s, c, agent, Invite(Pending, inviter));
          }
        case Kick(c, agent, kicker) => RemovedKeepsInv(s, c, agent, kicker);
        case Broadcast(c, agent) => JoinedKeepsInv(s, c, agent);
        case EnsureMine(username, human) => MineKeepsInv(s, call);
        case JoinMine(username, agent) => MineKeepsInv(s, call);
        case Delete(c) => DeletedKeepsInv(s, c);
      }
    }
  }

  lemma MineKeepsInv(s: State, call: Call)
    requires Inv(s) && (call.EnsureMine? || call.JoinMine?) && Refusal(s, call).None?
    ensures Inv(After(s, call)) && Follows(s, After(s, call))
  {
    var name := MineName(call.username);
    if NameTaken(s, name) {
      var c := ChannelNamed(s, name);
      AddedKeepsInv(s, c, if call.EnsureMine? then call.human else call.agent, if call.EnsureMine? then Owner else Member);
    } else if call.EnsureMine? {
      LowerTwice(MINE + call.username);
      CreatedKeepsInv(s, name, Standard, true, true, call.human);
    }
  }

  lemma LowerTwice(s: string)
    ensures Lower(Lower(s)) == Lower(s)
  {
  }

  // ------------------------------------------------------- whole runs

  ghost function Run(s: State, calls: seq<Call>): State
    requires Inv(s)
    decreases |calls|
  {
    if calls == [] then s
    else
      CallKeepsInv(s, calls[0]);
      Run(After(s, calls[0]), calls[1..])
  }

  /** Over every run: each channel that exists has an owner, and nobody holds
      both a seat and a pending invite in an invite-only channel. */
  lemma {:induction false} RunKeepsInv(s: State, calls: seq<Call>)
    requires Inv(s)
    ensures Inv(Run(s, calls))
    ensures forall c | c < s.nextId && c !in s.channels :: c !in Run(s, calls).channels
    decreases |calls|
  {
    if calls != [] {
      CallKeepsInv(s, calls[0]);
      RunKeepsInv(After(s, calls[0]), calls[1..]);
    }
  }

  /** The call makes `agent` a member of channel `c`. */
  ghost predicate Enters(s: State, call: Call, c: nat, agent: string)
    requires Inv(s)
  {
    !IsMember(s, c, agent) && IsMember(After(s, call), c, agent)
  }

  /** The call is an owner's invitation that leaves a pending invite where there was none. */
  ghost predicate Invites(s: State, call: Call, c: nat, agent: string)
    requires Inv(s)
  {
    && call.InviteTo? && call.channel == c && call.agent == agent && IsOwner(s, c, call.inviter)
    && !IsPending(s, c, agent) && IsPending(After(s, call), c, agent)
  }

  ghost function Entries(s: State, calls: seq<Call>, c: nat, agent: string): nat
    requires Inv(s)
    decreases |calls|
  {
    if calls == [] then 0
    else
      CallKeepsInv(s, calls[0]);
      (if Enters(s, calls[0], c, agent) then 1 else 0) + Entries(After(s, calls[0]), calls[1..], c, agent)
  }

  ghost function Invitations(s: State, calls: seq<Call>, c: nat, agent: string): nat
    requires Inv(s)
    decreases |calls|
  {
    if calls == [] then 0
    else
      CallKeepsInv(s, calls[0]);
      (if Invites(s, calls[0], c, agent) then 1 else 0) + Invitations(After(s, calls[0]), calls[1..], c, agent)
  }

  function PendingCount(s: State, c: nat, agent: string): nat {
    if IsPending(s, c, agent) then 1 else 0
  }

  /** Entries and invites of one call balance; a deleted channel takes its invites along. */
  ghost predicate Balances(s: State, call: Call, c: nat, agent: string)
    requires Inv(s)
  {
    var u := After(s, call);
    var enters := if Enters(s, call, c, agent) then 1 else 0;
    var invites := if Invites(s, call, c, agent) then 1 else 0;
    if c in u.channels
    then InviteOnly(u, c) && enters + PendingCount(u, c, agent) == invites + PendingCount(s, c, agent)
    else enters + PendingCount(u, c, agent) == 0
  }

  /** One call: an entry uses up the pending invite, an owner's invitation is the only source of one. */
  lemma InviteLedger(s: State, call: Call, c: nat, agent: string)
    requires Inv(s) && InviteOnly(s, c)
    ensures Balances(s, call, c, agent)
  {
    if Refusal(s, call).None? {
      if call.EnsureMine? || call.JoinMine? {
        MineElsewhere(s, call, c, agent);
      } else if call.Join? || call.Broadcast? {
        JoinLedger(s, call.channel, call.agent, c, agent);
      } else if call.Create? || call.Delete? {
        CreateDeleteLedger(s, call, c, agent);
      } else {
        InviteLeaveLedger(s, call, c, agent);
      }
    }
  }

  lemma CreateDeleteLedger(s: State, call: Call, c: nat, agent: string)
    requires Inv(s) && InviteOnly(s, c) && Refusal(s, call).None? && (call.Create? || call.Delete?)
    ensures Balances(s, call, c, agent)
  {
    if call.Create? {
      assert c != s.nextId && After(s, call).channels[c] == s.channels[c];
    } else {
      assert call.channel != c ==> IsMember(After(s, call), c, agent) == IsMember(s, c, agent);
    }
  }

  lemma InviteLeaveLedger(s: State, call: Call, c: nat, agent: string)
    requires Inv(s) && InviteOnly(s, c) && Refusal(s, call).None? && (call.InviteTo? || call.Leave? || call.Kick?)
    ensures Balances(s, call, c, agent)
  {
    assert IsMember(s, c, agent) ==> !IsPending(s, c, agent);
  }

  /** A join takes one pending invite per new seat in a private channel. */
  lemma JoinLedger(s: State, d: nat, joiner: string, c: nat, agent: string)
    requires Inv(s) && InviteOnly(s, c) && d in s.channels
    requires IsMember(s, d, joiner) || !IsPrivate(s, d) || IsPending(s, d, joiner)
    ensures var u := Joined(s, d, joiner);
            && u.channels == s.channels
            && (IsMember(s, c, agent) ==> IsMember(u, c, agent))
            && (if IsMember(u, c, agent) && !IsMember(s, c, agent) then 1 else 0) + PendingCount(u, c, agent)
               == PendingCount(s, c, agent)
  {
    assert IsMember(s, c, agent) ==> !IsPending(s, c, agent);
  }

  /** The my-agents helpers never touch a channel with any other kind of name. */
  lemma MineElsewhere(s: State, call: Call, c: nat, agent: string)
    requires Inv(s) && InviteOnly(s, c) && (call.EnsureMine? || call.JoinMine?)
    ensures var u := After(s, call);
            && InviteOnly(u, c)
            && IsMember(u, c, agent) == IsMember(s, c, agent) && IsPending(u, c, agent) == IsPending(s, c, agent)
  {
    var name := MineName(call.username);
    assert s.channels[c].name != name;
    if NameTaken(s, name) {
      assert ChannelNamed(s, name) != c;
    }
  }

  /** Bookkeeping of an invite-only channel over any run: entries are paid for,
      one for one, by invitations an owner wrote, plus the invite that may have
      been pending at the start, less the one that may be left at the end. */
  lemma {:induction false} EntriesArePaid(s: State, calls: seq<Call>, c: nat, agent: string)
    requires Inv(s) && InviteOnly(s, c)
    ensures var u := Run(s, calls);
            var paid := Invitations(s, calls, c, agent) + PendingCount(s, c, agent);
            && Entries(s, calls, c, agent) + PendingCount(u, c, agent) <= paid
            && (c in u.channels ==> Entries(s, calls, c, agent) + PendingCount(u, c, agent) == paid)
    decreases |calls|
  {
    if calls != [] {
      CallKeepsInv(s, calls[0]);
      var u := After(s, calls[0]);
      InviteLedger(s, calls[0], c, agent);
      if c in u.channels {
        EntriesArePaid(u, calls[1..], c, agent);
      } else {
        GoneForGood(u, calls[1..], c, agent);
      }
    }
  }

  lemma {:induction false} GoneForGood(s: State, calls: seq<Call>, c: nat, agent: string)
    requires Inv(s) && c !in s.channels && c < s.nextId
    ensures Entries(s, calls, c, agent) == 0
    ensures c !in Run(s, calls).channels && PendingCount(Run(s, calls), c, agent) == 0
    decreases |calls|
  {
    if calls != [] {
      CallKeepsInv(s, calls[0]);
      GoneForGood(After(s, calls[0]), calls[1..], c, agent);
    }
  }

  /** Once out of an invite-only channel, by leaving or being kicked, there is no
      way back in without a fresh invitation from an owner in between. */
  lemma ReentryNeedsInvite(s: State, out: Call, calls: seq<Call>, c: nat, agent: string)
    requires Inv(s) && InviteOnly(s, c) && IsMember(s, c, agent)
    requires out == Leave(c, agent) || (out.Kick? && out.channel == c && out.agent == agent)
    requires Refusal(s, out).None?
    ensures Inv(After(s, out)) && !IsMember(After(s, out), c, agent)
    ensures IsMember(Run(After(s, out), calls), c, agent) ==> Invitations(After(s, out), calls, c, agent) >= 1
  {
    CallKeepsInv(s, out);
    var u := After(s, out);
    assert IsPending(s, c, agent) == IsPending(u, c, agent);
    EntriesArePaid(u, calls, c, agent);
    if IsMember(Run(u, calls), c, agent) {
      MustEnter(u, calls, c, agent);
    }
  }

  lemma {:induction false} MustEnter(s: State, calls: seq<Call>, c: nat, agent: string)
    requires Inv(s) && !IsMember(s, c, agent) && IsMember(Run(s, calls), c, agent)
    ensures Entries(s, calls, c, agent) >= 1
    decreases |calls|
  {
    CallKeepsInv(s, calls[0]);
    if !Enters(s, calls[0], c, agent) {
      MustEnter(After(s, calls[0]), calls[1..], c, agent);
    }
  }

  // ------------------------------------------------------- the service

  /** Nothing differs but, at most, one seat and its invite. */
  ghost predicate SameBut(s: State, u: State, seat: Seat) {
    && u.channels == s.channels && u.nextId == s.nextId
    && u.members - {seat} == s.members - {seat} && u.invites - {seat} == s.invites - {seat}
  }

  /** The agent has a seat: the one it had, or a new one in the given role. */
  ghost predicate Seated(s: State, u: State, seat: Seat, role: Role) {
    seat in u.members && u.members[seat] == (if seat in s.members then s.members[seat] else role)
  }

  /** The reason a refusal gives is true. */
  ghost predicate Reason(s: State, call: Call, e: Failure) {
    match e
    case InvalidName =>
      if call.Create? then !ValidName(call.name) else call.EnsureMine? && !ValidName(MineName(call.username))
    case NameConflict => call.Create? && exists c :: c in s.channels && s.channels[c].name == Lower(call.name)
    case ChannelNotFound =>
      (call.Join? || call.Leave? || call.InviteTo? || call.Kick? || call.Broadcast? || call.Delete?)
      && call.channel !in s.channels
    case NotMember =>
      || ((call.Leave? || call.Kick? || call.Broadcast?) && Seat(call.channel, call.agent) !in s.members)
      || (call.InviteTo? && Seat(call.channel, call.inviter) !in s.members)
      || (call.Kick? && Seat(call.channel, call.kicker) !in s.members)
    case NotOwner =>
      || (call.InviteTo? && Seat(call.channel, call.inviter) in s.members && s.members[Seat(call.channel, call.inviter)] == Member)
      || (call.Kick? && Seat(call.channel, call.kicker) in s.members && s.members[Seat(call.channel, call.kicker)] == Member)
    case OwnerCannotLeave =>
      call.Leave? && Seat(call.channel, call.agent) in s.members && s.members[Seat(call.channel, call.agent)] == Owner
    case NotInvited =>
      call.Join? && !(Seat(call.channel, call.agent) in s.invites
                      && s.invites[Seat(call.channel, call.agent)].status == Pending)
    case SystemChannel => (call.Leave? || call.Delete?) && call.channel in s.channels && s.channels[call.channel].isSystem
    case CannotKickSelf => call.Kick? && call.agent == call.kicker
  }

  lemma TrueReason(s: State, call: Call)
    ensures Refusal(s, call).Some? ==> Reason(s, call, Refusal(s, call).value)
  {
    if call.EnsureMine? {
      LowerTwice(MINE + call.username);
    }
  }

  /** A join: for members it changes nothing, a public channel takes anyone, a
      private one only an invitee, whose invite is accepted; whoever is let in has
      a seat afterwards. */
  ghost predicate JoinDone(s: State, u: State, c: nat, agent: string, ok: bool) {
    var seat := Seat(c, agent);
    && (ok <==> c in s.channels
                && (|| seat in s.members || !s.channels[c].isPrivate
                    || (seat in s.invites && s.invites[seat].status == Pending)))
    && (!ok || seat in s.members ==> u == s)
    && (ok ==> Seated(s, u, seat, Member) && SameBut(s, u, seat))
    && (ok && seat !in s.members && s.channels[c].isPrivate ==> seat in u.invites && u.invites[seat].status == Accepted)
    && (ok && !s.channels[c].isPrivate ==> u.invites == s.invites)
  }

  lemma JoinDoes(s: State, c: nat, agent: string)
    requires NamesUnique(s)
    ensures JoinDone(s, After(s, Join(c, agent)), c, agent, Refusal(s, Join(c, agent)).None?)
  {
  }

  /** Leaving: for members of channels other than system ones, but not for owners. */
  ghost predicate LeaveDone(s: State, u: State, c: nat, agent: string, ok: bool) {
    var seat := Seat(c, agent);
    && (ok <==> c in s.channels && !s.channels[c].isSystem && seat in s.members && s.members[seat] == Member)
    && (!ok ==> u == s)
    && (ok ==> seat !in u.members && SameBut(s, u, seat) && u.invites == s.invites)
  }

  lemma LeaveDoes(s: State, c: nat, agent: string)
    requires Inv(s)
    ensures LeaveDone(s, After(s, Leave(c, agent)), c, agent, Refusal(s, Leave(c, agent)).None?)
  {
  }

  /** Inviting: for owners; whoever is not a member has a pending invite afterwards. */
  ghost predicate InviteDone(s: State, u: State, c: nat, agent: string, inviter: string, ok: bool) {
    var seat, from := Seat(c, agent), Seat(c, inviter);
    && (ok <==> c in s.channels && from in s.members && s.members[from] == Owner)
    && (!ok || seat in s.members ==> u == s)
    && (ok && seat !in s.members ==>
          seat in u.invites && u.invites[seat] == Invite(Pending, inviter) && u.members == s.members && SameBut(s, u, seat))
  }

  lemma InviteDoes(s: State, c: nat, agent: string, inviter: string)
    requires NamesUnique(s)
    ensures InviteDone(s, After(s, InviteTo(c, agent, inviter)), c, agent, inviter, Refusal(s, InviteTo(c, agent, inviter)).None?)
  {
  }

  /** Kicking: by owners, of other members. */
  ghost predicate KickDone(s: State, u: State, c: nat, agent: string, kicker: string, ok: bool) {
    var seat, from := Seat(c, agent), Seat(c, kicker);
    && (ok <==> c in s.channels && from in s.members && s.members[from] == Owner && agent != kicker && seat in s.members)
    && (!ok ==> u == s)
    && (ok ==> seat !in u.members && SameBut(s, u, seat) && u.invites == s.invites)
  }

  lemma KickDoes(s: State, c: nat, agent: string, kicker: string)
    requires NamesUnique(s)
    ensures KickDone(s, After(s, Kick(c, agent, kicker)), c, agent, kicker, Refusal(s, Kick(c, agent, kicker)).None?)
  {
  }

  /** The human has a seat in the channel of that name, which is there already or
      is a new private system channel with the human as owner. */
  ghost predicate MineDone(s: State, u: State, username: string, human: string) {
    exists c {:trigger IsNamed(u, c, Lower("my-agents-" + username))} ::
      && IsNamed(u, c, Lower("my-agents-" + username)) && u.invites == s.invites
      && Seated(s, u, Seat(c, human), Owner)
      && (c in s.channels ==> SameBut(s, u, Seat(c, human)))
      && (c !in s.channels ==>
            && u.channels == s.channels[c := Channel(Lower("my-agents-" + username), Standard, true, true, human)]
            && u.members == s.members[Seat(c, human) := Owner])
  }

  lemma MineDoes(s: State, username: string, human: string)
    requires Inv(s)
    ensures Refusal(s, EnsureMine(username, human)).None? ==> MineDone(s, After(s, EnsureMine(username, human)), username, human)
  {
    var name := Lower("my-agents-" + username);
    assert MineName(username) == name;
    if Refusal(s, EnsureMine(username, human)).None? {
      var u := After(s, EnsureMine(username, human));
      if NameTaken(s, name) {
        assert IsNamed(u, ChannelNamed(s, name), name);
      } else {
        LowerTwice("my-agents-" + username);
        assert IsNamed(u, s.nextId, name);
      }
    }
  }

  class Service {
    var channels: map<nat, Channel>
    var members: map<Seat, Role>
    var invites: map<Seat, Invite>
    var nextId: nat

    ghost function Now(): State
      reads this
    {
      State(channels, members, invites, nextId)
    }

    constructor ()
      ensures Now() == State(map[], map[], map[], 1) && Inv(Now())
    {
      channels, members, invites, nextId := map[], map[], map[], 1;
    }

    /** INSERT; a row that is already there is left as it is. */
    method AddMember(c: nat, agent: string, role: Role)
      modifies `members
      ensures Now() == Added(old(Now()), c, agent, role)
    {
      if Seat(c, agent) !in members {
        members := members[Seat(c, agent) := role];
      }
    }

    method RemoveMember(c: nat, agent: string) returns (r: Result<(), Failure>)
      modifies `members
      ensures members == old(members) - {Seat(c, agent)}
      ensures r == if Seat(c, agent) in old(members) then Ok(()) else Err(NotMember)
    {
      if Seat(c, agent) !in members {
        return Err(NotMember);
      }
      members := members - {Seat(c, agent)};
      return Ok(());
    }

    /** Upsert: a new invite, or the old row pending again with the new inviter. */
    method CreateInvite(c: nat, agent: string, inviter: string)
      modifies `invites
      ensures invites == old(invites)[Seat(c, agent) := Invite(Pending, inviter)]
    {
      var seat := Seat(c, agent);
      if seat in invites {
        invites := invites[seat := invites[seat].(status := Pending, invitedBy := inviter)];
      } else {
        invites := invites[seat := Invite(Pending, inviter)];
      }
    }

    method AcceptInvite(c: nat, agent: string) returns (r: Result<(), Failure>)
      modifies `invites
      ensures if IsPending(old(Now()), c, agent)
              then r == Ok(()) && invites == old(invites)[Seat(c, agent) := old(invites)[Seat(c, agent)].(status := Accepted)]
              else r == Err(NotInvited) && invites == old(invites)
    {
      var seat := Seat(c, agent);
      if seat !in invites || invites[seat].status != Pending {
        return Err(NotInvited);
      }
      invites := invites[seat := invites[seat].(status := Accepted)];
      return Ok(());
    }

    method CreateChannel(name: string, kind: ChannelType, isPrivate: bool, isSystem: bool, creator: string)
      returns (r: Result<nat, Failure>)
      requires Inv(Now())
      modifies this
      ensures var call := Create(name, kind, isPrivate, isSystem, creator);
              && Now() == After(old(Now()), call) && Inv(Now())
              && r == (match Refusal(old(Now()), call) case Some(e) => Err(e) case None => Ok(old(nextId)))
      ensures r.Ok? <==> ValidName(name) && forall c | c in old(channels) :: old(channels)[c].name != Lower(name)
      ensures r.Err? ==> Now() == old(Now())
      ensures r.Ok? ==>
                && r.value !in old(channels) && invites == old(invites)
                && channels == old(channels)[r.value := Channel(Lower(name), kind, isPrivate, isSystem, creator)]
                && members == old(members)[Seat(r.value, creator) := Owner]
    {
      CallKeepsInv(Now(), Create(name, kind, isPrivate, isSystem, creator));
      if !ValidName(name) {
        return Err(InvalidName);
      }
      var stored := Lower(name);
      if exists c :: c in channels && channels[c].name == stored {
        return Err(NameConflict);
      }
      var id := nextId;
      channels := channels[id := Channel(stored, kind, isPrivate, isSystem, creator)];
      nextId := id + 1;
      AddMember(id, creator, Owner);
      return Ok(id);
    }

    method JoinChannel(c: nat, agent: string) returns (r: Result<(), Failure>)
      requires Inv(Now())
      modifies this
      ensures Now() == After(old(Now()), Join(c, agent)) && Inv(Now())
      ensures r == (match Refusal(old(Now()), Join(c, agent)) case Some(e) => Err(e) case None => Ok(()))
      ensures JoinDone(old(Now()), Now(), c, agent, r.Ok?)
    {
      CallKeepsInv(Now(), Join(c, agent));
      JoinDoes(Now(), c, agent);
      if c !in channels {
        return Err(ChannelNotFound);
      }
      if Seat(c, agent) in members {
        return Ok(());
      }
      if channels[c].isPrivate {
        var seat := Seat(c, agent);
        if !(seat in invites && invites[seat].status == Pending) {
          return Err(NotInvited);
        }
        r := AcceptInvite(c, agent);
      }
      AddMember(c, agent, Member);
      return Ok(());
    }

    method LeaveChannel(c: nat, agent: string) returns (r: Result<(), Failure>)
      requires Inv(Now())
      modifies this
      ensures Now() == After(old(Now()), Leave(c, agent)) && Inv(Now())
      ensures r == (match Refusal(old(Now()), Leave(c, agent)) case Some(e) => Err(e) case None => Ok(()))
      ensures LeaveDone(old(Now()), Now(), c, agent, r.Ok?)
    {
      CallKeepsInv(Now(), Leave(c, agent));
      LeaveDoes(Now(), c, agent);
      if c !in channels {
        return Err(ChannelNotFound);
      }
      if channels[c].isSystem {
        return Err(SystemChannel);
      }
      if Seat(c, agent) !in members {
        return Err(NotMember);
      }
      if members[Seat(c, agent)] == Owner {
        return Err(OwnerCannotLeave);
      }
      r := RemoveMember(c, agent);
    }

    method InviteToChannel(c: nat, agent: string, inviter: string) returns (r: Result<(), Failure>)
      requires Inv(Now())
      modifies this
      ensures Now() == After(old(Now()), InviteTo(c, agent, inviter)) && Inv(Now())
      ensures r == (match Refusal(old(Now()), InviteTo(c, agent, inviter)) case Some(e) => Err(e) case None => Ok(()))
      ensures InviteDone(old(Now()), Now(), c, agent, inviter, r.Ok?)
    {
      CallKeepsInv(Now(), InviteTo(c, agent, inviter));
      InviteDoes(Now(), c, agent, inviter);
      if c !in channels {
        return Err(ChannelNotFound);
      }
      if Seat(c, inviter) !in members {
        return Err(NotMember);
      }
      if members[Seat(c, inviter)] != Owner {
        return Err(NotOwner);
      }
      if Seat(c, agent) !in members {
        CreateInvite(c, agent, inviter);
      }
      return Ok(());
    }

    method KickFromChannel(c: nat, agent: string, kicker: string) returns (r: Result<(), Failure>)
      requires Inv(Now())
      modifies this
      ensures Now() == After(old(Now()), Kick(c, agent, kicker)) && Inv(Now())
      ensures r == (match Refusal(old(Now()), Kick(c, agent, kicker)) case Some(e) => Err(e) case None => Ok(()))
      ensures KickDone(old(Now()), Now(), c, agent, kicker, r.Ok?)
    {
      CallKeepsInv(Now(), Kick(c, agent, kicker));
      KickDoes(Now(), c, agent, kicker);
      if c !in channels {
        return Err(ChannelNotFound);
      }
      if Seat(c, kicker) !in members {
        return Err(NotMember);
      }
      if members[Seat(c, kicker)] != Owner {
        return Err(NotOwner);
      }
      if agent == kicker {
        return Err(CannotKickSelf);
      }
      r := RemoveMember(c, agent);
    }

    /** The membership part of BroadcastMessage: senders join public channels on first send. */
    method AutoJoin(c: nat, agent: string) returns (r: Result<(), Failure>)
      requires Inv(Now())
      modifies this
      ensures Now() == After(old(Now()), Broadcast(c, agent)) && Inv(Now())
      ensures r == (match Refusal(old(Now()), Broadcast(c, agent)) case Some(e) => Err(e) case None => Ok(()))
      ensures var seat := Seat(c, agent);
              && (r.Ok? <==> c in old(channels) && (seat in old(members) || !old(channels)[c].isPrivate))
              && (r.Err? ==> Now() == old(Now()))
              && (r.Ok? ==> Seated(old(Now()), Now(), seat, Member) && SameBut(old(Now()), Now(), seat))
              && invites == old(invites)
    {
      if c !in channels {
        return Err(ChannelNotFound);
      }
      if Seat(c, agent) !in members {
        if channels[c].isPrivate {
          return Err(NotMember);
        }
        r := JoinChannel(c, agent);
        return;
      }
      return Ok(());
    }

    method ChannelByName(name: string) returns (r: Option<nat>)
      requires Inv(Now())
      ensures r == if NameTaken(Now(), name) then Some(ChannelNamed(Now(), name)) else None
    {
      if exists c :: c in channels && channels[c].name == name {
        var c :| c in channels && channels[c].name == name;
        OneNamed(Now(), name);
        assert IsNamed(Now(), c, name);
        return Some(c);
      }
      return None;
    }

    method EnsureMyAgentsChannel(username: string, human: string) returns (r: Result<(), Failure>)
      requires Inv(Now())
      modifies this
      ensures Now() == After(old(Now()), EnsureMine(username, human)) && Inv(Now())
      ensures r == (match Refusal(old(Now()), EnsureMine(username, human)) case Some(e) => Err(e) case None => Ok(()))
      ensures r.Err? ==> Now() == old(Now())
      ensures r.Ok? ==> MineDone(old(Now()), Now(), username, human)
    {
      CallKeepsInv(Now(), EnsureMine(username, human));
      MineDoes(Now(), username, human);
      var name := MineName(username);
      var found := ChannelByName(name);
      if found.Some? {
        if Seat(found.value, human) !in members {
          AddMember(found.value, human, Owner);
        }
        return Ok(());
      }
      var created := CreateChannel(name, Standard, true, true, human);
      if created.Err? {
        return Err(created.error);
      }
      return Ok(());
    }

    method JoinMyAgentsChannel(username: string, agent: string)
      requires Inv(Now())
      modifies this
      ensures Now() == After(old(Now()), JoinMine(username, agent)) && Inv(Now())
      ensures channels == old(channels) && invites == old(invites)
      ensures forall c {:trigger IsNamed(Now(), c, Lower("my-agents-" + username))} ::
                IsNamed(Now(), c, Lower("my-agents-" + username)) ==>
                  Seated(old(Now()), Now(), Seat(c, agent), Member) && SameBut(old(Now()), Now(), Seat(c, agent))
      ensures !NameTaken(Now(), Lower("my-agents-" + username)) ==> Now() == old(Now())
    {
      CallKeepsInv(Now(), JoinMine(username, agent));
      var found := ChannelByName(MineName(username));
      if found.Some? && Seat(found.value, agent) !in members {
        AddMember(found.value, agent, Member);
      }
    }

    method DeleteChannel(c: nat) returns (r: Result<(), Failure>)
      requires Inv(Now())
      modifies this
      ensures Now() == After(old(Now()), Delete(c)) && Inv(Now())
      ensures r == (match Refusal(old(Now()), Delete(c)) case Some(e) => Err(e) case None => Ok(()))
      ensures r.Ok? <==> c in old(channels) && !old(channels)[c].isSystem
      ensures r.Err? ==> Now() == old(Now())
      ensures r.Ok? ==>
                && channels == old(channels) - {c} && nextId == old(nextId)
                && (forall seat :: seat in members <==> seat in old(members) && seat.channel != c)
                && (forall seat | seat in members :: members[seat] == old(members)[seat])
                && (forall seat :: seat in invites <==> seat in old(invites) && seat.channel != c)
                && (forall seat | seat in invites :: invites[seat] == old(invites)[seat])
    {
      CallKeepsInv(Now(), Delete(c));
      if c !in channels {
        return Err(ChannelNotFound);
      }
      if channels[c].isSystem {
        return Err(SystemChannel);
      }
      channels := channels - {c};
      members := map seat | seat in members && seat.channel != c :: members[seat];
      invites := map seat | seat in invites && seat.channel != c :: invites[seat];
      return Ok(());
    }
  }
}
