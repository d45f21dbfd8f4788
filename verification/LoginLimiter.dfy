/** Login throttling: internal/auth/handlers.go. Times are nanoseconds; every
    reading of the clock is an argument. */
module LoginLimiter {
  import opened Common

  const MAX_FAILURES := 3
  const SECOND := 1_000_000_000
  const MINUTE := 60 * SECOND

  datatype Attempt = Attempt(failures: nat, blockedAt: int)

  /** One request to log in: its address, what it carries, and the clock when
      the limiter is asked (twice) and when the password has been verified. */
  datatype Login = Login(ip: string, post: bool, parses: bool, verified: bool, check: int, again: int, stamp: int)

  /** The session that follows a welcome may still fail; the limiter does not care. */
  datatype Outcome = NotAllowed | Refused(seconds: int) | BadRequest | Wrong | Welcome

  // ------------------------------------------------------- specification

  /** Go's conversion of a float to an int drops the fraction. */
  function WholeSeconds(d: int): int {
    if d >= 0 then d / SECOND else -((-d) / SECOND)
  }

  predicate Blocks(entry: Option<Attempt>, check: int) {
    entry.Some? && entry.value.failures >= MAX_FAILURES && check - entry.value.blockedAt < MINUTE
  }

  predicate Forgets(entry: Option<Attempt>, again: int) {
    entry.Some? && again - entry.value.blockedAt >= MINUTE
  }

  function EntryOf(attempts: map<string, Attempt>, ip: string): Option<Attempt> {
    if ip in attempts then Some(attempts[ip]) else None
  }

  function WithEntry(attempts: map<string, Attempt>, ip: string, entry: Option<Attempt>): map<string, Attempt> {
    if entry.Some? then attempts[ip := entry.value] else attempts - {ip}
  }

  function Failed(entry: Option<Attempt>, now: int): Option<Attempt> {
    Some(Attempt((if entry.Some? then entry.value.failures else 0) + 1, now))
  }

  function OutcomeOf(entry: Option<Attempt>, l: Login): Outcome {
    if !l.post then NotAllowed
    else if Blocks(entry, l.check) then Refused(WholeSeconds(MINUTE - (l.again - entry.value.blockedAt)) + 1)
    else if !l.parses then BadRequest
    else if !l.verified then Wrong
    else Welcome
  }

  function NextEntry(entry: Option<Attempt>, l: Login): Option<Attempt> {
    var o := OutcomeOf(entry, l);
    var kept := if Forgets(entry, l.again) then None else entry;
    if o.NotAllowed? || o.Refused? then entry
    else if o.BadRequest? then kept
    else if o.Wrong? then Failed(kept, l.stamp)
    else None
  }

  function After(attempts: map<string, Attempt>, l: Login): map<string, Attempt> {
    WithEntry(attempts, l.ip, NextEntry(EntryOf(attempts, l.ip), l))
  }

  // ------------------------------------------------------- the limiter

  class RateLimiter {
    var attempts: map<string, Attempt>

    constructor ()
      ensures attempts == map[]
    {
      attempts := map[];
    }

    method IsBlocked(ip: string, check: int, again: int) returns (blocked: bool, remaining: int)
      modifies this
      ensures blocked == Blocks(EntryOf(old(attempts), ip), check)
      ensures blocked ==> remaining == MINUTE - (again - old(attempts)[ip].blockedAt) && attempts == old(attempts)
      ensures !blocked ==>
                && remaining == 0
                && attempts == if Forgets(EntryOf(old(attempts), ip), again) then old(attempts) - {ip} else old(attempts)
      ensures blocked <==> && ip in old(attempts) && old(attempts)[ip].failures >= 3
                           && check - old(attempts)[ip].blockedAt < 60_000_000_000
      ensures attempts == if !blocked && ip in old(attempts) && again - old(attempts)[ip].blockedAt >= 60_000_000_000
                          then old(attempts) - {ip} else old(attempts)
    {
      if ip !in attempts {
        return false, 0;
      }
      var a := attempts[ip];
      if a.failures >= MAX_FAILURES && check - a.blockedAt < MINUTE {
        return true, MINUTE - (again - a.blockedAt);
      }
      if again - a.blockedAt >= MINUTE {
        attempts := attempts - {ip};
      }
      return false, 0;
    }

    method RecordFailure(ip: string, now: int)
      modifies this
      ensures attempts == WithEntry(old(attempts), ip, Failed(EntryOf(old(attempts), ip), now))
      ensures attempts == old(attempts)[ip := Attempt(if ip in old(attempts) then old(attempts)[ip].failures + 1 else 1, now)]
    {
      var a := if ip in attempts then attempts[ip] else Attempt(0, 0);
      attempts := attempts[ip := Attempt(a.failures + 1, now)];
    }

    method ClearFailures(ip: string)
      modifies this
      ensures attempts == old(attempts) - {ip}
    {
      attempts := attempts - {ip};
    }

    /** The whole handler, as far as the limiter is concerned. */
    method HandleLogin(l: Login) returns (o: Outcome)
      modifies this
      ensures o == OutcomeOf(EntryOf(old(attempts), l.ip), l)
      ensures attempts == After(old(attempts), l)
      ensures o.NotAllowed? <==> !l.post
      ensures o.Refused? <==> && l.post && l.ip in old(attempts) && old(attempts)[l.ip].failures >= 3
                              && l.check - old(attempts)[l.ip].blockedAt < 60_000_000_000
      ensures o.BadRequest? <==> l.post && !o.Refused? && !l.parses
      ensures o.Wrong? <==> l.post && !o.Refused? && l.parses && !l.verified
      ensures o.Welcome? <==> l.post && !o.Refused? && l.parses && l.verified
      ensures o.NotAllowed? || o.Refused? ==> attempts == old(attempts)
      ensures o.Welcome? ==> l.ip !in attempts
      ensures o.Wrong? ==> l.ip in attempts && attempts[l.ip].blockedAt == l.stamp
      ensures attempts - {l.ip} == old(attempts) - {l.ip}
    {
      if !l.post {
        return NotAllowed;
      }
      var blocked, remaining := IsBlocked(l.ip, l.check, l.again);
      if blocked {
        return Refused(WholeSeconds(remaining) + 1);
      }
      if !l.parses {
        return BadRequest;
      }
      if !l.verified {
        RecordFailure(l.ip, l.stamp);
        return Wrong;
      }
      ClearFailures(l.ip);
      return Welcome;
    }
  }

  // ------------------------------------------------------- runs

  /** The table after a run that starts with an empty one. */
  function State(run: seq<Login>): map<string, Attempt> {
    if run == [] then map[] else After(State(run[..|run| - 1]), run[|run| - 1])
  }

  /** What the last login of a run was told. */
  function LastOutcome(run: seq<Login>): Outcome
    requires run != []
  {
    var l := run[|run| - 1];
    OutcomeOf(EntryOf(State(run[..|run| - 1]), l.ip), l)
  }

  /** A failed verification: when its login was let through, and when it was recorded. */
  datatype Failure = Failure(again: int, stamp: int)

  /** The failed verifications of an address since its last success: what an
      onlooker sees, with no reference to the limiter's table. */
  function Streak(run: seq<Login>, ip: string): seq<Failure> {
    if run == [] then []
    else
      var before, l := Streak(run[..|run| - 1], ip), run[|run| - 1];
      if l.ip == ip then Extended(before, LastOutcome(run), l) else before
  }

  function Extended(before: seq<Failure>, o: Outcome, l: Login): seq<Failure> {
    if o.Welcome? then [] else if o.Wrong? then before + [Failure(l.again, l.stamp)] else before
  }

  /** The latest clock reading of an address. */
  function Latest(run: seq<Login>, ip: string): Option<int> {
    if run == [] then None
    else if run[|run| - 1].ip == ip then Some(run[|run| - 1].stamp)
    else Latest(run[..|run| - 1], ip)
  }

  /** One login at a time from this address, and a clock that does not go back. */
  ghost predicate Ordered(run: seq<Login>, ip: string) {
    run == [] ||
    (var before, l := run[..|run| - 1], run[|run| - 1];
     && Ordered(before, ip)
     && (l.ip == ip ==>
           && l.check <= l.again <= l.stamp
           && (Latest(before, ip).Some? ==> Latest(before, ip).value <= l.check)))
  }

  /** Failure `k` was let through less than a minute after the one before it was recorded. */
  predicate Near(streak: seq<Failure>, k: int) {
    0 < k < |streak| && streak[k].again - streak[k - 1].stamp < MINUTE
  }

  /** How an entry reflects the streak at time `now`. */
  ghost predicate Reflects(entry: Option<Attempt>, streak: seq<Failure>, now: Option<int>) {
    var n := |streak|;
    && (n > 0 ==> now.Some? && streak[n - 1].stamp <= now.value)
    && match entry
       case None => n > 0 ==> now.value - streak[n - 1].stamp >= MINUTE
       case Some(a) =>
         && 1 <= a.failures <= MAX_FAILURES && a.failures <= n
         && a.blockedAt == streak[n - 1].stamp
         && (forall k | n - a.failures < k < n :: Near(streak, k))
         && !Near(streak, n - a.failures)
  }

  /** Stamps rise along a streak, and no three successive gaps are all short. */
  ghost predicate Spaced(streak: seq<Failure>) {
    && (forall k | 0 <= k < |streak| :: streak[k].again <= streak[k].stamp)
    && (forall k | 0 < k < |streak| :: streak[k - 1].stamp <= streak[k].again)
    && (forall k :: !Burst(streak, k))
  }

  /** Failure `k` is followed by three more, each near the one before. */
  predicate Burst(streak: seq<Failure>, k: int) {
    0 <= k < |streak| - 3 && Near(streak, k + 1) && Near(streak, k + 2) && Near(streak, k + 3)
  }

  lemma NearSnoc(streak: seq<Failure>, f: Failure)
    ensures forall k {:trigger Near(streak, k)} {:trigger Near(streak + [f], k)} | k < |streak| ::
              Near(streak + [f], k) == Near(streak, k)
    ensures Near(streak + [f], |streak|) <==> |streak| > 0 && f.again - streak[|streak| - 1].stamp < MINUTE
  {
  }

  lemma SpacedSnoc(streak: seq<Failure>, f: Failure)
    requires Spaced(streak) && f.again <= f.stamp
    requires |streak| > 0 ==> streak[|streak| - 1].stamp <= f.again
    requires |streak| >= 3 && Near(streak, |streak| - 2) && Near(streak, |streak| - 1) ==> !Near(streak + [f], |streak|)
    ensures Spaced(streak + [f])
  {
    NearSnoc(streak, f);
    forall k ensures !Burst(streak + [f], k) {
      assert !Burst(streak, k);
    }
  }

  /** A login let through to a failure: either the one before it was long ago, or there were at most two near ones. */
  lemma FailureReflected(entry: Option<Attempt>, streak: seq<Failure>, now: Option<int>, l: Login)
    requires Reflects(entry, streak, now) && Spaced(streak)
    requires l.check <= l.again <= l.stamp && (now.Some? ==> now.value <= l.check)
    requires OutcomeOf(entry, l).Wrong?
    ensures Reflects(NextEntry(entry, l), streak + [Failure(l.again, l.stamp)], Some(l.stamp))
    ensures Spaced(streak + [Failure(l.again, l.stamp)])
  {
    var n, f := |streak|, Failure(l.again, l.stamp);
    NearSnoc(streak, f);
    if entry.Some? && !Forgets(entry, l.again) {
      var count := entry.value.failures;
      assert count < MAX_FAILURES && !Near(streak, n - count);
      assert n - count == n - 1 || n - count == n - 2;
    }
    SpacedSnoc(streak, f);
  }

  /** One login of the address, whatever it is told. */
  lemma LoginReflected(entry: Option<Attempt>, streak: seq<Failure>, now: Option<int>, l: Login)
    requires Reflects(entry, streak, now) && Spaced(streak)
    requires l.check <= l.again <= l.stamp && (now.Some? ==> now.value <= l.check)
    ensures var longer := Extended(streak, OutcomeOf(entry, l), l);
            Reflects(NextEntry(entry, l), longer, Some(l.stamp)) && Spaced(longer)
  {
    if OutcomeOf(entry, l).Wrong? {
      FailureReflected(entry, streak, now, l);
    }
  }

  lemma EntryStep(run: seq<Login>, ip: string)
    requires run != []
    ensures var before, l := run[..|run| - 1], run[|run| - 1];
            var entry := EntryOf(State(before), ip);
            EntryOf(State(run), ip) == if l.ip == ip then NextEntry(entry, l) else entry
  {
  }

  /** At every point of a run the table agrees with what an onlooker has seen. */
  lemma {:induction false} TableReflectsStreak(run: seq<Login>, ip: string)
    requires Ordered(run, ip)
    ensures Reflects(EntryOf(State(run), ip), Streak(run, ip), Latest(run, ip)) && Spaced(Streak(run, ip))
    decreases |run|
  {
    if run != [] {
      var before, l := run[..|run| - 1], run[|run| - 1];
      TableReflectsStreak(before, ip);
      EntryStep(run, ip);
      if l.ip == ip {
        LoginReflected(EntryOf(State(before), ip), Streak(before, ip), Latest(before, ip), l);
      }
    }
  }

  /** No address is ever charged with more than three failures. */
  lemma AtMostThree(run: seq<Login>, ip: string)
    requires Ordered(run, ip)
    ensures ip in State(run) ==> 1 <= State(run)[ip].failures <= MAX_FAILURES
  {
    TableReflectsStreak(run, ip);
  }

  /** Four successive failed verifications without a success between them take at least a minute. */
  lemma FourTakeAMinute(run: seq<Login>, ip: string, k: nat)
    requires Ordered(run, ip) && k + 3 < |Streak(run, ip)|
    ensures Streak(run, ip)[k + 3].stamp - Streak(run, ip)[k].stamp >= MINUTE
  {
    TableReflectsStreak(run, ip);
    var s := Streak(run, ip);
    assert !Burst(s, k);
    assert s[k].stamp <= s[k + 1].again <= s[k + 1].stamp <= s[k + 2].again <= s[k + 2].stamp <= s[k + 3].again;
  }

  /** A login is refused exactly if its address has failed three times, with no
      success since the first, each let through within a minute of the one
      before, the last of them less than a minute ago. */
  lemma RefusedExactly(run: seq<Login>)
    requires run != [] && Ordered(run, run[|run| - 1].ip)
    ensures var l := run[|run| - 1];
            var s := Streak(run[..|run| - 1], l.ip);
            LastOutcome(run).Refused? <==>
            l.post && |s| >= 3 && Near(s, |s| - 2) && Near(s, |s| - 1) && l.check - s[|s| - 1].stamp < MINUTE
  {
    var before, l := run[..|run| - 1], run[|run| - 1];
    TableReflectsStreak(before, l.ip);
    var s, entry := Streak(before, l.ip), EntryOf(State(before), l.ip);
    var n := |s|;
    if l.post && n >= 3 && Near(s, n - 2) && Near(s, n - 1) && l.check - s[n - 1].stamp < MINUTE {
      assert entry.Some? ==> entry.value.failures != 1 && entry.value.failures != 2;
    }
    if LastOutcome(run).Refused? {
      assert entry.Some? && entry.value.failures == 3;
      assert Near(s, n - 2) && Near(s, n - 1);
    }
  }

  /** A post with a wrong password, let through at `check` and recorded at `stamp`. */
  function WrongAt(ip: string, check: int, stamp: int): Login {
    Login(ip, true, true, false, check, check, stamp)
  }

  lemma OneMore(run: seq<Login>, l: Login)
    ensures State(run + [l]) == After(State(run), l)
    ensures LastOutcome(run + [l]) == OutcomeOf(EntryOf(State(run), l.ip), l)
  {
    assert (run + [l])[..|run|] == run;
  }

  /** The three failures before a refusal may lie more than a minute apart, when
      verifying a password takes long: here two minutes pass between the first
      and the third, and the fourth attempt is refused all the same. */
  lemma SlowFailuresRefused(ip: string)
    ensures var a, b, c := WrongAt(ip, 0, 50 * SECOND), WrongAt(ip, 60 * SECOND, 110 * SECOND),
                           WrongAt(ip, 120 * SECOND, 170 * SECOND);
            var l := WrongAt(ip, 180 * SECOND, 180 * SECOND);
            && LastOutcome([a]).Wrong? && LastOutcome([a, b]).Wrong? && LastOutcome([a, b, c]).Wrong?
            && LastOutcome([a, b, c, l]).Refused?
            && c.stamp - a.stamp == 2 * MINUTE
  {
    var a, b, c := WrongAt(ip, 0, 50 * SECOND), WrongAt(ip, 60 * SECOND, 110 * SECOND),
                   WrongAt(ip, 120 * SECOND, 170 * SECOND);
    var l := WrongAt(ip, 180 * SECOND, 180 * SECOND);
    assert [] + [a] == [a] && [a] + [b] == [a, b] && [a, b] + [c] == [a, b, c] && [a, b, c] + [l] == [a, b, c, l];
    OneMore([], a);
    OneMore([a], b);
    OneMore([a, b], c);
    OneMore([a, b, c], l);
  }

  /** The wait a refused login is told is long enough: an attempt made that much later is let through. */
  lemma WaitIsEnough(entry: Option<Attempt>, l: Login, later: Login)
    requires OutcomeOf(entry, l).Refused?
    requires later.check >= l.again + OutcomeOf(entry, l).seconds * SECOND
    ensures !OutcomeOf(entry, later).Refused?
  {
    var left := MINUTE - (l.again - entry.value.blockedAt);
    assert (WholeSeconds(left) + 1) * SECOND > left;
  }

  /** Nor is it much too long: at most a second more than the time left, exactly
      if the minute has not run out between the two readings of the clock, or has
      run out by whole seconds; and never more than two seconds more. */
  lemma WaitIsTight(entry: Option<Attempt>, l: Login)
    requires OutcomeOf(entry, l).Refused?
    ensures var left, wait := MINUTE - (l.again - entry.value.blockedAt), OutcomeOf(entry, l).seconds * SECOND;
            && (wait <= left + SECOND <==> left >= 0 || left % SECOND == 0)
            && wait <= left + 2 * SECOND
  {
    var left := MINUTE - (l.again - entry.value.blockedAt);
    if left < 0 {
      var k, r := (-left) / SECOND, (-left) % SECOND;
      assert -left == k * SECOND + r && 0 <= r < SECOND;
      assert r == 0 <==> left % SECOND == 0;
    }
  }

  /** Asked in the last nanosecond of the minute, and again half a second after
      it: one second is announced, and one and a half more than was left. */
  lemma WaitPastTheMinute(entry: Attempt, ip: string) returns (l: Login)
    requires entry.failures >= MAX_FAILURES
    ensures OutcomeOf(Some(entry), l) == Refused(1)
    ensures l.check < l.again && MINUTE - (l.again - entry.blockedAt) == -500_000_000
  {
    var end := entry.blockedAt + MINUTE;
    l := Login(ip, true, true, true, end - 1, end + 500_000_000, end + 500_000_000);
  }

  /** The logins of one address. */
  function Only(run: seq<Login>, ip: string): seq<Login> {
    if run == [] then []
    else
      var rest, l := Only(run[..|run| - 1], ip), run[|run| - 1];
      if l.ip == ip then rest + [l] else rest
  }

  /** One more login, seen from its own address and from another. */
  lemma SeenFrom(run: seq<Login>, l: Login, ip: string)
    ensures var entry := EntryOf(State(run), ip);
            if l.ip == ip
            then && EntryOf(State(run + [l]), ip) == NextEntry(entry, l)
                 && Streak(run + [l], ip) == Extended(Streak(run, ip), OutcomeOf(entry, l), l)
                 && Only(run + [l], ip) == Only(run, ip) + [l]
            else && EntryOf(State(run + [l]), ip) == entry
                 && Streak(run + [l], ip) == Streak(run, ip)
                 && Only(run + [l], ip) == Only(run, ip)
  {
    assert (run + [l])[..|run|] == run;
    EntryStep(run + [l], ip);
  }

  /** Addresses do not affect each other: dropping all logins from elsewhere changes neither entry nor streak. */
  lemma {:induction false} OthersDoNotMatter(run: seq<Login>, ip: string)
    ensures EntryOf(State(run), ip) == EntryOf(State(Only(run, ip)), ip)
    ensures Streak(run, ip) == Streak(Only(run, ip), ip)
    decreases |run|
  {
    if run != [] {
      var before, l := run[..|run| - 1], run[|run| - 1];
      assert run == before + [l];
      OthersDoNotMatter(before, ip);
      SeenFrom(before, l, ip);
      if l.ip == ip {
        SeenFrom(Only(before, ip), l, ip);
      }
    }
  }
}
