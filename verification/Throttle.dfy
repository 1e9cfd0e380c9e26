/**
 The sign-in throttle: one bucket per address and class of request, one failure record per
 credential, and the background prune that forgets entries nothing is waiting on.
 */
module Throttle {
  import opened Results
  import TokenBucket
  import Lockout

  datatype Class = Lookup | Credential
  datatype Kind = Password

  type Address = string
  type Door = (Address, Class)
  type Holder = (string, Kind)

  const MINUTES_A_DAY: int := 1440
  const DAY: real := 86400.0

  datatype State = State(addresses: map<Door, TokenBucket.Bucket>, failures: map<Holder, Lockout.Failures>)

  datatype Event =
    | Call(door: Door, limit: int)
    | SignIn(who: Holder, verdict: Lockout.Verdict, threshold: int, lockoutMinutes: int)
    | Prune

  datatype Timed = Timed(at: real, event: Event)

  const EMPTY := State(map[], map[])

  function Get<K, V>(m: map<K, V>, k: K): (v: Option<V>) {
    if k in m then Some(m[k]) else None
  }

  function Put<K, V>(m: map<K, V>, k: K, v: Option<V>): (m': map<K, V>) {
    if v.Some? then m[k := v.value] else m - {k}
  }

  function BucketIsIdle(b: TokenBucket.Bucket, now: real): (idle: bool) {
    TokenBucket.Elapsed(b, now) >= TokenBucket.WINDOW
  }

  function RecordIsStale(r: Lockout.Failures, now: real): (stale: bool) {
    (r.lockedUntil.Some? ==> r.lockedUntil.value <= now) && now - r.lastSeen >= DAY
  }

  function Pruned(s: State, now: real): (s': State) {
    State(map d | d in s.addresses && !BucketIsIdle(s.addresses[d], now) :: s.addresses[d],
          map w | w in s.failures && !RecordIsStale(s.failures[w], now) :: s.failures[w])
  }

  function Step(s: State, t: Timed): (s': State) {
    match t.event
    case Call(door, limit) =>
      s.(addresses := Put(s.addresses, door, TokenBucket.Check(Get(s.addresses, door), limit, t.at).bucket))
    case SignIn(who, verdict, threshold, minutes) =>
      s.(failures := Put(s.failures, who,
                         Lockout.SignIn(Get(s.failures, who), threshold, minutes, Lockout.Attempt(t.at, verdict))))
    case Prune => Pruned(s, t.at)
  }

  /** The wait a caller is told, if it is refused. */
  function Answer(s: State, t: Timed): (wait: Option<real>) {
    match t.event
    case Call(door, limit) => TokenBucket.Check(Get(s.addresses, door), limit, t.at).wait
    case SignIn(who, _, _, _) => Lockout.Remaining(Get(s.failures, who), t.at)
    case Prune => None
  }

  /** The state a run leads to, with its prunes carried out or skipped. */
  function After(events: seq<Timed>, pruning: bool): (s: State) {
    if events == [] then EMPTY
    else
      var before, last := After(events[..|events| - 1], pruning), events[|events| - 1];
      if last.event.Prune? && !pruning then before else Step(before, last)
  }

  predicate InOrder(events: seq<Timed>) {
    forall i, j :: 0 <= i < j < |events| ==> events[i].at <= events[j].at
  }

  predicate WithinADay(events: seq<Timed>) {
    forall i :: 0 <= i < |events| && events[i].event.SignIn? ==> events[i].event.lockoutMinutes < MINUTES_A_DAY
  }

  // ---- Pruning is invisible -------------------------------------------------------

  ghost predicate BucketsAgree(whole: map<Door, TokenBucket.Bucket>, kept: map<Door, TokenBucket.Bucket>, now: real) {
    && (forall d :: d in whole ==> whole[d].tokens >= 0.0)
    && (forall d :: d in kept ==> d in whole && whole[d] == kept[d])
    && (forall d :: d in whole && d !in kept ==> BucketIsIdle(whole[d], now))
  }

  ghost predicate RecordsAgree(whole: map<Holder, Lockout.Failures>, kept: map<Holder, Lockout.Failures>, now: real) {
    && (forall w :: w in kept ==> w in whole && whole[w] == kept[w])
    && (forall w :: w in whole && w !in kept ==> RecordIsStale(whole[w], now))
  }

  /** `kept` is `whole` but for entries that have nothing left to say. */
  ghost predicate Agree(whole: State, kept: State, now: real) {
    BucketsAgree(whole.addresses, kept.addresses, now) && RecordsAgree(whole.failures, kept.failures, now)
  }

  lemma CallsAgree(whole: State, kept: State, door: Door, limit: int, now: real)
    requires Agree(whole, kept, now)
    ensures var w := TokenBucket.Check(Get(whole.addresses, door), limit, now);
            var k := TokenBucket.Check(Get(kept.addresses, door), limit, now);
            && w.wait == k.wait
            && (limit > 0 ==> w.bucket == k.bucket && w.bucket.Some? && w.bucket.value.tokens >= 0.0)
  {
    if limit > 0 {
      TokenBucket.LevelBounds(Get(whole.addresses, door), limit, now);
      if door in whole.addresses && door !in kept.addresses {
        TokenBucket.ForgottenIsFull(whole.addresses[door], limit, now);
      }
    }
  }

  lemma SignInsAgree(whole: State, kept: State, who: Holder, threshold: int, minutes: int, a: Lockout.Attempt)
    requires Agree(whole, kept, a.at)
    ensures Lockout.Remaining(Get(whole.failures, who), a.at) == Lockout.Remaining(Get(kept.failures, who), a.at)
    ensures minutes < MINUTES_A_DAY ==>
      var w := Lockout.SignIn(Get(whole.failures, who), threshold, minutes, a);
      var k := Lockout.SignIn(Get(kept.failures, who), threshold, minutes, a);
      w == k || (k.None? && w.Some? && RecordIsStale(w.value, a.at))
  {
  }

  lemma CallKeepsAgree(whole: State, kept: State, t: Timed)
    requires Agree(whole, kept, t.at) && t.event.Call?
    ensures Agree(Step(whole, t), Step(kept, t), t.at)
  {
    CallsAgree(whole, kept, t.event.door, t.event.limit, t.at);
  }

  lemma SignInKeepsAgree(whole: State, kept: State, t: Timed)
    requires Agree(whole, kept, t.at) && t.event.SignIn? && t.event.lockoutMinutes < MINUTES_A_DAY
    ensures Agree(Step(whole, t), Step(kept, t), t.at)
  {
    var e := t.event;
    SignInsAgree(whole, kept, e.who, e.threshold, e.lockoutMinutes, Lockout.Attempt(t.at, e.verdict));
  }

  lemma AgreeLater(whole: State, kept: State, now: real, later: real)
    requires Agree(whole, kept, now) && now <= later
    ensures Agree(whole, kept, later)
  {
  }

  lemma LastInOrder(events: seq<Timed>, next: Timed)
    requires InOrder(events + [next]) && events != []
    ensures var n := |events| - 1; InOrder(events[..n] + [events[n]]) && events[n].at <= next.at
  {
    var all, n := events + [next], |events| - 1;
    assert events[..n] + [events[n]] == events;
    forall i, j | 0 <= i < j < |events| ensures events[i].at <= events[j].at {
      assert all[i] == events[i] && all[j] == events[j];
    }
    assert all[n] == events[n] && all[n + 1] == next;
  }

  lemma {:induction false} RunsAgree(events: seq<Timed>, next: Timed)
    requires InOrder(events + [next]) && WithinADay(events)
    ensures Agree(After(events, false), After(events, true), next.at)
    decreases |events|
  {
    if events != [] {
      var n := |events| - 1;
      var last := events[n];
      LastInOrder(events, next);
      RunsAgree(events[..n], last);
      var whole, kept := After(events[..n], false), After(events[..n], true);
      match last.event {
        case Call(_, _) => CallKeepsAgree(whole, kept, last);
        case SignIn(_, _, _, _) => SignInKeepsAgree(whole, kept, last);
        case Prune =>
      }
      AgreeLater(After(events, false), After(events, true), last.at, next.at);
    }
  }

  /**
   With lockouts shorter than a day, whatever is pruned and whenever, the next call or
   sign-in is answered as if nothing had ever been forgotten.
   */
  lemma PruningIsInvisible(events: seq<Timed>, next: Timed)
    requires InOrder(events + [next]) && WithinADay(events)
    ensures Answer(After(events, true), next) == Answer(After(events, false), next)
  {
    RunsAgree(events, next);
    match next.event {
      case Call(door, limit) => CallsAgree(After(events, false), After(events, true), door, limit, next.at);
      case SignIn(who, verdict, threshold, minutes) =>
        SignInsAgree(After(events, false), After(events, true), who, threshold, minutes,
                     Lockout.Attempt(next.at, verdict));
      case Prune =>
    }
  }

  predicate Lasts(events: seq<Timed>, minutes: int) {
    forall i :: 0 <= i < |events| && events[i].event.SignIn? ==> events[i].event.lockoutMinutes == minutes
  }

  ghost predicate Invisible(minutes: int) {
    forall events: seq<Timed>, next: Timed :: InOrder(events + [next]) && Lasts(events, minutes) ==>
      Answer(After(events, true), next) == Answer(After(events, false), next)
  }

  function Mistake(who: Holder, at: real, minutes: int): (t: Timed) {
    Timed(at, SignIn(who, Lockout.Wrong, 2, minutes))
  }

  function ADayApart(who: Holder, minutes: int): (events: seq<Timed>) {
    [Mistake(who, 0.0, minutes), Timed(DAY, Prune), Mistake(who, DAY, minutes)]
  }

  /** Two wrong guesses a day apart: a lockout of a day or more still counts the first, unless it was pruned. */
  lemma ADayApartIsForgotten(who: Holder, minutes: int)
    requires minutes >= MINUTES_A_DAY
    ensures var next := Mistake(who, DAY, minutes);
            && Answer(After(ADayApart(who, minutes), false), next).Some?
            && Answer(After(ADayApart(who, minutes), true), next).None?
  {
    var events := ADayApart(who, minutes);
    var first := Lockout.Failures(1, 0.0, None);
    assert events[..2][..1] == [Mistake(who, 0.0, minutes)] && events[..2][..1][..0] == [];
    assert events[..2] == [Mistake(who, 0.0, minutes), Timed(DAY, Prune)];
    assert After(events[..2][..1], false).failures == map[who := first] == After(events[..2][..1], true).failures;
    assert After(events[..2], false).failures == map[who := first];
    assert who !in After(events[..2], true).failures;
    assert Get(After(events, true).failures, who) == Some(Lockout.Failures(1, DAY, None));
    assert Get(After(events, false).failures, who)
        == Some(Lockout.Failures(0, DAY, Some(DAY + Lockout.Duration(minutes))));
  }

  /** A fixed lockout setting keeps pruning invisible exactly when it is shorter than a day. */
  lemma InvisibleIffWithinADay(minutes: int)
    ensures Invisible(minutes) <==> minutes < MINUTES_A_DAY
  {
    if minutes < MINUTES_A_DAY {
      forall events: seq<Timed>, next: Timed | InOrder(events + [next]) && Lasts(events, minutes)
        ensures Answer(After(events, true), next) == Answer(After(events, false), next)
      {
        PruningIsInvisible(events, next);
      }
    } else {
      var who: Holder := ("a", Password);
      var next := Mistake(who, DAY, minutes);
      ADayApartIsForgotten(who, minutes);
      assert Lasts(ADayApart(who, minutes), minutes) && InOrder(ADayApart(who, minutes) + [next]);
    }
  }

  /**
   What a prune drops: buckets untouched for a minute, and records that neither lock now nor
   were touched in the last day. Everything else stays as it is.
   */
  lemma PruneDropsExactly(s: State, now: real)
    requires forall d :: d in s.addresses ==> s.addresses[d].lastRefill <= now
    ensures var r := Step(s, Timed(now, Prune));
            && (forall d :: d in r.addresses <==> d in s.addresses && now - s.addresses[d].lastRefill < 60.0)
            && (forall d :: d in r.addresses ==> r.addresses[d] == s.addresses[d])
            && (forall w :: w in r.failures <==>
                  && w in s.failures
                  && (now - s.failures[w].lastSeen < 86400.0
                      || (s.failures[w].lockedUntil.Some? && s.failures[w].lockedUntil.value > now)))
            && (forall w :: w in r.failures ==> r.failures[w] == s.failures[w])
  {
  }

  /** A call with no limit is admitted and leaves no trace. */
  lemma UnlimitedCall(s: State, door: Door, limit: int, now: real)
    requires limit <= 0
    ensures Answer(s, Timed(now, Call(door, limit))) == None && Step(s, Timed(now, Call(door, limit))) == s
  {
    TokenBucket.NoLimitAdmits(Get(s.addresses, door), limit, now);
    assert Put(s.addresses, door, Get(s.addresses, door)) == s.addresses;
  }

  // ---- Each credential and each address on its own ------------------------------------

  /** The sign-ins of one credential, in order. */
  function AttemptsOf(events: seq<Timed>, who: Holder): (attempts: seq<Lockout.Attempt>) {
    if events == [] then []
    else
      var before, last := AttemptsOf(events[..|events| - 1], who), events[|events| - 1];
      if last.event.SignIn? && last.event.who == who then before + [Lockout.Attempt(last.at, last.event.verdict)]
      else before
  }

  ghost predicate Settings(events: seq<Timed>, threshold: int, minutes: int) {
    forall i :: 0 <= i < |events| && events[i].event.SignIn? ==>
      events[i].event.threshold == threshold && events[i].event.lockoutMinutes == minutes
  }

  lemma {:induction false} RecordIsPlayed(events: seq<Timed>, who: Holder, threshold: int, minutes: int)
    requires Settings(events, threshold, minutes)
    ensures Get(After(events, false).failures, who) == Lockout.Play(AttemptsOf(events, who), threshold, minutes)
  {
    if events != [] {
      var n := |events| - 1;
      RecordIsPlayed(events[..n], who, threshold, minutes);
      var before, last := AttemptsOf(events[..n], who), events[n];
      if last.event.SignIn? && last.event.who == who {
        var a := Lockout.Attempt(last.at, last.event.verdict);
        assert (before + [a])[..|before|] == before;
      }
    }
  }

  lemma {:induction false} AttemptsInOrder(events: seq<Timed>, who: Holder, now: real)
    requires InOrder(events) && (events != [] ==> events[|events| - 1].at <= now)
    ensures Lockout.InOrder(AttemptsOf(events, who))
    ensures var attempts := AttemptsOf(events, who); attempts != [] ==> attempts[|attempts| - 1].at <= now
    decreases |events|
  {
    if events != [] {
      var n := |events| - 1;
      AttemptsInOrder(events[..n], who, events[n].at);
    }
  }

  /** A credential's answer, prunes and other callers notwithstanding, is that of its own attempts. */
  lemma AnswerIsPlayed(events: seq<Timed>, next: Timed, threshold: int, minutes: int)
    requires InOrder(events + [next]) && Settings(events, threshold, minutes) && minutes < MINUTES_A_DAY
    requires next.event.SignIn?
    ensures var attempts := AttemptsOf(events, next.event.who);
            && Lockout.InOrder(attempts) && (attempts != [] ==> attempts[|attempts| - 1].at <= next.at)
            && Answer(After(events, true), next)
               == Lockout.Remaining(Lockout.Play(attempts, threshold, minutes), next.at)
  {
    PruningIsInvisible(events, next);
    RecordIsPlayed(events, next.event.who, threshold, minutes);
    InOrderBefore(events, next);
    AttemptsInOrder(events, next.event.who, next.at);
  }

  /**
   What the throttle answers a sign-in, prunes and other callers notwithstanding: refused
   exactly within the lockout of a failure that completed a run of that credential's own.
   */
  lemma LockoutOverRuns(events: seq<Timed>, next: Timed, threshold: int, minutes: int)
    requires InOrder(events + [next]) && Settings(events, threshold, minutes) && minutes < MINUTES_A_DAY
    requires next.event.SignIn?
    ensures var lockout := Lockout.Duration(minutes);
            Answer(After(events, true), next).Some?
            <==> Lockout.LockedOut(Lockout.Counted(AttemptsOf(events, next.event.who), threshold, lockout),
                                   threshold, lockout, next.at)
  {
    AnswerIsPlayed(events, next, threshold, minutes);
    Lockout.LockoutRefinesHistory(AttemptsOf(events, next.event.who), threshold, minutes, next.at);
  }

  /** And the wait it is told ends with that lockout. */
  lemma WaitOverRuns(events: seq<Timed>, next: Timed, threshold: int, minutes: int)
    requires InOrder(events + [next]) && Settings(events, threshold, minutes) && minutes < MINUTES_A_DAY
    requires next.event.SignIn? && Answer(After(events, true), next).Some?
    ensures var h := Lockout.Counted(AttemptsOf(events, next.event.who), threshold, Lockout.Duration(minutes));
            h != [] && next.at + Answer(After(events, true), next).value == h[|h| - 1].at + Lockout.Duration(minutes)
  {
    AnswerIsPlayed(events, next, threshold, minutes);
    Lockout.WaitEndsWithLockout(AttemptsOf(events, next.event.who), threshold, minutes, next.at);
  }

  lemma InOrderBefore(events: seq<Timed>, next: Timed)
    requires InOrder(events + [next])
    ensures InOrder(events) && (events != [] ==> events[|events| - 1].at <= next.at)
  {
    if events != [] {
      LastInOrder(events, next);
      assert events[..|events| - 1] + [events[|events| - 1]] == events;
    }
  }

  /** When one address called for one class of work. */
  function TimesOf(events: seq<Timed>, door: Door): (times: seq<real>) {
    if events == [] then []
    else
      var before, last := TimesOf(events[..|events| - 1], door), events[|events| - 1];
      if last.event.Call? && last.event.door == door then before + [last.at] else before
  }

  /** How many of them `during` admits, after `before`. */
  function AdmittedOf(before: seq<Timed>, during: seq<Timed>, door: Door, pruning: bool): (n: nat)
    decreases |during|
  {
    if during == [] then 0
    else
      var n, last := |during| - 1, during[|during| - 1];
      AdmittedOf(before, during[..n], door, pruning)
      + (if last.event.Call? && last.event.door == door && Answer(After(before + during[..n], pruning), last).None?
         then 1 else 0)
  }

  predicate Limited(events: seq<Timed>, door: Door, limit: int) {
    forall i :: 0 <= i < |events| && events[i].event.Call? && events[i].event.door == door ==>
      events[i].event.limit == limit
  }

  function BucketAfter(b: Option<TokenBucket.Bucket>, limit: int, times: seq<real>): (b': Option<TokenBucket.Bucket>)
    decreases |times|
  {
    if times == [] then b else BucketAfter(TokenBucket.Check(b, limit, times[0]).bucket, limit, times[1..])
  }

  lemma {:induction false} OneMoreCall(b: Option<TokenBucket.Bucket>, limit: int, times: seq<real>, t: real)
    ensures var c := TokenBucket.Check(BucketAfter(b, limit, times), limit, t);
            && BucketAfter(b, limit, times + [t]) == c.bucket
            && TokenBucket.Admitted(b, limit, times + [t])
               == TokenBucket.Admitted(b, limit, times) + (if c.wait.None? then 1 else 0)
    decreases |times|
  {
    var all := times + [t];
    if times == [] {
      assert all == [t] && all[1..] == [];
      TokenBucket.AdmittedFirst(b, limit, all);
    } else {
      assert all[1..] == times[1..] + [t];
      TokenBucket.AdmittedFirst(b, limit, all);
      TokenBucket.AdmittedFirst(b, limit, times);
      OneMoreCall(TokenBucket.Check(b, limit, times[0]).bucket, limit, times[1..], t);
    }
  }

  lemma {:induction false} AdmittedIsBucketAdmitted(before: seq<Timed>, during: seq<Timed>, door: Door, limit: int)
    requires Limited(during, door, limit)
    ensures var b := Get(After(before, false).addresses, door);
            var times := TimesOf(during, door);
            && Get(After(before + during, false).addresses, door) == BucketAfter(b, limit, times)
            && AdmittedOf(before, during, door, false) == TokenBucket.Admitted(b, limit, times)
    decreases |during|
  {
    if during == [] {
      assert before + during == before;
    } else {
      var n := |during| - 1;
      var last := during[n];
      AdmittedIsBucketAdmitted(before, during[..n], door, limit);
      assert (before + during)[..|before + during| - 1] == before + during[..n];
      assert (before + during)[|before + during| - 1] == last;
      if last.event.Call? && last.event.door == door {
        OneMoreCall(Get(After(before, false).addresses, door), limit, TimesOf(during[..n], door), last.at);
      }
    }
  }

  lemma {:induction false} BucketsStaySane(events: seq<Timed>, door: Door)
    ensures TokenBucket.Sane(Get(After(events, false).addresses, door))
  {
    if events != [] {
      var n := |events| - 1;
      BucketsStaySane(events[..n], door);
      var last := events[n];
      if last.event.Call? && last.event.door == door && last.event.limit > 0 {
        TokenBucket.LevelBounds(Get(After(events[..n], false).addresses, door), last.event.limit, last.at);
      }
    }
  }

  lemma PrefixOfRun(before: seq<Timed>, during: seq<Timed>)
    requires InOrder(before + during) && WithinADay(before + during) && during != []
    ensures var n := |during| - 1;
            && InOrder(before + during[..n]) && WithinADay(before + during[..n])
            && InOrder(before + during[..n] + [during[n]])
  {
    var n := |during| - 1;
    assert before + during[..n] + [during[n]] == before + during;
    var all, part := before + during, before + during[..n];
    assert forall i :: 0 <= i < |part| ==> part[i] == all[i];
  }

  lemma {:induction false} PruningAdmitsTheSame(before: seq<Timed>, during: seq<Timed>, door: Door)
    requires InOrder(before + during) && WithinADay(before + during)
    ensures AdmittedOf(before, during, door, true) == AdmittedOf(before, during, door, false)
    decreases |during|
  {
    if during != [] {
      var n := |during| - 1;
      PrefixOfRun(before, during);
      PruningAdmitsTheSame(before, during[..n], door);
      PruningIsInvisible(before + during[..n], during[n]);
    }
  }

  lemma {:induction false} TimesWithin(events: seq<Timed>, door: Door, first: real, last: real)
    requires InOrder(events)
    requires forall i :: 0 <= i < |events| ==> first <= events[i].at <= last
    ensures TokenBucket.InOrder(TimesOf(events, door))
    ensures forall i :: 0 <= i < |TimesOf(events, door)| ==> first <= TimesOf(events, door)[i] <= last
    decreases |events|
  {
    if events != [] {
      var n := |events| - 1;
      TimesWithin(events[..n], door, first, events[n].at);
    }
  }

  /**
   After any history, under whatever limits, any `span` seconds under one limit admit one
   address at most limit + limit * span / 60 times, prunes notwithstanding.
   */
  lemma AdmissionOverRuns(before: seq<Timed>, during: seq<Timed>, door: Door, limit: int, first: real, span: real)
    requires limit > 0 && span >= 0.0 && Limited(during, door, limit)
    requires InOrder(before + during) && WithinADay(before + during)
    requires forall i :: 0 <= i < |during| ==> first <= during[i].at <= first + span
    ensures AdmittedOf(before, during, door, true) as real
         <= TokenBucket.Capacity(limit) + TokenBucket.Capacity(limit) * span / 60.0
  {
    PruningAdmitsTheSame(before, during, door);
    AdmittedIsBucketAdmitted(before, during, door, limit);
    BucketsStaySane(before, door);
    assert forall i :: 0 <= i < |during| ==> during[i] == (before + during)[|before| + i];
    TimesWithin(during, door, first, first + span);
    TokenBucket.AdmissionBound(Get(After(before, false).addresses, door), limit, TimesOf(during, door), span);
  }

  lemma TimesAfter(before: seq<Timed>, during: seq<Timed>, door: Door)
    requires InOrder(before + during) && during != []
    ensures TokenBucket.InOrder(TimesOf(during, door))
    ensures forall i :: 0 <= i < |TimesOf(during, door)| ==> during[0].at <= TimesOf(during, door)[i]
    ensures forall i :: 0 <= i < |before| ==> before[i].at <= during[0].at
  {
    var all := before + during;
    assert forall i :: 0 <= i < |during| ==> during[i] == all[|before| + i];
    forall i | 0 <= i < |before| ensures before[i].at <= during[0].at { assert all[i].at <= all[|before|].at; }
    TimesWithin(during, door, during[0].at, during[|during| - 1].at);
  }

  /** The calls of a stretch come in order, after all that went before it. */
  lemma CallsFollow(before: seq<Timed>, during: seq<Timed>, door: Door, event: Event)
    requires InOrder(before + during) && WithinADay(before + during) && TimesOf(during, door) != []
    ensures InOrder(before + [Timed(TimesOf(during, door)[0], event)]) && WithinADay(before)
  {
    TimesAfter(before, during, door);
    assert forall i :: 0 <= i < |before| ==> before[i] == (before + during)[i];
  }

  lemma CallsAfter(before: seq<Timed>, during: seq<Timed>, door: Door)
    requires InOrder(before + during) && before != [] && during != []
    ensures TokenBucket.InOrder([before[|before| - 1].at] + TimesOf(during, door))
  {
    TimesAfter(before, during, door);
    var times := TimesOf(during, door);
    var from := [before[|before| - 1].at] + times;
    forall i | 0 < i < |from| ensures from[i - 1] <= from[i] {
      if i > 1 { assert times[i - 2] <= times[i - 1]; }
    }
  }

  lemma RunUpTo(before: seq<Timed>, call: Timed, during: seq<Timed>)
    requires InOrder(before + [call] + during) && WithinADay(before + [call] + during)
    ensures InOrder(before + [call]) && WithinADay(before)
  {
    var all := before + [call] + during;
    assert forall i :: 0 <= i <= |before| ==> (before + [call])[i] == all[i];
    assert forall i :: 0 <= i < |before| ==> before[i] == all[i];
  }

  /**
   Over whole runs with prunes and other callers, an address that could call once and then
   spaces its calls at least 60 / limit seconds apart is never refused.
   */
  lemma SpacingOverRuns(before: seq<Timed>, during: seq<Timed>, door: Door, limit: int, gap: real)
    requires limit > 0 && Limited(during, door, limit) && gap * limit as real >= 60.0
    requires InOrder(before + during) && WithinADay(before + during)
    requires var times := TimesOf(during, door);
             && times != [] && (forall i :: 0 < i < |times| ==> times[i] - times[i - 1] >= gap)
             && Answer(After(before, true), Timed(times[0], Call(door, limit))).None?
    ensures AdmittedOf(before, during, door, true) == |TimesOf(during, door)|
  {
    var times := TimesOf(during, door);
    CallsFollow(before, during, door, Call(door, limit));
    PruningIsInvisible(before, Timed(times[0], Call(door, limit)));
    PruningAdmitsTheSame(before, during, door);
    AdmittedIsBucketAdmitted(before, during, door, limit);
    BucketsStaySane(before, door);
    TokenBucket.SpacedCallsAdmitted(Get(After(before, false).addresses, door), limit, times, gap);
  }

  lemma RefusedLeaves(b: Option<TokenBucket.Bucket>, limit: int, now: real, wait: real)
    requires limit > 0 && TokenBucket.Sane(b) && TokenBucket.Check(b, limit, now).wait == Some(wait)
    ensures var left := TokenBucket.Check(b, limit, now).bucket;
            && left.Some? && 0.0 <= left.value.tokens < 1.0 && left.value.lastRefill == now
            && TokenBucket.ReadyAt(left.value, limit) == now + wait
  {
    TokenBucket.LevelBounds(b, limit, now);
  }

  /**
   Over whole runs with prunes and other callers, retries before the wait a refused call was
   told are refused, and do not postpone it.
   */
  lemma RetriesOverRuns(
    before: seq<Timed>, call: Timed, during: seq<Timed>, limit: int, wait: real, retries: seq<real>, final: real)
    requires limit > 0 && call.event.Call? && call.event.limit == limit && Limited(during, call.event.door, limit)
    requires InOrder(before + [call] + during) && WithinADay(before + [call] + during)
    requires Answer(After(before, true), call) == Some(wait)
    requires TimesOf(during, call.event.door) == retries + [final]
    requires forall i :: 0 <= i < |retries| ==> retries[i] < call.at + wait
    ensures AdmittedOf(before + [call], during, call.event.door, true) == if final >= call.at + wait then 1 else 0
  {
    var door := call.event.door;
    var b := Get(After(before, false).addresses, door);
    CallsAfter(before + [call], during, door);
    RunUpTo(before, call, during);
    assert [call.at] + (retries + [final]) == [call.at] + retries + [final];
    PruningIsInvisible(before, call);
    BucketsStaySane(before, door);
    RefusedLeaves(b, limit, call.at, wait);
    PruningAdmitsTheSame(before + [call], during, door);
    AdmittedIsBucketAdmitted(before + [call], during, door, limit);
    assert (before + [call])[..|before + [call]| - 1] == before;
    TokenBucket.RetriesDoNotPostpone(TokenBucket.Check(b, limit, call.at).bucket.value, limit, retries, final);
  }

  // ---- The two maps behind their lock ------------------------------------------------

  /** Each method reads the clock once, as `now`. */
  class AuthThrottle {
    var addresses: map<Door, TokenBucket.Bucket>
    var failures: map<Holder, Lockout.Failures>

    ghost function View(): (s: State)
      reads this
    {
      State(addresses, failures)
    }

    constructor ()
      ensures View() == EMPTY
    {
      addresses := map[];
      failures := map[];
    }

    method CheckAddress(door: Door, limit: int, now: real) returns (wait: Option<real>)
      modifies this
      ensures var t := Timed(now, Call(door, limit));
              wait == Answer(old(View()), t) && View() == Step(old(View()), t)
    {
      if limit <= 0 {
        assert Put(addresses, door, Get(addresses, door)) == addresses;
        return None;
      }
      var capacity := TokenBucket.Capacity(limit);
      var perSecond := TokenBucket.Rate(limit);
      var bucket := if door in addresses then addresses[door] else TokenBucket.Bucket(capacity, now);
      var refilled := bucket.tokens + TokenBucket.Elapsed(bucket, now) * perSecond;
      bucket := bucket.(tokens := TokenBucket.Min(refilled, capacity), lastRefill := now);
      if bucket.tokens < 1.0 {
        addresses := addresses[door := bucket];
        return Some((1.0 - bucket.tokens) / perSecond);
      }
      addresses := addresses[door := bucket.(tokens := bucket.tokens - 1.0)];
      return None;
    }

    method LockoutRemaining(who: Holder, now: real) returns (wait: Option<real>)
      modifies this`failures
      ensures wait == Lockout.Remaining(Get(old(failures), who), now)
      ensures failures == Put(old(failures), who, Lockout.Looked(Get(old(failures), who), now))
    {
      if who !in failures || failures[who].lockedUntil.None? { return None; }
      var until := failures[who].lockedUntil.value;
      if until <= now {
        failures := failures - {who};
        return None;
      }
      return Some(until - now);
    }

    method RecordFailure(who: Holder, threshold: int, lockoutMinutes: int, now: real)
      modifies this`failures
      ensures failures
           == Put(old(failures), who, Lockout.Failed(Get(old(failures), who), threshold, lockoutMinutes, now))
    {
      if threshold <= 0 { return; }
      var lockout := Lockout.Duration(lockoutMinutes);
      var record := if who in failures then failures[who] else Lockout.Failures(0, now, None);
      if now - record.lastSeen > lockout {
        record := record.(count := 0);
      }
      record := record.(count := record.count + 1, lastSeen := now);
      if record.count >= threshold {
        record := record.(lockedUntil := Some(now + lockout), count := 0);
      }
      failures := failures[who := record];
    }

    method RecordSuccess(who: Holder)
      modifies this`failures
      ensures failures == Put(old(failures), who, None)
    {
      failures := failures - {who};
    }

    method Prune(now: real)
      modifies this
      ensures View() == Step(old(View()), Timed(now, Event.Prune))
    {
      addresses := map d | d in addresses && !BucketIsIdle(addresses[d], now) :: addresses[d];
      failures := map w | w in failures && !RecordIsStale(failures[w], now) :: failures[w];
    }

    /** What `login` does with the throttle once it has counted the request. */
    method SignInWith(who: Holder, verdict: Lockout.Verdict, threshold: int, lockoutMinutes: int, now: real)
      returns (wait: Option<real>)
      modifies this`failures
      ensures var t := Timed(now, SignIn(who, verdict, threshold, lockoutMinutes));
              wait == Answer(old(View()), t) && View() == Step(old(View()), t)
    {
      wait := LockoutRemaining(who, now);
      if wait.None? {
        match verdict {
          case Wrong => RecordFailure(who, threshold, lockoutMinutes, now);
          case Right => RecordSuccess(who);
          case Neither =>
        }
      }
    }
  }
}
