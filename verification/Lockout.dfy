/**
 The failed-login counter of one credential, and what it means in terms of the plain
 history of sign-in attempts.
 */
module Lockout {
  import opened Results

  datatype Failures = Failures(count: int, lastSeen: real, lockedUntil: Option<real>)

  function Duration(lockoutMinutes: int): (d: real) {
    (if lockoutMinutes < 1 then 1 else lockoutMinutes) as real * 60.0
  }

  /** The lookup: an expired lock is cleared; otherwise the remaining wait, if locked. */
  function Looked(r: Option<Failures>, now: real): (r': Option<Failures>) {
    if r.Some? && r.value.lockedUntil.Some? && r.value.lockedUntil.value <= now then None else r
  }

  function Remaining(r: Option<Failures>, now: real): (wait: Option<real>) {
    if r.Some? && r.value.lockedUntil.Some? && r.value.lockedUntil.value > now
    then Some(r.value.lockedUntil.value - now) else None
  }

  function Failed(r: Option<Failures>, threshold: int, lockoutMinutes: int, now: real): (r': Option<Failures>) {
    if threshold <= 0 then r
    else
      var lockout := Duration(lockoutMinutes);
      var record := if r.Some? then r.value else Failures(0, now, None);
      var kept := if now - record.lastSeen > lockout then 0 else record.count;
      if kept + 1 >= threshold then Some(Failures(0, now, Some(now + lockout)))
      else Some(Failures(kept + 1, now, record.lockedUntil))
  }

  /** What verifying the credential comes to; `Neither` is an account without a usable password. */
  datatype Verdict = Wrong | Right | Neither

  datatype Attempt = Attempt(at: real, verdict: Verdict)

  /** A sign-in looks the lock up first, and records only if it gets past it. */
  function SignIn(r: Option<Failures>, threshold: int, lockoutMinutes: int, a: Attempt): (r': Option<Failures>) {
    var looked := Looked(r, a.at);
    if Remaining(r, a.at).Some? then looked
    else
      match a.verdict
      case Wrong => Failed(looked, threshold, lockoutMinutes, a.at)
      case Right => None
      case Neither => looked
  }

  function Play(attempts: seq<Attempt>, threshold: int, lockoutMinutes: int): (r: Option<Failures>) {
    if attempts == [] then None
    else
      var n := |attempts| - 1;
      SignIn(Play(attempts[..n], threshold, lockoutMinutes), threshold, lockoutMinutes, attempts[n])
  }

  // ---- The same, said of the history --------------------------------------------

  /**
   Failure `j` of a history of counted attempts completes a run: the last `threshold`
   attempts up to it are all wrong, none came more than a lockout after the one before,
   and none of the earlier ones completed a run itself.
   */
  ghost predicate Completes(h: seq<Attempt>, threshold: int, lockout: real, j: nat)
    requires j < |h|
    decreases j
  {
    && 1 <= threshold <= j + 1
    && (forall i :: j + 1 - threshold <= i <= j ==> h[i].verdict == Wrong)
    && (forall i :: j + 1 - threshold < i <= j ==> h[i].at - h[i - 1].at <= lockout)
    && (forall i: nat :: j + 1 - threshold <= i < j ==> !Completes(h, threshold, lockout, i))
  }

  ghost predicate LockedOut(h: seq<Attempt>, threshold: int, lockout: real, now: real) {
    exists j: nat :: j < |h| && Completes(h, threshold, lockout, j) && now < h[j].at + lockout
  }

  /** The attempts that count: neither refused for lockout nor without a verdict. */
  ghost function Counted(attempts: seq<Attempt>, threshold: int, lockout: real): (h: seq<Attempt>) {
    if attempts == [] then []
    else
      var before := Counted(attempts[..|attempts| - 1], threshold, lockout);
      var a := attempts[|attempts| - 1];
      if LockedOut(before, threshold, lockout, a.at) || a.verdict == Neither then before else before + [a]
  }

  predicate InOrder(attempts: seq<Attempt>) {
    forall i :: 0 < i < |attempts| ==> attempts[i - 1].at <= attempts[i].at
  }

  // ---- Runs of failures -------------------------------------------------------------

  /** Wrong attempts in a row up to `j` since the last success, long gap or completed run. */
  ghost function Streak(h: seq<Attempt>, threshold: int, lockout: real, j: nat): (n: nat)
    requires j < |h|
  {
    if h[j].verdict != Wrong then 0
    else if j > 0 && h[j].at - h[j - 1].at <= lockout && !Completes(h, threshold, lockout, j - 1)
    then Streak(h, threshold, lockout, j - 1) + 1
    else 1
  }

  lemma {:induction false} StreakIsARun(h: seq<Attempt>, threshold: int, lockout: real, j: nat)
    requires j < |h|
    ensures var s := Streak(h, threshold, lockout, j);
            && s <= j + 1
            && (forall i :: j + 1 - s <= i <= j ==> h[i].verdict == Wrong)
            && (forall i :: j + 1 - s < i <= j ==> h[i].at - h[i - 1].at <= lockout)
            && (forall i: nat :: j + 1 - s <= i < j ==> !Completes(h, threshold, lockout, i))
  {
    if j > 0 { StreakIsARun(h, threshold, lockout, j - 1); }
  }

  lemma {:induction false} RunIsInStreak(h: seq<Attempt>, threshold: int, lockout: real, first: nat, j: nat)
    requires first <= j < |h|
    requires forall i :: first <= i <= j ==> h[i].verdict == Wrong
    requires forall i :: first < i <= j ==> h[i].at - h[i - 1].at <= lockout
    requires forall i: nat :: first <= i < j ==> !Completes(h, threshold, lockout, i)
    ensures Streak(h, threshold, lockout, j) >= j + 1 - first
  {
    if first < j { RunIsInStreak(h, threshold, lockout, first, j - 1); }
  }

  /** A failure completes a run exactly when the streak up to it has reached the threshold. */
  lemma CompletesIffStreak(h: seq<Attempt>, threshold: int, lockout: real, j: nat)
    requires j < |h| && threshold >= 1
    ensures Completes(h, threshold, lockout, j) <==> Streak(h, threshold, lockout, j) >= threshold
  {
    StreakIsARun(h, threshold, lockout, j);
    if Completes(h, threshold, lockout, j) {
      RunIsInStreak(h, threshold, lockout, j + 1 - threshold, j);
    }
  }

  lemma {:induction false} CompletesOfLonger(h: seq<Attempt>, a: Attempt, threshold: int, lockout: real, j: nat)
    requires j < |h|
    ensures Completes(h + [a], threshold, lockout, j) <==> Completes(h, threshold, lockout, j)
    decreases j
  {
    var longer := h + [a];
    assert forall i :: 0 <= i <= j ==> longer[i] == h[i];
    forall i: nat | i < j
      ensures Completes(longer, threshold, lockout, i) <==> Completes(h, threshold, lockout, i)
    {
      CompletesOfLonger(h, a, threshold, lockout, i);
    }
    if 1 <= threshold <= j + 1 {
      assert (forall i :: j + 1 - threshold <= i <= j ==> longer[i].verdict == Wrong)
        <==> (forall i :: j + 1 - threshold <= i <= j ==> h[i].verdict == Wrong);
      GapsOfLonger(h, a, lockout, j + 1 - threshold, j);
    }
  }

  lemma GapsOfLonger(h: seq<Attempt>, a: Attempt, lockout: real, first: nat, j: nat)
    requires first <= j < |h|
    ensures (forall i :: first < i <= j ==> (h + [a])[i].at - (h + [a])[i - 1].at <= lockout)
       <==> (forall i :: first < i <= j ==> h[i].at - h[i - 1].at <= lockout)
  {
    var longer := h + [a];
    if forall i :: first < i <= j ==> longer[i].at - longer[i - 1].at <= lockout {
      forall i | first < i <= j ensures h[i].at - h[i - 1].at <= lockout {
        assert longer[i] == h[i] && longer[i - 1] == h[i - 1];
      }
    }
  }

  lemma {:induction false} StreakOfLonger(h: seq<Attempt>, a: Attempt, threshold: int, lockout: real, j: nat)
    requires j < |h|
    ensures Streak(h + [a], threshold, lockout, j) == Streak(h, threshold, lockout, j)
  {
    if j > 0 {
      CompletesOfLonger(h, a, threshold, lockout, j - 1);
      StreakOfLonger(h, a, threshold, lockout, j - 1);
    }
  }

  // ---- The record against the history -------------------------------------------------

  /** No run completed before the last counted attempt still locks. */
  ghost predicate EarlierExpired(h: seq<Attempt>, threshold: int, lockout: real) {
    forall j: nat :: j < |h| - 1 && Completes(h, threshold, lockout, j) ==> h[j].at + lockout <= h[|h| - 1].at
  }

  ghost predicate Reflects(r: Option<Failures>, h: seq<Attempt>, threshold: int, lockout: real, now: real) {
    && EarlierExpired(h, threshold, lockout)
    && (h != [] ==> h[|h| - 1].at <= now)
    && match r
       case None =>
         h != [] && h[|h| - 1].verdict == Wrong ==>
           Completes(h, threshold, lockout, |h| - 1) && h[|h| - 1].at + lockout <= now
       case Some(f) =>
         && h != [] && h[|h| - 1].verdict == Wrong && f.lastSeen == h[|h| - 1].at
         && (if Completes(h, threshold, lockout, |h| - 1)
             then f.count == 0 && f.lockedUntil == Some(h[|h| - 1].at + lockout)
             else f.count == Streak(h, threshold, lockout, |h| - 1) && f.lockedUntil == None)
  }

  lemma RefusalMatches(r: Option<Failures>, h: seq<Attempt>, threshold: int, lockout: real, now: real)
    requires threshold >= 1 && Reflects(r, h, threshold, lockout, now)
    ensures Remaining(r, now).Some? <==> LockedOut(h, threshold, lockout, now)
    ensures Remaining(r, now).Some? ==>
      && h != [] && Completes(h, threshold, lockout, |h| - 1)
      && now + Remaining(r, now).value == h[|h| - 1].at + lockout
  {
    if LockedOut(h, threshold, lockout, now) {
      var j: nat :| j < |h| && Completes(h, threshold, lockout, j) && now < h[j].at + lockout;
      assert j == |h| - 1;
      assert h[j].verdict == Wrong;
    }
  }

  lemma ExpiryKept(h: seq<Attempt>, a: Attempt, threshold: int, lockout: real)
    requires EarlierExpired(h, threshold, lockout) && !LockedOut(h, threshold, lockout, a.at)
    ensures EarlierExpired(h + [a], threshold, lockout)
  {
    forall j: nat | j < |h + [a]| - 1 && Completes(h + [a], threshold, lockout, j)
      ensures (h + [a])[j].at + lockout <= a.at
    {
      CompletesOfLonger(h, a, threshold, lockout, j);
    }
  }

  lemma FailureKeepsReflects(r: Option<Failures>, h: seq<Attempt>, threshold: int, lockoutMinutes: int, a: Attempt)
    requires threshold >= 1 && a.verdict == Wrong
    requires var lockout := Duration(lockoutMinutes);
             Reflects(r, h, threshold, lockout, a.at) && !LockedOut(h, threshold, lockout, a.at)
    ensures Reflects(SignIn(r, threshold, lockoutMinutes, a), h + [a], threshold, Duration(lockoutMinutes), a.at)
  {
    var lockout := Duration(lockoutMinutes);
    var h' := h + [a];
    var n := |h|;
    RefusalMatches(r, h, threshold, lockout, a.at);
    ExpiryKept(h, a, threshold, lockout);
    CompletesIffStreak(h', threshold, lockout, n);
    if n > 0 {
      CompletesOfLonger(h, a, threshold, lockout, n - 1);
      StreakOfLonger(h, a, threshold, lockout, n - 1);
      CompletesIffStreak(h, threshold, lockout, n - 1);
    }
  }

  lemma AttemptKeepsReflects(r: Option<Failures>, h: seq<Attempt>, threshold: int, lockoutMinutes: int, a: Attempt)
    requires threshold >= 1
    requires Reflects(r, h, threshold, Duration(lockoutMinutes), a.at)
    ensures var skipped := LockedOut(h, threshold, Duration(lockoutMinutes), a.at) || a.verdict == Neither;
            var h' := if skipped then h else h + [a];
            Reflects(SignIn(r, threshold, lockoutMinutes, a), h', threshold, Duration(lockoutMinutes), a.at)
  {
    var lockout := Duration(lockoutMinutes);
    RefusalMatches(r, h, threshold, lockout, a.at);
    if !LockedOut(h, threshold, lockout, a.at) {
      if a.verdict == Wrong {
        FailureKeepsReflects(r, h, threshold, lockoutMinutes, a);
      } else if a.verdict == Right {
        ExpiryKept(h, a, threshold, lockout);
      }
    }
  }

  lemma PrefixInOrder(attempts: seq<Attempt>)
    requires InOrder(attempts) && attempts != []
    ensures InOrder(attempts[..|attempts| - 1])
    ensures |attempts| > 1 ==> attempts[|attempts| - 2].at <= attempts[|attempts| - 1].at
  {
    var before := attempts[..|attempts| - 1];
    forall i | 0 < i < |before| ensures before[i - 1].at <= before[i].at {
      assert attempts[i - 1].at <= attempts[i].at;
    }
  }

  lemma ReflectsLater(r: Option<Failures>, h: seq<Attempt>, threshold: int, lockout: real, now: real, later: real)
    requires Reflects(r, h, threshold, lockout, now) && now <= later
    ensures Reflects(r, h, threshold, lockout, later)
  {
  }

  /** The record and the counted history, both one attempt on. */
  lemma {:induction false} PlayReflects(attempts: seq<Attempt>, threshold: int, lockoutMinutes: int, now: real)
    requires threshold >= 1 && InOrder(attempts)
    requires attempts != [] ==> attempts[|attempts| - 1].at <= now
    ensures Reflects(Play(attempts, threshold, lockoutMinutes),
                     Counted(attempts, threshold, Duration(lockoutMinutes)), threshold, Duration(lockoutMinutes), now)
    decreases |attempts|
  {
    if attempts != [] {
      var n := |attempts| - 1;
      var before, a := attempts[..n], attempts[n];
      PrefixInOrder(attempts);
      PlayReflects(before, threshold, lockoutMinutes, a.at);
      var r, h := Play(before, threshold, lockoutMinutes), Counted(before, threshold, Duration(lockoutMinutes));
      AttemptKeepsReflects(r, h, threshold, lockoutMinutes, a);
      PlayLast(attempts, threshold, lockoutMinutes);
      ReflectsLater(Play(attempts, threshold, lockoutMinutes), Counted(attempts, threshold, Duration(lockoutMinutes)),
                    threshold, Duration(lockoutMinutes), a.at, now);
    }
  }

  lemma PlayLast(attempts: seq<Attempt>, threshold: int, lockoutMinutes: int)
    requires attempts != []
    ensures var n := |attempts| - 1;
            var lockout := Duration(lockoutMinutes);
            var h := Counted(attempts[..n], threshold, lockout);
            && Play(attempts, threshold, lockoutMinutes)
               == SignIn(Play(attempts[..n], threshold, lockoutMinutes), threshold, lockoutMinutes, attempts[n])
            && Counted(attempts, threshold, lockout)
               == (if LockedOut(h, threshold, lockout, attempts[n].at) || attempts[n].verdict == Neither then h
                   else h + [attempts[n]])
  {
  }

  lemma {:induction false} ZeroThresholdNeverRecords(attempts: seq<Attempt>, threshold: int, lockoutMinutes: int)
    requires threshold <= 0
    ensures Play(attempts, threshold, lockoutMinutes) == None
  {
    if attempts != [] { ZeroThresholdNeverRecords(attempts[..|attempts| - 1], threshold, lockoutMinutes); }
  }

  /**
   The counter refines the history: after any attempts, one at `now` is refused for lockout
   exactly when `now` falls within the lockout of a failure that completed a run.
   */
  lemma LockoutRefinesHistory(attempts: seq<Attempt>, threshold: int, lockoutMinutes: int, now: real)
    requires InOrder(attempts) && (attempts != [] ==> attempts[|attempts| - 1].at <= now)
    ensures Remaining(Play(attempts, threshold, lockoutMinutes), now).Some?
       <==> LockedOut(Counted(attempts, threshold, Duration(lockoutMinutes)), threshold, Duration(lockoutMinutes), now)
  {
    if threshold >= 1 {
      PlayReflects(attempts, threshold, lockoutMinutes, now);
      RefusalMatches(Play(attempts, threshold, lockoutMinutes),
                     Counted(attempts, threshold, Duration(lockoutMinutes)), threshold, Duration(lockoutMinutes), now);
    } else {
      ZeroThresholdNeverRecords(attempts, threshold, lockoutMinutes);
    }
  }

  /** The wait a refused attempt is told ends with the lockout of the last counted failure. */
  lemma WaitEndsWithLockout(attempts: seq<Attempt>, threshold: int, lockoutMinutes: int, now: real)
    requires InOrder(attempts) && (attempts != [] ==> attempts[|attempts| - 1].at <= now)
    requires Remaining(Play(attempts, threshold, lockoutMinutes), now).Some?
    ensures var h := Counted(attempts, threshold, Duration(lockoutMinutes));
            && h != []
            && now + Remaining(Play(attempts, threshold, lockoutMinutes), now).value
               == h[|h| - 1].at + Duration(lockoutMinutes)
  {
    if threshold >= 1 {
      PlayReflects(attempts, threshold, lockoutMinutes, now);
      RefusalMatches(Play(attempts, threshold, lockoutMinutes),
                     Counted(attempts, threshold, Duration(lockoutMinutes)), threshold, Duration(lockoutMinutes), now);
    } else {
      ZeroThresholdNeverRecords(attempts, threshold, lockoutMinutes);
      assert false;
    }
  }

  /** Attempts made during a lockout, right or wrong, change nothing, so they never extend it. */
  lemma {:induction false} LockoutIsNotExtended(
      attempts: seq<Attempt>, during: seq<Attempt>, threshold: int, lockoutMinutes: int, until: real)
    requires var r := Play(attempts, threshold, lockoutMinutes); r.Some? && r.value.lockedUntil == Some(until)
    requires forall i :: 0 <= i < |during| ==> during[i].at < until
    ensures Play(attempts + during, threshold, lockoutMinutes) == Play(attempts, threshold, lockoutMinutes)
  {
    if during == [] {
      assert attempts + during == attempts;
    } else {
      var n := |during| - 1;
      var all := attempts + during;
      LockoutIsNotExtended(attempts, during[..n], threshold, lockoutMinutes, until);
      assert all[..|all| - 1] == attempts + during[..n];
      assert all[|all| - 1] == during[n];
    }
  }

  /** A lockout lasts the configured minutes, and at least one. */
  lemma DurationInSeconds(lockoutMinutes: int)
    ensures lockoutMinutes >= 1 ==> Duration(lockoutMinutes) == 60.0 * lockoutMinutes as real
    ensures lockoutMinutes < 1 ==> Duration(lockoutMinutes) == 60.0
  {
  }
}
