/**
 The per-address token bucket: `limit` tokens a minute, at most a minute's worth saved.
 Tokens and times are exact reals, in tokens and seconds.
 */
module TokenBucket {
  import opened Results

  datatype Bucket = Bucket(tokens: real, lastRefill: real)

  const WINDOW: real := 60.0

  function Capacity(limit: int): (c: real) {
    limit as real
  }

  function Rate(limit: int): (r: real) {
    limit as real / WINDOW
  }

  function Min(a: real, b: real): (r: real) {
    if a <= b then a else b
  }

  /** A clock reading from before the last refill counts as no time at all. */
  function Elapsed(b: Bucket, now: real): (e: real) {
    if now >= b.lastRefill then now - b.lastRefill else 0.0
  }

  /** The tokens a call at `now` finds; an unseen address starts with a full bucket. */
  function Level(b: Option<Bucket>, limit: int, now: real): (t: real) {
    match b
    case None => Capacity(limit)
    case Some(bucket) => Min(bucket.tokens + Elapsed(bucket, now) * Rate(limit), Capacity(limit))
  }

  /** The answer is the time to wait, or nothing when the call is admitted. */
  datatype Checked = Checked(bucket: Option<Bucket>, wait: Option<real>)

  function Check(b: Option<Bucket>, limit: int, now: real): (r: Checked) {
    if limit <= 0 then Checked(b, None)
    else
      var level := Level(b, limit, now);
      if level < 1.0 then Checked(Some(Bucket(level, now)), Some((1.0 - level) / Rate(limit)))
      else Checked(Some(Bucket(level - 1.0, now)), None)
  }

  ghost predicate Sane(b: Option<Bucket>) {
    b.Some? ==> b.value.tokens >= 0.0
  }

  ghost predicate SeenBy(b: Option<Bucket>, now: real) {
    b.Some? ==> b.value.lastRefill <= now
  }

  lemma MulMonotone(x: real, y: real, r: real)
    requires x <= y && r >= 0.0
    ensures x * r <= y * r
  {
  }

  lemma RatePositive(limit: int)
    requires limit > 0
    ensures Rate(limit) > 0.0 && WINDOW * Rate(limit) == Capacity(limit) && Capacity(limit) >= 1.0
  {
  }

  lemma LevelBounds(b: Option<Bucket>, limit: int, now: real)
    requires limit > 0 && Sane(b)
    ensures 0.0 <= Level(b, limit, now) <= Capacity(limit)
    ensures Sane(Check(b, limit, now).bucket) && SeenBy(Check(b, limit, now).bucket, now)
  {
    RatePositive(limit);
    if b.Some? { MulMonotone(0.0, Elapsed(b.value, now), Rate(limit)); }
  }

  // ---- How much a stretch of calls is admitted ----------------------------------

  ghost predicate InOrder(times: seq<real>) {
    forall i :: 0 < i < |times| ==> times[i - 1] <= times[i]
  }

  function Admitted(b: Option<Bucket>, limit: int, times: seq<real>): (n: nat)
    decreases |times|
  {
    if times == [] then 0
    else
      var c := Check(b, limit, times[0]);
      Admitted(c.bucket, limit, times[1..]) + (if c.wait.None? then 1 else 0)
  }

  lemma MulDistributes(a: real, b: real, r: real)
    ensures a * r + b * r == (a + b) * r
  {
  }

  /** A call spends what it is admitted for; the next one finds at most the rest plus what was earned. */
  lemma LevelAfter(b: Option<Bucket>, limit: int, now: real, next: real)
    requires limit > 0 && now <= next
    ensures var c := Check(b, limit, now);
            Level(c.bucket, limit, next)
            <= Level(b, limit, now) - (if c.wait.None? then 1.0 else 0.0) + (next - now) * Rate(limit)
  {
  }

  /** Tokens spent never exceed tokens found plus tokens earned since. */
  lemma SpentWithinEarned(b: Option<Bucket>, limit: int, times: seq<real>, first: real, last: real)
    requires limit > 0 && Sane(b) && InOrder(times)
    requires times != [] && times[0] == first && times[|times| - 1] == last
    ensures Admitted(b, limit, times) as real <= Level(b, limit, first) + (last - first) * Rate(limit)
  {
    SpentWithinBudget(b, limit, times, last, Level(b, limit, first) + (last - first) * Rate(limit));
  }

  /** `budget` covers what a call at `now` finds and all that is earned until `last`. */
  ghost predicate Covers(budget: real, b: Option<Bucket>, limit: int, now: real, last: real) {
    budget >= Level(b, limit, now) + (last - now) * Rate(limit)
  }

  lemma {:induction false} SpentWithinBudget(b: Option<Bucket>, limit: int, times: seq<real>, last: real, budget: real)
    requires limit > 0 && Sane(b) && InOrder(times)
    requires times != [] && times[|times| - 1] == last
    requires Covers(budget, b, limit, times[0], last)
    ensures Admitted(b, limit, times) as real <= budget
    decreases |times|
  {
    var c := Check(b, limit, times[0]);
    var cost := if c.wait.None? then 1 else 0;
    AdmittedFirst(b, limit, times);
    StaysSane(b, limit, times[0]);
    if |times| == 1 {
      LastCallWithinBudget(b, limit, last, budget);
    } else {
      RestInOrder(times);
      BudgetAfterCall(b, limit, times[0], times[1], last, budget);
      SpentWithinBudget(c.bucket, limit, times[1..], last, budget - cost as real);
    }
  }

  lemma LastCallWithinBudget(b: Option<Bucket>, limit: int, last: real, budget: real)
    requires limit > 0 && Sane(b) && Covers(budget, b, limit, last, last)
    ensures (if Check(b, limit, last).wait.None? then 1.0 else 0.0) <= budget
  {
    LevelBounds(b, limit, last);
  }

  lemma BudgetAfterCall(b: Option<Bucket>, limit: int, now: real, next: real, last: real, budget: real)
    requires limit > 0 && now <= next && Covers(budget, b, limit, now, last)
    ensures var c := Check(b, limit, now);
            Covers(budget - (if c.wait.None? then 1.0 else 0.0), c.bucket, limit, next, last)
  {
    LevelAfter(b, limit, now, next);
    MulDistributes(next - now, last - next, Rate(limit));
  }

  lemma AdmittedFirst(b: Option<Bucket>, limit: int, times: seq<real>)
    requires times != []
    ensures var c := Check(b, limit, times[0]);
            Admitted(b, limit, times) == Admitted(c.bucket, limit, times[1..]) + (if c.wait.None? then 1 else 0)
  {
  }

  lemma RestInOrder(times: seq<real>)
    requires InOrder(times) && times != []
    ensures InOrder(times[1..])
  {
    assert forall i :: 0 < i < |times[1..]| ==> times[1..][i - 1] == times[i] && times[1..][i] == times[i + 1];
  }

  lemma StaysSane(b: Option<Bucket>, limit: int, now: real)
    requires limit > 0 && Sane(b)
    ensures Sane(Check(b, limit, now).bucket)
  {
    LevelBounds(b, limit, now);
  }

  /** Any `span` seconds admit at most limit + limit * span / 60 calls, whatever came before. */
  lemma AdmissionBound(b: Option<Bucket>, limit: int, times: seq<real>, span: real)
    requires limit > 0 && Sane(b) && InOrder(times) && span >= 0.0
    requires times != [] ==> times[|times| - 1] - times[0] <= span
    ensures Admitted(b, limit, times) as real <= Capacity(limit) + Capacity(limit) * span / 60.0
  {
    EarnedInSpan(limit, span);
    if times != [] {
      var first, last := times[0], times[|times| - 1];
      SpentWithinEarned(b, limit, times, first, last);
      WithinSpan(b, limit, first, last, span, Admitted(b, limit, times));
    } else {
      RatePositive(limit);
    }
  }

  lemma WithinSpan(b: Option<Bucket>, limit: int, first: real, last: real, span: real, n: nat)
    requires limit > 0 && Sane(b) && last - first <= span && span >= 0.0
    requires n as real <= Level(b, limit, first) + (last - first) * Rate(limit)
    ensures n as real <= Capacity(limit) + Capacity(limit) * span / 60.0
  {
    LevelBounds(b, limit, first);
    EarnedWithin(limit, last - first, span);
  }

  lemma EarnedWithin(limit: int, dt: real, span: real)
    requires limit > 0 && dt <= span && span >= 0.0
    ensures dt * Rate(limit) <= Capacity(limit) * span / 60.0
  {
    RatePositive(limit);
    MulMonotone(dt, span, Rate(limit));
    EarnedInSpan(limit, span);
  }

  lemma EarnedInSpan(limit: int, span: real)
    requires limit > 0 && span >= 0.0
    ensures span * Rate(limit) == Capacity(limit) * span / 60.0 && span * Rate(limit) >= 0.0
  {
    RatePositive(limit);
    MulMonotone(0.0, span, Rate(limit));
  }

  /** The bound is reached: a full bucket spends a whole minute's allowance at once. */
  lemma {:induction false} FullBucketSpentAtOnce(limit: int, now: real, tokens: real, times: seq<real>)
    requires limit > 0 && |times| as real <= tokens <= Capacity(limit)
    requires forall i :: 0 <= i < |times| ==> times[i] == now
    ensures Admitted(Some(Bucket(tokens, now)), limit, times) == |times|
    decreases |times|
  {
    if times != [] {
      FullBucketSpentAtOnce(limit, now, tokens - 1.0, times[1..]);
    }
  }

  lemma SpacingEarnsAToken(limit: int, gap: real)
    requires limit > 0 && gap * limit as real >= 60.0
    ensures gap > 0.0 && gap * Rate(limit) >= 1.0
  {
    assert gap * Rate(limit) == gap * limit as real / 60.0;
    if gap <= 0.0 {
      MulMonotone(gap, 0.0, limit as real);
      assert false;
    }
  }

  lemma EarnedATokenSince(tokens: real, limit: int, now: real, next: real)
    requires limit > 0 && tokens >= 0.0 && now <= next && (next - now) * Rate(limit) >= 1.0
    ensures Level(Some(Bucket(tokens, now)), limit, next) >= 1.0
  {
    RatePositive(limit);
  }

  lemma SpendsAToken(b: Option<Bucket>, limit: int, now: real)
    requires limit > 0 && Level(b, limit, now) >= 1.0
    ensures Check(b, limit, now) == Checked(Some(Bucket(Level(b, limit, now) - 1.0, now)), None)
  {
  }

  lemma NextFindsAToken(b: Option<Bucket>, limit: int, now: real, next: real, gap: real)
    requires limit > 0 && Level(b, limit, now) >= 1.0
    requires gap * limit as real >= 60.0 && next - now >= gap
    ensures var c := Check(b, limit, now); c.wait.None? && Sane(c.bucket) && Level(c.bucket, limit, next) >= 1.0
  {
    SpacingEarnsAToken(limit, gap);
    RatePositive(limit);
    MulMonotone(gap, next - now, Rate(limit));
    SpendsAToken(b, limit, now);
    EarnedATokenSince(Level(b, limit, now) - 1.0, limit, now, next);
  }

  /** A limit of zero or less admits every call and keeps no account of it. */
  lemma NoLimitAdmits(b: Option<Bucket>, limit: int, now: real)
    requires limit <= 0
    ensures Check(b, limit, now).wait == None && Check(b, limit, now).bucket == b
  {
  }

  /** Calls at one instant spend a bucket of whole tokens one by one, and no more than it holds. */
  lemma {:induction false} WholeTokensSpent(limit: int, now: real, tokens: nat, times: seq<real>)
    requires 0 < limit && tokens <= limit
    requires forall i :: 0 <= i < |times| ==> times[i] == now
    ensures Admitted(Some(Bucket(tokens as real, now)), limit, times) == if |times| <= tokens then |times| else tokens
    decreases |times|
  {
    if times != [] {
      AdmittedFirst(Some(Bucket(tokens as real, now)), limit, times);
      if tokens > 0 {
        assert tokens as real - 1.0 == (tokens - 1) as real;
        WholeTokensSpent(limit, now, tokens - 1, times[1..]);
      } else {
        WholeTokensSpent(limit, now, 0, times[1..]);
      }
    }
  }

  /** An address that was never seen is admitted `limit` times at once, and not once more. */
  lemma NewAddressAllowance(limit: int, now: real, times: seq<real>)
    requires limit > 0 && forall i :: 0 <= i < |times| ==> times[i] == now
    ensures Admitted(None, limit, times) == if |times| <= limit then |times| else limit
  {
    WholeTokensSpent(limit, now, limit, times);
    if times != [] {
      AdmittedFirst(None, limit, times);
      AdmittedFirst(Some(Bucket(limit as real, now)), limit, times);
    }
  }

  /** Calls spaced at least a gap apart are never refused, if the gap is at least 60 / limit seconds. */
  lemma {:induction false} SpacedCallsAdmitted(b: Option<Bucket>, limit: int, times: seq<real>, gap: real)
    requires limit > 0 && Sane(b) && times != []
    requires Level(b, limit, times[0]) >= 1.0
    requires gap * limit as real >= 60.0
    requires forall i :: 0 < i < |times| ==> times[i] - times[i - 1] >= gap
    ensures Admitted(b, limit, times) == |times|
    decreases |times|
  {
    AdmittedFirst(b, limit, times);
    if |times| > 1 {
      var rest := times[1..];
      assert forall i :: 0 < i < |rest| ==> rest[i - 1] == times[i] && rest[i] == times[i + 1];
      NextFindsAToken(b, limit, times[0], times[1], gap);
      SpacedCallsAdmitted(Check(b, limit, times[0]).bucket, limit, rest, gap);
    }
  }

  // ---- The wait that a refused call is told ---------------------------------------

  /** When an emptied bucket will have earned a token. */
  function ReadyAt(b: Bucket, limit: int): (t: real)
    requires limit > 0
  {
    b.lastRefill + (1.0 - b.tokens) / Rate(limit)
  }

  lemma EarnedIff(x: real, dt: real, r: real)
    requires r > 0.0
    ensures x + dt * r >= 1.0 <==> dt >= (1.0 - x) / r
  {
    var q := (1.0 - x) / r;
    assert q * r == 1.0 - x;
    if dt >= q { MulMonotone(q, dt, r); } else { assert (q - dt) * r > 0.0; }
  }

  /** A call is admitted exactly from `ReadyAt` on; a refused one is told that time and does not move it. */
  lemma RefusedUntilReady(b: Bucket, limit: int, now: real)
    requires limit > 0 && 0.0 <= b.tokens < 1.0 && b.lastRefill <= now
    ensures var c := Check(Some(b), limit, now);
            && (c.wait.None? <==> now >= ReadyAt(b, limit))
            && (c.wait.Some? ==>
                  && now + c.wait.value == ReadyAt(b, limit)
                  && c.bucket.Some? && 0.0 <= c.bucket.value.tokens < 1.0 && c.bucket.value.lastRefill == now
                  && ReadyAt(c.bucket.value, limit) == ReadyAt(b, limit))
  {
    RatePositive(limit);
    var r, dt := Rate(limit), now - b.lastRefill;
    EarnedIff(b.tokens, dt, r);
    MulMonotone(0.0, dt, r);
    var level := b.tokens + dt * r;
    assert (1.0 - level) / r == (1.0 - b.tokens) / r - dt by {
      assert ((1.0 - b.tokens) / r - dt) * r == (1.0 - b.tokens) / r * r - dt * r;
    }
  }

  /** Retries before the told time are all refused and do not postpone it. */
  lemma {:induction false} RetriesDoNotPostpone(b: Bucket, limit: int, retries: seq<real>, final: real)
    requires limit > 0 && 0.0 <= b.tokens < 1.0
    requires InOrder([b.lastRefill] + retries + [final])
    requires forall i :: 0 <= i < |retries| ==> retries[i] < ReadyAt(b, limit)
    ensures Admitted(Some(b), limit, retries + [final]) == if final >= ReadyAt(b, limit) then 1 else 0
    decreases |retries|
  {
    var all := [b.lastRefill] + retries + [final];
    if retries == [] {
      assert all[0] <= all[1];
      RefusedUntilReady(b, limit, final);
      assert retries + [final] == [final];
      assert Admitted(Check(Some(b), limit, final).bucket, limit, [final][1..]) == 0;
    } else {
      assert all[0] <= all[1];
      RefusedUntilReady(b, limit, retries[0]);
      var c := Check(Some(b), limit, retries[0]).bucket.value;
      var rest := retries[1..];
      assert [c.lastRefill] + rest + [final] == all[1..];
      assert forall i :: 0 < i < |all| - 1 ==> all[1..][i - 1] == all[i] && all[1..][i] == all[i + 1];
      RetriesDoNotPostpone(c, limit, rest, final);
      assert (retries + [final])[1..] == rest + [final];
    }
  }

  // ---- Forgetting a bucket ------------------------------------------------------------

  /** A bucket untouched for a full window answers like a new one, whatever the limit is by then. */
  lemma ForgottenIsFull(b: Bucket, limit: int, now: real)
    requires b.tokens >= 0.0 && now - b.lastRefill >= WINDOW && limit > 0
    ensures Check(Some(b), limit, now) == Check(None, limit, now)
  {
    RatePositive(limit);
    MulMonotone(WINDOW, now - b.lastRefill, Rate(limit));
  }
}
