/**
 The key-version cache when handlers interleave at their awaits. A handler (login,
 refresh or a cold-cache write check) reads the committed key version in one step and
 publishes it to the cache in a later one; a rotation commits in one step and publishes
 in a later one. One user; handlers are named by numbers.
 */
module KeyVersionRace {
  import opened Results

  /** `held` maps each handler that has read or committed a version, and not yet published it. */
  datatype State = State(committed: nat, cache: Option<nat>, held: map<nat, nat>)

  datatype Event =
    | Load(reader: nat)
    | ColdCheck(checker: nat)
    | Commit(rotation: nat, newVersion: nat)
    | Publish(handler: nat)
    | Drop(abandoned: nat)
    | Restart

  function Step(s: State, e: Event): (r: State) {
    match e
    case Load(h) => s.(held := s.held[h := s.committed])
    case ColdCheck(h) => if s.cache.None? then s.(held := s.held[h := s.committed]) else s
    case Commit(h, v) =>
      if v == s.committed + 1 then s.(committed := v, held := s.held[h := v]) else s
    case Publish(h) =>
      if h in s.held then s.(cache := Some(s.held[h]), held := s.held - {h}) else s
    case Drop(h) => s.(held := s.held - {h})
    case Restart => s.(cache := None, held := map[])
  }

  function Run(s: State, run: seq<Event>): (r: State)
    decreases |run|
  {
    if run == [] then s else Run(Step(s, run[0]), run[1..])
  }

  /** Nothing in flight, nor the cache, is ahead of the database. */
  ghost predicate Behind(s: State) {
    && (s.cache.Some? ==> s.cache.value <= s.committed)
    && (forall h :: h in s.held ==> s.held[h] <= s.committed)
  }

  /** In every interleaving the cached version never exceeds the committed one. */
  lemma {:induction false} CacheNeverAhead(s: State, run: seq<Event>)
    requires Behind(s)
    ensures Behind(Run(s, run)) && s.committed <= Run(s, run).committed
    decreases |run|
  {
    if run != [] { CacheNeverAhead(Step(s, run[0]), run[1..]); }
  }

  predicate NoCommit(run: seq<Event>) {
    forall i :: 0 <= i < |run| ==> !run[i].Commit?
  }

  /** No handler is about to publish an older version. */
  predicate NoOlderInFlight(s: State) {
    forall h :: h in s.held ==> s.held[h] == s.committed
  }

  /** The cache is cold, or it agrees with the database. */
  predicate CacheAgrees(s: State) {
    s.cache.Some? ==> s.cache.value == s.committed
  }

  lemma {:induction false} AgreementLasts(s: State, run: seq<Event>)
    requires NoOlderInFlight(s) && CacheAgrees(s) && NoCommit(run)
    ensures NoOlderInFlight(Run(s, run)) && CacheAgrees(Run(s, run))
    decreases |run|
  {
    if run != [] {
      assert !run[0].Commit?;
      assert forall i :: 0 <= i < |run[1..]| ==> run[1..][i] == run[i + 1];
      AgreementLasts(Step(s, run[0]), run[1..]);
    }
  }

  /**
   Once the newest rotation has published, the cache keeps agreeing with the database
   until the next commit, whatever interleaving follows, exactly when no handler still
   holds an older version at that moment.
   */
  lemma CacheAgreesIff(s: State)
    requires Behind(s) && s.cache == Some(s.committed)
    ensures (forall run :: NoCommit(run) ==> CacheAgrees(Run(s, run))) <==> NoOlderInFlight(s)
  {
    if NoOlderInFlight(s) {
      forall run | NoCommit(run)
        ensures CacheAgrees(Run(s, run))
      {
        AgreementLasts(s, run);
      }
    } else {
      var h :| h in s.held && s.held[h] != s.committed;
      var run := [Publish(h)];
      assert NoCommit(run);
      assert run[1..] == [];
      assert Run(s, run) == Step(s, Publish(h));
      assert !CacheAgrees(Run(s, run));
    }
  }

  /** If nobody holding an older version publishes, the outcome of any interleaving still agrees. */
  predicate NoOlderPublished(s: State, run: seq<Event>)
    decreases |run|
  {
    run == []
    || ((run[0].Publish? && run[0].handler in s.held ==> s.held[run[0].handler] == s.committed)
        && NoOlderPublished(Step(s, run[0]), run[1..]))
  }

  lemma {:induction false} NewestPublishedWins(s: State, run: seq<Event>)
    requires CacheAgrees(s) && NoCommit(run) && NoOlderPublished(s, run)
    ensures CacheAgrees(Run(s, run))
    decreases |run|
  {
    if run != [] {
      assert !run[0].Commit?;
      assert forall i :: 0 <= i < |run[1..]| ==> run[1..][i] == run[i + 1];
      NewestPublishedWins(Step(s, run[0]), run[1..]);
    }
  }

  /** Between a commit and its publication the cache lags: that is the window a rotation leaves open. */
  lemma CommitLeavesLag(s: State, rotation: nat)
    requires Behind(s) && s.cache.Some?
    ensures !CacheAgrees(Step(s, Commit(rotation, s.committed + 1)))
    ensures CacheAgrees(Step(Step(s, Commit(rotation, s.committed + 1)), Publish(rotation)))
  {
  }

  // ---- Tokens from before a rotation ------------------------------------------------

  /**
   A write check passes a token with this claim: a warm one compares with the cache, and a cold
   one with what it read, which is in the cache once it has published it.
   */
  predicate PassesAfter(s: State, run: seq<Event>, kv: nat) {
    Run(s, run).cache == Some(kv)
  }

  /** The version is in the cache, or in the hands of a handler that has yet to publish it. */
  predicate StillAround(s: State, kv: nat) {
    s.cache == Some(kv) || exists h :: h in s.held && s.held[h] == kv
  }

  lemma {:induction false} OldVersionsDieOut(s: State, run: seq<Event>, kv: nat)
    requires kv < s.committed && !StillAround(s, kv)
    ensures !PassesAfter(s, run, kv)
    decreases |run|
  {
    if run != [] { OldVersionsDieOut(Step(s, run[0]), run[1..], kv); }
  }

  lemma SomeRunTo(s: State, kv: nat) returns (run: seq<Event>)
    requires StillAround(s, kv)
    ensures PassesAfter(s, run, kv)
  {
    if s.cache == Some(kv) {
      run := [];
    } else {
      var h :| h in s.held && s.held[h] == kv;
      run := [Publish(h)];
      assert run[1..] == [];
      assert Run(s, run) == Step(s, Publish(h));
    }
  }

  /**
   When a token from before a rotation passes the write check: in some interleaving, further
   rotations included, exactly when its version is still in the cache or in flight.
   */
  lemma StaleTokenPassesIff(s: State, kv: nat)
    requires kv < s.committed
    ensures (exists run :: PassesAfter(s, run, kv)) <==> StillAround(s, kv)
  {
    if StillAround(s, kv) {
      var run := SomeRunTo(s, kv);
    } else {
      forall run ensures !PassesAfter(s, run, kv) { OldVersionsDieOut(s, run, kv); }
    }
  }

  /** Once the newest rotation has published and no older version is in flight, no older token ever passes. */
  lemma OldTokensStayOut(s: State, run: seq<Event>, kv: nat)
    requires s.cache == Some(s.committed) && NoOlderInFlight(s) && kv < s.committed
    ensures !PassesAfter(s, run, kv)
  {
    OldVersionsDieOut(s, run, kv);
  }
}
