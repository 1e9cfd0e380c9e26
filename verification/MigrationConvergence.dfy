/**
 Interrupted migrations converge to the row an uninterrupted one writes, and what a
 migrated vault serves is decided by the copies found when the last run started.
 */
module MigrationConvergence {
  import opened Results
  import opened KeyLayout
  import opened VaultRow
  import opened MigrationPlan
  import opened BlobMigration

  /** Every start gets the same listing, and PUTs keep what was sent. */
  ghost predicate Steady(listed: Option<set<string>>, run: seq<Event>) {
    forall i :: 0 <= i < |run| ==>
      && (run[i].Start? ==> run[i].answer == listed)
      && (run[i].Advance? ==> run[i].kept.None?)
  }

  predicate ListedIs(l: Local, listed: Option<set<string>>) {
    && (l.Scanning? ==> l.listed == listed)
    && (l.Ready? ==> l.listing == listed)
  }

  function FinalRow(env: Env, d: Disk, current: string): (r: Row)
    requires Final(env, d, current).Some?
  {
    d.row.(current := Some(current), history := Final(env, d, current).value)
  }

  /** Either the row is untouched and the plan is the one it always was, or the row is the planned one. */
  ghost predicate OnPlan(env: Env, d: Disk, current: string, m: Machine) {
    || (m.disk.row == d.row && SamePlan(env, d, m.disk, current) && !m.local.Sweeping?)
    || (Final(env, d, current).Some? && m.disk.row == FinalRow(env, d, current) && (m.local.Sweeping? || m.local.Idle?))
  }

  lemma ScanKeepsPlan(legacy: Legacy, m: Machine, current: string)
    requires Progress(legacy, m) && m.local.Scanning? && m.local.current == current
    ensures var r := Step(legacy, m, Advance(None)); r.disk.row == m.disk.row && !r.local.Sweeping?
    ensures SamePlan(Env(legacy, m.local.listed), m.disk, Step(legacy, m, Advance(None)).disk, current)
  {
    var l, d := m.local, m.disk;
    var env := Env(legacy, l.listed);
    var id := if l.at < |d.row.history| then d.row.history[l.at].versionId else current;
    if Rescued(env, d, current, id).Some? {
      CopyIsSamePlan(env, d, current, id);
    }
  }

  lemma StepStaysOnPlan(legacy: Legacy, listed: Option<set<string>>, d: Disk, current: string, m: Machine, e: Event)
    requires d.row.current.Some? && ValidateVersionId(d.row.current.value) == Ok(current)
    requires Progress(legacy, m) && ListedIs(m.local, listed) && OnPlan(Env(legacy, listed), d, current, m)
    requires Steady(listed, [e])
    ensures ListedIs(Step(legacy, m, e).local, listed)
    ensures OnPlan(Env(legacy, listed), d, current, Step(legacy, m, e))
  {
    var env := Env(legacy, listed);
    assert [e][0] == e;
    if e.Start? && Final(env, d, current).Some? {
      FinalIsMigrated(env, d, current);
    } else if e.Advance? && m.local.Scanning? {
      ScanKeepsPlan(legacy, m, current);
      SamePlanTrans(env, d, m.disk, Step(legacy, m, e).disk, current);
    } else if e.Advance? && m.local.Ready? {
      SamePlanSameFinal(env, d, m.disk, current);
    }
  }

  lemma SamePlanTrans(env: Env, d1: Disk, d2: Disk, d3: Disk, current: string)
    requires SamePlan(env, d1, d2, current) && SamePlan(env, d2, d3, current)
    ensures SamePlan(env, d1, d3, current)
  {
    forall id ensures Rescued(env, d1, current, id) == Rescued(env, d3, current, id) {
      assert Rescued(env, d1, current, id) == Rescued(env, d2, current, id);
    }
  }

  /** However often the migration is interrupted, the row is the old one or the planned one. */
  lemma {:induction false} RowIsOldOrPlanned(
      legacy: Legacy, listed: Option<set<string>>, d: Disk, current: string, run: seq<Event>)
    requires d.row.current.Some? && ValidateVersionId(d.row.current.value) == Ok(current)
    requires Steady(listed, run)
    ensures var m := Run(legacy, Machine(d, Idle), run);
            Progress(legacy, m) && ListedIs(m.local, listed) && OnPlan(Env(legacy, listed), d, current, m)
  {
    if run != [] {
      var n := |run| - 1;
      assert forall i :: 0 <= i < n ==> run[..n][i] == run[i];
      RowIsOldOrPlanned(legacy, listed, d, current, run[..n]);
      var m := Run(legacy, Machine(d, Idle), run[..n]);
      StepKeepsProgress(legacy, m, run[n]);
      StepStaysOnPlan(legacy, listed, d, current, m, run[n]);
    }
  }

  // ---- One uninterrupted run --------------------------------------------------

  /** `n` undisturbed steps. */
  function Go(legacy: Legacy, m: Machine, n: nat): (r: Machine) {
    if n == 0 then m else Step(legacy, Go(legacy, m, n - 1), Advance(None))
  }

  /** The scan of `d`'s history has got as far as entry `n`. */
  ghost predicate ScanAt(legacy: Legacy, listed: Option<set<string>>, d: Disk, current: string, n: nat, m: Machine) {
    && Progress(legacy, m) && m.local.Scanning? && m.local.at == n
    && m.local.listed == listed && m.local.current == current
    && m.disk.row == d.row && SamePlan(Env(legacy, listed), d, m.disk, current)
  }

  lemma ScanGoesOn(legacy: Legacy, listed: Option<set<string>>, d: Disk, current: string, n: nat, m: Machine)
    requires n < |d.row.history| && ScanAt(legacy, listed, d, current, n, m)
    ensures ScanAt(legacy, listed, d, current, n + 1, Step(legacy, m, Advance(None)))
  {
    StepKeepsProgress(legacy, m, Advance(None));
    ScanKeepsPlan(legacy, m, current);
    SamePlanTrans(Env(legacy, listed), d, m.disk, Step(legacy, m, Advance(None)).disk, current);
  }

  lemma {:induction false} GoScans(legacy: Legacy, listed: Option<set<string>>, d: Disk, current: string, n: nat)
    requires d.row.current.Some? && ValidateVersionId(d.row.current.value) == Ok(current) && !IsMigrated(d.row)
    requires n <= |d.row.history|
    ensures ScanAt(legacy, listed, d, current, n, Go(legacy, Step(legacy, Machine(d, Idle), Start(listed)), n))
  {
    if n > 0 {
      GoScans(legacy, listed, d, current, n - 1);
      ScanGoesOn(legacy, listed, d, current, n - 1,
                 Go(legacy, Step(legacy, Machine(d, Idle), Start(listed)), n - 1));
    }
  }

  function Uninterrupted(legacy: Legacy, listed: Option<set<string>>, d: Disk): (r: Machine) {
    Go(legacy, Step(legacy, Machine(d, Idle), Start(listed)), |d.row.history| + 3)
  }

  /** The state just before the row is written. */
  function Prepared(legacy: Legacy, listed: Option<set<string>>, d: Disk): (r: Machine) {
    Go(legacy, Step(legacy, Machine(d, Idle), Start(listed)), |d.row.history| + 1)
  }

  lemma PreparedShape(legacy: Legacy, listed: Option<set<string>>, d: Disk, current: string)
    requires d.row.current.Some? && ValidateVersionId(d.row.current.value) == Ok(current) && !IsMigrated(d.row)
    requires Final(Env(legacy, listed), d, current).Some?
    ensures var m := Prepared(legacy, listed, d);
            && Progress(legacy, m) && m.local.Ready? && m.local.id == current && m.local.listing == listed
            && m.disk.row == d.row && SamePlan(Env(legacy, listed), d, m.disk, current)
            && m.local.history == Final(Env(legacy, listed), d, current).value
  {
    var env := Env(legacy, listed);
    var n := |d.row.history|;
    GoScans(legacy, listed, d, current, n);
    var m := Go(legacy, Step(legacy, Machine(d, Idle), Start(listed)), n);
    StepKeepsProgress(legacy, m, Advance(None));
    ScanKeepsPlan(legacy, m, current);
    SamePlanTrans(env, d, m.disk, Step(legacy, m, Advance(None)).disk, current);
    SamePlanSameFinal(env, d, m.disk, current);
    SamePlanSameFinal(env, d, Step(legacy, m, Advance(None)).disk, current);
    assert m.disk.row.history[..m.local.at] == m.disk.row.history;
  }

  /** An uninterrupted run writes the planned row, drops the bare object, and leaves nothing to migrate. */
  lemma UninterruptedWritesPlan(legacy: Legacy, listed: Option<set<string>>, d: Disk, current: string)
    requires d.row.current.Some? && ValidateVersionId(d.row.current.value) == Ok(current) && !IsMigrated(d.row)
    requires Final(Env(legacy, listed), d, current).Some?
    ensures var m := Uninterrupted(legacy, listed, d);
            && m.local == Idle && m.disk.row == FinalRow(Env(legacy, listed), d, current)
            && m.disk.objects == Prepared(legacy, listed, d).disk.objects - {d.row.objectKey}
            && IsMigrated(m.disk.row)
            && forall answer :: Step(legacy, m, Start(answer)) == m
  {
    PreparedShape(legacy, listed, d, current);
    FinalIsMigrated(Env(legacy, listed), d, current);
    var n := |d.row.history|;
    var start := Step(legacy, Machine(d, Idle), Start(listed));
    assert Go(legacy, start, n + 2) == Step(legacy, Go(legacy, start, n + 1), Advance(None));
    assert Go(legacy, start, n + 3) == Step(legacy, Go(legacy, start, n + 2), Advance(None));
  }

  /**
   Convergence: interrupt the migration before the row write as often as you like, then
   let one run finish; the row is the one a single uninterrupted run would have written.
   */
  lemma MigrationConverges(legacy: Legacy, listed: Option<set<string>>, d: Disk, current: string, run: seq<Event>)
    requires d.row.current.Some? && ValidateVersionId(d.row.current.value) == Ok(current) && !IsMigrated(d.row)
    requires Steady(listed, run) && Final(Env(legacy, listed), d, current).Some?
    ensures var m := Run(legacy, Machine(d, Idle), run);
            if m.disk.row == d.row
            then Uninterrupted(legacy, listed, m.disk).disk.row == Uninterrupted(legacy, listed, d).disk.row
            else m.disk.row == Uninterrupted(legacy, listed, d).disk.row
  {
    RowIsOldOrPlanned(legacy, listed, d, current, run);
    UninterruptedWritesPlan(legacy, listed, d, current);
    FinalIsMigrated(Env(legacy, listed), d, current);
    var m := Run(legacy, Machine(d, Idle), run);
    if m.disk.row == d.row {
      SamePlanSameFinal(Env(legacy, listed), d, m.disk, current);
      UninterruptedWritesPlan(legacy, listed, m.disk, current);
    }
  }

  /** A successful run accounts for every entry, plus the current version if the history never had it. */
  lemma CountsAddUp(legacy: Legacy, m: Machine)
    requires Progress(legacy, m) && m.local.Ready?
    ensures var h := m.disk.row.history;
            m.local.moved + m.local.dropped + KeyedCount(h) == |h| + (if HasId(h, m.local.id) then 0 else 1)
  {
    var d, h, id := m.disk, m.disk.row.history, m.local.id;
    var env := Env(legacy, m.local.listing);
    MovedIdsAreOld(env, d, id, h, id);
    if HasId(h, id) {
      var i :| 0 <= i < |h| && h[i].versionId == id;
      if RescuedAt(env, d, id, h, i) { MovedKeepsId(env, d, id, h, i); }
    }
  }

  // ---- What the read-back check does not cover ---------------------------------

  /** After a finished run every rescued version is answered with what was found at its own key, or copied there. */
  lemma MigratedServesRescued(legacy: Legacy, listed: Option<set<string>>, d: Disk, current: string, i: nat)
    requires d.row.current.Some? && ValidateVersionId(d.row.current.value) == Ok(current) && !IsMigrated(d.row)
    requires Final(Env(legacy, listed), d, current).Some?
    requires NormalIds(d.row.history) && OwnKeys(d, d.row.history)
    requires i < |d.row.history| && d.row.history[i].objectKey.None?
    requires Rescued(Env(legacy, listed), d, current, d.row.history[i].versionId).Some?
    ensures var id := d.row.history[i].versionId;
            ServedId(Uninterrupted(legacy, listed, d).disk, id) == Rescued(Env(legacy, listed), d, current, id)
  {
    var env := Env(legacy, listed);
    var id := d.row.history[i].versionId;
    PreparedShape(legacy, listed, d, current);
    UninterruptedWritesPlan(legacy, listed, d, current);
    var p := Prepared(legacy, listed, d).disk;
    assert Rescued(env, p, current, id) == Rescued(env, d, current, id);
    assert Dest(p, id) in p.objects;
    MovedKeepsId(env, d, current, d.row.history, i);
    FinalKeepsMoved(env, d, current, id);
    FinalIsMigrated(env, d, current);
    ValidationAccepts(d.row.current.value, current);
    var after := Uninterrupted(legacy, listed, d).disk;
    forall j | 0 <= j < |after.row.history|
      ensures after.row.history[j].objectKey == Some(Dest(after, after.row.history[j].versionId))
    {
      FinalEntries(env, d, current, j);
    }
    ServesFromOwnKey(after, id);
    DestIsNotBare(d, id);
  }

  /**
   When the sources are right, a finished run serves a rescued version correctly exactly
   when no object, or the right one, was already at the version's key: the shortcut takes
   what it finds there on trust.
   */
  lemma MigratedCorrectIff(legacy: Legacy, listed: Option<set<string>>, d: Disk, current: string, i: nat, truth: Bytes)
    requires d.row.current.Some? && ValidateVersionId(d.row.current.value) == Ok(current) && !IsMigrated(d.row)
    requires Final(Env(legacy, listed), d, current).Some?
    requires NormalIds(d.row.history) && OwnKeys(d, d.row.history)
    requires i < |d.row.history| && d.row.history[i].objectKey.None?
    requires Source(Env(legacy, listed), d, current, d.row.history[i].versionId) == Some(truth)
    ensures var id := d.row.history[i].versionId;
            ServedId(Uninterrupted(legacy, listed, d).disk, id) == Some(truth)
            <==> (Dest(d, id) in d.objects ==> d.objects[Dest(d, id)] == truth)
  {
    MigratedServesRescued(legacy, listed, d, current, i);
  }

  /**
   A run whose copy reads back wrong gives up and leaves the wrong copy at the version's
   key; the next run does not read it back, and serves it from then on.
   */
  lemma WrongCopyIsAdopted(legacy: Legacy, m: Machine, wrong: Bytes)
    requires Progress(legacy, m) && m.local.Scanning? && m.local.at < |m.disk.row.history|
    requires NormalIds(m.disk.row.history) && OwnKeys(m.disk, m.disk.row.history) && !IsMigrated(m.disk.row)
    requires var s := m.disk.row.history[m.local.at];
             && s.objectKey.None? && Dest(m.disk, s.versionId) !in m.disk.objects
             && var b := Rescued(Env(legacy, m.local.listed), m.disk, m.local.current, s.versionId);
             b.Some? && b.value != wrong
    requires Final(Env(legacy, m.local.listed),
                   WithCopy(m.disk, m.disk.row.history[m.local.at].versionId, wrong), m.local.current).Some?
    ensures var r := Step(legacy, m, Advance(Some(wrong)));
            var id := m.disk.row.history[m.local.at].versionId;
            && r.local == Idle && r.disk.row == m.disk.row
            && ServedId(Uninterrupted(legacy, m.local.listed, r.disk).disk, id) == Some(wrong)
  {
    var id := m.disk.row.history[m.local.at].versionId;
    var r := Step(legacy, m, Advance(Some(wrong)));
    assert r.disk == WithCopy(m.disk, id, wrong);
    MigratedServesRescued(legacy, m.local.listed, r.disk, m.local.current, m.local.at);
  }
}
