/**
 A migrated vault is an ordinary one: after the migration, however it got there, the requests
 of the running server find the vault in the state their own invariant describes.
 */
module MigratedVault {
  import opened Results
  import opened KeyLayout
  import opened VaultRow
  import opened MigrationPlan
  import opened BlobMigration
  import opened MigrationConvergence
  import ObjectStore
  import StoredSizes
  import VaultService

  /** A keyed entry lies under its own version key, with the size of the bytes it was saved with. */
  predicate EntryRecorded(objectKey: string, s: Snapshot, saved: map<string, Bytes>) {
    && ValidId(s.versionId)
    && (s.objectKey.Some? ==>
          && s.objectKey.value == VersionKey(objectKey, s.versionId)
          && s.versionId in saved && s.sizeBytes == Some(|saved[s.versionId]|))
  }

  /** The current version comes last in the history, if the history has it at all. */
  predicate CurrentLast(row: Row) {
    && (row.current.None? ==> row.history == [])
    && (CurrentId(row).Some? && HasId(row.history, CurrentId(row).value) ==>
          row.history[|row.history| - 1].versionId == CurrentId(row).value)
  }

  /** What every save leaves of a row, whether or not it is keyed yet. */
  ghost predicate Recorded(row: Row, saved: map<string, Bytes>) {
    && SlashFree(row.objectKey) && DistinctIds(row.history) && CurrentLast(row)
    && forall i :: 0 <= i < |row.history| ==> EntryRecorded(row.objectKey, row.history[i], saved)
  }

  // ---- The row a migration writes ---------------------------------------------------

  lemma {:induction false} MovedDistinct(env: Env, d: Disk, current: string, h: seq<Snapshot>)
    requires DistinctIds(h)
    ensures DistinctIds(Moved(env, d, current, h))
  {
    if h != [] {
      var n := |h| - 1;
      var rest := Moved(env, d, current, h[..n]);
      MovedDistinct(env, d, current, h[..n]);
      forall j | 0 <= j < |rest| ensures rest[j].versionId != h[n].versionId {
        var i := MovedComesFrom(env, d, current, h[..n], j);
      }
    }
  }

  /** If the last entry survives the scan, it stays last; if it does not, its id is gone. */
  lemma LastMoves(env: Env, d: Disk, current: string, h: seq<Snapshot>)
    requires DistinctIds(h) && h != []
    requires HasId(Moved(env, d, current, h), h[|h| - 1].versionId)
    ensures var m := Moved(env, d, current, h); m[|m| - 1].versionId == h[|h| - 1].versionId
  {
    var n := |h| - 1;
    var m, rest := Moved(env, d, current, h), Moved(env, d, current, h[..n]);
    forall j | 0 <= j < |rest| ensures rest[j].versionId != h[n].versionId {
      var i := MovedComesFrom(env, d, current, h[..n], j);
    }
  }

  lemma FinalDistinct(env: Env, d: Disk, current: string)
    requires DistinctIds(d.row.history) && Final(env, d, current).Some?
    ensures DistinctIds(Final(env, d, current).value)
  {
    MovedDistinct(env, d, current, d.row.history);
  }

  lemma FinalEndsWithCurrent(env: Env, d: Disk, current: string)
    requires DistinctIds(d.row.history) && CurrentLast(d.row) && CurrentId(d.row) == Some(current)
    requires Final(env, d, current).Some?
    ensures var f := Final(env, d, current).value; f != [] && f[|f| - 1].versionId == current
  {
    var h, m := d.row.history, Moved(env, d, current, d.row.history);
    if HasId(m, current) {
      var j :| 0 <= j < |m| && m[j].versionId == current;
      var i := MovedComesFrom(env, d, current, h, j);
      LastMoves(env, d, current, h);
    }
  }

  lemma FinalEntriesRecorded(
    legacy: Legacy, listed: Option<set<string>>, d: Disk, saved: map<string, Bytes>, current: string, j: nat)
    requires listed.Some? ==> legacy.KeepsVersions?
    requires Sound(legacy, d, saved) && Recorded(d.row, saved) && CurrentId(d.row) == Some(current) && ValidId(current)
    requires var f := Final(Env(legacy, listed), d, current); f.Some? && j < |f.value|
    ensures EntryRecorded(d.row.objectKey, Final(Env(legacy, listed), d, current).value[j], saved)
  {
    var env, h := Env(legacy, listed), d.row.history;
    var m := Moved(env, d, current, h);
    if j < |m| {
      var i := MovedComesFrom(env, d, current, h, j);
      assert EntryRecorded(d.row.objectKey, h[i], saved);
      if h[i].objectKey.None? { RescuedIsSaved(legacy, listed, d, saved, current, h[i].versionId); }
    } else {
      TailNeedsBare(env, d, current);
      RescuedIsSaved(legacy, listed, d, saved, current, current);
    }
  }

  lemma CommitEndsWithCurrent(env: Env, d: Disk, current: string)
    requires DistinctIds(d.row.history) && CurrentLast(d.row) && CurrentId(d.row) == Some(current) && ValidId(current)
    requires Final(env, d, current).Some?
    ensures CurrentLast(FinalRow(env, d, current))
  {
    FinalEndsWithCurrent(env, d, current);
    ValidIdIsFixedPoint(current);
  }

  lemma CommitKeepsRecorded(
    legacy: Legacy, listed: Option<set<string>>, d: Disk, saved: map<string, Bytes>, current: string)
    requires listed.Some? ==> legacy.KeepsVersions?
    requires Sound(legacy, d, saved) && Recorded(d.row, saved) && CurrentId(d.row) == Some(current) && ValidId(current)
    requires Final(Env(legacy, listed), d, current).Some?
    ensures Recorded(FinalRow(Env(legacy, listed), d, current), saved)
  {
    var env := Env(legacy, listed);
    FinalDistinct(env, d, current);
    CommitEndsWithCurrent(env, d, current);
    forall j | 0 <= j < |Final(env, d, current).value|
      ensures EntryRecorded(d.row.objectKey, Final(env, d, current).value[j], saved)
    {
      FinalEntriesRecorded(legacy, listed, d, saved, current, j);
    }
  }

  lemma OnlyCommitWritesTheRow(legacy: Legacy, m: Machine, e: Event)
    requires Progress(legacy, m) && !(m.local.Ready? && e.Advance?)
    ensures Step(legacy, m, e).disk.row == m.disk.row
  {
  }

  lemma StepKeepsRecorded(legacy: Legacy, m: Machine, e: Event, saved: map<string, Bytes>)
    requires Progress(legacy, m) && ListingHonest(legacy, m.local) && Sound(legacy, m.disk, saved)
    requires Recorded(m.disk.row, saved)
    ensures Recorded(Step(legacy, m, e).disk.row, saved)
  {
    if m.local.Ready? && e.Advance? {
      ValidatedCurrent(m.disk.row, m.local.id);
      CommitKeepsRecorded(legacy, m.local.listing, m.disk, saved, m.local.id);
    } else {
      OnlyCommitWritesTheRow(legacy, m, e);
    }
  }

  /** Every keyed entry's object is in the store. */
  predicate KeyedPresent(d: Disk) {
    forall i :: 0 <= i < |d.row.history| && d.row.history[i].objectKey.Some? ==>
      Dest(d, d.row.history[i].versionId) in d.objects
  }

  /** A run holds on to what it has copied, and takes away the bare object only. */
  lemma StepKeepsPresent(legacy: Legacy, m: Machine, e: Event)
    requires Progress(legacy, m) && KeyedPresent(m.disk)
    requires OwnKeys(m.disk, m.disk.row.history)
    ensures KeyedPresent(Step(legacy, m, e).disk)
  {
    var d, h := m.disk, m.disk.row.history;
    var r := Step(legacy, m, e).disk;
    if e.Advance? && m.local.Ready? {
      var env, f := Env(legacy, m.local.listing), m.local.history;
      ValidatedCurrent(d.row, m.local.id);
      forall j | 0 <= j < |f| ensures Dest(r, f[j].versionId) in r.objects {
        if j < |Moved(env, d, m.local.id, h)| { var i := MovedComesFrom(env, d, m.local.id, h, j); }
      }
    } else {
      forall i | 0 <= i < |h| && h[i].objectKey.Some? ensures Dest(r, h[i].versionId) in r.objects {
        DestIsNotBare(d, h[i].versionId);
      }
    }
  }

  lemma HonestBefore(legacy: Legacy, run: seq<Event>)
    requires Honest(legacy, run) && run != []
    ensures Honest(legacy, run[..|run| - 1])
  {
    var before := run[..|run| - 1];
    assert forall i :: 0 <= i < |before| ==> before[i] == run[i];
  }

  lemma {:induction false} RunKeepsRecorded(legacy: Legacy, d: Disk, run: seq<Event>, saved: map<string, Bytes>)
    requires Sound(legacy, d, saved) && Recorded(d.row, saved) && Honest(legacy, run)
    ensures Recorded(Run(legacy, Machine(d, Idle), run).disk.row, saved)
  {
    if run != [] {
      var before := run[..|run| - 1];
      HonestBefore(legacy, run);
      RunKeepsRecorded(legacy, d, before, saved);
      RunIsSafe(legacy, d, before, saved);
      StepKeepsRecorded(legacy, Run(legacy, Machine(d, Idle), before), run[|run| - 1], saved);
    }
  }

  lemma {:induction false} RunKeepsPresent(legacy: Legacy, d: Disk, run: seq<Event>, saved: map<string, Bytes>)
    requires Sound(legacy, d, saved) && KeyedPresent(d) && Honest(legacy, run)
    ensures KeyedPresent(Run(legacy, Machine(d, Idle), run).disk)
  {
    if run != [] {
      var before := run[..|run| - 1];
      HonestBefore(legacy, run);
      RunKeepsPresent(legacy, d, before, saved);
      RunIsSafe(legacy, d, before, saved);
      StepKeepsPresent(legacy, Run(legacy, Machine(d, Idle), before), run[|run| - 1]);
    }
  }

  // ---- The vault as the requests see it ---------------------------------------------

  /**
   What the migration hands over: the disk, with no cleanup outstanding, the bytes its versions
   were saved with, the versions whose object was gone already, and the objects of the vault
   that no version names.
   */
  ghost function Handed(d: Disk, saved: map<string, Bytes>): (w: VaultService.World) {
    var h := d.row.history;
    VaultService.World(
      d.row, d.objects, {},
      map id | id in saved && HasId(h, id) :: saved[id],
      set i | 0 <= i < |h| && Dest(d, h[i].versionId) !in d.objects :: h[i].versionId,
      set k | k in d.objects && BaseKey(k) == d.row.objectKey && !Named(h, k) :: k)
  }

  lemma MigratedRowOk(row: Row, saved: map<string, Bytes>)
    requires Recorded(row, saved) && IsMigrated(row)
    ensures VaultService.RowOk(row)
  {
    if row.current.Some? {
      var i :| 0 <= i < |row.history| && row.history[i].versionId == row.current.value;
      ValidIdIsFixedPoint(row.current.value);
    }
  }

  lemma HandedEntryOk(legacy: Legacy, d: Disk, saved: map<string, Bytes>, i: nat)
    requires Sound(legacy, d, saved) && Recorded(d.row, saved) && i < |d.row.history|
    requires d.row.history[i].objectKey.Some?
    ensures VaultService.EntryOk(Handed(d, saved), d.row.history[i])
  {
    var w, s := Handed(d, saved), d.row.history[i];
    assert EntryRecorded(d.row.objectKey, s, saved);
    assert VaultService.KeyIn(w, s.versionId) == Dest(d, s.versionId);
    if s.versionId in w.torn {
      var j :| 0 <= j < |d.row.history| && Dest(d, d.row.history[j].versionId) !in d.objects
               && d.row.history[j].versionId == s.versionId;
    }
  }

  /** A migrated vault satisfies the invariant of the requests. */
  lemma MigratedIsInv(legacy: Legacy, d: Disk, saved: map<string, Bytes>)
    requires Sound(legacy, d, saved) && Recorded(d.row, saved) && IsMigrated(d.row)
    ensures VaultService.Inv(Handed(d, saved))
  {
    var w, h := Handed(d, saved), d.row.history;
    MigratedRowOk(d.row, saved);
    forall s | s in h ensures VaultService.EntryOk(w, s) {
      var i :| 0 <= i < |h| && h[i] == s;
      HandedEntryOk(legacy, d, saved, i);
    }
    forall id | id in w.torn ensures id in w.saved {
      var i :| 0 <= i < |h| && Dest(d, h[i].versionId) !in d.objects && h[i].versionId == id;
      assert EntryRecorded(d.row.objectKey, h[i], saved);
    }
  }

  /** The vault after any runs of the migration. */
  ghost function Migrated(
      legacy: Legacy, d: Disk, run: seq<Event>, saved: map<string, Bytes>): (w: VaultService.World) {
    Handed(Run(legacy, Machine(d, Idle), run).disk, saved)
  }

  /** A legacy vault whose migration, interrupted or not, has come to a migrated row. */
  ghost predicate Migrates(legacy: Legacy, d: Disk, run: seq<Event>, saved: map<string, Bytes>) {
    && Sound(legacy, d, saved) && Recorded(d.row, saved) && Honest(legacy, run)
    && IsMigrated(Run(legacy, Machine(d, Idle), run).disk.row)
  }

  /** However it came about, crashes and all, the requests find their invariant in place. */
  lemma MigrationEstablishesInv(legacy: Legacy, d: Disk, run: seq<Event>, saved: map<string, Bytes>)
    requires Migrates(legacy, d, run, saved)
    ensures VaultService.Inv(Migrated(legacy, d, run, saved))
  {
    RunIsSafe(legacy, d, run, saved);
    RunKeepsRecorded(legacy, d, run, saved);
    MigratedIsInv(legacy, Run(legacy, Machine(d, Idle), run).disk, saved);
  }

  /** Nothing is missing that was not missing before: rescued versions have their objects. */
  lemma NothingGoesMissing(legacy: Legacy, d: Disk, run: seq<Event>, saved: map<string, Bytes>)
    requires Migrates(legacy, d, run, saved) && KeyedPresent(d)
    ensures Migrated(legacy, d, run, saved).torn == {}
  {
    RunKeepsRecorded(legacy, d, run, saved);
    RunKeepsPresent(legacy, d, run, saved);
    var m := Run(legacy, Machine(d, Idle), run).disk;
    if m.row.current.None? { assert m.row.history == []; }
  }

  /**
   Read correctness across the migration: from a legacy vault, through any migration runs with
   crashes anywhere that end in a migrated row, and then any allowed requests, every version in
   the history downloads exactly the bytes it was saved with, unless its object was missing
   when the requests began or one of them tore it.
   */
  lemma ReadsAcrossMigration(
    legacy: Legacy, d: Disk, run: seq<Event>, saved: map<string, Bytes>, requests: seq<VaultService.Action>, i: nat)
    requires Migrates(legacy, d, run, saved) && VaultService.AllowedRun(Migrated(legacy, d, run, saved), requests)
    requires i < |VaultService.Run(Migrated(legacy, d, run, saved), requests).row.history|
    ensures var w := Migrated(legacy, d, run, saved);
            var r := VaultService.Run(w, requests);
            var id := r.row.history[i].versionId;
            && id in r.saved
            && VaultService.Download(r, Some(id))
               == (if id in w.torn || VaultService.TearsInRun(w, requests, id) then Err(NotFound) else Ok(r.saved[id]))
  {
    MigrationEstablishesInv(legacy, d, run, saved);
    VaultService.ReadsFromHereOn(Migrated(legacy, d, run, saved), requests, i);
  }

  /** A version saved before the migration is still held to the bytes of that save. */
  lemma OldBytesAreFinal(
    legacy: Legacy, d: Disk, run: seq<Event>, saved: map<string, Bytes>, requests: seq<VaultService.Action>, id: string)
    requires Migrates(legacy, d, run, saved) && VaultService.AllowedRun(Migrated(legacy, d, run, saved), requests)
    requires HasId(Migrated(legacy, d, run, saved).row.history, id)
    ensures id in saved
    ensures var r := VaultService.Run(Migrated(legacy, d, run, saved), requests);
            id in r.saved && r.saved[id] == saved[id]
  {
    var w := Migrated(legacy, d, run, saved);
    MigrationEstablishesInv(legacy, d, run, saved);
    var i :| 0 <= i < |w.row.history| && w.row.history[i].versionId == id;
    assert VaultService.EntryOk(w, w.row.history[i]);
    VaultService.SavedBytesAreFinal(w, requests, id);
  }

  /** The row across the migration: distinct ids, the current version last, and nothing else resolves. */
  lemma RowAcrossMigration(
    legacy: Legacy, d: Disk, run: seq<Event>, saved: map<string, Bytes>, requests: seq<VaultService.Action>,
    raw: string)
    requires Migrates(legacy, d, run, saved) && VaultService.AllowedRun(Migrated(legacy, d, run, saved), requests)
    ensures var r := VaultService.Run(Migrated(legacy, d, run, saved), requests).row;
            && VaultService.RowOk(r)
            && (ResolveBlobKey(r, Some(raw)).Ok? ==> CurrentId(r).Some? && HasId(r.history, NormalizeVersionId(raw)))
  {
    MigrationEstablishesInv(legacy, d, run, saved);
    VaultService.RowOverRuns(Migrated(legacy, d, run, saved), requests, raw);
  }

  // ---- Sizes --------------------------------------------------------------------------

  /**
   Recorded sizes across the migration: on a quiet vault with no torn version, the history's
   bytes are what the bucket walk totals exactly when the migration has left no non-empty
   object at the bare key.
   */
  lemma SizesAcrossMigrationIff(
    legacy: Legacy, d: Disk, run: seq<Event>, saved: map<string, Bytes>, requests: seq<VaultService.Action>,
    pages: seq<ObjectStore.Page>)
    requires Migrates(legacy, d, run, saved) && VaultService.AllowedRun(Migrated(legacy, d, run, saved), requests)
    requires var r := VaultService.Run(Migrated(legacy, d, run, saved), requests);
             StoredSizes.Quiet(r) && StoredSizes.Untorn(r) && StoredSizes.ListsBucket(pages, r.objects)
    ensures var w := Migrated(legacy, d, run, saved);
            var r := VaultService.Run(w, requests);
            ObjectStore.TotalFor(r.row.objectKey, ObjectStore.AllVisits(pages))
              == StoredSizes.StoredVersionBytes(r.row.history)
            <==> StoredSizes.BareBytes(w) == 0
  {
    var w := Migrated(legacy, d, run, saved);
    MigrationEstablishesInv(legacy, d, run, saved);
    StoredSizes.RecordedSizesAgreeIff(w, requests, pages);
    StoredSizes.BareStays(w, requests);
  }

  /** Once the row is migrated, no later run does anything, so what it left at the bare key stays. */
  lemma {:induction false} MigratedIsLeftAlone(legacy: Legacy, d: Disk, run: seq<Event>)
    requires IsMigrated(d.row)
    ensures Run(legacy, Machine(d, Idle), run) == Machine(d, Idle)
  {
    if run != [] { MigratedIsLeftAlone(legacy, d, run[..|run| - 1]); }
  }

  lemma CommitHandsOver(legacy: Legacy, m: Machine, saved: map<string, Bytes>)
    requires Progress(legacy, m) && m.local.Ready? && ListingHonest(legacy, m.local)
    requires Sound(legacy, m.disk, saved) && Recorded(m.disk.row, saved)
    ensures var d := Step(legacy, m, Advance(None)).disk;
            && d.objects == m.disk.objects && d.row.objectKey == m.disk.row.objectKey
            && IsMigrated(d.row) && VaultService.Inv(Handed(d, saved))
  {
    var d := Step(legacy, m, Advance(None)).disk;
    ValidatedCurrent(m.disk.row, m.local.id);
    FinalIsMigrated(Env(legacy, m.local.listing), m.disk, m.local.id);
    StepKeepsRecorded(legacy, m, Advance(None), saved);
    CommitIsSound(legacy, Env(legacy, m.local.listing), m.disk, saved, m.local.id);
    MigratedIsInv(legacy, d, saved);
  }

  /**
   A run that stops between writing the row and removing the bare object, or whose removal
   fails, leaves that object for good: no later run and no request of a consistent vault takes it.
   */
  lemma BareLeaksForGood(
    legacy: Legacy, m: Machine, saved: map<string, Bytes>, later: seq<Event>, requests: seq<VaultService.Action>)
    requires Progress(legacy, m) && m.local.Ready? && ListingHonest(legacy, m.local)
    requires Sound(legacy, m.disk, saved) && Recorded(m.disk.row, saved)
    requires m.disk.row.objectKey in m.disk.objects
    requires VaultService.AllowedRun(Handed(Step(legacy, m, Advance(None)).disk, saved), requests)
    ensures var stopped := Step(legacy, Step(legacy, m, Advance(None)), Crash);
            var bare := m.disk.row.objectKey;
            var r := VaultService.Run(Handed(stopped.disk, saved), requests);
            && Run(legacy, stopped, later) == stopped
            && bare in r.objects && r.objects[bare] == m.disk.objects[bare]
  {
    CommitHandsOver(legacy, m, saved);
    MigratedIsLeftAlone(legacy, Step(legacy, m, Advance(None)).disk, later);
    StoredSizes.BareStays(Handed(Step(legacy, m, Advance(None)).disk, saved), requests);
  }

  // ---- One uninterrupted run ---------------------------------------------------------

  function Undisturbed(listed: Option<set<string>>, n: nat): (run: seq<Event>) {
    if n == 0 then [Start(listed)] else Undisturbed(listed, n - 1) + [Advance(None)]
  }

  lemma {:induction false} GoIsRun(legacy: Legacy, listed: Option<set<string>>, d: Disk, n: nat)
    ensures Go(legacy, Step(legacy, Machine(d, Idle), Start(listed)), n)
         == Run(legacy, Machine(d, Idle), Undisturbed(listed, n))
  {
    var run := Undisturbed(listed, n);
    if n > 0 {
      GoIsRun(legacy, listed, d, n - 1);
      assert run[..|run| - 1] == Undisturbed(listed, n - 1);
    } else {
      assert run[..0] == [];
    }
  }

  lemma {:induction false} UndisturbedIsHonest(legacy: Legacy, listed: Option<set<string>>, n: nat)
    requires listed.Some? ==> legacy.KeepsVersions?
    ensures Honest(legacy, Undisturbed(listed, n))
  {
    if n > 0 { UndisturbedIsHonest(legacy, listed, n - 1); }
  }

  /** A run left to itself hands over a vault whose recorded sizes will agree: nothing stays at the bare key. */
  lemma UninterruptedHandsOver(
    legacy: Legacy, listed: Option<set<string>>, d: Disk, saved: map<string, Bytes>, current: string)
    requires Sound(legacy, d, saved) && Recorded(d.row, saved) && (listed.Some? ==> legacy.KeepsVersions?)
    requires d.row.current.Some? && ValidateVersionId(d.row.current.value) == Ok(current) && !IsMigrated(d.row)
    requires Final(Env(legacy, listed), d, current).Some?
    ensures var run := Undisturbed(listed, |d.row.history| + 3);
            && Migrates(legacy, d, run, saved)
            && Run(legacy, Machine(d, Idle), run) == Uninterrupted(legacy, listed, d)
            && StoredSizes.BareBytes(Migrated(legacy, d, run, saved)) == 0
  {
    GoIsRun(legacy, listed, d, |d.row.history| + 3);
    UndisturbedIsHonest(legacy, listed, |d.row.history| + 3);
    UninterruptedWritesPlan(legacy, listed, d, current);
  }
}
