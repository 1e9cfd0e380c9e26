/**
 What one migration run, left to itself, makes of each version: which ones it keeps, where
 their bytes come from, and what the row says of them afterwards.
 */
module MigrationOutcome {
  import opened Results
  import opened KeyLayout
  import opened VaultRow
  import opened MigrationPlan
  import opened BlobMigration
  import opened MigrationConvergence

  /** A vault whose current version the run can find: keyed already, at the bare key, or copied earlier. */
  predicate Movable(d: Disk, current: string) {
    && d.row.current.Some? && ValidateVersionId(d.row.current.value) == Ok(current)
    && NormalIds(d.row.history) && OwnKeys(d, d.row.history)
    && (|| (exists i :: 0 <= i < |d.row.history| && d.row.history[i].versionId == current
                        && d.row.history[i].objectKey.Some?)
        || d.row.objectKey in d.objects
        || VersionKey(d.row.objectKey, current) in d.objects)
  }

  predicate UnkeyedAt(d: Disk, i: nat, x: string) {
    i < |d.row.history| && d.row.history[i].versionId == x && d.row.history[i].objectKey.None?
  }

  lemma MovableFinishes(env: Env, d: Disk, current: string)
    requires Movable(d, current)
    ensures Final(env, d, current).Some?
  {
    var h := d.row.history;
    if i :| 0 <= i < |h| && h[i].versionId == current && h[i].objectKey.Some? {
      MovedKeepsId(env, d, current, h, i);
    }
  }

  lemma {:induction false} MovedHasEntry(env: Env, d: Disk, current: string, h: seq<Snapshot>, i: nat) returns (j: nat)
    requires i < |h| && RescuedAt(env, d, current, h, i)
    ensures j < |Moved(env, d, current, h)|
    ensures Moved(env, d, current, h)[j]
         == if h[i].objectKey.Some? then h[i]
            else h[i].(objectKey := Some(VersionKey(d.row.objectKey, h[i].versionId)),
                       sizeBytes := Some(|Rescued(env, d, current, h[i].versionId).value|))
  {
    var n := |h| - 1;
    if i < n {
      j := MovedHasEntry(env, d, current, h[..n], i);
    } else {
      j := |Moved(env, d, current, h[..n])|;
    }
  }

  /** An entry of the migrated row, with the bytes it stands for in place and served. */
  ghost predicate Holds(after: Disk, e: Snapshot, bytes: Bytes) {
    && (exists j :: 0 <= j < |after.row.history| && after.row.history[j] == e)
    && e.objectKey == Some(VersionKey(after.row.objectKey, e.versionId)) && e.sizeBytes == Some(|bytes|)
    && VersionKey(after.row.objectKey, e.versionId) in after.objects
    && after.objects[VersionKey(after.row.objectKey, e.versionId)] == bytes
    && ServedId(after, e.versionId) == Some(bytes)
  }

  /** What the run leaves of an unkeyed entry whose bytes it finds. */
  lemma RescuedEntry(legacy: Legacy, listed: Option<set<string>>, d: Disk, current: string, i: nat, x: string)
    requires Movable(d, current) && UnkeyedAt(d, i, x)
    requires Rescued(Env(legacy, listed), d, current, x).Some?
    ensures var bytes := Rescued(Env(legacy, listed), d, current, x).value;
            Holds(Uninterrupted(legacy, listed, d).disk,
                  Snapshot(x, d.row.history[i].envelope, d.row.history[i].savedAt,
                           Some(VersionKey(d.row.objectKey, x)), Some(|bytes|)),
                  bytes)
  {
    var env, h := Env(legacy, listed), d.row.history;
    var after := Uninterrupted(legacy, listed, d).disk;
    MovableFinishes(env, d, current);
    var j := MovedHasEntry(env, d, current, h, i);
    UninterruptedWritesPlan(legacy, listed, d, current);
    assert after.row.history[j] == Final(env, d, current).value[j];
    MigratedServesRescued(legacy, listed, d, current, i);
    OwnObject(legacy, listed, d, current, i, x);
  }

  lemma OwnObject(legacy: Legacy, listed: Option<set<string>>, d: Disk, current: string, i: nat, x: string)
    requires Movable(d, current) && UnkeyedAt(d, i, x)
    requires Rescued(Env(legacy, listed), d, current, x).Some? && Final(Env(legacy, listed), d, current).Some?
    ensures var after := Uninterrupted(legacy, listed, d).disk;
            && VersionKey(d.row.objectKey, x) in after.objects
            && after.objects[VersionKey(d.row.objectKey, x)] == Rescued(Env(legacy, listed), d, current, x).value
  {
    PreparedShape(legacy, listed, d, current);
    UninterruptedWritesPlan(legacy, listed, d, current);
    DestIsNotBare(d, x);
    var p := Prepared(legacy, listed, d).disk;
    assert p.row.history[i].versionId == x && Dest(p, x) in p.objects;
    assert Rescued(Env(legacy, listed), p, current, x) == Rescued(Env(legacy, listed), d, current, x);
  }

  /** An older version that the store still lists is rescued, with its own bytes, envelope and time. */
  lemma ListedVersionIsRescued(
    vs: map<string, Bytes>, listed: set<string>, d: Disk, current: string, i: nat, x: string)
    requires Movable(d, current) && UnkeyedAt(d, i, x) && x != current
    requires x in listed && x in vs && VersionKey(d.row.objectKey, x) !in d.objects
    ensures Holds(Uninterrupted(KeepsVersions(vs), Some(listed), d).disk,
                  Snapshot(x, d.row.history[i].envelope, d.row.history[i].savedAt,
                           Some(VersionKey(d.row.objectKey, x)), Some(|vs[x]|)),
                  vs[x])
  {
    RescuedEntry(KeepsVersions(vs), Some(listed), d, current, i, x);
  }

  /** A version an earlier run copied, the current one or an older one, is kept as it was copied. */
  lemma CopiedVersionIsKept(
    legacy: Legacy, listed: Option<set<string>>, d: Disk, current: string, i: nat, x: string)
    requires Movable(d, current) && UnkeyedAt(d, i, x) && VersionKey(d.row.objectKey, x) in d.objects
    ensures var bytes := d.objects[VersionKey(d.row.objectKey, x)];
            Holds(Uninterrupted(legacy, listed, d).disk,
                  Snapshot(x, d.row.history[i].envelope, d.row.history[i].savedAt,
                           Some(VersionKey(d.row.objectKey, x)), Some(|bytes|)),
                  bytes)
  {
    RescuedEntry(legacy, listed, d, current, i, x);
  }

  /** The current version, if the history has it unkeyed, comes from the bare object. */
  lemma CurrentComesFromBare(legacy: Legacy, listed: Option<set<string>>, d: Disk, current: string, i: nat)
    requires Movable(d, current) && UnkeyedAt(d, i, current)
    requires d.row.objectKey in d.objects && VersionKey(d.row.objectKey, current) !in d.objects
    ensures var bytes := d.objects[d.row.objectKey];
            Holds(Uninterrupted(legacy, listed, d).disk,
                  Snapshot(current, d.row.history[i].envelope, d.row.history[i].savedAt,
                           Some(VersionKey(d.row.objectKey, current)), Some(|bytes|)),
                  bytes)
  {
    RescuedEntry(legacy, listed, d, current, i, current);
  }

  /**
   A current version the history never had is added last, with the row's envelope and time: from
   its own key if a copy is there, and else from the bare object.
   */
  lemma AbsentCurrentIsAdded(legacy: Legacy, listed: Option<set<string>>, d: Disk, current: string)
    requires Movable(d, current)
    requires forall i :: 0 <= i < |d.row.history| ==> d.row.history[i].versionId != current
    ensures var own, after := VersionKey(d.row.objectKey, current), Uninterrupted(legacy, listed, d).disk;
            && (own in d.objects || d.row.objectKey in d.objects)
            && var bytes := if own in d.objects then d.objects[own] else d.objects[d.row.objectKey];
               var e := Snapshot(current, d.row.envelope, d.row.updatedAt, Some(own), Some(|bytes|));
               && after.row.history != [] && after.row.history[|after.row.history| - 1] == e
               && Holds(after, e, bytes)
  {
    var env, h := Env(legacy, listed), d.row.history;
    var after := Uninterrupted(legacy, listed, d).disk;
    MovableFinishes(env, d, current);
    AbsentIsNotMigrated(d, current);
    MovedIdsAreOld(env, d, current, h, current);
    PreparedShape(legacy, listed, d, current);
    UninterruptedWritesPlan(legacy, listed, d, current);
    DestIsNotBare(d, current);
    var p := Prepared(legacy, listed, d).disk;
    MovedIdsAreOld(env, p, current, h, current);
    assert Rescued(env, p, current, current) == Rescued(env, d, current, current);
    AddedIsServed(legacy, listed, d, current);
  }

  lemma AbsentIsNotMigrated(d: Disk, current: string)
    requires d.row.current.Some? && ValidateVersionId(d.row.current.value) == Ok(current) && NormalIds(d.row.history)
    requires forall i :: 0 <= i < |d.row.history| ==> d.row.history[i].versionId != current
    ensures !IsMigrated(d.row)
  {
    ValidationAccepts(d.row.current.value, current);
  }

  lemma AddedIsServed(legacy: Legacy, listed: Option<set<string>>, d: Disk, current: string)
    requires Movable(d, current) && !IsMigrated(d.row) && Final(Env(legacy, listed), d, current).Some?
    ensures var after := Uninterrupted(legacy, listed, d).disk;
            ServedId(after, current)
            == (if VersionKey(after.row.objectKey, current) in after.objects
                then Some(after.objects[VersionKey(after.row.objectKey, current)]) else None)
  {
    var after := Uninterrupted(legacy, listed, d).disk;
    UninterruptedWritesPlan(legacy, listed, d, current);
    FinalIsMigrated(Env(legacy, listed), d, current);
    ValidationAccepts(d.row.current.value, current);
    forall j | 0 <= j < |after.row.history|
      ensures after.row.history[j].objectKey == Some(Dest(after, after.row.history[j].versionId))
    {
      FinalEntries(Env(legacy, listed), d, current, j);
    }
    ServesFromOwnKey(after, current);
  }

  /** A keyed entry stays as it is. */
  lemma KeyedEntryStays(legacy: Legacy, listed: Option<set<string>>, d: Disk, current: string, i: nat)
    requires Movable(d, current) && !IsMigrated(d.row) && i < |d.row.history| && d.row.history[i].objectKey.Some?
    ensures var after := Uninterrupted(legacy, listed, d).disk;
            exists j :: 0 <= j < |after.row.history| && after.row.history[j] == d.row.history[i]
  {
    var env := Env(legacy, listed);
    MovableFinishes(env, d, current);
    var j := MovedHasEntry(env, d, current, d.row.history, i);
    UninterruptedWritesPlan(legacy, listed, d, current);
    assert Uninterrupted(legacy, listed, d).disk.row.history[j] == d.row.history[i];
  }

  lemma LostIsNotMoved(env: Env, d: Disk, current: string, i: nat, x: string, j: nat)
    requires DistinctIds(d.row.history) && UnkeyedAt(d, i, x) && Rescued(env, d, current, x).None?
    requires j < |Moved(env, d, current, d.row.history)|
    ensures Moved(env, d, current, d.row.history)[j].versionId != x
  {
    var k := MovedComesFrom(env, d, current, d.row.history, j);
  }

  /** An older version that nobody copied and the store does not list has no entry afterwards. */
  lemma UnlistedVersionIsDropped(
    legacy: Legacy, listed: Option<set<string>>, d: Disk, current: string, i: nat, x: string)
    requires Movable(d, current) && UnkeyedAt(d, i, x) && x != current && DistinctIds(d.row.history)
    requires VersionKey(d.row.objectKey, x) !in d.objects && (listed.None? || x !in listed.value)
    ensures var after := Uninterrupted(legacy, listed, d).disk.row.history;
            forall j :: 0 <= j < |after| ==> after[j].versionId != x
  {
    var env := Env(legacy, listed);
    var m := Moved(env, d, current, d.row.history);
    MovableFinishes(env, d, current);
    UninterruptedWritesPlan(legacy, listed, d, current);
    forall j | 0 <= j < |m| ensures m[j].versionId != x {
      LostIsNotMoved(env, d, current, i, x, j);
    }
  }

  /** Nothing else is in the migrated row: every version was in the history, or is the current one. */
  lemma NothingIsInvented(legacy: Legacy, listed: Option<set<string>>, d: Disk, current: string, j: nat)
    requires Movable(d, current) && !IsMigrated(d.row)
    requires j < |Uninterrupted(legacy, listed, d).disk.row.history|
    ensures var x := Uninterrupted(legacy, listed, d).disk.row.history[j].versionId;
            x == current || exists i :: 0 <= i < |d.row.history| && d.row.history[i].versionId == x
  {
    var env, h := Env(legacy, listed), d.row.history;
    MovableFinishes(env, d, current);
    UninterruptedWritesPlan(legacy, listed, d, current);
    if j < |Moved(env, d, current, h)| {
      var i := MovedComesFrom(env, d, current, h, j);
      assert h[i].versionId == Moved(env, d, current, h)[j].versionId;
    }
  }

  /** Without any of its bytes in the store the current version stops the run, and the row stays. */
  lemma MissingCurrentStops(legacy: Legacy, listed: Option<set<string>>, d: Disk, current: string)
    requires d.row.current.Some? && ValidateVersionId(d.row.current.value) == Ok(current) && !IsMigrated(d.row)
    requires forall i :: 0 <= i < |d.row.history| && d.row.history[i].versionId == current ==>
               d.row.history[i].objectKey.None?
    requires d.row.objectKey !in d.objects && VersionKey(d.row.objectKey, current) !in d.objects
    ensures Uninterrupted(legacy, listed, d).disk.row == d.row
  {
    var env, h := Env(legacy, listed), d.row.history;
    var m := Moved(env, d, current, h);
    forall j | 0 <= j < |m| ensures m[j].versionId != current {
      var i := MovedComesFrom(env, d, current, h, j);
    }
    StopsWithoutPlan(legacy, listed, d, current);
  }

  lemma StopsWithoutPlan(legacy: Legacy, listed: Option<set<string>>, d: Disk, current: string)
    requires d.row.current.Some? && ValidateVersionId(d.row.current.value) == Ok(current) && !IsMigrated(d.row)
    requires Final(Env(legacy, listed), d, current).None?
    ensures Uninterrupted(legacy, listed, d).disk.row == d.row
  {
    GoIsOnPlan(legacy, listed, d, current, |d.row.history| + 3);
  }

  lemma {:induction false} GoIsOnPlan(legacy: Legacy, listed: Option<set<string>>, d: Disk, current: string, n: nat)
    requires d.row.current.Some? && ValidateVersionId(d.row.current.value) == Ok(current) && !IsMigrated(d.row)
    ensures var m := Go(legacy, Step(legacy, Machine(d, Idle), Start(listed)), n);
            Progress(legacy, m) && ListedIs(m.local, listed) && OnPlan(Env(legacy, listed), d, current, m)
  {
    if n > 0 {
      GoIsOnPlan(legacy, listed, d, current, n - 1);
      var m := Go(legacy, Step(legacy, Machine(d, Idle), Start(listed)), n - 1);
      StepKeepsProgress(legacy, m, Advance(None));
      StepStaysOnPlan(legacy, listed, d, current, m, Advance(None));
    }
  }
}
