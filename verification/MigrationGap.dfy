/**
 The server goes on serving after a migration that failed, so saves can fall between two
 runs. A save makes another version current, and the bare key then holds an older one.
 */
module MigrationGap {
  import opened Results
  import opened KeyLayout
  import opened VaultRow
  import opened MigrationPlan
  import opened BlobMigration
  import opened MigrationConvergence
  import VaultService

  datatype Save = Save(id: string, bytes: Bytes, now: Time)

  /** One upload on a vault that is not migrated: the request of the running server, on the migration's disk. */
  function Saved(d: Disk, s: Save): (d': Disk) {
    var w := VaultService.World(d.row, d.objects, {}, map[], {}, {});
    var r := VaultService.AfterUpload(w, s.bytes, s.id, s.now, true, true, true);
    Disk(r.row, r.objects)
  }

  /** The id is a minted one: no version or object has it. */
  ghost predicate Minted(d: Disk, s: Save) {
    ValidId(s.id) && s.bytes != [] && !HasId(d.row.history, s.id) && Dest(d, s.id) !in d.objects
  }

  /** Every version in the history has a valid id of its own, and is keyed by it if it is keyed. */
  ghost predicate Orderly(d: Disk) {
    && DistinctIds(d.row.history) && OwnKeys(d, d.row.history)
    && forall i :: 0 <= i < |d.row.history| ==> ValidId(d.row.history[i].versionId)
  }

  function Added(d: Disk, s: Save): (e: Snapshot) {
    Snapshot(s.id, d.row.envelope, s.now, Some(Dest(d, s.id)), Some(|s.bytes|))
  }

  lemma SavedShape(d: Disk, s: Save)
    requires Orderly(d) && s.bytes != []
    ensures var h := d.row.history + [Added(d, s)];
            && Excess(h, d.row.maxVersions) < |h|
            && Saved(d, s).row == d.row.(current := Some(s.id), history := h[Excess(h, d.row.maxVersions)..])
            && Saved(d, s).objects == d.objects[Dest(d, s.id) := s.bytes]
  {
    NormalFormOfValid(d.row.history, {});
  }

  lemma SavedIsOrderly(d: Disk, s: Save)
    requires Orderly(d) && Minted(d, s)
    ensures var d' := Saved(d, s);
            && Orderly(d') && d'.row.history != []
            && d'.row.history[|d'.row.history| - 1] == Added(d, s)
  {
    SavedShape(d, s);
    var h := d.row.history + [Added(d, s)];
    var n := Excess(h, d.row.maxVersions);
    forall i | 0 <= i < |d.row.history| ensures h[i].versionId != s.id { assert h[i] == d.row.history[i]; }
    assert forall i :: 0 <= i < |h[n..]| ==> h[n..][i] == h[n + i];
  }

  /** Where a version other than the current one can still be read from. */
  predicate Kept(legacy: Legacy, listed: Option<set<string>>, d: Disk, x: string) {
    Dest(d, x) in d.objects || (listed.Some? && x in listed.value && LegacyGet(legacy, d, x).Some?)
  }

  /** A save neither makes nor loses such a source of another version. */
  lemma SaveLeavesKept(legacy: Legacy, listed: Option<set<string>>, d: Disk, s: Save, x: string)
    requires Orderly(d) && Minted(d, s) && x != s.id
    ensures Kept(legacy, listed, Saved(d, s), x) <==> Kept(legacy, listed, d, x)
    ensures Rescued(Env(legacy, listed), Saved(d, s), s.id, x).Some? <==> Kept(legacy, listed, d, x)
  {
    SavedShape(d, s);
    DestIsNotBare(d, s.id);
    SameBaseInjective(d.row.objectKey, x, s.id);
  }

  predicate Unkeyed(d: Disk, i: nat, x: string) {
    i < |d.row.history| && d.row.history[i].versionId == x && d.row.history[i].objectKey.None?
  }

  /** A version that cannot be rescued is not in what the migration writes. */
  lemma LostIsDropped(env: Env, d: Disk, current: string, i: nat, x: string)
    requires DistinctIds(d.row.history) && Unkeyed(d, i, x) && x != current
    requires Rescued(env, d, current, x).None? && Final(env, d, current).Some?
    ensures !HasId(Final(env, d, current).value, x)
  {
    var m := Moved(env, d, current, d.row.history);
    forall j | 0 <= j < |m| ensures m[j].versionId != x {
      var k := MovedComesFrom(env, d, current, d.row.history, j);
    }
  }

  lemma NotServedWithoutEntry(d: Disk, x: string)
    requires NormalIds(d.row.history) && !HasId(d.row.history, x) && CurrentId(d.row) != Some(x)
    ensures ServedId(d, x).None?
  {
    FindVersionFinds(d.row.history, x);
  }

  lemma OrderlyIsNormal(d: Disk)
    requires Orderly(d)
    ensures NormalIds(d.row.history)
  {
    forall i | 0 <= i < |d.row.history|
      ensures d.row.history[i].versionId != []
      ensures NormalizeVersionId(d.row.history[i].versionId) == d.row.history[i].versionId
    {
      ValidIdIsFixedPoint(d.row.history[i].versionId);
    }
  }

  /** After a save the migration always finishes: the current version is keyed. */
  lemma SavedMigrates(legacy: Legacy, listed: Option<set<string>>, d: Disk, s: Save)
    requires Orderly(d) && Minted(d, s)
    ensures var d' := Saved(d, s);
            && d'.row.current.Some? && ValidateVersionId(d'.row.current.value) == Ok(s.id)
            && HasId(Moved(Env(legacy, listed), d', s.id, d'.row.history), s.id)
            && Final(Env(legacy, listed), d', s.id).Some?
  {
    var d' := Saved(d, s);
    SavedShape(d, s);
    SavedIsOrderly(d, s);
    ValidIdIsFixedPoint(s.id);
    MovedKeepsId(Env(legacy, listed), d', s.id, d'.row.history, |d'.row.history| - 1);
  }

  /**
   What becomes of the older versions when a save falls between a migration that failed and one
   that finishes: a version that is not keyed yet and that retention leaves in the history is
   downloaded afterwards exactly when it had been copied already or the store lists its versions.
   Whatever the earlier runs and saves were, the same two questions decide.
   */
  lemma SurvivesSaveIff(legacy: Legacy, listed: Option<set<string>>, d: Disk, s: Save, i: nat, x: string)
    requires Orderly(d) && Minted(d, s) && x != s.id && Unkeyed(Saved(d, s), i, x)
    ensures ServedId(Uninterrupted(legacy, listed, Saved(d, s)).disk, x).Some? <==> Kept(legacy, listed, d, x)
  {
    var d', env := Saved(d, s), Env(legacy, listed);
    SavedIsOrderly(d, s);
    OrderlyIsNormal(d');
    SavedMigrates(legacy, listed, d, s);
    SaveLeavesKept(legacy, listed, d, s, x);
    if Rescued(env, d', s.id, x).Some? {
      MigratedServesRescued(legacy, listed, d', s.id, i);
    } else {
      LostIsNotServed(legacy, listed, d', s.id, i, x);
    }
  }

  lemma LostIsNotServed(legacy: Legacy, listed: Option<set<string>>, d: Disk, current: string, i: nat, x: string)
    requires Orderly(d) && Unkeyed(d, i, x) && x != current
    requires d.row.current.Some? && ValidateVersionId(d.row.current.value) == Ok(current)
    requires Final(Env(legacy, listed), d, current).Some? && Rescued(Env(legacy, listed), d, current, x).None?
    ensures ServedId(Uninterrupted(legacy, listed, d).disk, x).None?
  {
    var after := Uninterrupted(legacy, listed, d).disk;
    OrderlyIsNormal(d);
    UninterruptedWritesPlan(legacy, listed, d, current);
    LostIsDropped(Env(legacy, listed), d, current, i, x);
    ValidationAccepts(d.row.current.value, current);
    ValidIdIsFixedPoint(current);
    forall j | 0 <= j < |after.row.history|
      ensures after.row.history[j].versionId != []
      ensures NormalizeVersionId(after.row.history[j].versionId) == after.row.history[j].versionId
    {
      FinalEntries(Env(legacy, listed), d, current, j);
    }
    NotServedWithoutEntry(after, x);
  }

  /**
   The run that loses data, on a store without a version listing: the current version at the
   bare key was not copied when a run failed, one upload follows, and the run that finishes
   drops the version and deletes its only bytes.
   */
  lemma SaveInTheGapLosesTheOldVersion(legacy: Legacy, d: Disk, s: Save, i: nat, x: string)
    requires Orderly(d) && Minted(d, s) && x != s.id && Unkeyed(Saved(d, s), i, x)
    requires CurrentId(d.row) == Some(x) && d.row.objectKey in d.objects && Dest(d, x) !in d.objects
    ensures ServedId(d, x) == Some(d.objects[d.row.objectKey])
    ensures var after := Uninterrupted(legacy, None, Saved(d, s)).disk;
            && ServedId(after, x).None? && !HasId(after.row.history, x)
            && d.row.objectKey !in after.objects
  {
    var d' := Saved(d, s);
    SavedShape(d, s);
    SavedIsOrderly(d, s);
    SurvivesSaveIff(legacy, None, d, s, i, x);
    SavedMigrates(legacy, None, d, s);
    SaveLeavesKept(legacy, None, d, s, x);
    UninterruptedWritesPlan(legacy, None, d', s.id);
    LostIsDropped(Env(legacy, None), d', s.id, i, x);
    UnkeyedBefore(d, s, i, x);
  }

  lemma UnkeyedBefore(d: Disk, s: Save, i: nat, x: string)
    requires Orderly(d) && Minted(d, s) && x != s.id && Unkeyed(Saved(d, s), i, x) && CurrentId(d.row) == Some(x)
    requires d.row.objectKey in d.objects
    ensures ServedId(d, x) == Some(d.objects[d.row.objectKey])
  {
    SavedShape(d, s);
    var h := d.row.history + [Added(d, s)];
    var j := Excess(h, d.row.maxVersions) + i;
    assert h[j] == d.row.history[j] && d.row.history[j].versionId == x;
    FindsTheEntry(d.row.history, j);
  }
}
