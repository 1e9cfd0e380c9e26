/**
 The migration of one vault as the server runs it, proved to be the machine of
 `BlobMigration` step for step, whatever the store keeps of the copies it is sent.
 */
module Migrator {
  import opened Results
  import opened KeyLayout
  import opened VaultRow
  import opened MigrationPlan
  import opened BlobMigration
  import opened MigrationConvergence

  datatype Outcome = Outcome(recovered: nat, lost: nat)

  function Begin(d: Disk, current: string, listed: Option<set<string>>): (m: Machine) {
    Machine(d, Scanning(0, [], 0, 0, current, listed))
  }

  /** What the store keeps of the next copy, if it is not what it is sent. */
  function KeptFor(m: Machine, kept: map<string, Bytes>): (r: Option<Bytes>) {
    if !m.local.Scanning? then None
    else
      var id := if m.local.at < |m.disk.row.history| then m.disk.row.history[m.local.at].versionId else m.local.current;
      if Dest(m.disk, id) in kept then Some(kept[Dest(m.disk, id)]) else None
  }

  /** `n` steps against a store that keeps `kept` instead of what it is sent under those keys. */
  function GoWith(legacy: Legacy, m: Machine, kept: map<string, Bytes>, n: nat): (r: Machine) {
    if n == 0 then m
    else
      var before := GoWith(legacy, m, kept, n - 1);
      Step(legacy, before, Advance(KeptFor(before, kept)))
  }

  lemma {:induction false} HonestStoreGoes(legacy: Legacy, m: Machine, n: nat)
    ensures GoWith(legacy, m, map[], n) == Go(legacy, m, n)
  {
    if n > 0 { HonestStoreGoes(legacy, m, n - 1); }
  }

  lemma {:induction false} IdleStays(legacy: Legacy, m: Machine, kept: map<string, Bytes>, k: nat, n: nat)
    requires k <= n && GoWith(legacy, m, kept, k).local.Idle?
    ensures GoWith(legacy, m, kept, n) == GoWith(legacy, m, kept, k)
  {
    if k < n { IdleStays(legacy, m, kept, k, n - 1); }
  }

  lemma {:induction false} GoWithKeepsProgress(legacy: Legacy, m: Machine, kept: map<string, Bytes>, n: nat)
    requires Progress(legacy, m)
    ensures Progress(legacy, GoWith(legacy, m, kept, n))
  {
    if n > 0 {
      GoWithKeepsProgress(legacy, m, kept, n - 1);
      var before := GoWith(legacy, m, kept, n - 1);
      StepKeepsProgress(legacy, before, Advance(KeptFor(before, kept)));
    }
  }

  lemma CommitsAndSweeps(legacy: Legacy, begin: Machine, kept: map<string, Bytes>, n: nat)
    requires GoWith(legacy, begin, kept, n).local.Ready?
    ensures GoWith(legacy, begin, kept, n + 2)
         == Step(legacy, Step(legacy, GoWith(legacy, begin, kept, n), Advance(None)), Advance(None))
  {
    assert GoWith(legacy, begin, kept, n + 1) == Step(legacy, GoWith(legacy, begin, kept, n), Advance(None));
  }

  lemma ReadyAddsUp(legacy: Legacy, m: Machine)
    requires Progress(legacy, m) && m.local.Ready?
    ensures var l, h := m.local, m.disk.row.history;
            && IsMigrated(m.disk.row.(current := Some(l.id), history := l.history))
            && l.moved + KeyedCount(h) == |l.history|
            && l.moved + l.dropped + KeyedCount(h) == |h| + (if HasId(h, l.id) then 0 else 1)
  {
    CountsAddUp(legacy, m);
    FinalIsMigrated(Env(legacy, m.local.listing), m.disk, m.local.id);
  }

  class Vault {
    const legacy: Legacy
    var row: Row
    var objects: map<string, Bytes>

    constructor (legacy: Legacy, row: Row, objects: map<string, Bytes>)
      ensures this.legacy == legacy && View() == Disk(row, objects)
    {
      this.legacy, this.row, this.objects := legacy, row, objects;
    }

    function View(): (d: Disk)
      reads this
    {
      Disk(row, objects)
    }

    /** Copies one legacy version onto its own key; `Ok(None)` means its bytes are not in the store. */
    method RescueVersion(
        id: string, isCurrent: bool, ghost current: string, listed: Option<set<string>>, kept: map<string, Bytes>)
      returns (r: Result<Option<nat>>)
      requires isCurrent <==> id == current
      modifies this`objects
      ensures var env := Env(legacy, listed);
              var d := old(View());
              var k := if Dest(d, id) in kept then Some(kept[Dest(d, id)]) else None;
              && View() == RescueDisk(env, d, current, id, k)
              && (r == Err(Storage) <==> ReadsBackWrong(env, d, current, id, k))
              && (r.Ok? ==> r.value == match Rescued(env, d, current, id) case None => None case Some(b) => Some(|b|))
              && (r.Err? ==> r.error == Storage)
      ensures VersionKey(row.objectKey, id) in old(objects) ==>
        objects == old(objects) && r == Ok(Some(|objects[VersionKey(row.objectKey, id)]|))
      ensures VersionKey(row.objectKey, id) !in old(objects) && VersionKey(row.objectKey, id) !in kept ==>
        var key := VersionKey(row.objectKey, id);
        && (isCurrent && row.objectKey in old(objects) ==>
              objects == old(objects)[key := old(objects)[row.objectKey]] && r == Ok(Some(|objects[key]|)))
        && (isCurrent && row.objectKey !in old(objects) ==> objects == old(objects) && r == Ok(None))
        && (!isCurrent && (listed.None? || id !in listed.value) ==> objects == old(objects) && r == Ok(None))
        && (!isCurrent && listed.Some? && id in listed.value && legacy.KeepsVersions? ==>
              if id in legacy.versions
              then objects == old(objects)[key := legacy.versions[id]] && r == Ok(Some(|legacy.versions[id]|))
              else objects == old(objects) && r == Ok(None))
    {
      var destination := VersionKey(row.objectKey, id);
      if destination in objects {
        return Ok(Some(|objects[destination]|));
      }
      var source: Option<Bytes>;
      if isCurrent {
        source := if row.objectKey in objects then Some(objects[row.objectKey]) else None;
      } else {
        if listed.None? || id !in listed.value {
          return Ok(None);
        }
        source := LegacyGet(legacy, View(), id);
      }
      if source.None? {
        return Ok(None);
      }
      objects := objects[destination := if destination in kept then kept[destination] else source.value];
      var written := objects[destination];
      if written != source.value {
        return Err(Storage);
      }
      return Ok(Some(|source.value|));
    }

    /** One entry of the history: the scan's locals advance as one step of the machine does. */
    method ScanOne(i: nat, migrated: seq<Snapshot>, recovered: nat, lost: nat, current: string,
                   listed: Option<set<string>>, kept: map<string, Bytes>, ghost begin: Machine)
      returns (failed: bool, migrated': seq<Snapshot>, recovered': nat, lost': nat)
      requires i < |row.history|
      requires GoWith(legacy, begin, kept, i)
            == Machine(View(), Scanning(i, migrated, recovered, lost, current, listed))
      modifies this`objects
      ensures GoWith(legacy, begin, kept, i + 1)
              == Machine(View(), if failed then Idle
                                 else Scanning(i + 1, migrated', recovered', lost', current, listed))
    {
      failed, migrated', recovered', lost' := false, migrated, recovered, lost;
      var snapshot := row.history[i];
      if snapshot.objectKey.Some? {
        migrated' := migrated + [snapshot];
        return;
      }
      var size := RescueVersion(snapshot.versionId, snapshot.versionId == current, current, listed, kept);
      if size.Err? {
        failed := true;
      } else if size.value.None? {
        lost' := lost + 1;
      } else {
        var key := VersionKey(row.objectKey, snapshot.versionId);
        migrated' := migrated + [snapshot.(objectKey := Some(key), sizeBytes := Some(size.value.value))];
        recovered' := recovered + 1;
      }
    }

    method ScanHistory(current: string, listed: Option<set<string>>, kept: map<string, Bytes>)
      returns (failed: bool, migrated: seq<Snapshot>, recovered: nat, lost: nat)
      modifies this`objects
      ensures var n := |row.history|;
              GoWith(legacy, Begin(old(View()), current, listed), kept, n)
              == Machine(View(), if failed then Idle else Scanning(n, migrated, recovered, lost, current, listed))
    {
      ghost var begin := Begin(View(), current, listed);
      failed, migrated, recovered, lost := false, [], 0, 0;
      for i := 0 to |row.history|
        invariant Machine(View(), Scanning(i, migrated, recovered, lost, current, listed))
               == GoWith(legacy, begin, kept, i)
      {
        failed, migrated, recovered, lost := ScanOne(i, migrated, recovered, lost, current, listed, kept, begin);
        if failed {
          IdleStays(legacy, begin, kept, i + 1, |row.history|);
          return;
        }
      }
    }

    /** The current version must be in the migrated history, or be rescued from the bare key. */
    method AddCurrent(migrated: seq<Snapshot>, recovered: nat, lost: nat, current: string,
                      listed: Option<set<string>>, kept: map<string, Bytes>)
      returns (failed: bool, history: seq<Snapshot>, moved: nat)
      modifies this`objects
      ensures var before := Machine(old(View()), Scanning(|row.history|, migrated, recovered, lost, current, listed));
              Step(legacy, before, Advance(KeptFor(before, kept)))
              == Machine(View(), if failed then Idle else Ready(history, moved, lost, current, listed))
    {
      failed, history, moved := false, migrated, recovered;
      if !HasId(migrated, current) {
        var size := RescueVersion(current, true, current, listed, kept);
        if size.Err? || size.value.None? {
          failed := true;
          return;
        }
        history := migrated + [Snapshot(current, row.envelope, row.updatedAt,
                                        Some(VersionKey(row.objectKey, current)), Some(size.value.value))];
        moved := recovered + 1;
      }
    }

    /** The row is written first; only then does the bare object go. */
    method CommitAndSweep(
        history: seq<Snapshot>, recovered: nat, lost: nat, current: string, ghost listed: Option<set<string>>)
      modifies this
      ensures var ready := Machine(old(View()), Ready(history, recovered, lost, current, listed));
              Machine(View(), Idle) == Step(legacy, Step(legacy, ready, Advance(None)), Advance(None))
      ensures row == old(row).(current := Some(current), history := history)
    {
      row := row.(current := Some(current), history := history);
      objects := objects - {row.objectKey};
    }

    /** The part of `migrate_one` that follows the validation of the current version's id. */
    method MoveVersions(current: string, listed: Option<set<string>>, kept: map<string, Bytes>)
      returns (r: Result<Outcome>)
      requires row.current.Some? && ValidateVersionId(row.current.value) == Ok(current)
      modifies this
      ensures var h := old(row.history);
              && View() == GoWith(legacy, Begin(old(View()), current, listed), kept, |h| + 3).disk
              && (r.Err? ==> r == Err(Storage) && row == old(row))
              && (r.Ok? ==>
                    && row.current == Some(current) && IsMigrated(row)
                    && r.value.recovered + KeyedCount(h) == |row.history|
                    && r.value.recovered + r.value.lost + KeyedCount(h)
                       == |h| + (if HasId(h, current) then 0 else 1))
    {
      ghost var begin := Begin(View(), current, listed);
      ghost var n := |row.history|;

      var failed, migrated, recovered, lost := ScanHistory(current, listed, kept);
      if failed {
        IdleStays(legacy, begin, kept, n, n + 3);
        return Err(Storage);
      }
      var missing, history, moved := AddCurrent(migrated, recovered, lost, current, listed, kept);
      ghost var ready := GoWith(legacy, begin, kept, n + 1);
      assert ready == Machine(View(), if missing then Idle else Ready(history, moved, lost, current, listed));
      if missing {
        IdleStays(legacy, begin, kept, n + 1, n + 3);
        return Err(Storage);
      }
      BeginProgress(legacy, begin);
      GoWithKeepsProgress(legacy, begin, kept, n + 1);
      ReadyAddsUp(legacy, ready);

      CommitAndSweep(history, moved, lost, current, listed);
      CommitsAndSweeps(legacy, begin, kept, n + 1);
      return Ok(Outcome(moved, lost));
    }

    method MigrateOne(listed: Option<set<string>>, kept: map<string, Bytes>) returns (r: Result<Option<Outcome>>)
      modifies this
      ensures old(row.current).None? ==> r == Ok(None) && View() == old(View())
      ensures old(row.current).Some? && ValidateVersionId(old(row.current.value)).Err? ==>
        r == Err(BadRequest) && View() == old(View())
      ensures old(row.current).Some? && ValidateVersionId(old(row.current.value)).Ok? ==>
        var current := ValidateVersionId(old(row.current.value)).value;
        var h := old(row.history);
        && View() == GoWith(legacy, Begin(old(View()), current, listed), kept, |h| + 3).disk
        && (kept == map[] && !IsMigrated(old(row)) ==> View() == Uninterrupted(legacy, listed, old(View())).disk)
        && (r.Err? ==> r == Err(Storage) && row == old(row))
        && (r.Ok? ==>
              && r.value.Some? && row.current == Some(current) && IsMigrated(row)
              && r.value.value.recovered + KeyedCount(h) == |row.history|
              && r.value.value.recovered + r.value.value.lost + KeyedCount(h)
                 == |h| + (if HasId(h, current) then 0 else 1))
    {
      if row.current.None? {
        return Ok(None);
      }
      var validated := ValidateVersionId(row.current.value);
      if validated.Err? {
        return Err(validated.error);
      }
      if kept == map[] && !IsMigrated(row) { MigrateOneIsUninterrupted(legacy, View(), validated.value, listed); }
      var outcome := MoveVersions(validated.value, listed, kept);
      if outcome.Err? {
        return Err(outcome.error);
      }
      return Ok(Some(outcome.value));
    }
  }

  lemma BeginProgress(legacy: Legacy, begin: Machine)
    requires begin.disk.row.current.Some? && ValidateVersionId(begin.disk.row.current.value).Ok?
    requires exists listed :: begin == Begin(begin.disk, ValidateVersionId(begin.disk.row.current.value).value, listed)
    ensures Progress(legacy, begin)
  {
    assert begin.disk.row.history[..0] == [];
  }

  /** Against a store that keeps what it is sent, one call is the uninterrupted run of the machine. */
  lemma MigrateOneIsUninterrupted(legacy: Legacy, d: Disk, current: string, listed: Option<set<string>>)
    requires d.row.current.Some? && ValidateVersionId(d.row.current.value) == Ok(current) && !IsMigrated(d.row)
    ensures GoWith(legacy, Begin(d, current, listed), map[], |d.row.history| + 3) == Uninterrupted(legacy, listed, d)
  {
    HonestStoreGoes(legacy, Begin(d, current, listed), |d.row.history| + 3);
  }
}
