/**
 The request handlers for one vault, working on its row, the object store and the
 cleanup queue. Every handler is proved to be the corresponding `VaultService` step,
 for any state and any outcome of its storage and database calls, so that what is
 proved about runs of steps holds of runs of handlers.
 */
module VaultServer {
  import opened Results
  import opened KeyLayout
  import opened VaultRow
  import VaultService

  class Server {
    var row: Row
    var objects: map<string, Bytes>
    var pending: set<string>
    ghost var saved: map<string, Bytes>
    ghost var torn: set<string>
    ghost var loose: set<string>

    ghost function View(): (w: VaultService.World)
      reads this
    {
      VaultService.World(row, objects, pending, saved, torn, loose)
    }

    /** A vault is created with no version and room for fifty. */
    constructor (objectKey: string, title: string, envelope: Envelope, now: Time, bucket: map<string, Bytes>)
      requires SlashFree(objectKey)
      requires forall k :: k in bucket ==> BaseKey(k) != objectKey
      ensures VaultService.Fresh(View())
      ensures row == Row(objectKey, None, [], 50, envelope, now, Details(title, None, None, "standard", []))
      ensures objects == bucket
    {
      row := Row(objectKey, None, [], 50, envelope, now, Details(title, None, None, "standard", []));
      objects := bucket;
      pending := {};
      saved, torn, loose := map[], {}, {};
    }

    /** Writes the version into the row and queues the trimmed objects, or rolls the object back. */
    method RecordVersion(id: string, size: int, now: Time, rowOk: bool, undoOk: bool) returns (r: Result<string>)
      requires VersionKey(row.objectKey, id) in objects
      requires size == |objects[VersionKey(row.objectKey, id)]|
      modifies this
      ensures View() == if rowOk then VaultService.Record(old(View()), id, now)
                        else VaultService.Undo(old(View()), id, undoOk)
      ensures r == if rowOk then Ok(id) else Err(Database)
      ensures rowOk ==>
        && objects == old(objects) && row.current == Some(id) && row.history != []
        && row.history[|row.history| - 1]
           == Snapshot(id, row.envelope, now, Some(VersionKey(row.objectKey, id)), Some(size))
      ensures !rowOk ==>
        && row == old(row)
        && objects == if undoOk then old(objects) - {VersionKey(row.objectKey, id)} else old(objects)
    {
      var objectKey := VersionKey(row.objectKey, id);
      var history := NormalizeVersionHistory(row.history);
      history := history + [Snapshot(id, row.envelope, now, Some(objectKey), Some(size))];
      var kept, dropped := PruneHistory(history, row.maxVersions);
      if !rowOk {
        if undoOk {
          objects := objects - {objectKey};
          loose := loose - {objectKey};
        }
        return Err(Database);
      }
      row := row.(current := Some(id), history := kept);
      saved := saved[id := objects[objectKey]];
      loose := loose - {objectKey};
      SpawnObjectCleanup(dropped);
      return Ok(id);
    }

    method SpawnObjectCleanup(keys: seq<string>)
      modifies this`pending
      ensures pending == old(pending) + (set k | k in keys)
    {
      if |keys| == 0 { return; }
      pending := pending + (set k | k in keys);
    }

    method UploadBlob(
        body: Bytes, newId: string, now: Time, putOk: bool, rowOk: bool, undoOk: bool) returns (r: Result<string>)
      modifies this
      ensures View() == VaultService.Step(old(View()), VaultService.UploadBlob(body, newId, now, putOk, rowOk, undoOk))
      ensures r == if body == [] then Err(BadRequest) else if !putOk then Err(Storage)
                   else if !rowOk then Err(Database) else Ok(newId)
      ensures r.Ok? ==>
        && objects == old(objects)[VersionKey(row.objectKey, newId) := body]
        && row.current == Some(newId) && row.history != []
        && row.history[|row.history| - 1]
           == Snapshot(newId, row.envelope, now, Some(VersionKey(row.objectKey, newId)), Some(|body|))
      ensures r.Err? ==> row == old(row)
      ensures r.Err? && (body == [] || !putOk) ==> objects == old(objects)
      ensures r == Err(Database) ==>
        objects == if undoOk then old(objects) - {VersionKey(row.objectKey, newId)}
                   else old(objects)[VersionKey(row.objectKey, newId) := body]
    {
      if |body| == 0 { return Err(BadRequest); }
      var objectKey := VersionKey(row.objectKey, newId);
      if !putOk { return Err(Storage); }
      objects := objects[objectKey := body];
      loose := loose + {objectKey};
      r := RecordVersion(newId, |body|, now, rowOk, undoOk);
    }

    method ConfirmUpload(rawId: string, now: Time, rowOk: bool, undoOk: bool) returns (r: Result<string>)
      modifies this
      ensures View() == VaultService.Step(old(View()), VaultService.ConfirmUpload(rawId, now, rowOk, undoOk))
      ensures var id := NormalizeVersionId(rawId);
              r == if !ValidId(id) then Err(BadRequest)
                   else if VersionKey(row.objectKey, id) !in old(objects) then Err(NotFound)
                   else if !rowOk then Err(Database) else Ok(id)
      ensures r.Ok? ==>
        && objects == old(objects) && row.current == Some(r.value) && row.history != []
        && row.history[|row.history| - 1]
           == Snapshot(r.value, row.envelope, now, Some(VersionKey(row.objectKey, r.value)),
                       Some(|objects[VersionKey(row.objectKey, r.value)]|))
      ensures r.Err? ==> row == old(row)
      ensures r == Err(Database) ==>
        objects == if undoOk then old(objects) - {VersionKey(row.objectKey, NormalizeVersionId(rawId))}
                   else old(objects)
      ensures r == Err(NotFound) || r == Err(BadRequest) ==> View() == old(View())
    {
      if |rawId| == 0 {
        TrimShape([], IsWhitespace);
        return Err(BadRequest);
      }
      var verified := ValidateVersionId(rawId);
      if verified.Err? { return Err(BadRequest); }
      var objectKey := VersionKey(row.objectKey, verified.value);
      if objectKey !in objects { return Err(NotFound); }
      r := RecordVersion(verified.value, |objects[objectKey]|, now, rowOk, undoOk);
    }

    method DeleteVaultVersion(versionId: string, deleteOk: bool, rowOk: bool) returns (r: Result<()>)
      modifies this
      ensures View() == VaultService.Step(old(View()), VaultService.DeleteVersion(versionId, deleteOk, rowOk))
      ensures r.Ok? ==> forall s :: s in row.history ==> s.versionId != NormalizeVersionId(versionId)
      ensures r.Err? ==> row == old(row)
      ensures var target := NormalizeVersionId(versionId);
              var found := ResolveBlobKey(old(row), Some(target));
              && (target == [] || CurrentId(old(row)) == Some(target) ==>
                    r == Err(BadRequest) && objects == old(objects))
              && (target != [] && CurrentId(old(row)) != Some(target) ==>
                    && objects == (if found.Ok? && deleteOk then old(objects) - {found.value} else old(objects))
                    && (found.Ok? && !deleteOk ==> r == Err(Storage))
                    && (found.Err? && found != Err(NotFound) ==> r == Err(found.error))
                    && ((found.Ok? && deleteOk) || found == Err(NotFound) ==>
                          r == if CurrentId(old(row)).None? then Err(BadRequest)
                               else if !rowOk then Err(Database) else Ok(())))
    {
      var target := NormalizeVersionId(versionId);
      if |target| == 0 { return Err(BadRequest); }
      var current := CurrentId(row);
      if current == Some(target) { return Err(BadRequest); }

      var resolved := ResolveBlobKey(row, Some(target));
      if resolved.Ok? {
        if !deleteOk { return Err(Storage); }
        objects := objects - {resolved.value};
        if current.None? || !rowOk || NormalizeVersionId(target) != target {
          torn := torn + {NormalizeVersionId(target)};
        }
      } else if resolved != Err(NotFound) {
        return Err(resolved.error);
      }

      var history := NormalizeVersionHistory(row.history);
      var filtered := VaultService.WithoutVersion(history, target);
      if current.None? { return Err(BadRequest); }
      if !rowOk { return Err(Database); }
      row := row.(current := current, history := filtered);
      return Ok(());
    }

    method UpdateMindMap(title: string, envelope: Envelope, now: Time, rowOk: bool) returns (r: Result<()>)
      modifies this
      ensures View() == VaultService.Step(old(View()), VaultService.UpdateContent(title, envelope, now, rowOk))
      ensures r == if !VaultService.ContentComplete(title, envelope) then Err(BadRequest)
                   else if !rowOk then Err(Database) else Ok(())
      ensures r.Ok? ==>
        && title != "" && envelope.ephClassicalPublic != "" && envelope.ephPqCiphertext != ""
        && envelope.wrappedDek != ""
        && row == old(row).(details := old(row).details.(title := title), envelope := envelope, updatedAt := now)
      ensures r.Err? ==> row == old(row)
      ensures objects == old(objects) && pending == old(pending)
    {
      if title == "" || envelope.ephClassicalPublic == "" || envelope.ephPqCiphertext == ""
         || envelope.wrappedDek == "" {
        return Err(BadRequest);
      }
      if !rowOk { return Err(Database); }
      row := row.(details := row.details.(title := title), envelope := envelope, updatedAt := now);
      return Ok(());
    }

    method UpdateVaultMeta(edit: VaultService.MetaEdit, now: Time, rowOk: bool) returns (r: Result<()>)
      modifies this
      ensures View() == VaultService.Step(old(View()), VaultService.UpdateMeta(edit, now, rowOk))
      ensures r == if edit.maxVersions == Some(0) then Err(BadRequest) else if !rowOk then Err(Database) else Ok(())
      ensures r.Ok? ==>
        var was, d := old(row), row.details;
        && row == was.(maxVersions := row.maxVersions, updatedAt := row.updatedAt, details := d)
        && row.maxVersions == (if edit.maxVersions.Some? then edit.maxVersions.value else was.maxVersions)
        && row.updatedAt == (if edit.title.Some? then now else was.updatedAt)
        && d.title == (if edit.title.Some? then edit.title.value else was.details.title)
        && d.color == (if edit.color.Some? then edit.color else was.details.color)
        && d.note == (if edit.note.Some? then edit.note else was.details.note)
        && d.encryptionMode
           == (if edit.encryptionMode.Some? then edit.encryptionMode.value else was.details.encryptionMode)
        && d.labels == (if edit.labels.Some? then edit.labels.value else was.details.labels)
      ensures r.Err? ==> row == old(row)
      ensures objects == old(objects) && pending == old(pending)
    {
      var maxVersions := row.maxVersions;
      if edit.maxVersions.Some? {
        if edit.maxVersions.value == 0 { return Err(BadRequest); }
        maxVersions := edit.maxVersions.value;
      }
      var details, updatedAt := row.details, row.updatedAt;
      if edit.title.Some? { details, updatedAt := details.(title := edit.title.value), now; }
      if edit.color.Some? { details := details.(color := edit.color); }
      if edit.note.Some? { details := details.(note := edit.note); }
      if edit.encryptionMode.Some? { details := details.(encryptionMode := edit.encryptionMode.value); }
      if edit.labels.Some? { details := details.(labels := edit.labels.value); }
      if !rowOk { return Err(Database); }
      row := row.(maxVersions := maxVersions, details := details, updatedAt := updatedAt);
      return Ok(());
    }

    /** One key of the background cleanup; a refused deletion leaks the object. */
    method CleanupOne(key: string, deleteOk: bool)
      requires key in pending
      modifies this
      ensures View() == VaultService.Step(old(View()), VaultService.Cleanup(key, deleteOk))
      ensures row == old(row) && pending == old(pending) - {key}
      ensures objects == if deleteOk then old(objects) - {key} else old(objects)
    {
      if deleteOk {
        objects := objects - {key};
      } else {
        loose := loose + {key};
      }
      pending := pending - {key};
    }

    method DownloadBlob(versionId: Option<string>) returns (r: Result<Bytes>)
      ensures r == VaultService.Download(View(), versionId)
    {
      var wanted: Option<string> := None;
      if versionId.Some? {
        var normalized := NormalizeVersionId(versionId.value);
        if normalized != [] { wanted := Some(normalized); }
      }
      var key := ResolveBlobKey(row, wanted);
      if key.Err? { return Err(key.error); }
      if key.value !in objects { return Err(NotFound); }
      return Ok(objects[key.value]);
    }
  }
}
