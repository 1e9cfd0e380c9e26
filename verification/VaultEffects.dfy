/**
 What each request does to a consistent vault, and what a download answers afterwards: the
 saved version, the deleted one, and everything else.
 */
module VaultEffects {
  import opened Results
  import opened KeyLayout
  import opened VaultRow
  import opened VaultService

  // ---- Saving -------------------------------------------------------------------

  /** The version is the current one, last in the history, and downloads its bytes by id or as the current one. */
  ghost predicate NowCurrent(w: World, r: World, id: string, bytes: Bytes, at: Time) {
    && r.row == w.row.(current := Some(id), history := r.row.history)
    && r.row.history != []
    && r.row.history[|r.row.history| - 1]
       == Snapshot(id, w.row.envelope, at, Some(VersionKey(w.row.objectKey, id)), Some(|bytes|))
    && Download(r, None) == Ok(bytes) && Download(r, Some(id)) == Ok(bytes)
  }

  lemma RecordMakesCurrent(w: World, id: string, now: Time)
    requires CanRecord(w, id)
    ensures NowCurrent(w, Record(w, id, now), id, w.objects[KeyIn(w, id)], now)
    ensures Record(w, id, now).objects == w.objects
  {
    var r := Record(w, id, now);
    RecordShape(w, id, now);
    CandidateIsExtended(w, id, now);
    RecordKeepsInv(w, id, now);
    assert r.row.history[|r.row.history| - 1] == Candidate(w, id, now)[|Candidate(w, id, now)| - 1];
    DownloadsEntry(r, |r.row.history| - 1);
    RecordedIsWhole(w, id, now);
  }

  lemma RecordedIsWhole(w: World, id: string, now: Time)
    requires CanRecord(w, id)
    ensures id !in Record(w, id, now).torn && Record(w, id, now).saved[id] == w.objects[KeyIn(w, id)]
  {
    assert w.torn <= w.saved.Keys;
  }

  /** A first confirm of a stored version makes it current. */
  lemma ConfirmMakesCurrent(w: World, raw: string, id: string, at: Time, undoOk: bool)
    requires Inv(w) && ValidId(id) && NormalizeVersionId(raw) == id
    requires id !in w.saved && VersionKey(w.row.objectKey, id) in w.objects
    ensures var r := Step(w, ConfirmUpload(raw, at, true, undoOk));
            NowCurrent(w, r, id, w.objects[VersionKey(w.row.objectKey, id)], at) && r.objects == w.objects
  {
    ValidationAccepts(raw, id);
    RecordMakesCurrent(w, id, at);
  }

  /** A confirm whose row write fails leaves the row alone, and takes the object away if the store obliges. */
  lemma ConfirmRollsBack(w: World, raw: string, id: string, at: Time, undoOk: bool)
    requires ValidId(id) && NormalizeVersionId(raw) == id && VersionKey(w.row.objectKey, id) in w.objects
    ensures var r := Step(w, ConfirmUpload(raw, at, false, undoOk));
            && r.row == w.row && r.pending == w.pending
            && r.objects == if undoOk then w.objects - {VersionKey(w.row.objectKey, id)} else w.objects
  {
    ValidationAccepts(raw, id);
  }

  /** An id that is not valid, or has no object, is refused without a trace. */
  lemma ConfirmRefuses(w: World, raw: string, at: Time, rowOk: bool, undoOk: bool)
    requires var id := NormalizeVersionId(raw); ValidId(id) ==> VersionKey(w.row.objectKey, id) !in w.objects
    ensures Step(w, ConfirmUpload(raw, at, rowOk, undoOk)) == w
  {
    ValidationAccepts(raw, NormalizeVersionId(raw));
    var v := ValidateVersionId(raw);
    if v.Ok? { ValidationAccepts(raw, v.value); }
  }

  /** An upload makes its bytes the current version. */
  lemma UploadMakesCurrent(w: World, body: Bytes, id: string, now: Time, undoOk: bool)
    requires Inv(w) && ValidId(id) && id !in w.saved && VersionKey(w.row.objectKey, id) !in w.objects && body != []
    ensures var r := Step(w, UploadBlob(body, id, now, true, true, undoOk));
            && NowCurrent(w, r, id, body, now)
            && r.objects == w.objects[VersionKey(w.row.objectKey, id) := body]
  {
    PutKeepsInv(w, id, body);
    RecordMakesCurrent(Put(w, id, body), id, now);
  }

  /** An upload that fails leaves the row alone, and an object only if the rollback fails too. */
  lemma UploadFails(w: World, body: Bytes, id: string, now: Time, putOk: bool, rowOk: bool, undoOk: bool)
    requires VersionKey(w.row.objectKey, id) !in w.objects
    requires body == [] || !putOk || !rowOk
    ensures var r := Step(w, UploadBlob(body, id, now, putOk, rowOk, undoOk));
            && r.row == w.row && r.pending == w.pending
            && r.objects == if body == [] || !putOk || undoOk then w.objects
                            else w.objects[VersionKey(w.row.objectKey, id) := body]
  {
  }

  /** What a save trims is handed to cleanup, and nothing else is. */
  lemma SaveQueuesWhatItTrims(w: World, id: string, now: Time, k: string)
    requires CanRecord(w, id)
    ensures var r, h := Record(w, id, now), w.row.history;
            k in r.pending <==>
              k in w.pending
              || exists i :: 0 <= i < |h| + 1 - |r.row.history| && h[i].objectKey == Some(k)
  {
    NormalHistory(w);
    RecordShape(w, id, now);
    RecordPending(w, id, now, k);
    var r, h, n := Record(w, id, now), w.row.history, Trimmed(w, id, now);
    assert |r.row.history| == |h| + 1 - n;
    assert Named(h[..n], k) <==> exists i :: 0 <= i < n && h[i].objectKey == Some(k) by {
      assert forall i :: 0 <= i < n ==> h[..n][i] == h[i];
    }
  }

  // ---- Deleting -------------------------------------------------------------------

  lemma {:induction false} WithoutOneEntry(h: seq<Snapshot>, i: nat)
    requires i < |h| && DistinctIds(h)
    ensures WithoutVersion(h, h[i].versionId) == h[..i] + h[i + 1..]
  {
    if i == 0 {
      WithoutAbsent(h[1..], h[0].versionId);
      assert h[..0] + h[1..] == h[1..];
    } else {
      WithoutOneEntry(h[1..], i - 1);
      assert h[..i] + h[i + 1..] == [h[0]] + (h[1..][..i - 1] + h[1..][i..]);
    }
  }

  lemma {:induction false} WithoutAbsent(h: seq<Snapshot>, id: string)
    requires forall i :: 0 <= i < |h| ==> h[i].versionId != id
    ensures WithoutVersion(h, id) == h
  {
    if h != [] {
      WithoutAbsent(h[1..], id);
      assert h == [h[0]] + h[1..];
    }
  }

  /** A delete that goes through: the object if one is found, and then the row. */
  lemma DeleteGoesThrough(w: World, raw: string)
    requires var target := NormalizeVersionId(raw);
             && target != "" && NormalizeVersionId(target) == target
             && CurrentId(w.row).Some? && CurrentId(w.row).value != target
    ensures var target := NormalizeVersionId(raw);
            var found := ResolveBlobKey(w.row, Some(target));
            && (found.Ok? ==> Step(w, DeleteVersion(raw, true, true))
                              == WithoutRow(w.(objects := w.objects - {found.value}), target))
            && (found == Err(NotFound) ==> Step(w, DeleteVersion(raw, true, true)) == WithoutRow(w, target))
  {
  }

  lemma RowWithoutEntry(w: World, i: nat)
    requires CurrentId(w.row).Some? && i < |w.row.history| && DistinctIds(w.row.history)
    requires NormalizeHistory(w.row.history) == w.row.history
    ensures var h := w.row.history;
            WithoutRow(w, h[i].versionId)
            == w.(row := w.row.(current := CurrentId(w.row), history := h[..i] + h[i + 1..]))
  {
    WithoutOneEntry(w.row.history, i);
  }

  /** Deleting an older version takes its object and its entry, and nothing else; it is not found afterwards. */
  lemma DeleteTakesTheVersion(w: World, raw: string, i: nat)
    requires Inv(w) && i < |w.row.history| - 1 && NormalizeVersionId(raw) == w.row.history[i].versionId
    ensures var h, id := w.row.history, w.row.history[i].versionId;
            var r := Step(w, DeleteVersion(raw, true, true));
            && r.objects == w.objects - {VersionKey(w.row.objectKey, id)}
            && r.row == w.row.(history := h[..i] + h[i + 1..]) && r.pending == w.pending
            && Download(r, Some(id)) == Err(NotFound)
  {
    var h, id := w.row.history, w.row.history[i].versionId;
    var r := Step(w, DeleteVersion(raw, true, true));
    NormalHistory(w);
    assert EntryOk(w, h[i]);
    ValidIdIsFixedPoint(id);
    ResolvesToOwnKey(w, i);
    DeleteGoesThrough(w, raw);
    RowWithoutEntry(w.(objects := w.objects - {VersionKey(w.row.objectKey, id)}), i);
    StepKeepsInv(w, DeleteVersion(raw, true, true));
    DeletedIsNotFound(r, id);
  }

  /** An id that no entry has is not found. */
  lemma DeletedIsNotFound(w: World, id: string)
    requires Inv(w) && ValidId(id) && forall s :: s in w.row.history ==> s.versionId != id
    ensures Download(w, Some(id)) == Err(NotFound)
  {
    NormalHistory(w);
    ValidIdIsFixedPoint(id);
    var found := FindVersion(w.row.history, id);
  }

  /** The current version, an empty id and an id that is no valid one are refused without a trace. */
  lemma DeleteRefuses(w: World, raw: string, deleteOk: bool, rowOk: bool)
    requires Inv(w)
    requires var target := NormalizeVersionId(raw);
             target == "" || w.row.current == Some(target) || !ValidId(NormalizeVersionId(target))
    ensures Step(w, DeleteVersion(raw, deleteOk, rowOk)) == w
  {
    NormalHistory(w);
    var target := NormalizeVersionId(raw);
    ValidationAccepts(target, NormalizeVersionId(target));
    var v := ValidateVersionId(target);
    if v.Ok? { ValidationAccepts(target, v.value); }
  }

  /** A delete whose object is refused changes nothing; one whose row write fails leaves the row. */
  lemma DeleteFails(w: World, raw: string, i: nat, deleteOk: bool, rowOk: bool)
    requires Inv(w) && i < |w.row.history| - 1 && NormalizeVersionId(raw) == w.row.history[i].versionId
    requires !deleteOk || !rowOk
    ensures var r := Step(w, DeleteVersion(raw, deleteOk, rowOk));
            && r.row == w.row && r.pending == w.pending
            && r.objects == if deleteOk then w.objects - {VersionKey(w.row.objectKey, w.row.history[i].versionId)}
                            else w.objects
  {
    NormalHistory(w);
    assert EntryOk(w, w.row.history[i]);
    ValidIdIsFixedPoint(w.row.history[i].versionId);
    ResolvesToOwnKey(w, i);
  }

  lemma UnkeyedIsNotResolved(row: Row, i: nat)
    requires DistinctIds(row.history) && NormalizeHistory(row.history) == row.history
    requires i < |row.history| && ValidId(row.history[i].versionId) && row.history[i].objectKey.None?
    requires CurrentId(row) != Some(row.history[i].versionId)
    ensures ResolveBlobKey(row, Some(row.history[i].versionId)) == Err(NotFound)
  {
    ValidIdIsFixedPoint(row.history[i].versionId);
    FindsTheEntry(row.history, i);
  }

  /** On a vault not migrated yet, deleting a version that has no object of its own drops its entry alone. */
  lemma DeleteDropsUnkeyed(w: World, raw: string, i: nat)
    requires DistinctIds(w.row.history)
    requires forall j :: 0 <= j < |w.row.history| ==> ValidId(w.row.history[j].versionId)
    requires i < |w.row.history| && w.row.history[i].objectKey.None?
    requires NormalizeVersionId(raw) == w.row.history[i].versionId
    requires CurrentId(w.row).Some? && CurrentId(w.row).value != w.row.history[i].versionId
    ensures var h, r := w.row.history, Step(w, DeleteVersion(raw, true, true));
            r == w.(row := w.row.(current := CurrentId(w.row), history := h[..i] + h[i + 1..]))
  {
    NormalFormOfValid(w.row.history, {});
    UnkeyedIsNotResolved(w.row, i);
    ValidIdIsFixedPoint(w.row.history[i].versionId);
    DeleteGoesThrough(w, raw);
    RowWithoutEntry(w, i);
  }

  // ---- Downloading ------------------------------------------------------------------

  /** Without an id, or with one that is blank, the current version is meant; there may be none yet. */
  lemma DownloadsCurrent(w: World, versionId: Option<string>)
    requires Inv(w) && (versionId.Some? ==> NormalizeVersionId(versionId.value) == "")
    ensures w.row.history != [] ==>
      var id := w.row.history[|w.row.history| - 1].versionId;
      id in w.saved && Download(w, versionId) == (if id in w.torn then Err(NotFound) else Ok(w.saved[id]))
    ensures w.row.history == [] ==>
      Download(w, versionId)
      == (if w.row.objectKey in w.objects then Ok(w.objects[w.row.objectKey]) else Err(NotFound))
  {
    NormalHistory(w);
    if w.row.history != [] { DownloadsEntry(w, |w.row.history| - 1); }
  }

  /** An id that cannot be a version id is a bad request; a version the history does not have is not found. */
  lemma DownloadRefuses(w: World, raw: string)
    requires Inv(w) && NormalizeVersionId(raw) != ""
    ensures var twice := NormalizeVersionId(NormalizeVersionId(raw));
            && (!ValidId(twice) ==> Download(w, Some(raw)) == Err(BadRequest))
            && (ValidId(twice) && (forall s :: s in w.row.history ==> s.versionId != twice) ==>
                  Download(w, Some(raw)) == Err(NotFound))
  {
    var id := NormalizeVersionId(raw);
    ValidationAccepts(id, NormalizeVersionId(id));
    var v := ValidateVersionId(id);
    if v.Ok? { ValidationAccepts(id, v.value); }
    NormalHistory(w);
    var found := FindVersion(w.row.history, NormalizeVersionId(id));
    if w.row.current == Some(NormalizeVersionId(id)) {
      assert w.row.history[|w.row.history| - 1] in w.row.history;
    }
  }
}
