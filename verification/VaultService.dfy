/**
 Saving, confirming, deleting and downloading the versions of one vault.

 A `World` is the vault's row, the whole object store and the keys handed to
 background cleanup, together with four history variables that the server does not
 keep: the bytes each version was saved with, the versions whose object was deleted
 by a delete request that then failed to write the row, and the objects nobody has
 confirmed or managed to remove. Requests are atomic; each storage and database call
 inside one may succeed or fail.
 */
module VaultService {
  import opened Results
  import opened KeyLayout
  import opened VaultRow

  datatype World = World(
    row: Row,
    objects: map<string, Bytes>,
    pending: set<string>,
    saved: map<string, Bytes>,
    torn: set<string>,
    loose: set<string>)

  /** Fields that are absent stay as they are. */
  datatype MetaEdit = MetaEdit(
    maxVersions: Option<nat>, title: Option<string>, color: Option<string>, note: Option<string>,
    encryptionMode: Option<string>, labels: Option<seq<string>>)

  datatype Action =
    | UploadBlob(body: Bytes, newId: string, now: Time, putOk: bool, rowOk: bool, undoOk: bool)
    | ClientPut(putId: string, bytes: Bytes)
    | ConfirmUpload(rawId: string, at: Time, writeOk: bool, rollbackOk: bool)
    | UpdateContent(title: string, envelope: Envelope, updatedAt: Time, contentOk: bool)
    | UpdateMeta(edit: MetaEdit, metaAt: Time, metaOk: bool)
    | DeleteVersion(target: string, deleteOk: bool, updateOk: bool)
    | Cleanup(key: string, removed: bool)
    | Elsewhere(objects: map<string, Bytes>)

  function KeyIn(w: World, id: string): (k: string) {
    VersionKey(w.row.objectKey, id)
  }

  // ---- What each request does --------------------------------------------

  /** An object lands at a version's key, and nothing refers to it yet. */
  function Put(w: World, id: string, bytes: Bytes): (r: World) {
    w.(objects := w.objects[KeyIn(w, id) := bytes], loose := w.loose + {KeyIn(w, id)})
  }

  /** The object of a version that was never recorded is removed again, if the store obliges. */
  function Undo(w: World, id: string, ok: bool): (r: World) {
    if ok then w.(objects := w.objects - {KeyIn(w, id)}, loose := w.loose - {KeyIn(w, id)}) else w
  }

  function Extended(w: World, id: string, size: int, now: Time): (h: seq<Snapshot>) {
    NormalizeHistory(w.row.history) + [Snapshot(id, w.row.envelope, now, Some(KeyIn(w, id)), Some(size))]
  }

  /** The row names the version, retention trims it, and the trimmed keys go to cleanup. */
  function Record(w: World, id: string, now: Time): (r: World)
    requires KeyIn(w, id) in w.objects
  {
    var bytes := w.objects[KeyIn(w, id)];
    var h := Extended(w, id, |bytes|, now);
    var n := Excess(h, w.row.maxVersions);
    w.(row := w.row.(current := Some(id), history := h[n..]),
       pending := w.pending + (set k | k in KeysOf(h[..n])),
       saved := w.saved[id := bytes],
       loose := w.loose - {KeyIn(w, id)})
  }

  function AfterUpload(
      w: World, body: Bytes, id: string, now: Time, putOk: bool, rowOk: bool, undoOk: bool): (r: World) {
    if body == [] || !putOk then w
    else
      var put := Put(w, id, body);
      if rowOk then Record(put, id, now) else Undo(put, id, undoOk)
  }

  function AfterConfirm(w: World, rawId: string, now: Time, rowOk: bool, undoOk: bool): (r: World) {
    match ValidateVersionId(rawId)
    case Err(_) => w
    case Ok(id) =>
      if KeyIn(w, id) !in w.objects then w
      else if rowOk then Record(w, id, now)
      else Undo(w, id, undoOk)
  }

  function WithoutVersion(h: seq<Snapshot>, id: string): (r: seq<Snapshot>)
    ensures forall s :: s in r <==> s in h && s.versionId != id
  {
    if h == [] then []
    else (if h[0].versionId != id then [h[0]] else []) + WithoutVersion(h[1..], id)
  }

  /** The object goes first, then the row; the row write may fail after the object is gone. */
  function AfterDelete(w: World, rawId: string, deleteOk: bool, rowOk: bool): (r: World) {
    var target := NormalizeVersionId(rawId);
    var current := CurrentId(w.row);
    if target == [] || current == Some(target) then w
    else
      match ResolveBlobKey(w.row, Some(target))
      case Ok(key) =>
        if !deleteOk then w
        else
          var gone := w.(objects := w.objects - {key});
          var hit := NormalizeVersionId(target);
          var torn := gone.(torn := w.torn + {hit});
          if current.Some? && rowOk then WithoutRow(if hit == target then gone else torn, target) else torn
      case Err(NotFound) => if current.Some? && rowOk then WithoutRow(w, target) else w
      case Err(_) => w
  }

  function WithoutRow(w: World, target: string): (r: World)
    requires CurrentId(w.row).Some?
  {
    w.(row := w.row.(current := CurrentId(w.row), history := WithoutVersion(NormalizeHistory(w.row.history), target)))
  }

  predicate ContentComplete(title: string, e: Envelope) {
    title != "" && e.ephClassicalPublic != "" && e.ephPqCiphertext != "" && e.wrappedDek != ""
  }

  function AfterContent(w: World, title: string, envelope: Envelope, now: Time, contentOk: bool): (r: World) {
    if !ContentComplete(title, envelope) || !contentOk then w
    else w.(row := w.row.(details := w.row.details.(title := title), envelope := envelope, updatedAt := now))
  }

  function Or<T>(o: Option<T>, other: T): (v: T) {
    if o.Some? then o.value else other
  }

  /** A limit of zero is refused; only a new title counts as a change of the vault. */
  function AfterMeta(w: World, edit: MetaEdit, now: Time, metaOk: bool): (r: World) {
    if edit.maxVersions == Some(0) || !metaOk then w
    else
      var d := w.row.details;
      w.(row := w.row.(
        maxVersions := Or(edit.maxVersions, w.row.maxVersions),
        updatedAt := if edit.title.Some? then now else w.row.updatedAt,
        details := Details(Or(edit.title, d.title), if edit.color.Some? then edit.color else d.color,
                           if edit.note.Some? then edit.note else d.note,
                           Or(edit.encryptionMode, d.encryptionMode), Or(edit.labels, d.labels))))
  }

  function Step(w: World, a: Action): (r: World) {
    match a
    case UploadBlob(body, id, now, putOk, rowOk, undoOk) => AfterUpload(w, body, id, now, putOk, rowOk, undoOk)
    case ClientPut(id, bytes) => Put(w, id, bytes)
    case ConfirmUpload(rawId, now, rowOk, undoOk) => AfterConfirm(w, rawId, now, rowOk, undoOk)
    case UpdateContent(title, envelope, now, contentOk) => AfterContent(w, title, envelope, now, contentOk)
    case UpdateMeta(edit, now, metaOk) => AfterMeta(w, edit, now, metaOk)
    case DeleteVersion(target, deleteOk, rowOk) => AfterDelete(w, target, deleteOk, rowOk)
    case Cleanup(key, removed) =>
      if removed then w.(objects := w.objects - {key}, pending := w.pending - {key})
      else w.(pending := w.pending - {key}, loose := w.loose + {key})
    case Elsewhere(objects) => w.(objects := objects)
  }

  /**
   What the surroundings guarantee: minted ids are fresh, nobody PUTs to a presigned
   URL after its confirm, no id is confirmed twice, cleanup touches only keys it was
   given, and other vaults' requests leave this vault's objects alone.
   */
  ghost predicate Allowed(w: World, a: Action) {
    match a
    case UploadBlob(_, id, _, _, _, _) => ValidId(id) && id !in w.saved && KeyIn(w, id) !in w.objects
    case ClientPut(id, _) => ValidId(id) && id !in w.saved
    case ConfirmUpload(rawId, _, _, _) =>
      ValidateVersionId(rawId).Ok? ==> ValidateVersionId(rawId).value !in w.saved
    case Cleanup(key, _) => key in w.pending
    case Elsewhere(objects) =>
      forall k :: BaseKey(k) == w.row.objectKey ==>
        (k in objects <==> k in w.objects) && (k in objects ==> objects[k] == w.objects[k])
    case _ => true
  }

  ghost predicate AllowedRun(w: World, run: seq<Action>)
    decreases |run|
  {
    run == [] || (Allowed(w, run[0]) && AllowedRun(Step(w, run[0]), run[1..]))
  }

  function Run(w: World, run: seq<Action>): (r: World)
    decreases |run|
  {
    if run == [] then w else Run(Step(w, run[0]), run[1..])
  }

  // ---- The invariant ------------------------------------------------------

  ghost predicate EntryOk(w: World, s: Snapshot) {
    && ValidId(s.versionId)
    && s.objectKey == Some(KeyIn(w, s.versionId))
    && s.versionId in w.saved
    && s.sizeBytes == Some(|w.saved[s.versionId]|)
    && KeyIn(w, s.versionId) !in w.pending
    && if s.versionId in w.torn then KeyIn(w, s.versionId) !in w.objects
       else KeyIn(w, s.versionId) in w.objects && w.objects[KeyIn(w, s.versionId)] == w.saved[s.versionId]
  }

  /** Ids are distinct and a non-empty history ends with the current version. */
  ghost predicate RowOk(row: Row) {
    && DistinctIds(row.history)
    && row.current == if row.history == [] then None else Some(row.history[|row.history| - 1].versionId)
  }

  /** Every object under the vault's key is named by the history, awaiting cleanup, or loose. */
  ghost predicate Accounted(w: World) {
    forall k :: k in w.objects && BaseKey(k) == w.row.objectKey ==>
      Named(w.row.history, k) || k in w.pending || k in w.loose
  }

  ghost predicate Inv(w: World) {
    && SlashFree(w.row.objectKey)
    && RowOk(w.row)
    && (forall s :: s in w.row.history ==> EntryOk(w, s))
    && (forall id :: KeyIn(w, id) in w.pending ==> id in w.saved)
    && w.torn <= w.saved.Keys
    && Accounted(w)
  }

  ghost predicate Fresh(w: World) {
    && SlashFree(w.row.objectKey)
    && w.row.current == None && w.row.history == []
    && w.pending == {} && w.saved == map[] && w.torn == {} && w.loose == {}
    && forall k :: k in w.objects ==> BaseKey(k) != w.row.objectKey
  }

  lemma NormalHistory(w: World)
    requires Inv(w)
    ensures NormalizeHistory(w.row.history) == w.row.history
    ensures CurrentId(w.row) == w.row.current
  {
    var h := w.row.history;
    assert forall i :: 0 <= i < |h| ==> h[i] in h;
    NormalFormOfValid(h, {});
    if h != [] {
      assert h[|h| - 1] in h;
      ValidIdIsFixedPoint(h[|h| - 1].versionId);
    }
  }

  lemma KeysApart(w: World, a: string, b: string)
    requires KeyIn(w, a) == KeyIn(w, b)
    ensures a == b
  {
    SameBaseInjective(w.row.objectKey, a, b);
  }

  lemma PutKeepsInv(w: World, id: string, bytes: Bytes)
    requires Inv(w) && ValidId(id) && id !in w.saved
    ensures Inv(Put(w, id, bytes))
  {
    var r := Put(w, id, bytes);
    forall s | s in r.row.history
      ensures EntryOk(r, s)
    {
      assert EntryOk(w, s);
      if KeyIn(w, s.versionId) == KeyIn(w, id) { KeysApart(w, s.versionId, id); }
    }
    assert forall x :: KeyIn(r, x) == KeyIn(w, x);
  }

  lemma UndoKeepsInv(w: World, id: string, ok: bool)
    requires Inv(w) && id !in w.saved
    ensures Inv(Undo(w, id, ok))
  {
    var r := Undo(w, id, ok);
    forall s | s in r.row.history
      ensures EntryOk(r, s)
    {
      assert EntryOk(w, s);
      if KeyIn(w, s.versionId) == KeyIn(w, id) { KeysApart(w, s.versionId, id); }
    }
    assert forall x :: KeyIn(r, x) == KeyIn(w, x);
  }

  /** The history a save would leave if nothing were trimmed. */
  function Candidate(w: World, id: string, now: Time): (h: seq<Snapshot>)
    requires KeyIn(w, id) in w.objects
  {
    w.row.history + [Snapshot(id, w.row.envelope, now, Some(KeyIn(w, id)), Some(|w.objects[KeyIn(w, id)]|))]
  }

  function Trimmed(w: World, id: string, now: Time): (n: nat)
    requires KeyIn(w, id) in w.objects
    ensures n <= |w.row.history|
  {
    Excess(Candidate(w, id, now), w.row.maxVersions)
  }

  ghost predicate CanRecord(w: World, id: string) {
    Inv(w) && ValidId(id) && id !in w.saved && KeyIn(w, id) in w.objects
  }

  lemma CandidateIsExtended(w: World, id: string, now: Time)
    requires CanRecord(w, id)
    ensures Candidate(w, id, now) == Extended(w, id, |w.objects[KeyIn(w, id)]|, now)
    ensures DistinctIds(Candidate(w, id, now))
  {
    NormalHistory(w);
    forall i | 0 <= i < |w.row.history|
      ensures w.row.history[i].versionId != id
    {
      assert EntryOk(w, w.row.history[i]);
    }
  }

  /** Saving keeps the newest entries and hands exactly the others to cleanup. */
  lemma RecordShape(w: World, id: string, now: Time)
    requires CanRecord(w, id)
    ensures var r := Record(w, id, now);
            && r.row.history == Candidate(w, id, now)[Trimmed(w, id, now)..]
            && 1 <= |r.row.history| <= Keep(w.row.maxVersions)
  {
    CandidateIsExtended(w, id, now);
  }

  lemma RecordPending(w: World, id: string, now: Time, k: string)
    requires KeyIn(w, id) in w.objects
    requires NormalizeHistory(w.row.history) == w.row.history
    ensures k in Record(w, id, now).pending <==> k in w.pending || Named(w.row.history[..Trimmed(w, id, now)], k)
  {
    var n := Trimmed(w, id, now);
    assert Candidate(w, id, now)[..n] == w.row.history[..n];
    KeysOfAreNamed(w.row.history[..n], k);
  }

  lemma TrimmedAreOthers(w: World, id: string, now: Time, i: nat, k: string)
    requires CanRecord(w, id)
    requires Trimmed(w, id, now) <= i < |Candidate(w, id, now)|
    requires k == KeyIn(w, Candidate(w, id, now)[i].versionId)
    ensures !Named(w.row.history[..Trimmed(w, id, now)], k)
  {
    var h, n := Candidate(w, id, now), Trimmed(w, id, now);
    CandidateIsExtended(w, id, now);
    forall j | 0 <= j < n
      ensures w.row.history[j].objectKey != Some(k)
    {
      assert EntryOk(w, w.row.history[j]);
      assert h[j].versionId != h[i].versionId;
      SameBaseInjective(w.row.objectKey, h[j].versionId, h[i].versionId);
    }
  }

  lemma RecordedEntryOk(w: World, id: string, now: Time, i: nat)
    requires CanRecord(w, id)
    requires Trimmed(w, id, now) <= i < |Candidate(w, id, now)|
    ensures EntryOk(Record(w, id, now), Candidate(w, id, now)[i])
  {
    var s := Candidate(w, id, now)[i];
    NormalHistory(w);
    RecordPending(w, id, now, KeyIn(w, s.versionId));
    TrimmedAreOthers(w, id, now, i, KeyIn(w, s.versionId));
    if i < |w.row.history| {
      assert s == w.row.history[i];
      assert EntryOk(w, s);
    }
  }

  lemma RecordKeepsPendingRecorded(w: World, id: string, now: Time, x: string)
    requires CanRecord(w, id)
    requires KeyIn(w, x) in Record(w, id, now).pending
    ensures x in Record(w, id, now).saved
  {
    NormalHistory(w);
    RecordPending(w, id, now, KeyIn(w, x));
    if KeyIn(w, x) !in w.pending {
      var i :| 0 <= i < Trimmed(w, id, now) && w.row.history[i].objectKey == Some(KeyIn(w, x));
      assert EntryOk(w, w.row.history[i]);
      KeysApart(w, w.row.history[i].versionId, x);
    }
  }

  lemma RecordKeepsNamed(w: World, id: string, now: Time, i: nat)
    requires KeyIn(w, id) in w.objects && i <= |w.row.history|
    requires NormalizeHistory(w.row.history) == w.row.history
    ensures var s, r := Candidate(w, id, now)[i], Record(w, id, now);
            s.objectKey.Some? ==> Named(r.row.history, s.objectKey.value) || s.objectKey.value in r.pending
  {
    var s, r, n := Candidate(w, id, now)[i], Record(w, id, now), Trimmed(w, id, now);
    if s.objectKey.Some? {
      if i < n {
        assert w.row.history[..n][i] == s;
        RecordPending(w, id, now, s.objectKey.value);
      } else {
        assert r.row.history[i - n] == s;
      }
    }
  }

  lemma RecordKeepsAccounted(w: World, id: string, now: Time, k: string)
    requires KeyIn(w, id) in w.objects
    requires NormalizeHistory(w.row.history) == w.row.history
    requires Named(w.row.history, k) || k in w.pending || k in w.loose
    ensures var r := Record(w, id, now); Named(r.row.history, k) || k in r.pending || k in r.loose
  {
    if Named(w.row.history, k) {
      var i :| 0 <= i < |w.row.history| && w.row.history[i].objectKey == Some(k);
      RecordKeepsNamed(w, id, now, i);
    } else if k == KeyIn(w, id) {
      RecordKeepsNamed(w, id, now, |w.row.history|);
    }
  }

  lemma RecordKeepsInv(w: World, id: string, now: Time)
    requires CanRecord(w, id)
    ensures Inv(Record(w, id, now))
  {
    NormalHistory(w);
    RecordShape(w, id, now);
    CandidateIsExtended(w, id, now);
    var r, h, n := Record(w, id, now), Candidate(w, id, now), Trimmed(w, id, now);
    forall s | s in r.row.history
      ensures EntryOk(r, s)
    {
      var i :| 0 <= i < |r.row.history| && r.row.history[i] == s;
      assert h[n + i] == s;
      RecordedEntryOk(w, id, now, n + i);
    }
    forall x | KeyIn(r, x) in r.pending ensures x in r.saved { RecordKeepsPendingRecorded(w, id, now, x); }
    forall k | k in r.objects && BaseKey(k) == r.row.objectKey
      ensures Named(r.row.history, k) || k in r.pending || k in r.loose
    {
      RecordKeepsAccounted(w, id, now, k);
    }
  }

  lemma {:induction false} WithoutVersionDistinct(h: seq<Snapshot>, id: string)
    requires DistinctIds(h)
    ensures DistinctIds(WithoutVersion(h, id))
  {
    if h != [] {
      var rest := WithoutVersion(h[1..], id);
      WithoutVersionDistinct(h[1..], id);
      forall j | 0 <= j < |rest| ensures rest[j].versionId != h[0].versionId {
        assert rest[j] in h[1..];
      }
    }
  }

  lemma {:induction false} WithoutVersionShape(h: seq<Snapshot>, id: string)
    requires DistinctIds(h)
    ensures DistinctIds(WithoutVersion(h, id))
    ensures h != [] && h[|h| - 1].versionId != id ==>
      var r := WithoutVersion(h, id);
      r != [] && r[|r| - 1] == h[|h| - 1]
  {
    WithoutVersionDistinct(h, id);
    if |h| > 1 {
      WithoutVersionShape(h[1..], id);
      assert h[1..][|h[1..]| - 1] == h[|h| - 1];
    }
  }

  /** In any reachable state a history entry resolves to its own key. */
  lemma ResolvesToOwnKey(w: World, i: nat)
    requires Inv(w) && i < |w.row.history|
    ensures ResolveBlobKey(w.row, Some(w.row.history[i].versionId)) == Ok(KeyIn(w, w.row.history[i].versionId))
  {
    NormalHistory(w);
    assert EntryOk(w, w.row.history[i]);
    ValidIdIsFixedPoint(w.row.history[i].versionId);
    FindsTheEntry(w.row.history, i);
  }

  /** Nothing else resolves: an id that resolves is in the history, never the bare key. */
  lemma ResolvesOnlyHistory(w: World, raw: string) returns (i: nat)
    requires Inv(w) && ResolveBlobKey(w.row, Some(raw)).Ok?
    ensures i < |w.row.history| && w.row.history[i].versionId == NormalizeVersionId(raw)
    ensures ResolveBlobKey(w.row, Some(raw)) == Ok(KeyIn(w, w.row.history[i].versionId))
  {
    NormalHistory(w);
    ValidationAccepts(raw, NormalizeVersionId(raw));
    i := WantedIsInHistory(w.row, NormalizeVersionId(raw));
    assert EntryOk(w, w.row.history[i]);
    ResolvesToOwnKey(w, i);
    ValidIdIsFixedPoint(w.row.history[i].versionId);
  }

  lemma WantedIsInHistory(row: Row, wanted: string) returns (i: nat)
    requires RowOk(row) && NormalizeHistory(row.history) == row.history && CurrentId(row) == row.current
    requires ResolveWanted(row, wanted).Ok?
    ensures i < |row.history| && row.history[i].versionId == wanted
  {
    if row.current == Some(wanted) {
      i := |row.history| - 1;
    } else {
      var found := FindVersion(row.history, wanted).value;
      i :| 0 <= i < |row.history| && row.history[i] == found;
    }
  }

  /** The row drops an entry whose object is already gone. */
  lemma WithoutRowKeepsInv(w: World, target: string)
    requires Inv(w) && w.row.current.Some? && w.row.current.value != target
    requires forall s :: s in w.row.history && s.versionId == target ==> target in w.torn
    ensures CurrentId(w.row).Some?
    ensures Inv(WithoutRow(w, target))
  {
    NormalHistory(w);
    var r := WithoutRow(w, target);
    WithoutVersionShape(w.row.history, target);
    forall s | s in r.row.history ensures EntryOk(r, s) { assert EntryOk(w, s); }
    assert forall x :: KeyIn(r, x) == KeyIn(w, x);
    forall k | k in r.objects && BaseKey(k) == r.row.objectKey
      ensures Named(r.row.history, k) || k in r.pending || k in r.loose
    {
      if Named(w.row.history, k) {
        var i :| 0 <= i < |w.row.history| && w.row.history[i].objectKey == Some(k);
        assert EntryOk(w, w.row.history[i]);
        assert w.row.history[i] in r.row.history;
      }
    }
  }

  /** An entry's object is deleted: the world is consistent once the entry counts as torn. */
  lemma TearKeepsInv(w: World, i: nat)
    requires Inv(w) && i < |w.row.history|
    ensures var id := w.row.history[i].versionId;
            Inv(w.(objects := w.objects - {KeyIn(w, id)}, torn := w.torn + {id}))
  {
    var id := w.row.history[i].versionId;
    var r := w.(objects := w.objects - {KeyIn(w, id)}, torn := w.torn + {id});
    assert EntryOk(w, w.row.history[i]);
    forall t | t in r.row.history
      ensures EntryOk(r, t)
    {
      assert EntryOk(w, t);
      if KeyIn(w, t.versionId) == KeyIn(w, id) { KeysApart(w, t.versionId, id); }
    }
    assert forall x :: KeyIn(r, x) == KeyIn(w, x);
  }

  /** Forgetting that an id no longer in the history was torn changes nothing. */
  lemma UntearKeepsInv(w: World, torn: set<string>)
    requires Inv(w) && torn <= w.torn
    requires forall s :: s in w.row.history && s.versionId in w.torn ==> s.versionId in torn
    ensures Inv(w.(torn := torn))
  {
    var r := w.(torn := torn);
    forall s | s in r.row.history ensures EntryOk(r, s) { assert EntryOk(w, s); }
    assert forall x :: KeyIn(r, x) == KeyIn(w, x);
  }

  lemma DeleteKeepsInv(w: World, rawId: string, deleteOk: bool, rowOk: bool)
    requires Inv(w)
    ensures Inv(AfterDelete(w, rawId, deleteOk, rowOk))
  {
    NormalHistory(w);
    var target := NormalizeVersionId(rawId);
    if target != [] && w.row.current != Some(target) {
      var resolved := ResolveBlobKey(w.row, Some(target));
      if resolved.Ok? {
        if deleteOk { DeletedKeepsInv(w, target, rowOk); }
      } else if resolved == Err(NotFound) && w.row.current.Some? && rowOk {
        forall i | 0 <= i < |w.row.history|
          ensures w.row.history[i].versionId != target
        {
          ResolvesToOwnKey(w, i);
        }
        WithoutRowKeepsInv(w, target);
      }
    }
  }

  lemma DeletedKeepsInv(w: World, target: string, rowOk: bool)
    requires Inv(w) && w.row.current != Some(target)
    requires ResolveBlobKey(w.row, Some(target)).Ok?
    requires CurrentId(w.row) == w.row.current
    ensures var gone := w.(objects := w.objects - {ResolveBlobKey(w.row, Some(target)).value});
            var hit := NormalizeVersionId(target);
            && Inv(gone.(torn := w.torn + {hit}))
            && (w.row.current.Some? && rowOk ==>
                  Inv(WithoutRow(if hit == target then gone else gone.(torn := w.torn + {hit}), target)))
  {
    var i := ResolvesOnlyHistory(w, target);
    TearKeepsInv(w, i);
    var hit := NormalizeVersionId(target);
    var t := w.(objects := w.objects - {KeyIn(w, hit)}, torn := w.torn + {hit});
    if w.row.current.Some? && rowOk {
      if hit != target {
        forall s | s in w.row.history ensures s.versionId != target {
          assert EntryOk(w, s);
          ValidIdIsFixedPoint(s.versionId);
        }
      }
      WithoutRowKeepsInv(t, target);
      if hit == target {
        UntearKeepsInv(WithoutRow(t, target), w.torn);
      }
    }
  }

  lemma CleanupKeepsInv(w: World, key: string, removed: bool)
    requires Inv(w) && key in w.pending
    ensures Inv(Step(w, Cleanup(key, removed)))
  {
    var r := Step(w, Cleanup(key, removed));
    forall s | s in r.row.history ensures EntryOk(r, s) { assert EntryOk(w, s); }
    assert forall x :: KeyIn(r, x) == KeyIn(w, x);
  }

  lemma ElsewhereKeepsInv(w: World, objects: map<string, Bytes>)
    requires Inv(w) && Allowed(w, Elsewhere(objects))
    ensures Inv(w.(objects := objects))
  {
    var r := w.(objects := objects);
    forall s | s in r.row.history
      ensures EntryOk(r, s)
    {
      assert EntryOk(w, s);
      BaseKeyOfVersionKey(w.row.objectKey, s.versionId);
    }
    assert forall x :: KeyIn(r, x) == KeyIn(w, x);
  }

  lemma RowFieldsKeepInv(w: World, row: Row)
    requires Inv(w)
    requires row.objectKey == w.row.objectKey && row.history == w.row.history && row.current == w.row.current
    ensures Inv(w.(row := row))
  {
    var r := w.(row := row);
    forall s | s in r.row.history ensures EntryOk(r, s) { assert EntryOk(w, s); }
    assert forall x :: KeyIn(r, x) == KeyIn(w, x);
  }

  lemma SaveKeepsInv(w: World, id: string, now: Time, rowOk: bool, undoOk: bool)
    requires CanRecord(w, id)
    ensures Inv(if rowOk then Record(w, id, now) else Undo(w, id, undoOk))
  {
    if rowOk { RecordKeepsInv(w, id, now); } else { UndoKeepsInv(w, id, undoOk); }
  }

  /** Every allowed request, background deletion and outside event keeps the invariant. */
  lemma StepKeepsInv(w: World, a: Action)
    requires Inv(w) && Allowed(w, a)
    ensures Inv(Step(w, a))
  {
    match a
    case UploadBlob(body, id, now, putOk, rowOk, undoOk) =>
      PutKeepsInv(w, id, body);
      SaveKeepsInv(Put(w, id, body), id, now, rowOk, undoOk);
    case ClientPut(id, bytes) => PutKeepsInv(w, id, bytes);
    case ConfirmUpload(rawId, now, rowOk, undoOk) =>
      var v := ValidateVersionId(rawId);
      if v.Ok? && KeyIn(w, v.value) in w.objects {
        ValidationAccepts(rawId, v.value);
        SaveKeepsInv(w, v.value, now, rowOk, undoOk);
      }
    case UpdateContent(title, envelope, now, ok) => RowFieldsKeepInv(w, AfterContent(w, title, envelope, now, ok).row);
    case UpdateMeta(edit, now, ok) => RowFieldsKeepInv(w, AfterMeta(w, edit, now, ok).row);
    case DeleteVersion(target, deleteOk, rowOk) => DeleteKeepsInv(w, target, deleteOk, rowOk);
    case Cleanup(key, removed) => CleanupKeepsInv(w, key, removed);
    case Elsewhere(objects) => ElsewhereKeepsInv(w, objects);
  }

  lemma {:induction false} RunKeepsInv(w: World, run: seq<Action>)
    requires Inv(w) && AllowedRun(w, run)
    ensures Inv(Run(w, run))
    decreases |run|
  {
    if run != [] {
      StepKeepsInv(w, run[0]);
      RunKeepsInv(Step(w, run[0]), run[1..]);
    }
  }

  // ---- Reading versions back ----------------------------------------------

  function Download(w: World, versionId: Option<string>): (r: Result<Bytes>) {
    var wanted := match versionId
      case None => None
      case Some(raw) => if NormalizeVersionId(raw) == [] then None else Some(NormalizeVersionId(raw));
    match ResolveBlobKey(w.row, wanted)
    case Err(e) => Err(e)
    case Ok(key) => if key in w.objects then Ok(w.objects[key]) else Err(NotFound)
  }

  lemma DownloadsEntry(w: World, i: nat)
    requires Inv(w) && i < |w.row.history|
    ensures var id := w.row.history[i].versionId;
            && id in w.saved
            && Download(w, Some(id)) == (if id in w.torn then Err(NotFound) else Ok(w.saved[id]))
            && (i == |w.row.history| - 1 ==> Download(w, None) == Download(w, Some(id)))
  {
    var id := w.row.history[i].versionId;
    assert EntryOk(w, w.row.history[i]);
    ValidIdIsFixedPoint(id);
    ResolvesToOwnKey(w, i);
    NormalHistory(w);
  }

  /** A version's recorded bytes are never rewritten, whatever happens to the vault later. */
  lemma {:induction false} SavedBytesAreFinal(w: World, run: seq<Action>, id: string)
    requires Inv(w) && AllowedRun(w, run) && id in w.saved
    ensures id in Run(w, run).saved && Run(w, run).saved[id] == w.saved[id]
    decreases |run|
  {
    if run != [] {
      StepKeepsInv(w, run[0]);
      assert id in Step(w, run[0]).saved && Step(w, run[0]).saved[id] == w.saved[id];
      SavedBytesAreFinal(Step(w, run[0]), run[1..], id);
    }
  }

  /**
   This delete request removed the object of version `id` and then left the version in
   the history: the row write failed, or the id it was given only matches `id` after a
   second normalisation, so that the row kept the entry.
   */
  predicate Tears(w: World, a: Action, id: string) {
    && a.DeleteVersion? && a.deleteOk
    && var target := NormalizeVersionId(a.target);
    && target != [] && w.row.current != Some(target)
    && NormalizeVersionId(target) == id
    && ResolveBlobKey(w.row, Some(target)).Ok?
    && (!a.updateOk || target != id)
  }

  predicate TearsInRun(w: World, run: seq<Action>, id: string)
    decreases |run|
  {
    run != [] && (Tears(w, run[0], id) || TearsInRun(Step(w, run[0]), run[1..], id))
  }

  lemma ResolvableHasCurrent(w: World, raw: string)
    requires Inv(w) && ResolveBlobKey(w.row, Some(raw)).Ok?
    ensures CurrentId(w.row).Some?
  {
    NormalHistory(w);
    var i := ResolvesOnlyHistory(w, raw);
  }

  lemma StepTears(w: World, a: Action, id: string)
    requires Inv(w) && Allowed(w, a)
    ensures id in Step(w, a).torn <==> id in w.torn || Tears(w, a, id)
  {
    if a.DeleteVersion? {
      NormalHistory(w);
      var target := NormalizeVersionId(a.target);
      if target != [] && w.row.current != Some(target) && ResolveBlobKey(w.row, Some(target)).Ok? {
        ResolvableHasCurrent(w, target);
      }
    }
  }

  lemma {:induction false} TornExactlyByTears(w: World, run: seq<Action>, id: string)
    requires Inv(w) && AllowedRun(w, run)
    ensures id in Run(w, run).torn <==> id in w.torn || TearsInRun(w, run, id)
    decreases |run|
  {
    if run != [] {
      StepTears(w, run[0], id);
      StepKeepsInv(w, run[0]);
      TornExactlyByTears(Step(w, run[0]), run[1..], id);
    }
  }

  lemma FreshIsInv(w: World)
    requires Fresh(w)
    ensures Inv(w)
  {
  }

  /**
   Read correctness from any consistent vault on: after any allowed run, every version in the
   history downloads exactly the bytes it was saved with, unless it was torn before or a
   delete request of the run tore it; then it is reported missing.
   */
  lemma ReadsFromHereOn(w: World, run: seq<Action>, i: nat)
    requires Inv(w) && AllowedRun(w, run)
    requires i < |Run(w, run).row.history|
    ensures var r := Run(w, run);
            var id := r.row.history[i].versionId;
            && id in r.saved
            && Download(r, Some(id))
               == (if id in w.torn || TearsInRun(w, run, id) then Err(NotFound) else Ok(r.saved[id]))
  {
    RunKeepsInv(w, run);
    DownloadsEntry(Run(w, run), i);
    TornExactlyByTears(w, run, Run(w, run).row.history[i].versionId);
  }

  /**
   Read correctness over whole runs: from a newly created vault, after any allowed run,
   every version still in the history downloads exactly the bytes it was saved with,
   unless a delete request tore it; then it is reported missing. No version ever
   downloads anything else.
   */
  lemma ReadCorrectness(w: World, run: seq<Action>, i: nat)
    requires Fresh(w) && AllowedRun(w, run)
    requires i < |Run(w, run).row.history|
    ensures var r := Run(w, run);
            var id := r.row.history[i].versionId;
            && id in r.saved
            && Download(r, Some(id)) == if TearsInRun(w, run, id) then Err(NotFound) else Ok(r.saved[id])
  {
    FreshIsInv(w);
    ReadsFromHereOn(w, run, i);
  }

  /**
   The row over whole runs from any consistent vault: ids are distinct, a non-empty history ends with the current
   version, and nothing but a history entry resolves to an object.
   */
  lemma RowOverRuns(w: World, run: seq<Action>, raw: string)
    requires Inv(w) && AllowedRun(w, run)
    ensures RowOk(Run(w, run).row)
    ensures var r := Run(w, run).row;
            ResolveBlobKey(r, Some(raw)).Ok? ==>
              && CurrentId(r).Some?
              && exists i :: 0 <= i < |r.history| && r.history[i].versionId == NormalizeVersionId(raw)
  {
    RunKeepsInv(w, run);
    if ResolveBlobKey(Run(w, run).row, Some(raw)).Ok? {
      ResolvableHasCurrent(Run(w, run), raw);
      var i := ResolvesOnlyHistory(Run(w, run), raw);
    }
  }

  /** A save leaves at most max(1, max_versions) entries: the newest ones, ending with the new version. */
  lemma SaveTrims(w: World, id: string, now: Time)
    requires CanRecord(w, id)
    ensures var r := Record(w, id, now).row;
            && 1 <= |r.history| <= Keep(w.row.maxVersions) && |r.history| <= |w.row.history| + 1
            && r.history[|r.history| - 1].versionId == id && r.current == Some(id)
            && r.history[..|r.history| - 1] == w.row.history[|w.row.history| + 1 - |r.history|..]
            && (|r.history| <= |w.row.history| ==> |r.history| == Keep(w.row.maxVersions))
  {
    RecordShape(w, id, now);
    var h, n := Candidate(w, id, now), Trimmed(w, id, now);
    assert |h[n..]| == |w.row.history| + 1 - n;
    assert h[n..][..|h[n..]| - 1] == w.row.history[n..];
  }

  /**
   Why an id may be confirmed only once: confirming again a version that is in the
   history hands its own object to cleanup exactly when retention trims the earlier entry.
   */
  lemma ReconfirmPrunesItselfIff(w: World, p: nat, now: Time, undoOk: bool)
    requires Inv(w) && p < |w.row.history| && w.row.history[p].versionId !in w.torn
    ensures var id := w.row.history[p].versionId;
            var r := Step(w, ConfirmUpload(id, now, true, undoOk));
            && r.row.current == Some(id)
            && (KeyIn(w, id) in r.pending <==> p + Keep(w.row.maxVersions) < |w.row.history| + 1)
  {
    var id := w.row.history[p].versionId;
    assert EntryOk(w, w.row.history[p]);
    ValidIdIsFixedPoint(id);
    NormalHistory(w);
    RecordPending(w, id, now, KeyIn(w, id));
    NamedBeforeIff(w, p, Trimmed(w, id, now));
  }

  /** Among the oldest `n` entries, a version's key is named exactly by its own entry. */
  lemma NamedBeforeIff(w: World, p: nat, n: nat)
    requires Inv(w) && p < |w.row.history| && n <= |w.row.history|
    ensures Named(w.row.history[..n], KeyIn(w, w.row.history[p].versionId)) <==> p < n
  {
    var h, id := w.row.history, w.row.history[p].versionId;
    assert EntryOk(w, h[p]);
    if p < n { assert h[..n][p] == h[p]; }
    forall j | 0 <= j < n && j != p
      ensures h[..n][j].objectKey != Some(KeyIn(w, id))
    {
      assert EntryOk(w, h[j]);
      SameBaseInjective(w.row.objectKey, h[j].versionId, id);
    }
  }

  /** ... and the cleanup then loses the version that was just made current. */
  lemma ReconfirmThenCleanupLosesCurrent(w: World, p: nat, now: Time)
    requires Inv(w) && p < |w.row.history| && w.row.history[p].versionId !in w.torn
    requires p + Keep(w.row.maxVersions) < |w.row.history| + 1
    ensures var id := w.row.history[p].versionId;
            var r := Step(w, ConfirmUpload(id, now, true, true));
            Allowed(r, Cleanup(KeyIn(w, id), true)) && KeyIn(w, id) !in Step(r, Cleanup(KeyIn(w, id), true)).objects
  {
    ReconfirmPrunesItselfIff(w, p, now, true);
  }

  /**
   When a delete request loses the current version: exactly when the deletion goes through
   and the id normalises to something else, but to the current id when normalised again.
   */
  lemma DeleteLosesCurrentIff(w: World, raw: string, deleteOk: bool, rowOk: bool)
    requires Inv(w) && w.row.current.Some? && w.row.current.value !in w.torn
    ensures var id, target := w.row.current.value, NormalizeVersionId(raw);
            var r := Step(w, DeleteVersion(raw, deleteOk, rowOk));
            && r.row.current == Some(id)
            && (Download(r, None) == Err(NotFound)
                <==> deleteOk && target != id && NormalizeVersionId(target) == id)
  {
    var id, target := w.row.current.value, NormalizeVersionId(raw);
    var a := DeleteVersion(raw, deleteOk, rowOk);
    var n := |w.row.history| - 1;
    assert EntryOk(w, w.row.history[n]);
    ResolvesToOwnKey(w, n);
    StepTears(w, a, id);
    DeleteKeepsCurrent(w, raw, deleteOk, rowOk);
    StepKeepsInv(w, a);
    DownloadsEntry(Step(w, a), |Step(w, a).row.history| - 1);
    if NormalizeVersionId(target) == id {
      ValidationAccepts(target, id);
      ValidationAccepts(id, id);
      ValidIdIsFixedPoint(id);
    }
  }

  lemma DeleteKeepsCurrent(w: World, raw: string, deleteOk: bool, rowOk: bool)
    requires Inv(w) && w.row.current.Some?
    ensures var r := AfterDelete(w, raw, deleteOk, rowOk);
            r.row.current == w.row.current && r.row.history != []
  {
    NormalHistory(w);
    var target := NormalizeVersionId(raw);
    if w.row.current != Some(target) {
      WithoutVersionShape(w.row.history, target);
      DeleteWritesOneRow(w, raw, deleteOk, rowOk);
    }
  }

  /** A delete request leaves the row alone or writes it without the target. */
  lemma DeleteWritesOneRow(w: World, raw: string, deleteOk: bool, rowOk: bool)
    requires CurrentId(w.row).Some?
    ensures var r := AfterDelete(w, raw, deleteOk, rowOk).row;
            r == w.row || r == WithoutRow(w, NormalizeVersionId(raw)).row
  {
  }

  /**
   A version id quoted together with a space normalises to a different id each time: the
   check against the current version sees the spaced form, the lookup sees the bare one.
   Such a delete request destroys the current version and keeps its row.
   */
  lemma QuotedSpaceDeletesCurrent(w: World)
    requires Inv(w) && w.row.current.Some? && w.row.current.value !in w.torn
    ensures var id := w.row.current.value;
            var a := DeleteVersion("\"" + " " + id + "\"", true, true);
            && id in w.saved && Download(w, None) == Ok(w.saved[id])
            && Tears(w, a, id)
            && Step(w, a).row.current == Some(id)
            && Download(Step(w, a), None) == Err(NotFound)
  {
    var id := w.row.current.value;
    var raw := "\"" + " " + id + "\"";
    var n := |w.row.history| - 1;
    assert EntryOk(w, w.row.history[n]);
    IdCharsAreNeverTrimmed(id[0]);
    IdCharsAreNeverTrimmed(id[|id| - 1]);
    QuotedSpaceSurvivesNormalizing(id);
    LeadingSpaceIsTrimmed(id);
    ValidationAccepts(" " + id, id);
    ResolvesToOwnKey(w, n);
    ValidIdIsFixedPoint(id);
    DownloadsEntry(w, n);
    DeleteLosesCurrentIff(w, raw, true, true);
  }
}
