/**
 What each desktop command makes of the entry of its vault, field by field, and what a
 rotation's update list makes of an entry.
 */
module DesktopEffects {
  import opened Results
  import opened EntryMac
  import opened VaultFile
  import opened DesktopIndex

  /** As written: no colour, and the code of the five covered fields. */
  ghost predicate Written(env: Env, m: Meta) {
    && m.color == None
    && m.mac == Some(env.mac(m.id + "|" + m.title + "|" + m.classical + "|" + m.pq + "|" + m.dek))
  }

  lemma StampIsWritten(env: Env, m: Meta)
    ensures var s := Stamp(env.mac, m); Written(env, s) && s == m.(color := None, mac := s.mac)
  {
    InputText(m);
    InputText(Stamp(env.mac, m));
  }

  lemma InputText(m: Meta)
    ensures Input(m) == m.id + "|" + m.title + "|" + m.classical + "|" + m.pq + "|" + m.dek
  {
    var tail := m.pq + BAR + m.dek;
    var rest := m.classical + BAR + tail;
    assert m.id + BAR + (m.title + BAR + rest) == m.id + BAR + m.title + BAR + rest;
    assert m.id + BAR + m.title + BAR + (m.classical + BAR + tail)
        == m.id + BAR + m.title + BAR + m.classical + BAR + tail;
    assert m.id + BAR + m.title + BAR + m.classical + BAR + (m.pq + BAR + m.dek)
        == m.id + BAR + m.title + BAR + m.classical + BAR + m.pq + BAR + m.dek;
  }

  // ---- The commands ------------------------------------------------------------------

  /** A new vault has the given envelope and the program's defaults. */
  lemma CreatedEntry(env: Env, d: Disk, id: string, e: Envelope, now: string)
    requires Sealed(env, d) && !Has(d.index, id)
    ensures var m := Entry(Step(env, d, Create(id, e, now)).disk.index, id);
            && m.Some? && Written(env, m.value)
            && m.value == Meta(id, e.title, e.classical, e.pq, e.dek, None, None, "private", "standard", 50,
                               now, now, m.value.mac)
  {
    StepRefinesOne(env, d, Create(id, e, now), id);
    StampIsWritten(env, NewEntry(id, e, now));
  }

  /** Saving a blob stores it and touches the timestamp, if the vault is in the index. */
  lemma SavedBlobEntry(env: Env, d: Disk, id: string, blob: Bytes, now: string)
    requires Sealed(env, d)
    ensures var was, r := Entry(d.index, id), Step(env, d, SaveBlob(id, blob, now)).disk;
            && id in r.blobs && r.blobs[id] == blob
            && (was.None? ==> Entry(r.index, id).None?)
            && (was.Some? ==> Entry(r.index, id).Some? && Written(env, Entry(r.index, id).value)
                              && Entry(r.index, id).value == was.value.(updated := now))
  {
    StepRefinesOne(env, d, SaveBlob(id, blob, now), id);
    var was := Entry(d.index, id);
    if was.Some? {
      EntryIsWritten(env, d, id);
      StampIsWritten(env, was.value.(updated := now));
    }
  }

  lemma EntryIsWritten(env: Env, d: Disk, id: string)
    requires Sealed(env, d) && Entry(d.index, id).Some?
    ensures Written(env, Entry(d.index, id).value)
  {
    StampIsWritten(env, Entry(d.index, id).value);
  }

  /** An update changes the fields it gives, and the timestamp with a title or a key. */
  lemma UpdatedEntry(env: Env, d: Disk, id: string, e: Edit, now: string)
    requires Sealed(env, d) && Entry(d.index, id).Some?
    ensures var was, r := Entry(d.index, id).value, Step(env, d, Update(id, e, now));
            && r.failure == None && r.disk.blobs == d.blobs
            && var m := Entry(r.disk.index, id);
               && m.Some? && Written(env, m.value)
               && m.value.id == id && m.value.created == was.created
               && m.value.note == (if e.note.Some? then e.note else was.note)
               && (if e.sharing.Some? then m.value.sharing == e.sharing.value else m.value.sharing == was.sharing)
               && (if e.encryption.Some? then m.value.encryption == e.encryption.value
                   else m.value.encryption == was.encryption)
               && m.value.maxVersions == (if e.maxVersions.None? then was.maxVersions
                                          else if e.maxVersions.value == 0 then 1 else e.maxVersions.value)
               && (if e.title.Some? then m.value.title == e.title.value else m.value.title == was.title)
               && (if e.classical.Some? then m.value.classical == e.classical.value
                   else m.value.classical == was.classical)
               && (if e.pq.Some? then m.value.pq == e.pq.value else m.value.pq == was.pq)
               && (if e.dek.Some? then m.value.dek == e.dek.value else m.value.dek == was.dek)
               && m.value.updated == (if e.title.Some? || e.dek.Some? then now else was.updated)
  {
    var was := Entry(d.index, id).value;
    PositionFinds(d.index, id);
    StepRefinesOne(env, d, Update(id, e, now), id);
    StampIsWritten(env, Edited(was, e, now));
  }

  /** A deleted vault is gone from the index and from the blobs. */
  lemma DeletedEntry(env: Env, d: Disk, id: string)
    requires Sealed(env, d)
    ensures var r := Step(env, d, Delete(id)).disk; Entry(r.index, id).None? && id !in r.blobs && !Has(r.index, id)
  {
    StepRefinesOne(env, d, Delete(id), id);
    PositionFinds(Step(env, d, Delete(id)).disk.index, id);
  }

  /** An update of a vault that is not there fails and changes nothing. */
  lemma UpdateUnknown(env: Env, d: Disk, id: string, e: Edit, now: string)
    requires !Has(d.index, id)
    ensures Step(env, d, Update(id, e, now)) == Outcome(d, Some(NoSuchVault))
  {
    PositionFinds(d.index, id);
  }

  /** The four answers of the integrity check. */
  lemma IntegrityAnswers(env: Env, d: Disk, id: string)
    ensures !Has(d.index, id) ==> Verify(env, d, id) == Integrity.NotFound
    ensures Has(d.index, id) ==>
      Entry(d.index, id).Some? && Entry(d.index, id).value.id == id
      && var m := Entry(d.index, id).value;
         Verify(env, d, id)
         == if m.mac == None then MissingMac
            else if m.mac == Some(env.mac(m.id + "|" + m.title + "|" + m.classical + "|" + m.pq + "|" + m.dek))
            then Integrity.Ok
            else Tampered
  {
    PositionFinds(d.index, id);
    if Has(d.index, id) { InputText(d.index[Position(d.index, id)]); }
  }

  /** A file that is refused leaves the store as it was, and so does dropping a staged index that is not there. */
  lemma RefusedImport(env: Env, d: Disk, file: Bytes, newId: string, now: string)
    requires Parse(env.codec, file).Refused?
    ensures Step(env, d, Import(file, newId, now)) == Outcome(d, Some(BadFile(Parse(env.codec, file).why)))
    ensures Step(env, d, Discard) == Outcome(d.(staged := None), None)
    ensures d.staged.None? ==> Step(env, d, Install) == Outcome(d, None)
  {
  }

  /** A vault that is not there has no file to export. */
  lemma NothingToExport(env: Env, d: Disk, id: string)
    ensures Export(env, d, id).None? <==> !Has(d.index, id)
  {
    PositionFinds(d.index, id);
  }

  // ---- The update list of a rotation ---------------------------------------------------

  /** No update from `from` on is for this vault and carries a note. */
  predicate NoNote(updates: seq<Rotated>, from: nat, id: string) {
    forall i :: from <= i < |updates| ==> updates[i].id != id || updates[i].note.None?
  }

  lemma {:induction false} NoteKept(m: Meta, updates: seq<Rotated>, id: string)
    requires NoNote(updates, 0, id)
    ensures Applied(Some(m), updates, id).Some? && Applied(Some(m), updates, id).value.note == m.note
  {
    if updates != [] {
      var n := |updates| - 1;
      assert NoNote(updates[..n], 0, id);
      NoteKept(m, updates[..n], id);
    }
  }

  lemma {:induction false} NoteReplaced(m: Meta, updates: seq<Rotated>, id: string, j: nat)
    requires j < |updates| && updates[j].id == id && updates[j].note.Some? && NoNote(updates, j + 1, id)
    ensures var r := Applied(Some(m), updates, id);
            r.Some? && r.value.note == if updates[j].note.value == "" then None else Some(updates[j].note.value)
  {
    var n := |updates| - 1;
    RotationKeepsTheRest(m, updates[..n], id);
    if j < n {
      assert NoNote(updates[..n], j + 1, id);
      NoteReplaced(m, updates[..n], id, j);
    }
  }

  /** The entry a rotation stages, and later installs, for a vault. */
  function Staged(env: Env, d: Disk, updates: seq<Rotated>, id: string): (m: Option<Meta>) {
    var r := Step(env, d, Stage(updates)).disk;
    if r.staged.Some? then Entry(r.staged.value, id) else None
  }

  /** Staging leaves the index in place and the blobs alone, and installing puts the staged entry in place. */
  lemma StagedThenInstalled(env: Env, d: Disk, updates: seq<Rotated>, id: string)
    ensures var staged := Step(env, d, Stage(updates)).disk;
            && staged.index == d.index && staged.blobs == d.blobs && staged.staged.Some?
            && var r := Step(env, staged, Install).disk;
               Entry(r.index, id) == Staged(env, d, updates, id) && r.blobs == d.blobs && r.staged == None
  {
  }

  lemma StagedIsApplied(env: Env, d: Disk, updates: seq<Rotated>, id: string)
    ensures Entry(d.index, id).None? ==> Staged(env, d, updates, id).None?
    ensures Entry(d.index, id).Some? ==>
      var applied, s := Applied(Entry(d.index, id), updates, id), Staged(env, d, updates, id);
      applied.Some? && s.Some? && Written(env, s.value) && s.value == applied.value.(color := None, mac := s.value.mac)
  {
    EntryRotated(d.index, updates, id);
    EntryStamped(env.mac, RotatedAll(d.index, updates), id);
    if Entry(d.index, id).Some? {
      RotationKeepsTheRest(Entry(d.index, id).value, updates, id);
      StampIsWritten(env, Applied(Entry(d.index, id), updates, id).value);
    }
  }

  /** Apart from title and note the staged entry is the old one; an unlisted vault keeps both. */
  lemma StagedKeepsTheRest(env: Env, d: Disk, updates: seq<Rotated>, id: string)
    requires Entry(d.index, id).Some?
    ensures var was, s := Entry(d.index, id).value, Staged(env, d, updates, id);
            && s.Some? && Written(env, s.value)
            && s.value == was.(title := s.value.title, note := s.value.note, color := None, mac := s.value.mac)
            && (Unlisted(updates, 0, id) ==> s.value.title == was.title)
  {
    StagedIsApplied(env, d, updates, id);
    RotationKeepsTheRest(Entry(d.index, id).value, updates, id);
  }

  /** A listed vault gets the title of its last update. */
  lemma StagedTitle(env: Env, d: Disk, updates: seq<Rotated>, id: string, j: nat)
    requires Entry(d.index, id).Some? && j < |updates| && updates[j].id == id && Unlisted(updates, j + 1, id)
    ensures Staged(env, d, updates, id).Some? && Staged(env, d, updates, id).value.title == updates[j].title
  {
    StagedIsApplied(env, d, updates, id);
    LastUpdateWins(Entry(d.index, id).value, updates, id, j);
  }

  /** Without an update that carries a note, a vault keeps the note it had. */
  lemma StagedKeepsNote(env: Env, d: Disk, updates: seq<Rotated>, id: string)
    requires Entry(d.index, id).Some? && NoNote(updates, 0, id)
    ensures Staged(env, d, updates, id).Some?
    ensures Staged(env, d, updates, id).value.note == Entry(d.index, id).value.note
  {
    StagedIsApplied(env, d, updates, id);
    NoteKept(Entry(d.index, id).value, updates, id);
  }

  /** Otherwise its note is that of the last update that carries one, an empty one clearing it. */
  lemma StagedNote(env: Env, d: Disk, updates: seq<Rotated>, id: string, j: nat)
    requires Entry(d.index, id).Some?
    requires j < |updates| && updates[j].id == id && updates[j].note.Some? && NoNote(updates, j + 1, id)
    ensures Staged(env, d, updates, id).Some?
    ensures Staged(env, d, updates, id).value.note
         == if updates[j].note.value == "" then None else Some(updates[j].note.value)
  {
    StagedIsApplied(env, d, updates, id);
    NoteReplaced(Entry(d.index, id).value, updates, id, j);
  }
}
