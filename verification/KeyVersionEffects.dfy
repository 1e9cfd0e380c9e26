/**
 Who is given a token, which bundles a rotation takes and what it writes, and what each
 write changes.
 */
module KeyVersionEffects {
  import opened Results
  import opened KeyVersions

  // ---- What a rotation takes and writes ---------------------------------------------

  /** Entry `j` is the last one for its vault. */
  predicate LastFor(entries: seq<RotatedVault>, j: int) {
    0 <= j < |entries| && forall i :: j < i < |entries| ==> entries[i].id != entries[j].id
  }

  /**
   A complete bundle: the next version, every vault and nothing else, a new note in the last
   entry of every vault that has one, and every live attachment with a wrap and nothing else.
   */
  ghost predicate Complete(u: User, b: Bundle) {
    && b.newVersion == u.keyVersion + 1
    && CoversVaults(u, b) && CoversAttachments(u, b)
    && (forall j :: LastFor(b.vaults, j) && b.vaults[j].id in u.vaults && u.vaults[b.vaults[j].id].note.Some? ==>
          b.vaults[j].note.Some? && b.vaults[j].note.value.Some?)
  }

  lemma {:induction false} LastNoteIs(entries: seq<RotatedVault>, j: int)
    requires LastFor(entries, j)
    ensures LastNote(entries, entries[j].id) == entries[j].note
  {
    var n := |entries| - 1;
    if j < n {
      assert LastFor(entries[..n], j);
      LastNoteIs(entries[..n], j);
    }
  }

  lemma {:induction false} SomeLast(entries: seq<RotatedVault>, id: Id) returns (j: nat)
    requires exists i :: 0 <= i < |entries| && entries[i].id == id
    ensures LastFor(entries, j) && entries[j].id == id
  {
    var n := |entries| - 1;
    if entries[n].id == id {
      j := n;
    } else {
      var i :| 0 <= i < |entries| && entries[i].id == id;
      assert entries[..n][i].id == id;
      j := SomeLast(entries[..n], id);
    }
  }

  ghost predicate CoversVaults(u: User, b: Bundle) {
    && (forall i :: 0 <= i < |b.vaults| ==> b.vaults[i].id in u.vaults)
    && (forall id :: id in u.vaults ==> exists j :: LastFor(b.vaults, j) && b.vaults[j].id == id)
  }

  ghost predicate CoversAttachments(u: User, b: Bundle) {
    && (forall i :: 0 <= i < |b.attachments| ==>
          && b.attachments[i].id in u.attachments
          && !u.attachments[b.attachments[i].id].deleted && u.attachments[b.attachments[i].id].wrap.Some?)
    && (forall id :: id in u.attachments && !u.attachments[id].deleted && u.attachments[id].wrap.Some? ==>
          exists i :: 0 <= i < |b.attachments| && b.attachments[i].id == id)
  }

  lemma VaultsCovered(u: User, b: Bundle)
    ensures CoversVaults(u, b) <==> SubmittedVaults(b.vaults) == u.vaults.Keys
  {
    if SubmittedVaults(b.vaults) == u.vaults.Keys {
      forall id | id in u.vaults ensures exists j :: LastFor(b.vaults, j) && b.vaults[j].id == id {
        assert id in SubmittedVaults(b.vaults);
        var j := SomeLast(b.vaults, id);
      }
      forall i | 0 <= i < |b.vaults| ensures b.vaults[i].id in u.vaults {
        assert b.vaults[i].id in SubmittedVaults(b.vaults);
      }
    }
    if CoversVaults(u, b) {
      forall id ensures id in SubmittedVaults(b.vaults) <==> id in u.vaults {
        if id in u.vaults {
          var j :| LastFor(b.vaults, j) && b.vaults[j].id == id;
        }
      }
    }
  }

  lemma NotesCovered(u: User, b: Bundle)
    requires SubmittedVaults(b.vaults) == u.vaults.Keys
    ensures (forall j :: LastFor(b.vaults, j) && b.vaults[j].id in u.vaults && u.vaults[b.vaults[j].id].note.Some? ==>
               b.vaults[j].note.Some? && b.vaults[j].note.value.Some?)
       <==> (forall id :: id in u.vaults ==> !StrandsNote(u, b.vaults, id))
  {
    forall j | LastFor(b.vaults, j) ensures LastNote(b.vaults, b.vaults[j].id) == b.vaults[j].note {
      LastNoteIs(b.vaults, j);
    }
    forall id | id in u.vaults ensures exists j :: LastFor(b.vaults, j) && b.vaults[j].id == id {
      assert id in SubmittedVaults(b.vaults);
      var j := SomeLast(b.vaults, id);
    }
  }

  lemma AttachmentsCovered(u: User, b: Bundle)
    ensures CoversAttachments(u, b) <==> SubmittedAttachments(b.attachments) == Demanded(u)
  {
    if SubmittedAttachments(b.attachments) == Demanded(u) {
      forall i | 0 <= i < |b.attachments| ensures b.attachments[i].id in Demanded(u) {
        assert b.attachments[i].id in SubmittedAttachments(b.attachments);
      }
      forall id | id in u.attachments && !u.attachments[id].deleted && u.attachments[id].wrap.Some?
        ensures exists i :: 0 <= i < |b.attachments| && b.attachments[i].id == id
      {
        assert id in SubmittedAttachments(b.attachments);
      }
      assert CoversAttachments(u, b);
    }
    if CoversAttachments(u, b) {
      forall id ensures id in SubmittedAttachments(b.attachments) <==> id in Demanded(u) {
        if id in Demanded(u) {
          var i :| 0 <= i < |b.attachments| && b.attachments[i].id == id;
        }
      }
      assert SubmittedAttachments(b.attachments) == Demanded(u);
    }
  }

  /** A rotation takes exactly the complete bundles. */
  lemma RotationTakesIff(u: User, b: Bundle)
    ensures RotateUser(u, b).Ok? <==> Complete(u, b)
  {
    VaultsCovered(u, b);
    AttachmentsCovered(u, b);
    if SubmittedVaults(b.vaults) == u.vaults.Keys { NotesCovered(u, b); }
  }

  /** No entry from `from` on is for this vault and carries a note. */
  predicate NoNote(entries: seq<RotatedVault>, from: nat, id: Id) {
    forall i :: from <= i < |entries| ==> entries[i].id != id || entries[i].note.None?
  }

  /** A vault gets the title of its last entry. */
  lemma {:induction false} TitleAfter(vaults: map<Id, Vault>, entries: seq<RotatedVault>, j: int)
    requires LastFor(entries, j) && entries[j].id in vaults
    ensures var id := entries[j].id;
            id in ApplyVaults(vaults, entries) && ApplyVaults(vaults, entries)[id].title == entries[j].title
  {
    var n := |entries| - 1;
    if j < n {
      assert LastFor(entries[..n], j) && entries[..n][j] == entries[j];
      TitleAfter(vaults, entries[..n], j);
    } else {
      KeysAfter(vaults, entries[..n]);
    }
  }

  lemma {:induction false} KeysAfter(vaults: map<Id, Vault>, entries: seq<RotatedVault>)
    ensures ApplyVaults(vaults, entries).Keys == vaults.Keys
  {
    if entries != [] { KeysAfter(vaults, entries[..|entries| - 1]); }
  }

  /** Nothing happens to a vault without entries. */
  lemma {:induction false} UnlistedVaultStays(vaults: map<Id, Vault>, entries: seq<RotatedVault>, id: Id)
    requires id in vaults && forall i :: 0 <= i < |entries| ==> entries[i].id != id
    ensures id in ApplyVaults(vaults, entries) && ApplyVaults(vaults, entries)[id] == vaults[id]
  {
    if entries != [] { UnlistedVaultStays(vaults, entries[..|entries| - 1], id); }
  }

  /** Its note is that of the last of its entries that carries one, even if later ones carry none. */
  lemma {:induction false} NoteAfter(vaults: map<Id, Vault>, entries: seq<RotatedVault>, id: Id, j: nat)
    requires id in vaults && j < |entries| && entries[j].id == id && entries[j].note.Some? && NoNote(entries, j + 1, id)
    ensures id in ApplyVaults(vaults, entries) && ApplyVaults(vaults, entries)[id].note == entries[j].note.value
  {
    var n := |entries| - 1;
    KeysAfter(vaults, entries[..n]);
    if j < n {
      assert NoNote(entries[..n], j + 1, id);
      NoteAfter(vaults, entries[..n], id, j);
    }
  }

  /** A vault none of whose entries carries a note keeps the note it had. */
  lemma {:induction false} NoteKept(vaults: map<Id, Vault>, entries: seq<RotatedVault>, id: Id)
    requires id in vaults && NoNote(entries, 0, id)
    ensures id in ApplyVaults(vaults, entries) && ApplyVaults(vaults, entries)[id].note == vaults[id].note
  {
    if entries != [] {
      var n := |entries| - 1;
      assert NoNote(entries[..n], 0, id);
      NoteKept(vaults, entries[..n], id);
    }
  }

  /** Nothing but the wrap of an attachment changes, and nothing at all of one without entries. */
  lemma {:induction false} AttachmentAfter(attachments: map<Id, Attachment>, entries: seq<RotatedAttachment>, id: Id)
    requires id in attachments
    ensures var r := ApplyAttachments(attachments, entries);
            && id in r && r[id] == attachments[id].(wrap := r[id].wrap)
            && ((forall i :: 0 <= i < |entries| ==> entries[i].id != id) ==> r[id] == attachments[id])
  {
    if entries != [] { AttachmentAfter(attachments, entries[..|entries| - 1], id); }
  }

  /** An attachment gets the wrap of its last entry. */
  lemma {:induction false} WrapAfter(attachments: map<Id, Attachment>, entries: seq<RotatedAttachment>, j: nat)
    requires j < |entries| && entries[j].id in attachments
    requires forall i :: j < i < |entries| ==> entries[i].id != entries[j].id
    ensures var id, r := entries[j].id, ApplyAttachments(attachments, entries);
            id in r && r[id].wrap == Some(entries[j].wrap)
  {
    var n := |entries| - 1;
    if j < n {
      WrapAfter(attachments, entries[..n], j);
    } else {
      AttachmentAfter(attachments, entries[..n], entries[j].id);
    }
  }

  /** The account itself gets the new version and credential, and keeps its lock. */
  lemma AccountAfter(u: User, b: Bundle)
    requires RotateUser(u, b).Ok?
    ensures var r := RotateUser(u, b).value;
            && r.keyVersion == u.keyVersion + 1 && r.credential == b.newCredential && r.locked == u.locked
            && r.vaults == ApplyVaults(u.vaults, b.vaults)
            && r.attachments == ApplyAttachments(u.attachments, b.attachments)
  {
  }

  // ---- Who is given a token ------------------------------------------------------------

  /** This step hands out this token: to a password, to a live refresh token, or to a rotation. */
  ghost predicate HandsOut(s: Server, a: Action, t: Token) {
    && t.sub in s.users
    && match a
       case Login(user, passwordOk) =>
         user == t.sub && passwordOk && !s.users[user].locked && t.kv == Some(s.users[user].keyVersion)
       case Refresh(presented) =>
         && presented.isRefresh && presented.sub == t.sub && presented.kv == Some(s.users[t.sub].keyVersion)
         && !s.users[t.sub].locked && !t.isRefresh && t.kv == presented.kv
       case Rotate(session, currentOk, bundle) =>
         && !session.isRefresh && session.sub == t.sub && currentOk && Complete(s.users[t.sub], bundle)
         && t.kv == Some(s.users[t.sub].keyVersion + 1)
       case _ => false
  }

  lemma StepHandsOut(s: Server, a: Action, t: Token)
    ensures t in Step(s, a).minted <==> t in s.minted || HandsOut(s, a, t)
  {
    if a.Rotate? && a.session.sub in s.users { RotationTakesIff(s.users[a.session.sub], a.bundle); }
  }

  lemma RunTo(s: Server, run: seq<Action>, i: nat)
    requires 0 < i <= |run|
    ensures Run(s, run[..i]) == Run(Step(s, run[0]), run[1..][..i - 1])
  {
    assert run[..i][1..] == run[1..][..i - 1];
  }

  ghost predicate HandedOutAt(s: Server, run: seq<Action>, t: Token, i: nat) {
    i < |run| && HandsOut(Run(s, run[..i]), run[i], t)
  }

  /**
   Over whole runs a token comes into being exactly by a login with the right password on an
   unlocked account, by a refresh with that account's own current refresh token, or by a
   rotation from that account's own session with the current password and a complete bundle.
   */
  lemma {:induction false} TokensAreHandedOut(s: Server, run: seq<Action>, t: Token)
    ensures t in Run(s, run).minted <==> t in s.minted || exists i: nat :: HandedOutAt(s, run, t, i)
    decreases |run|
  {
    if run != [] {
      StepHandsOut(s, run[0], t);
      TokensAreHandedOut(Step(s, run[0]), run[1..], t);
      HandedOutLater(s, run, t);
    }
  }

  lemma HandedOutLater(s: Server, run: seq<Action>, t: Token)
    requires run != []
    ensures (exists i: nat :: HandedOutAt(s, run, t, i))
       <==> HandsOut(s, run[0], t) || exists i: nat :: HandedOutAt(Step(s, run[0]), run[1..], t, i)
  {
    assert run[..0] == [] && Run(s, run[..0]) == s;
    if HandsOut(s, run[0], t) { assert HandedOutAt(s, run, t, 0); }
    if i: nat :| HandedOutAt(Step(s, run[0]), run[1..], t, i) {
      RunTo(s, run, i + 1);
      assert HandedOutAt(s, run, t, i + 1);
    }
    if i: nat :| HandedOutAt(s, run, t, i) {
      if i > 0 {
        RunTo(s, run, i);
        assert HandedOutAt(Step(s, run[0]), run[1..], t, i - 1);
      }
    }
  }

  // ---- What a write changes ----------------------------------------------------------------

  /** Only this vault of the user is different. */
  ghost predicate OnlyVault(u: User, r: User, id: Id) {
    && r == u.(vaults := r.vaults)
    && forall x :: x != id ==> (x in r.vaults <==> x in u.vaults) && (x in u.vaults ==> r.vaults[x] == u.vaults[x])
  }

  /** Only this attachment of the user is different. */
  ghost predicate OnlyAttachment(u: User, r: User, id: Id) {
    && r == u.(attachments := r.attachments)
    && forall x :: x != id ==>
         (x in r.attachments <==> x in u.attachments) && (x in u.attachments ==> r.attachments[x] == u.attachments[x])
  }

  lemma VaultWrites(u: User, id: Id, title: Cipher, newTitle: Option<Cipher>, newNote: Option<Cipher>)
    ensures var r := ApplyWrite(u, CreateVault(id, title));
            OnlyVault(u, r, id) && id in r.vaults
            && r.vaults[id] == (if id in u.vaults then u.vaults[id] else Vault(title, None))
    ensures var r := ApplyWrite(u, UpdateContent(id, title));
            OnlyVault(u, r, id) && (id in r.vaults <==> id in u.vaults)
            && (id in u.vaults ==> r.vaults[id].title == title && r.vaults[id].note == u.vaults[id].note)
    ensures var r := ApplyWrite(u, UpdateMeta(id, newTitle, newNote));
            OnlyVault(u, r, id) && (id in r.vaults <==> id in u.vaults)
            && (id in u.vaults ==>
                  && r.vaults[id].title == (if newTitle.Some? then newTitle.value else u.vaults[id].title)
                  && r.vaults[id].note == (if newNote.Some? then newNote else u.vaults[id].note))
    ensures var r := ApplyWrite(u, DeleteVault(id)); OnlyVault(u, r, id) && id !in r.vaults
  {
  }

  lemma AttachmentWrites(u: User, id: Id, wrap: Option<Cipher>, source: Id)
    ensures var r := ApplyWrite(u, InitAttachment(id, wrap));
            OnlyAttachment(u, r, id) && id in r.attachments
            && r.attachments[id] == (if id in u.attachments then u.attachments[id] else Attachment(wrap, false, false))
    ensures var r := ApplyWrite(u, CompleteAttachment(id));
            OnlyAttachment(u, r, id) && (id in r.attachments <==> id in u.attachments)
            && (id in u.attachments ==>
                  r.attachments[id] == (if u.attachments[id].deleted then u.attachments[id]
                                        else u.attachments[id].(available := true)))
    ensures var r := ApplyWrite(u, CopyAttachment(source, id));
            var may := source in u.attachments && u.attachments[source].available && !u.attachments[source].deleted;
            OnlyAttachment(u, r, id)
            && (id in u.attachments || !may ==> r == u)
            && (id !in u.attachments && may ==> id in r.attachments && r.attachments[id] == u.attachments[source])
    ensures var r := ApplyWrite(u, DeleteAttachment(id));
            OnlyAttachment(u, r, id) && (id in r.attachments <==> id in u.attachments)
            && (id in u.attachments ==> r.attachments[id] == u.attachments[id].(deleted := true))
  {
  }

  /** Locking an account changes its lock and nothing else, and a restart empties the cache and nothing else. */
  lemma LocksAndRestarts(s: Server, user: Id, locked: bool)
    ensures var r := Step(s, SetLocked(user, locked));
            && r == s.(users := r.users) && r.users.Keys == s.users.Keys
            && (user in s.users ==> r.users[user] == s.users[user].(locked := locked))
            && forall x :: x in s.users && x != user ==> r.users[x] == s.users[x]
    ensures Step(s, Restart) == s.(cache := map[])
  {
  }
}
