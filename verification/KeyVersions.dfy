/**
 Password rotation on the server. Every title, note and attachment key wrap is modelled
 by the key version it is encrypted under; a rotation must leave nothing under the old
 one, and sessions from before it must not write or renew again.
 */
module KeyVersions {
  import opened Results

  type Id = string

  /** `text` is what the client encrypted, `under` the key version it used. */
  datatype Cipher = Cipher(under: nat, text: string)

  datatype Vault = Vault(title: Cipher, note: Option<Cipher>)

  /** `wrap` is the wrapped file key, if the metadata carries one. */
  datatype Attachment = Attachment(wrap: Option<Cipher>, available: bool, deleted: bool)

  /** `credential` is what a password rotation replaces on the account itself: hash, salt and wrapped keys. */
  datatype User = User(
    keyVersion: nat, locked: bool, credential: string, vaults: map<Id, Vault>, attachments: map<Id, Attachment>)

  datatype Token = Token(sub: Id, isRefresh: bool, kv: Option<nat>)

  datatype Server = Server(users: map<Id, User>, cache: map<Id, nat>, minted: set<Token>)

  // ---- The rotation transaction ---------------------------------------------

  /** A note is preserved (`None`), cleared (`Some(None)`) or replaced. */
  datatype RotatedVault = RotatedVault(id: Id, title: Cipher, note: Option<Option<Cipher>>)

  datatype RotatedAttachment = RotatedAttachment(id: Id, wrap: Cipher)

  datatype Bundle = Bundle(
    newVersion: nat, newCredential: string, vaults: seq<RotatedVault>, attachments: seq<RotatedAttachment>)

  function SubmittedVaults(entries: seq<RotatedVault>): (r: set<Id>) {
    set i | 0 <= i < |entries| :: entries[i].id
  }

  function SubmittedAttachments(entries: seq<RotatedAttachment>): (r: set<Id>) {
    set i | 0 <= i < |entries| :: entries[i].id
  }

  /** Every attachment the rotation must re-wrap: not deleted, and carrying a wrap. */
  function Demanded(u: User): (r: set<Id>) {
    set id | id in u.attachments && !u.attachments[id].deleted && u.attachments[id].wrap.Some?
  }

  /** The last entry for a vault is the one its note is judged by. */
  function LastNote(entries: seq<RotatedVault>, id: Id): (r: Option<Option<Cipher>>) {
    if entries == [] then None
    else if entries[|entries| - 1].id == id then entries[|entries| - 1].note
    else LastNote(entries[..|entries| - 1], id)
  }

  predicate StrandsNote(u: User, entries: seq<RotatedVault>, id: Id)
    requires id in u.vaults
  {
    u.vaults[id].note.Some? && !(LastNote(entries, id).Some? && LastNote(entries, id).value.Some?)
  }

  function WithEntry(v: Vault, e: RotatedVault): (r: Vault) {
    Vault(e.title, if e.note.Some? then e.note.value else v.note)
  }

  function ApplyVaults(vaults: map<Id, Vault>, entries: seq<RotatedVault>): (r: map<Id, Vault>) {
    if entries == [] then vaults
    else
      var before := ApplyVaults(vaults, entries[..|entries| - 1]);
      var e := entries[|entries| - 1];
      if e.id in before then before[e.id := WithEntry(before[e.id], e)] else before
  }

  function ApplyAttachments(
      attachments: map<Id, Attachment>, entries: seq<RotatedAttachment>): (r: map<Id, Attachment>) {
    if entries == [] then attachments
    else
      var before := ApplyAttachments(attachments, entries[..|entries| - 1]);
      var e := entries[|entries| - 1];
      if e.id in before then before[e.id := before[e.id].(wrap := Some(e.wrap))] else before
  }

  /** Version agreement and complete coverage, checked under the row lock. */
  predicate Covers(u: User, b: Bundle) {
    && b.newVersion == u.keyVersion + 1
    && SubmittedVaults(b.vaults) == u.vaults.Keys
    && (forall id :: id in u.vaults ==> !StrandsNote(u, b.vaults, id))
    && SubmittedAttachments(b.attachments) == Demanded(u)
  }

  function RotateUser(u: User, b: Bundle): (r: Result<User>) {
    if Covers(u, b) then
      Ok(u.(keyVersion := b.newVersion,
            credential := b.newCredential,
            vaults := ApplyVaults(u.vaults, b.vaults),
            attachments := ApplyAttachments(u.attachments, b.attachments)))
    else Err(BadRequest)
  }

  // ---- Requests -----------------------------------------------------------------

  datatype Write =
    | CreateVault(newVault: Id, createdTitle: Cipher)
    | UpdateContent(vault: Id, title: Cipher)
    | UpdateMeta(metaVault: Id, newTitle: Option<Cipher>, newNote: Option<Cipher>)
    | DeleteVault(goneVault: Id)
    | InitAttachment(newAttachment: Id, wrap: Option<Cipher>)
    | CompleteAttachment(completed: Id)
    | CopyAttachment(source: Id, copy: Id)
    | DeleteAttachment(goneAttachment: Id)

  datatype Action =
    | Login(user: Id, passwordOk: bool)
    | Refresh(refreshToken: Token)
    | WriteAs(token: Token, write: Write)
    | Rotate(session: Token, currentOk: bool, bundle: Bundle)
    | SetLocked(target: Id, locked: bool)
    | Restart

  function ApplyWrite(u: User, w: Write): (r: User) {
    match w
    case CreateVault(id, title) => if id in u.vaults then u else u.(vaults := u.vaults[id := Vault(title, None)])
    case UpdateContent(id, title) =>
      if id in u.vaults then u.(vaults := u.vaults[id := u.vaults[id].(title := title)]) else u
    case UpdateMeta(id, title, note) =>
      if id in u.vaults then
        var v := u.vaults[id];
        u.(vaults := u.vaults[id := Vault(if title.Some? then title.value else v.title,
                                          if note.Some? then note else v.note)])
      else u
    case DeleteVault(id) => u.(vaults := u.vaults - {id})
    case InitAttachment(id, wrap) =>
      if id in u.attachments then u else u.(attachments := u.attachments[id := Attachment(wrap, false, false)])
    case CompleteAttachment(id) =>
      if id in u.attachments && !u.attachments[id].deleted
      then u.(attachments := u.attachments[id := u.attachments[id].(available := true)]) else u
    case CopyAttachment(source, id) =>
      if source in u.attachments && u.attachments[source].available && !u.attachments[source].deleted
         && id !in u.attachments
      then u.(attachments := u.attachments[id := u.attachments[source]]) else u
    case DeleteAttachment(id) =>
      if id in u.attachments then u.(attachments := u.attachments[id := u.attachments[id].(deleted := true)]) else u
  }

  /** The write check: the claim against the cached key version, which one read seeds. */
  function Verified(s: Server, t: Token): (r: Result<Server>) {
    if t.isRefresh then Err(Unauthorized)
    else if t.kv.None? then Ok(s)
    else if t.sub in s.cache then
      if t.kv.value == s.cache[t.sub] then Ok(s) else Err(Unauthorized)
    else if t.sub !in s.users then Err(Unauthorized)
    else if t.kv.value == s.users[t.sub].keyVersion
    then Ok(s.(cache := s.cache[t.sub := s.users[t.sub].keyVersion]))
    else Err(Unauthorized)
  }

  /** A refused check may still have seeded the cache. */
  function Seeded(s: Server, t: Token): (r: Server) {
    if !t.isRefresh && t.kv.Some? && t.sub !in s.cache && t.sub in s.users
    then s.(cache := s.cache[t.sub := s.users[t.sub].keyVersion]) else s
  }

  predicate Renewable(s: Server, t: Token) {
    && t.isRefresh && t.sub in s.users && !s.users[t.sub].locked
    && t.kv == Some(s.users[t.sub].keyVersion)
  }

  function SignedIn(s: Server, user: Id, tokens: set<Token>): (r: Server)
    requires user in s.users
  {
    s.(cache := s.cache[user := s.users[user].keyVersion], minted := s.minted + tokens)
  }

  function Pair(user: Id, kv: nat): (r: set<Token>) {
    {Token(user, false, Some(kv)), Token(user, true, Some(kv))}
  }

  function Step(s: Server, a: Action): (r: Server) {
    match a
    case Login(user, ok) =>
      if user in s.users && !s.users[user].locked && ok
      then SignedIn(s, user, Pair(user, s.users[user].keyVersion)) else s
    case Refresh(t) =>
      if Renewable(s, t) then SignedIn(s, t.sub, {Token(t.sub, false, t.kv)}) else s
    case WriteAs(t, w) =>
      var seeded := Seeded(s, t);
      if Verified(s, t).Ok? && t.sub in s.users
      then seeded.(users := s.users[t.sub := ApplyWrite(s.users[t.sub], w)]) else seeded
    case Rotate(t, ok, bundle) =>
      if !t.isRefresh && t.sub in s.users && ok && RotateUser(s.users[t.sub], bundle).Ok?
      then SignedIn(s.(users := s.users[t.sub := RotateUser(s.users[t.sub], bundle).value]), t.sub,
                    Pair(t.sub, bundle.newVersion))
      else s
    case SetLocked(user, locked) =>
      if user in s.users then s.(users := s.users[user := s.users[user].(locked := locked)]) else s
    case Restart => s.(cache := map[])
  }

  // ---- What honest clients send ------------------------------------------------------

  predicate Under(c: Option<Cipher>, kv: nat) {
    c.Some? ==> c.value.under == kv
  }

  predicate WriteUnder(w: Write, kv: nat) {
    match w
    case CreateVault(_, title) => title.under == kv
    case UpdateContent(_, title) => title.under == kv
    case UpdateMeta(_, title, note) => Under(title, kv) && Under(note, kv)
    case InitAttachment(_, wrap) => Under(wrap, kv)
    case _ => true
  }

  predicate BundleUnder(b: Bundle) {
    && (forall i :: 0 <= i < |b.vaults| ==>
          b.vaults[i].title.under == b.newVersion
          && (b.vaults[i].note.Some? ==> Under(b.vaults[i].note.value, b.newVersion)))
    && (forall i :: 0 <= i < |b.attachments| ==> b.attachments[i].wrap.under == b.newVersion)
  }

  /** Tokens are the server's own, and a session encrypts under the key version it signed in with. */
  ghost predicate Allowed(s: Server, a: Action) {
    match a
    case WriteAs(t, w) => t in s.minted && (t.kv.Some? ==> WriteUnder(w, t.kv.value))
    case Refresh(t) => t in s.minted
    case Rotate(t, _, bundle) => t in s.minted && BundleUnder(bundle)
    case _ => true
  }

  ghost predicate AllowedRun(s: Server, run: seq<Action>)
    decreases |run|
  {
    run == [] || (Allowed(s, run[0]) && AllowedRun(Step(s, run[0]), run[1..]))
  }

  function Run(s: Server, run: seq<Action>): (r: Server)
    decreases |run|
  {
    if run == [] then s else Run(Step(s, run[0]), run[1..])
  }

  // ---- The invariant --------------------------------------------------------------------

  /** Nothing this user stores is under any key version but the current one. */
  ghost predicate AllCurrent(u: User) {
    && (forall id :: id in u.vaults ==>
          u.vaults[id].title.under == u.keyVersion && Under(u.vaults[id].note, u.keyVersion))
    && (forall id :: id in u.attachments && !u.attachments[id].deleted ==> Under(u.attachments[id].wrap, u.keyVersion))
  }

  ghost predicate Inv(s: Server) {
    && (forall x :: x in s.users ==> AllCurrent(s.users[x]))
    && (forall x :: x in s.cache ==> x in s.users && s.cache[x] == s.users[x].keyVersion)
    && (forall t :: t in s.minted ==> t.sub in s.users && t.kv.Some? && t.kv.value <= s.users[t.sub].keyVersion)
  }

  ghost predicate Fresh(s: Server) {
    && s.cache == map[] && s.minted == {}
    && forall x :: x in s.users ==> s.users[x].vaults == map[] && s.users[x].attachments == map[]
  }

  lemma {:induction false} VaultsAfter(vaults: map<Id, Vault>, entries: seq<RotatedVault>, id: Id, kv: nat)
    requires id in vaults
    requires forall i :: 0 <= i < |entries| ==>
      entries[i].title.under == kv && (entries[i].note.Some? ==> Under(entries[i].note.value, kv))
    ensures ApplyVaults(vaults, entries).Keys == vaults.Keys
    ensures var v := ApplyVaults(vaults, entries)[id];
            && (if id in SubmittedVaults(entries) then v.title.under == kv else v.title == vaults[id].title)
            && (v.note == vaults[id].note || Under(v.note, kv))
            && (LastNote(entries, id).Some? ==> v.note == LastNote(entries, id).value && Under(v.note, kv))
  {
    if entries != [] {
      var n := |entries| - 1;
      VaultsAfter(vaults, entries[..n], id, kv);
      assert SubmittedVaults(entries) == SubmittedVaults(entries[..n]) + {entries[n].id} by {
        assert forall i :: 0 <= i < n ==> entries[..n][i] == entries[i];
      }
    }
  }

  lemma {:induction false} AttachmentsAfter(
      attachments: map<Id, Attachment>, entries: seq<RotatedAttachment>, id: Id, kv: nat)
    requires id in attachments
    requires forall i :: 0 <= i < |entries| ==> entries[i].wrap.under == kv
    ensures ApplyAttachments(attachments, entries).Keys == attachments.Keys
    ensures var a := ApplyAttachments(attachments, entries)[id];
            && a.deleted == attachments[id].deleted
            && (if id in SubmittedAttachments(entries) then a.wrap.Some? && a.wrap.value.under == kv
                else a.wrap == attachments[id].wrap)
  {
    if entries != [] {
      var n := |entries| - 1;
      AttachmentsAfter(attachments, entries[..n], id, kv);
      assert SubmittedAttachments(entries) == SubmittedAttachments(entries[..n]) + {entries[n].id} by {
        assert forall i :: 0 <= i < n ==> entries[..n][i] == entries[i];
      }
    }
  }

  lemma {:induction false} ApplyKeepsKeys(vaults: map<Id, Vault>, vs: seq<RotatedVault>,
                                          attachments: map<Id, Attachment>, ats: seq<RotatedAttachment>)
    ensures ApplyVaults(vaults, vs).Keys == vaults.Keys
    ensures ApplyAttachments(attachments, ats).Keys == attachments.Keys
    decreases |vs| + |ats|
  {
    if vs != [] { ApplyKeepsKeys(vaults, vs[..|vs| - 1], attachments, []); }
    if ats != [] { ApplyKeepsKeys(vaults, [], attachments, ats[..|ats| - 1]); }
  }

  /** A committed rotation leaves no title, note or live wrap under the old key. */
  lemma RotationIsComplete(u: User, b: Bundle)
    requires AllCurrent(u) && BundleUnder(b) && RotateUser(u, b).Ok?
    ensures AllCurrent(RotateUser(u, b).value)
    ensures RotateUser(u, b).value.keyVersion == u.keyVersion + 1
    ensures RotateUser(u, b).value.vaults.Keys == u.vaults.Keys
    ensures RotateUser(u, b).value.attachments.Keys == u.attachments.Keys
  {
    var r := RotateUser(u, b).value;
    ApplyKeepsKeys(u.vaults, b.vaults, u.attachments, b.attachments);
    forall id | id in r.vaults
      ensures r.vaults[id].title.under == b.newVersion && Under(r.vaults[id].note, b.newVersion)
    {
      VaultsAfter(u.vaults, b.vaults, id, b.newVersion);
      assert !StrandsNote(u, b.vaults, id);
    }
    forall id | id in r.attachments && !r.attachments[id].deleted
      ensures Under(r.attachments[id].wrap, b.newVersion)
    {
      AttachmentsAfter(u.attachments, b.attachments, id, b.newVersion);
    }
  }

  lemma WriteKeepsCurrent(u: User, w: Write)
    requires AllCurrent(u) && WriteUnder(w, u.keyVersion)
    ensures AllCurrent(ApplyWrite(u, w)) && ApplyWrite(u, w).keyVersion == u.keyVersion
  {
  }

  /** In any reachable state a session may write exactly when it signed in under the current key version. */
  lemma WritesExactlyWhenCurrent(s: Server, t: Token)
    requires Inv(s) && t in s.minted
    ensures Verified(s, t).Ok? <==> !t.isRefresh && t.kv == Some(s.users[t.sub].keyVersion)
    ensures Verified(s, t).Ok? ==> Verified(s, t).value == Seeded(s, t)
  {
  }

  lemma WriteStepKeepsInv(s: Server, t: Token, w: Write)
    requires Inv(s) && Allowed(s, WriteAs(t, w))
    ensures Inv(Step(s, WriteAs(t, w)))
  {
    if Verified(s, t).Ok? {
      WritesExactlyWhenCurrent(s, t);
      WriteKeepsCurrent(s.users[t.sub], w);
    }
  }

  lemma RotateStepKeepsInv(s: Server, t: Token, ok: bool, bundle: Bundle)
    requires Inv(s) && Allowed(s, Rotate(t, ok, bundle))
    ensures Inv(Step(s, Rotate(t, ok, bundle)))
  {
    if t.sub in s.users && RotateUser(s.users[t.sub], bundle).Ok? {
      RotationIsComplete(s.users[t.sub], bundle);
    }
  }

  lemma StepKeepsInv(s: Server, a: Action)
    requires Inv(s) && Allowed(s, a)
    ensures Inv(Step(s, a))
    ensures Step(s, a).users.Keys == s.users.Keys
    ensures forall x :: x in s.users ==> s.users[x].keyVersion <= Step(s, a).users[x].keyVersion
    ensures s.minted <= Step(s, a).minted
  {
    match a
    case WriteAs(t, w) =>
      WriteStepKeepsInv(s, t, w);
      if Verified(s, t).Ok? {
        WritesExactlyWhenCurrent(s, t);
        WriteKeepsCurrent(s.users[t.sub], w);
      }
    case Rotate(t, ok, bundle) =>
      RotateStepKeepsInv(s, t, ok, bundle);
      if t.sub in s.users && RotateUser(s.users[t.sub], bundle).Ok? {
        RotationIsComplete(s.users[t.sub], bundle);
      }
    case _ =>
  }

  lemma {:induction false} RunKeepsInv(s: Server, run: seq<Action>)
    requires Inv(s) && AllowedRun(s, run)
    ensures Inv(Run(s, run))
    ensures Run(s, run).users.Keys == s.users.Keys
    ensures forall x :: x in s.users ==> s.users[x].keyVersion <= Run(s, run).users[x].keyVersion
    ensures s.minted <= Run(s, run).minted
    decreases |run|
  {
    if run != [] {
      StepKeepsInv(s, run[0]);
      RunKeepsInv(Step(s, run[0]), run[1..]);
    }
  }

  /**
   After any run of logins, refreshes, writes, rotations, lockings and restarts, every
   stored title, note and live attachment wrap is under the user's current key version.
   */
  lemma StoredUnderCurrentKey(s: Server, run: seq<Action>, user: Id)
    requires Fresh(s) && AllowedRun(s, run) && user in s.users
    ensures user in Run(s, run).users && AllCurrent(Run(s, run).users[user])
  {
    assert Inv(s);
    RunKeepsInv(s, run);
  }

  /**
   A session from before a rotation is never accepted again, for a write or a refresh,
   however the run goes on.
   */
  lemma OldSessionsStayOut(s: Server, rotation: Action, run: seq<Action>, t: Token)
    requires Inv(s) && t in s.minted
    requires rotation.Rotate? && Allowed(s, rotation) && rotation.session.sub == t.sub
    requires Step(s, rotation).users[t.sub].keyVersion != s.users[t.sub].keyVersion
    requires AllowedRun(Step(s, rotation), run)
    ensures var after := Run(Step(s, rotation), run);
            Verified(after, t).Err? && !Renewable(after, t)
  {
    var rotated := Step(s, rotation);
    StepKeepsInv(s, rotation);
    RunKeepsInv(rotated, run);
    WritesExactlyWhenCurrent(Run(rotated, run), t);
  }

  /** Why tokens without the claim must die out: one accepted write from such a session breaks the guarantee. */
  lemma UnclaimedTokenWritesStale(s: Server, user: Id, vault: Id, stale: Cipher)
    requires Inv(s) && user in s.users && vault !in s.users[user].vaults && stale.under != s.users[user].keyVersion
    ensures !AllCurrent(Step(s, WriteAs(Token(user, false, None), CreateVault(vault, stale))).users[user])
  {
    assert vault in Step(s, WriteAs(Token(user, false, None), CreateVault(vault, stale))).users[user].vaults;
  }
}
