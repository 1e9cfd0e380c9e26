/**
 The desktop's vault index and blob files under its commands. Every write of the index
 stamps every entry with the code of its fields.
 */
module DesktopIndex {
  import opened Results
  import opened EntryMac
  import opened VaultFile

  /** `staged` is the index a password rotation has written beside the one in place. */
  datatype Disk = Disk(index: seq<Meta>, blobs: map<string, Bytes>, staged: Option<seq<Meta>>)

  datatype Envelope = Envelope(title: string, classical: string, pq: string, dek: string)

  datatype Edit = Edit(
    note: Option<string>,
    sharing: Option<string>,
    encryption: Option<string>,
    maxVersions: Option<nat>,
    title: Option<string>,
    classical: Option<string>,
    pq: Option<string>,
    dek: Option<string>)

  datatype Rotated = Rotated(id: string, title: string, note: Option<string>)

  datatype Env = Env(mac: Mac, codec: Codec)

  datatype Command =
    | Create(id: string, envelope: Envelope, now: string)
    | SaveBlob(id: string, blob: Bytes, now: string)
    | Update(id: string, edit: Edit, now: string)
    | Delete(id: string)
    | Import(file: Bytes, newId: string, now: string)
    | Stage(updates: seq<Rotated>)
    | Install
    | Discard

  datatype Failure = NoSuchVault | BadFile(why: Refusal)

  datatype Outcome = Outcome(disk: Disk, failure: Option<Failure>)

  const EMPTY := Disk([], map[], None)

  // ---- The commands ---------------------------------------------------------------

  /** Where the first entry with this id is; past the end if there is none. */
  function Position(index: seq<Meta>, id: string): (p: nat) {
    if index == [] then 0 else if index[0].id == id then 0 else 1 + Position(index[1..], id)
  }

  function StampAll(mac: Mac, index: seq<Meta>): (r: seq<Meta>) {
    seq(|index|, i requires 0 <= i < |index| => Stamp(mac, index[i]))
  }

  function NewEntry(id: string, e: Envelope, now: string): (m: Meta) {
    Meta(id, e.title, e.classical, e.pq, e.dek, None, None, "private", "standard", 50, now, now, None)
  }

  function ImportedEntry(m: Meta, newId: string, now: string): (r: Meta) {
    m.(id := newId, color := None, created := now, updated := now, mac := None)
  }

  function Or<T>(o: Option<T>, other: T): (v: T) {
    if o.Some? then o.value else other
  }

  function Edited(m: Meta, e: Edit, now: string): (r: Meta) {
    m.(note := if e.note.Some? then e.note else m.note,
       sharing := Or(e.sharing, m.sharing),
       encryption := Or(e.encryption, m.encryption),
       maxVersions := if e.maxVersions.None? then m.maxVersions
                      else if e.maxVersions.value < 1 then 1 else e.maxVersions.value,
       title := Or(e.title, m.title),
       classical := Or(e.classical, m.classical),
       pq := Or(e.pq, m.pq),
       dek := Or(e.dek, m.dek),
       updated := if e.title.Some? || e.dek.Some? then now else m.updated)
  }

  function Without(index: seq<Meta>, id: string): (r: seq<Meta>) {
    if index == [] then []
    else
      var rest := Without(index[1..], id);
      if index[0].id == id then rest else [index[0]] + rest
  }

  function RotatedEntry(m: Meta, u: Rotated): (r: Meta) {
    m.(title := u.title,
       note := if u.note.None? then m.note else if u.note.value == "" then None else u.note)
  }

  function RotatedOne(index: seq<Meta>, u: Rotated): (r: seq<Meta>) {
    var p := Position(index, u.id);
    if p < |index| then index[p := RotatedEntry(index[p], u)] else index
  }

  function RotatedAll(index: seq<Meta>, updates: seq<Rotated>): (r: seq<Meta>) {
    if updates == [] then index
    else
      var n := |updates| - 1;
      RotatedOne(RotatedAll(index, updates[..n]), updates[n])
  }

  function Write(env: Env, d: Disk, index: seq<Meta>): (d': Disk) {
    d.(index := StampAll(env.mac, index))
  }

  function Step(env: Env, d: Disk, c: Command): (r: Outcome) {
    match c
    case Create(id, envelope, now) => Outcome(Write(env, d, d.index + [NewEntry(id, envelope, now)]), None)
    case SaveBlob(id, blob, now) =>
      var p := Position(d.index, id);
      var index := if p < |d.index| then d.index[p := d.index[p].(updated := now)] else d.index;
      Outcome(Write(env, d.(blobs := d.blobs[id := blob]), index), None)
    case Update(id, edit, now) =>
      var p := Position(d.index, id);
      if p < |d.index| then Outcome(Write(env, d, d.index[p := Edited(d.index[p], edit, now)]), None)
      else Outcome(d, Some(NoSuchVault))
    case Delete(id) => Outcome(Write(env, d, Without(d.index, id)).(blobs := d.blobs - {id}), None)
    case Import(file, newId, now) =>
      (match Parse(env.codec, file)
       case Refused(why) => Outcome(d, Some(BadFile(why)))
       case Accepted(m, blob) =>
         var written := Write(env, d, d.index + [ImportedEntry(m, newId, now)]);
         Outcome(if blob == [] then written else written.(blobs := d.blobs[newId := blob]), None))
    case Stage(updates) =>
      Outcome(d.(staged := Some(StampAll(env.mac, RotatedAll(d.index, updates)))), None)
    case Install => Outcome(if d.staged.Some? then d.(index := d.staged.value, staged := None) else d, None)
    case Discard => Outcome(d.(staged := None), None)
  }

  function Run(env: Env, d: Disk, run: seq<Command>): (d': Disk)
    decreases |run|
  {
    if run == [] then d else Run(env, Step(env, d, run[0]).disk, run[1..])
  }

  function Verify(env: Env, d: Disk, id: string): (r: Integrity) {
    var p := Position(d.index, id);
    if p < |d.index| then CheckEntry(env.mac, d.index[p]) else Integrity.NotFound
  }

  function Export(env: Env, d: Disk, id: string): (file: Option<Bytes>) {
    var p := Position(d.index, id);
    if p < |d.index| then Some(Written(env.codec, d.index[p], if id in d.blobs then d.blobs[id] else [])) else None
  }

  // ---- Finding entries --------------------------------------------------------------

  ghost predicate Has(index: seq<Meta>, id: string) {
    exists i :: 0 <= i < |index| && index[i].id == id
  }

  lemma {:induction false} PositionFinds(index: seq<Meta>, id: string)
    ensures var p := Position(index, id);
            && p <= |index|
            && (p < |index| ==> index[p].id == id)
            && (forall i :: 0 <= i < p ==> index[i].id != id)
            && (p < |index| <==> Has(index, id))
  {
    if index != [] && index[0].id != id {
      PositionFinds(index[1..], id);
      if Has(index, id) {
        var i :| 0 <= i < |index| && index[i].id == id;
        assert index[1..][i - 1].id == id;
      }
    }
  }

  /** The place is settled by what is found there and what is not found before. */
  lemma PositionIs(index: seq<Meta>, id: string, p: nat)
    requires p <= |index| && (p < |index| ==> index[p].id == id)
    requires forall i :: 0 <= i < p ==> index[i].id != id
    ensures Position(index, id) == p
  {
    PositionFinds(index, id);
  }

  ghost predicate SameIds(a: seq<Meta>, b: seq<Meta>) {
    |a| == |b| && forall i :: 0 <= i < |a| ==> a[i].id == b[i].id
  }

  lemma SamePosition(a: seq<Meta>, b: seq<Meta>, id: string)
    requires SameIds(a, b)
    ensures Position(a, id) == Position(b, id)
  {
    PositionFinds(a, id);
    PositionIs(b, id, Position(a, id));
  }

  // ---- Every entry verifies ----------------------------------------------------------

  ghost predicate Stamped(mac: Mac, index: seq<Meta>) {
    forall i :: 0 <= i < |index| ==> index[i] == Stamp(mac, index[i])
  }

  lemma StampingStamps(mac: Mac, index: seq<Meta>)
    ensures Stamped(mac, StampAll(mac, index))
    ensures Stamped(mac, index) ==> StampAll(mac, index) == index
  {
    forall i | 0 <= i < |index| ensures Stamp(mac, Stamp(mac, index[i])) == Stamp(mac, index[i]) {
      assert Input(Stamp(mac, index[i])) == Input(index[i]);
    }
  }

  ghost predicate AllVerify(env: Env, d: Disk) {
    forall id :: Verify(env, d, id) == (if Has(d.index, id) then Integrity.Ok else Integrity.NotFound)
  }

  lemma StampedVerify(env: Env, d: Disk)
    requires Stamped(env.mac, d.index)
    ensures AllVerify(env, d)
  {
    forall id ensures Verify(env, d, id) == (if Has(d.index, id) then Integrity.Ok else Integrity.NotFound) {
      PositionFinds(d.index, id);
    }
  }

  ghost predicate Sealed(env: Env, d: Disk) {
    Stamped(env.mac, d.index) && (d.staged.Some? ==> Stamped(env.mac, d.staged.value))
  }

  predicate WritesIndex(env: Env, d: Disk, c: Command) {
    !c.Stage? && !c.Install? && !c.Discard? && Step(env, d, c).failure.None?
  }

  lemma WriteStamps(env: Env, d: Disk, c: Command)
    requires WritesIndex(env, d, c)
    ensures Stamped(env.mac, Step(env, d, c).disk.index) && Step(env, d, c).disk.staged == d.staged
  {
    match c {
      case Create(id, envelope, now) => StampingStamps(env.mac, d.index + [NewEntry(id, envelope, now)]);
      case SaveBlob(id, blob, now) =>
        var p := Position(d.index, id);
        StampingStamps(env.mac, if p < |d.index| then d.index[p := d.index[p].(updated := now)] else d.index);
      case Update(id, edit, now) =>
        var p := Position(d.index, id);
        StampingStamps(env.mac, d.index[p := Edited(d.index[p], edit, now)]);
      case Delete(id) => StampingStamps(env.mac, Without(d.index, id));
      case Import(file, newId, now) =>
        StampingStamps(env.mac, d.index + [ImportedEntry(Parse(env.codec, file).meta, newId, now)]);
    }
  }

  lemma StepKeepsSealed(env: Env, d: Disk, c: Command)
    requires Sealed(env, d)
    ensures Sealed(env, Step(env, d, c).disk)
  {
    if WritesIndex(env, d, c) {
      WriteStamps(env, d, c);
    } else if c.Stage? {
      StampingStamps(env.mac, RotatedAll(d.index, c.updates));
    }
  }

  lemma {:induction false} RunKeepsSealed(env: Env, d: Disk, run: seq<Command>)
    requires Sealed(env, d)
    ensures Sealed(env, Run(env, d, run))
    decreases |run|
  {
    if run != [] {
      StepKeepsSealed(env, d, run[0]);
      RunKeepsSealed(env, Step(env, d, run[0]).disk, run[1..]);
    }
  }

  /** After any run of commands every vault verifies, and an id without a vault is not found. */
  lemma EveryVaultVerifies(env: Env, run: seq<Command>)
    ensures AllVerify(env, Run(env, EMPTY, run))
  {
    RunKeepsSealed(env, EMPTY, run);
    StampedVerify(env, Run(env, EMPTY, run));
  }

  /**
   A report speaks only of edits since the last write: whatever state the index was in, one
   command that writes it leaves every entry verifying.
   */
  lemma AnyWriteRestamps(env: Env, d: Disk, c: Command)
    requires WritesIndex(env, d, c)
    ensures AllVerify(env, Step(env, d, c).disk)
  {
    WriteStamps(env, d, c);
    StampedVerify(env, Step(env, d, c).disk);
  }

  // ---- The index against a plain map from ids to vaults -------------------------------

  function Entry(index: seq<Meta>, id: string): (m: Option<Meta>) {
    var p := Position(index, id);
    if p < |index| then Some(index[p]) else None
  }

  /** What one id stands for: its entry, its blob, and its entry in a staged index. */
  datatype Vault = Vault(entry: Option<Meta>, blob: Option<Bytes>, staged: Option<Option<Meta>>)

  const NO_VAULT := Vault(None, None, None)

  function VaultOf(d: Disk, id: string): (v: Vault) {
    Vault(Entry(d.index, id),
                if id in d.blobs then Some(d.blobs[id]) else None,
                if d.staged.Some? then Some(Entry(d.staged.value, id)) else None)
  }

  function StampedEntry(mac: Mac, m: Option<Meta>): (r: Option<Meta>) {
    if m.Some? then Some(Stamp(mac, m.value)) else None
  }

  /** A rotation's updates to the vault `id`, in the order given. */
  function Applied(m: Option<Meta>, updates: seq<Rotated>, id: string): (r: Option<Meta>) {
    if updates == [] || m.None? then m
    else
      var n := |updates| - 1;
      var before := Applied(m, updates[..n], id);
      if updates[n].id == id && before.Some? then Some(RotatedEntry(before.value, updates[n])) else before
  }

  /** A command seen from one vault. */
  function StepOne(env: Env, v: Vault, c: Command, id: string): (v': Vault) {
    match c
    case Create(i, envelope, now) =>
      if i == id then v.(entry := Some(Stamp(env.mac, NewEntry(i, envelope, now)))) else v
    case SaveBlob(i, blob, now) =>
      if i != id then v
      else v.(blob := Some(blob),
              entry := if v.entry.None? then None else Some(Stamp(env.mac, v.entry.value.(updated := now))))
    case Update(i, edit, now) =>
      if i == id && v.entry.Some? then v.(entry := Some(Stamp(env.mac, Edited(v.entry.value, edit, now)))) else v
    case Delete(i) => if i == id then v.(entry := None, blob := None) else v
    case Import(file, newId, now) =>
      var parsed := Parse(env.codec, file);
      if newId != id || parsed.Refused? then v
      else v.(entry := Some(Stamp(env.mac, ImportedEntry(parsed.meta, newId, now))),
              blob := if parsed.blob == [] then v.blob else Some(parsed.blob))
    case Stage(updates) => v.(staged := Some(StampedEntry(env.mac, Applied(v.entry, updates, id))))
    case Install => if v.staged.Some? then v.(entry := v.staged.value, staged := None) else v
    case Discard => v.(staged := None)
  }

  function RunOne(env: Env, v: Vault, run: seq<Command>, id: string): (v': Vault)
    decreases |run|
  {
    if run == [] then v else RunOne(env, StepOne(env, v, run[0], id), run[1..], id)
  }

  /** Ids handed to new vaults are not in the index already. */
  ghost predicate Fresh(d: Disk, c: Command) {
    && (c.Create? ==> !Has(d.index, c.id))
    && (c.Import? ==> !Has(d.index, c.newId))
  }

  ghost predicate FreshRun(env: Env, d: Disk, run: seq<Command>)
    decreases |run|
  {
    run == [] || (Fresh(d, run[0]) && FreshRun(env, Step(env, d, run[0]).disk, run[1..]))
  }

  lemma EntryStamped(mac: Mac, index: seq<Meta>, id: string)
    ensures Entry(StampAll(mac, index), id) == StampedEntry(mac, Entry(index, id))
  {
    SamePosition(index, StampAll(mac, index), id);
  }

  /** In a stamped index, stamping an entry again changes nothing. */
  lemma EntryOfStamped(mac: Mac, index: seq<Meta>, id: string)
    requires Stamped(mac, index)
    ensures StampedEntry(mac, Entry(index, id)) == Entry(index, id)
  {
  }

  lemma EntryPut(index: seq<Meta>, m: Meta, id: string)
    requires Position(index, m.id) < |index|
    ensures Entry(index[Position(index, m.id) := m], id) == (if id == m.id then Some(m) else Entry(index, id))
  {
    var p := Position(index, m.id);
    PositionFinds(index, m.id);
    SamePosition(index, index[p := m], id);
    PositionFinds(index, id);
  }

  lemma EntryAppended(index: seq<Meta>, m: Meta, id: string)
    requires !Has(index, m.id)
    ensures Entry(index + [m], id) == (if id == m.id then Some(m) else Entry(index, id))
  {
    PositionFinds(index, id);
    var p := Position(index, id);
    assert forall i :: 0 <= i < |index| ==> (index + [m])[i] == index[i];
    if p < |index| || id == m.id {
      PositionIs(index + [m], id, p);
    } else {
      PositionIs(index + [m], id, p + 1);
    }
  }

  lemma {:induction false} EntryWithout(index: seq<Meta>, gone: string, id: string)
    ensures Entry(Without(index, gone), id) == (if id == gone then None else Entry(index, id))
  {
    if index != [] {
      EntryWithout(index[1..], gone, id);
      var rest := Without(index[1..], gone);
      assert ([index[0]] + rest)[1..] == rest;
    }
  }

  lemma {:induction false} WithoutOneMore(index: seq<Meta>, m: Meta, gone: string)
    ensures Without(index + [m], gone) == Without(index, gone) + (if m.id == gone then [] else [m])
  {
    if index == [] {
      assert [m][1..] == [];
    } else {
      assert (index + [m])[1..] == index[1..] + [m];
      WithoutOneMore(index[1..], m, gone);
    }
  }

  lemma {:induction false} EntryRotated(index: seq<Meta>, updates: seq<Rotated>, id: string)
    ensures Entry(RotatedAll(index, updates), id) == Applied(Entry(index, id), updates, id)
  {
    if updates != [] {
      var n := |updates| - 1;
      EntryRotated(index, updates[..n], id);
      var before := RotatedAll(index, updates[..n]);
      var u := updates[n];
      var p := Position(before, u.id);
      PositionFinds(before, u.id);
      if p < |before| {
        EntryPut(before, RotatedEntry(before[p], u), id);
      }
    }
  }

  lemma CreateRefinesOne(env: Env, d: Disk, c: Command, id: string)
    requires c.Create? && Stamped(env.mac, d.index) && Fresh(d, c)
    ensures VaultOf(Step(env, d, c).disk, id) == StepOne(env, VaultOf(d, id), c, id)
  {
    var m := NewEntry(c.id, c.envelope, c.now);
    EntryOfStamped(env.mac, d.index, id);
    EntryAppended(d.index, m, id);
    EntryStamped(env.mac, d.index + [m], id);
  }

  lemma SaveBlobRefinesOne(env: Env, d: Disk, c: Command, id: string)
    requires c.SaveBlob? && Stamped(env.mac, d.index)
    ensures VaultOf(Step(env, d, c).disk, id) == StepOne(env, VaultOf(d, id), c, id)
  {
    var p := Position(d.index, c.id);
    EntryOfStamped(env.mac, d.index, id);
    PositionFinds(d.index, c.id);
    if p < |d.index| {
      var m := d.index[p].(updated := c.now);
      EntryPut(d.index, m, id);
      EntryStamped(env.mac, d.index[p := m], id);
    } else {
      EntryStamped(env.mac, d.index, id);
    }
  }

  lemma UpdateRefinesOne(env: Env, d: Disk, c: Command, id: string)
    requires c.Update? && WritesIndex(env, d, c) && Stamped(env.mac, d.index)
    ensures VaultOf(Step(env, d, c).disk, id) == StepOne(env, VaultOf(d, id), c, id)
  {
    var p := Position(d.index, c.id);
    EntryOfStamped(env.mac, d.index, id);
    PositionFinds(d.index, c.id);
    var m := Edited(d.index[p], c.edit, c.now);
    EntryPut(d.index, m, id);
    EntryStamped(env.mac, d.index[p := m], id);
  }

  lemma DeleteRefinesOne(env: Env, d: Disk, c: Command, id: string)
    requires c.Delete? && Stamped(env.mac, d.index)
    ensures VaultOf(Step(env, d, c).disk, id) == StepOne(env, VaultOf(d, id), c, id)
  {
    EntryOfStamped(env.mac, d.index, id);
    EntryWithout(d.index, c.id, id);
    EntryStamped(env.mac, Without(d.index, c.id), id);
  }

  lemma ImportRefinesOne(env: Env, d: Disk, c: Command, id: string)
    requires c.Import? && WritesIndex(env, d, c) && Stamped(env.mac, d.index) && Fresh(d, c)
    ensures VaultOf(Step(env, d, c).disk, id) == StepOne(env, VaultOf(d, id), c, id)
  {
    var m := ImportedEntry(Parse(env.codec, c.file).meta, c.newId, c.now);
    EntryOfStamped(env.mac, d.index, id);
    EntryAppended(d.index, m, id);
    EntryStamped(env.mac, d.index + [m], id);
  }

  lemma StageRefinesOne(env: Env, d: Disk, updates: seq<Rotated>, id: string)
    ensures VaultOf(Step(env, d, Stage(updates)).disk, id) == StepOne(env, VaultOf(d, id), Stage(updates), id)
  {
    EntryRotated(d.index, updates, id);
    EntryStamped(env.mac, RotatedAll(d.index, updates), id);
  }

  /** Stamping everything, searching by position and rotating in place come to a change of one vault. */
  lemma StepRefinesOne(env: Env, d: Disk, c: Command, id: string)
    requires Sealed(env, d) && Fresh(d, c)
    ensures VaultOf(Step(env, d, c).disk, id) == StepOne(env, VaultOf(d, id), c, id)
  {
    match c {
      case Create(_, _, _) => CreateRefinesOne(env, d, c, id);
      case SaveBlob(_, _, _) => SaveBlobRefinesOne(env, d, c, id);
      case Update(_, _, _) => if WritesIndex(env, d, c) { UpdateRefinesOne(env, d, c, id); }
      case Delete(_) => DeleteRefinesOne(env, d, c, id);
      case Import(_, _, _) => if WritesIndex(env, d, c) { ImportRefinesOne(env, d, c, id); }
      case Stage(updates) => StageRefinesOne(env, d, updates, id);
      case Install =>
      case Discard =>
    }
  }

  lemma {:induction false} RunRefinesOne(env: Env, d: Disk, run: seq<Command>, id: string)
    requires Sealed(env, d) && FreshRun(env, d, run)
    ensures VaultOf(Run(env, d, run), id) == RunOne(env, VaultOf(d, id), run, id)
    decreases |run|
  {
    if run != [] {
      StepKeepsSealed(env, d, run[0]);
      StepRefinesOne(env, d, run[0], id);
      RunRefinesOne(env, Step(env, d, run[0]).disk, run[1..], id);
    }
  }

  /** From an empty store, each vault's entry and blob are what its own commands alone would make them. */
  lemma VaultsAreIndependent(env: Env, run: seq<Command>, id: string)
    requires FreshRun(env, EMPTY, run)
    ensures VaultOf(Run(env, EMPTY, run), id) == RunOne(env, NO_VAULT, run, id)
  {
    RunRefinesOne(env, EMPTY, run, id);
  }

  ghost predicate Unlisted(updates: seq<Rotated>, from: nat, id: string) {
    forall i :: from <= i < |updates| ==> updates[i].id != id
  }

  /** A rotation changes titles and notes only, and nothing of a vault it does not list. */
  lemma {:induction false} RotationKeepsTheRest(m: Meta, updates: seq<Rotated>, id: string)
    ensures var r := Applied(Some(m), updates, id);
            && r.Some? && r.value == m.(title := r.value.title, note := r.value.note)
            && (Unlisted(updates, 0, id) ==> r.value == m)
  {
    if updates != [] {
      var n := |updates| - 1;
      RotationKeepsTheRest(m, updates[..n], id);
      assert Unlisted(updates, 0, id) ==> Unlisted(updates[..n], 0, id) && updates[n].id != id;
    }
  }

  /** A vault listed in a rotation gets the title of its last update, and that update's note if it has one. */
  lemma {:induction false} LastUpdateWins(m: Meta, updates: seq<Rotated>, id: string, j: nat)
    requires j < |updates| && updates[j].id == id && Unlisted(updates, j + 1, id)
    ensures var r := Applied(Some(m), updates, id);
            && r.Some? && r.value.title == updates[j].title
            && (updates[j].note.Some? ==>
                  r.value.note == (if updates[j].note.value == "" then None else updates[j].note))
  {
    var n := |updates| - 1;
    RotationKeepsTheRest(m, updates[..n], id);
    if j < n {
      assert Unlisted(updates[..n], j + 1, id);
      LastUpdateWins(m, updates[..n], id, j);
    }
  }

  // ---- A staged index installed late ----------------------------------------------

  predicate Everyday(c: Command) {
    !c.Stage? && !c.Install? && !c.Discard?
  }

  predicate EverydayRun(run: seq<Command>) {
    forall i :: 0 <= i < |run| ==> Everyday(run[i])
  }

  lemma {:induction false} StagedWaits(env: Env, d: Disk, run: seq<Command>)
    requires EverydayRun(run)
    ensures Run(env, d, run).staged == d.staged
    decreases |run|
  {
    if run != [] {
      assert forall i :: 0 <= i < |run[1..]| ==> run[1..][i] == run[i + 1];
      StagedWaits(env, Step(env, d, run[0]).disk, run[1..]);
    }
  }

  /** The disk after a rotation that staged the index, everyday commands, and then the rename. */
  function InstalledLate(env: Env, d: Disk, updates: seq<Rotated>, run: seq<Command>): (d': Disk) {
    Step(env, Run(env, Step(env, d, Stage(updates)).disk, run), Install).disk
  }

  /**
   What survives of commands between the staging of an index and its late installation: every
   vault's entry is what the rotation made of the entry it found, whatever the commands did to
   it; every blob is what the commands left.
   */
  lemma LateInstallKeepsBlobsOnly(env: Env, d: Disk, updates: seq<Rotated>, run: seq<Command>, id: string)
    requires EverydayRun(run)
    ensures var before, between := VaultOf(d, id), VaultOf(Run(env, Step(env, d, Stage(updates)).disk, run), id);
            VaultOf(InstalledLate(env, d, updates, run), id)
            == Vault(StampedEntry(env.mac, Applied(before.entry, updates, id)), between.blob, None)
  {
    StagedWaits(env, Step(env, d, Stage(updates)).disk, run);
    EntryRotated(d.index, updates, id);
    EntryStamped(env.mac, RotatedAll(d.index, updates), id);
  }

  /**
   So a vault comes through with its entry exactly when the commands left the entry the rotation
   had made. In particular a vault made in between is not found afterwards, and one deleted in
   between is found again without its blob.
   */
  lemma LateInstallKeepsEntryIff(env: Env, d: Disk, updates: seq<Rotated>, run: seq<Command>, id: string)
    requires EverydayRun(run)
    ensures var before, between := VaultOf(d, id), VaultOf(Run(env, Step(env, d, Stage(updates)).disk, run), id);
            var after := VaultOf(InstalledLate(env, d, updates, run), id);
            && (after.entry == between.entry
                <==> between.entry == StampedEntry(env.mac, Applied(before.entry, updates, id)))
            && (before.entry.None? ==> after.entry.None?)
            && (before.entry.Some? ==> after.entry.Some? && after.blob == between.blob)
  {
    LateInstallKeepsBlobsOnly(env, d, updates, run, id);
    if VaultOf(d, id).entry.Some? { RotationKeepsTheRest(VaultOf(d, id).entry.value, updates, id); }
  }

  // ---- Moving a vault from one store to another ----------------------------------------

  /**
   Importing what another store exported gives the same vault under a new id: only the id,
   the timestamps, the colour and the code are renewed, and an empty blob makes no file.
   */
  lemma ExportThenImport(from: Env, d: Disk, id: string, to: Env, d2: Disk, newId: string, now: string)
    requires from.codec == to.codec && Sound(to.codec)
    requires Position(d.index, id) < |d.index|
    requires |to.codec.encode(d.index[Position(d.index, id)])| < WORD
    requires Sealed(to, d2) && !Has(d2.index, newId) && newId !in d2.blobs
    ensures var m := Entry(d.index, id).value;
            var blob := if id in d.blobs then d.blobs[id] else [];
            var r := Step(to, d2, Import(Export(from, d, id).value, newId, now));
            && r.failure.None?
            && Verify(to, r.disk, newId) == Integrity.Ok
            && VaultOf(r.disk, newId).entry
               == Some(Stamp(to.mac, m.(id := newId, created := now, updated := now)))
            && VaultOf(r.disk, newId).blob == (if blob == [] then None else Some(blob))
            && forall other :: other != newId ==> VaultOf(r.disk, other) == VaultOf(d2, other)
  {
    var m := Entry(d.index, id).value;
    var blob := if id in d.blobs then d.blobs[id] else [];
    var c := Import(Export(from, d, id).value, newId, now);
    RoundTripIff(to.codec, m, blob);
    StepRefinesOne(to, d2, c, newId);
    forall other | other != newId ensures VaultOf(Step(to, d2, c).disk, other) == VaultOf(d2, other) {
      StepRefinesOne(to, d2, c, other);
    }
    WriteStamps(to, d2, c);
    StampedVerify(to, Step(to, d2, c).disk);
    PositionFinds(Step(to, d2, c).disk.index, newId);
    assert Stamp(to.mac, ImportedEntry(m, newId, now))
        == Stamp(to.mac, m.(id := newId, created := now, updated := now));
  }
}
