/**
 Moving a vault's blobs from the bare key, where older versions were S3 object
 versions, onto one key per version: what the migration decides, as a function of
 the row and the store.
 */
module MigrationPlan {
  import opened Results
  import opened KeyLayout
  import opened VaultRow

  /**
   What the store does with object versions of the bare key: it really keeps them, or it
   accepts version ids and answers every one of them with the current bytes.
   */
  datatype Legacy = KeepsVersions(versions: map<string, Bytes>) | IgnoresVersions

  datatype Disk = Disk(row: Row, objects: map<string, Bytes>)

  /** What one run has to go on: the store's habits and the version listing it answered, if any. */
  datatype Env = Env(legacy: Legacy, listed: Option<set<string>>)

  function Dest(d: Disk, id: string): (k: string) {
    VersionKey(d.row.objectKey, id)
  }

  predicate HasId(h: seq<Snapshot>, id: string) {
    exists i :: 0 <= i < |h| && h[i].versionId == id
  }

  predicate AllKeyed(h: seq<Snapshot>) {
    forall i :: 0 <= i < |h| ==> h[i].objectKey.Some?
  }

  predicate IsMigrated(row: Row) {
    row.current.Some? ==> HasId(row.history, row.current.value) && AllKeyed(row.history)
  }

  function LegacyGet(legacy: Legacy, d: Disk, id: string): (r: Option<Bytes>) {
    match legacy
    case KeepsVersions(versions) => if id in versions then Some(versions[id]) else None
    case IgnoresVersions => if d.row.objectKey in d.objects then Some(d.objects[d.row.objectKey]) else None
  }

  /** Where a version's bytes can be copied from. */
  function Source(env: Env, d: Disk, current: string, id: string): (r: Option<Bytes>) {
    if id == current then
      if d.row.objectKey in d.objects then Some(d.objects[d.row.objectKey]) else None
    else if env.listed.Some? && id in env.listed.value then LegacyGet(env.legacy, d, id)
    else None
  }

  /** The bytes a rescued version ends up with: a copy found at its own key, or its source. */
  function Rescued(env: Env, d: Disk, current: string, id: string): (r: Option<Bytes>) {
    if Dest(d, id) in d.objects then Some(d.objects[Dest(d, id)]) else Source(env, d, current, id)
  }

  function MovedEntry(d: Disk, s: Snapshot, bytes: Bytes): (r: Snapshot) {
    s.(objectKey := Some(Dest(d, s.versionId)), sizeBytes := Some(|bytes|))
  }

  /** The migrated form of a stretch of history: keyed entries stay, others are rescued or dropped. */
  function Moved(env: Env, d: Disk, current: string, h: seq<Snapshot>): (r: seq<Snapshot>) {
    if h == [] then []
    else
      var n := |h| - 1;
      var rest := Moved(env, d, current, h[..n]);
      if h[n].objectKey.Some? then rest + [h[n]]
      else
        match Rescued(env, d, current, h[n].versionId)
        case None => rest
        case Some(bytes) => rest + [MovedEntry(d, h[n], bytes)]
  }

  function KeyedCount(h: seq<Snapshot>): (n: nat) {
    if h == [] then 0 else KeyedCount(h[..|h| - 1]) + (if h[|h| - 1].objectKey.Some? then 1 else 0)
  }

  /** A current version the history never recorded, with the envelope of the row. */
  function TailEntry(d: Disk, current: string, bytes: Bytes): (r: Snapshot) {
    Snapshot(current, d.row.envelope, d.row.updatedAt, Some(Dest(d, current)), Some(|bytes|))
  }

  /** The history one uninterrupted migration writes, or nothing when the current version's bytes are missing. */
  function Final(env: Env, d: Disk, current: string): (r: Option<seq<Snapshot>>) {
    var moved := Moved(env, d, current, d.row.history);
    if HasId(moved, current) then Some(moved)
    else
      match Rescued(env, d, current, current)
      case None => None
      case Some(bytes) => Some(moved + [TailEntry(d, current, bytes)])
  }

  // ---- The plan does not depend on copies already made ----------------------

  /** A copy of a rescued version is made at its own key. */
  function WithCopy(d: Disk, id: string, bytes: Bytes): (r: Disk) {
    if Dest(d, id) in d.objects then d else d.(objects := d.objects[Dest(d, id) := bytes])
  }

  lemma DestIsNotBare(d: Disk, id: string)
    ensures Dest(d, id) != d.row.objectKey
  {
    assert |Dest(d, id)| > |d.row.objectKey|;
  }

  lemma CopyKeepsRescued(env: Env, d: Disk, current: string, id: string, other: string)
    requires Rescued(env, d, current, id).Some?
    ensures Rescued(env, WithCopy(d, id, Rescued(env, d, current, id).value), current, other)
         == Rescued(env, d, current, other)
  {
    DestIsNotBare(d, id);
    SameBaseInjective(d.row.objectKey, id, other);
  }

  /** Two disks with the same row offer the same bytes for every version. */
  ghost predicate SamePlan(env: Env, d1: Disk, d2: Disk, current: string) {
    d1.row == d2.row && forall id :: Rescued(env, d1, current, id) == Rescued(env, d2, current, id)
  }

  lemma {:induction false} SamePlanSameMoved(env: Env, d1: Disk, d2: Disk, current: string, h: seq<Snapshot>)
    requires SamePlan(env, d1, d2, current)
    ensures Moved(env, d1, current, h) == Moved(env, d2, current, h)
  {
    if h != [] { SamePlanSameMoved(env, d1, d2, current, h[..|h| - 1]); }
  }

  lemma SamePlanSameFinal(env: Env, d1: Disk, d2: Disk, current: string)
    requires SamePlan(env, d1, d2, current)
    ensures Final(env, d1, current) == Final(env, d2, current)
  {
    SamePlanSameMoved(env, d1, d2, current, d1.row.history);
  }

  lemma CopyIsSamePlan(env: Env, d: Disk, current: string, id: string)
    requires Rescued(env, d, current, id).Some?
    ensures SamePlan(env, d, WithCopy(d, id, Rescued(env, d, current, id).value), current)
  {
    forall other
      ensures Rescued(env, d, current, other)
           == Rescued(env, WithCopy(d, id, Rescued(env, d, current, id).value), current, other)
    {
      CopyKeepsRescued(env, d, current, id, other);
    }
  }

  // ---- What the migrated history holds --------------------------------------

  predicate RescuedAt(env: Env, d: Disk, current: string, h: seq<Snapshot>, i: nat)
    requires i < |h|
  {
    h[i].objectKey.Some? || Rescued(env, d, current, h[i].versionId).Some?
  }

  lemma {:induction false} MovedKeepsId(env: Env, d: Disk, current: string, h: seq<Snapshot>, i: nat)
    requires i < |h| && RescuedAt(env, d, current, h, i)
    ensures HasId(Moved(env, d, current, h), h[i].versionId)
  {
    var n := |h| - 1;
    var m := Moved(env, d, current, h);
    var rest := Moved(env, d, current, h[..n]);
    if i < n {
      MovedKeepsId(env, d, current, h[..n], i);
      var j :| 0 <= j < |rest| && rest[j].versionId == h[i].versionId;
      assert m[j].versionId == h[i].versionId;
    } else {
      assert m[|m| - 1].versionId == h[i].versionId;
    }
  }

  /** Every migrated entry comes from a history entry and is keyed: as it was, or by its own version key. */
  lemma {:induction false} MovedComesFrom(env: Env, d: Disk, current: string, h: seq<Snapshot>, j: nat)
      returns (i: nat)
    requires j < |Moved(env, d, current, h)|
    ensures i < |h| && RescuedAt(env, d, current, h, i)
    ensures Moved(env, d, current, h)[j] ==
      if h[i].objectKey.Some? then h[i]
      else MovedEntry(d, h[i], Rescued(env, d, current, h[i].versionId).value)
  {
    var n := |h| - 1;
    var rest := Moved(env, d, current, h[..n]);
    if j < |rest| {
      i := MovedComesFrom(env, d, current, h[..n], j);
    } else {
      i := n;
    }
  }
}
