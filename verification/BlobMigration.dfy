/**
 The migration as a machine that may stop between any two steps: a crash, a storage
 error or a database error all lose the run's local state and keep the disk.
 */
module BlobMigration {
  import opened Results
  import opened KeyLayout
  import opened VaultRow
  import opened MigrationPlan

  datatype Local =
    | Idle
    | Scanning(
        at: nat, migrated: seq<Snapshot>, recovered: nat, lost: nat, current: string, listed: Option<set<string>>)
    | Ready(history: seq<Snapshot>, moved: nat, dropped: nat, id: string, listing: Option<set<string>>)
    | Sweeping

  datatype Machine = Machine(disk: Disk, local: Local)

  /** `kept` is what the store keeps of a copy sent to it, when that is not what was sent. */
  datatype Event = Start(answer: Option<set<string>>) | Advance(kept: Option<Bytes>) | Crash

  /** The copy was made, and reading it back gives something else. */
  predicate ReadsBackWrong(env: Env, d: Disk, current: string, id: string, kept: Option<Bytes>) {
    && Dest(d, id) !in d.objects && kept.Some?
    && Rescued(env, d, current, id).Some? && kept.value != Rescued(env, d, current, id).value
  }

  function RescueDisk(env: Env, d: Disk, current: string, id: string, kept: Option<Bytes>): (r: Disk) {
    match Rescued(env, d, current, id)
    case None => d
    case Some(bytes) => WithCopy(d, id, if ReadsBackWrong(env, d, current, id, kept) then kept.value else bytes)
  }

  /** One version: keep a copy found, drop it, or copy it and give up if it reads back wrong. */
  function Rescue(env: Env, m: Machine, id: string, kept: Option<Bytes>, done: Local): (r: Machine)
    requires m.local.Scanning?
  {
    Machine(RescueDisk(env, m.disk, m.local.current, id, kept),
            if ReadsBackWrong(env, m.disk, m.local.current, id, kept) then Idle else done)
  }

  function ScanStep(legacy: Legacy, m: Machine, kept: Option<Bytes>): (r: Machine)
    requires m.local.Scanning? && m.local.at < |m.disk.row.history|
  {
    var l, s := m.local, m.disk.row.history[m.local.at];
    var env := Env(legacy, l.listed);
    if s.objectKey.Some? then Machine(m.disk, l.(at := l.at + 1, migrated := l.migrated + [s]))
    else
      var done := match Rescued(env, m.disk, l.current, s.versionId)
        case None => l.(at := l.at + 1, lost := l.lost + 1)
        case Some(bytes) =>
          l.(at := l.at + 1, migrated := l.migrated + [MovedEntry(m.disk, s, bytes)], recovered := l.recovered + 1);
      Rescue(env, m, s.versionId, kept, done)
  }

  /** The history is done: the current version must be in it, or be rescued from the bare key. */
  function TailStep(legacy: Legacy, m: Machine, kept: Option<Bytes>): (r: Machine)
    requires m.local.Scanning?
  {
    var l := m.local;
    if HasId(l.migrated, l.current) then Machine(m.disk, Ready(l.migrated, l.recovered, l.lost, l.current, l.listed))
    else
      var env := Env(legacy, l.listed);
      var done := match Rescued(env, m.disk, l.current, l.current)
        case None => Idle
        case Some(bytes) =>
          Ready(l.migrated + [TailEntry(m.disk, l.current, bytes)], l.recovered + 1, l.lost, l.current, l.listed);
      Rescue(env, m, l.current, kept, done)
  }

  function Step(legacy: Legacy, m: Machine, e: Event): (r: Machine) {
    match e
    case Crash => m.(local := Idle)
    case Start(answer) =>
      if !m.local.Idle? || IsMigrated(m.disk.row) then m
      else
        (match ValidateVersionId(m.disk.row.current.value)
         case Err(_) => m
         case Ok(current) => m.(local := Scanning(0, [], 0, 0, current, answer)))
    case Advance(kept) =>
      match m.local
      case Idle => m
      case Scanning(at, _, _, _, _, _) =>
        if at < |m.disk.row.history| then ScanStep(legacy, m, kept) else TailStep(legacy, m, kept)
      case Ready(history, _, _, id, _) =>
        Machine(m.disk.(row := m.disk.row.(current := Some(id), history := history)), Sweeping)
      case Sweeping => Machine(m.disk.(objects := m.disk.objects - {m.disk.row.objectKey}), Idle)
  }

  function Run(legacy: Legacy, m: Machine, run: seq<Event>): (r: Machine) {
    if run == [] then m else Step(legacy, Run(legacy, m, run[..|run| - 1]), run[|run| - 1])
  }

  // ---- Progress: what a run holds at each point ------------------------------

  ghost predicate Copied(env: Env, d: Disk, current: string, n: nat)
    requires n <= |d.row.history|
  {
    forall i :: 0 <= i < n && d.row.history[i].objectKey.None?
                && Rescued(env, d, current, d.row.history[i].versionId).Some?
      ==> Dest(d, d.row.history[i].versionId) in d.objects
  }

  ghost predicate Progress(legacy: Legacy, m: Machine) {
    var d, h := m.disk, m.disk.row.history;
    match m.local
    case Idle => true
    case Scanning(at, migrated, recovered, lost, current, listed) =>
      && d.row.current.Some? && ValidateVersionId(d.row.current.value) == Ok(current)
      && at <= |h|
      && migrated == Moved(Env(legacy, listed), d, current, h[..at])
      && Copied(Env(legacy, listed), d, current, at)
      && recovered + KeyedCount(h[..at]) == |migrated| && recovered + lost + KeyedCount(h[..at]) == at
    case Ready(history, recovered, lost, id, listed) =>
      && d.row.current.Some? && ValidateVersionId(d.row.current.value) == Ok(id)
      && Final(Env(legacy, listed), d, id) == Some(history)
      && Copied(Env(legacy, listed), d, id, |h|)
      && (HasId(Moved(Env(legacy, listed), d, id, h), id) || Dest(d, id) in d.objects)
      && recovered + KeyedCount(h) == |history|
      && recovered + lost + KeyedCount(h)
         == |h| + (if HasId(Moved(Env(legacy, listed), d, id, h), id) then 0 else 1)
    case Sweeping => d.row.current.Some? && ValidId(d.row.current.value) && IsMigrated(d.row)
  }

  lemma CopyKeepsCopied(env: Env, d: Disk, current: string, n: nat, id: string)
    requires n <= |d.row.history| && Copied(env, d, current, n) && Rescued(env, d, current, id).Some?
    ensures Copied(env, WithCopy(d, id, Rescued(env, d, current, id).value), current, n)
  {
    CopyIsSamePlan(env, d, current, id);
  }

  lemma ScanKeepsProgress(legacy: Legacy, m: Machine, kept: Option<Bytes>)
    requires Progress(legacy, m) && m.local.Scanning? && m.local.at < |m.disk.row.history|
    ensures Progress(legacy, ScanStep(legacy, m, kept))
  {
    var l, d, h := m.local, m.disk, m.disk.row.history;
    var env, s := Env(legacy, l.listed), h[l.at];
    assert h[..l.at + 1][..l.at] == h[..l.at];
    if s.objectKey.None? && Rescued(env, d, l.current, s.versionId).Some? {
      var d' := WithCopy(d, s.versionId, Rescued(env, d, l.current, s.versionId).value);
      CopyIsSamePlan(env, d, l.current, s.versionId);
      SamePlanSameMoved(env, d, d', l.current, h[..l.at + 1]);
      CopyKeepsCopied(env, d, l.current, l.at, s.versionId);
    }
  }

  lemma TailKeepsProgress(legacy: Legacy, m: Machine, kept: Option<Bytes>)
    requires Progress(legacy, m) && m.local.Scanning? && m.local.at == |m.disk.row.history|
    ensures Progress(legacy, TailStep(legacy, m, kept))
  {
    var l, d, h := m.local, m.disk, m.disk.row.history;
    var env := Env(legacy, l.listed);
    assert h[..l.at] == h;
    if !HasId(l.migrated, l.current) && Rescued(env, d, l.current, l.current).Some? {
      var d' := WithCopy(d, l.current, Rescued(env, d, l.current, l.current).value);
      CopyIsSamePlan(env, d, l.current, l.current);
      SamePlanSameFinal(env, d, d', l.current);
      SamePlanSameMoved(env, d, d', l.current, h);
      CopyKeepsCopied(env, d, l.current, |h|, l.current);
    }
  }

  /** What a migration writes names an object key for every version, the current one included. */
  lemma FinalIsMigrated(env: Env, d: Disk, current: string)
    requires Final(env, d, current).Some?
    ensures HasId(Final(env, d, current).value, current) && AllKeyed(Final(env, d, current).value)
  {
    var m, f := Moved(env, d, current, d.row.history), Final(env, d, current).value;
    if !HasId(m, current) { assert f[|f| - 1].versionId == current; }
    forall j | 0 <= j < |m|
      ensures m[j].objectKey.Some?
    {
      var i := MovedComesFrom(env, d, current, d.row.history, j);
    }
  }

  lemma StepKeepsProgress(legacy: Legacy, m: Machine, e: Event)
    requires Progress(legacy, m)
    ensures Progress(legacy, Step(legacy, m, e))
  {
    if e.Advance? {
      match m.local
      case Idle =>
      case Scanning(at, _, _, _, _, _) =>
        if at < |m.disk.row.history| {
          ScanKeepsProgress(legacy, m, e.kept);
        } else {
          TailKeepsProgress(legacy, m, e.kept);
        }
      case Ready(_, _, _, id, listed) =>
        FinalIsMigrated(Env(legacy, listed), m.disk, id);
        ValidationAccepts(m.disk.row.current.value, id);
      case Sweeping =>
    }
  }

  // ---- Safety ------------------------------------------------------------------

  /** What a download of a version answers. */
  function Served(d: Disk, versionId: Option<string>): (r: Option<Bytes>) {
    match ResolveBlobKey(d.row, versionId)
    case Err(_) => None
    case Ok(key) => if key in d.objects then Some(d.objects[key]) else None
  }

  predicate NormalIds(h: seq<Snapshot>) {
    forall i :: 0 <= i < |h| ==> h[i].versionId != [] && NormalizeVersionId(h[i].versionId) == h[i].versionId
  }

  /** Keyed entries are stored under their own version key, as every save and migration writes them. */
  predicate OwnKeys(d: Disk, h: seq<Snapshot>) {
    forall i :: 0 <= i < |h| ==> h[i].objectKey.Some? ==> h[i].objectKey.value == Dest(d, h[i].versionId)
  }

  /** The bare key still stands for the current version. */
  predicate BareNeeded(row: Row) {
    CurrentId(row).Some?
    && (!HasId(row.history, CurrentId(row).value)
        || exists i :: 0 <= i < |row.history| && row.history[i].versionId == CurrentId(row).value
                       && row.history[i].objectKey.None?)
  }

  /** Objects at version keys hold what that version was saved with. */
  ghost predicate CopiesTrusted(d: Disk, saved: map<string, Bytes>) {
    forall id :: Dest(d, id) in d.objects ==> id in saved && d.objects[Dest(d, id)] == saved[id]
  }

  ghost predicate Sound(legacy: Legacy, d: Disk, saved: map<string, Bytes>) {
    && NormalIds(d.row.history) && OwnKeys(d, d.row.history)
    && CopiesTrusted(d, saved)
    && (BareNeeded(d.row) && d.row.objectKey in d.objects ==>
          CurrentId(d.row).value in saved && d.objects[d.row.objectKey] == saved[CurrentId(d.row).value])
    && (legacy.KeepsVersions? ==>
          forall id :: id in legacy.versions ==> id in saved && legacy.versions[id] == saved[id])
  }

  /** A store that ignores version ids has no version listing; every PUT keeps what was sent. */
  ghost predicate Honest(legacy: Legacy, run: seq<Event>) {
    forall i :: 0 <= i < |run| ==>
      && (run[i].Start? && run[i].answer.Some? ==> legacy.KeepsVersions?)
      && (run[i].Advance? ==> run[i].kept.None?)
  }

  ghost predicate ListingHonest(legacy: Legacy, l: Local) {
    && (l.Scanning? && l.listed.Some? ==> legacy.KeepsVersions?)
    && (l.Ready? && l.listing.Some? ==> legacy.KeepsVersions?)
  }

  /** Only an unkeyed entry or an absent current version is ever rescued, so its source is its own bytes. */
  lemma RescuedIsSaved(
      legacy: Legacy, listed: Option<set<string>>, d: Disk, saved: map<string, Bytes>, current: string, id: string)
    requires Sound(legacy, d, saved) && CurrentId(d.row) == Some(current)
    requires listed.Some? ==> legacy.KeepsVersions?
    requires id == current ==> BareNeeded(d.row)
    requires Rescued(Env(legacy, listed), d, current, id).Some?
    ensures id in saved && Rescued(Env(legacy, listed), d, current, id).value == saved[id]
  {
  }

  lemma {:induction false} NormalizeFromNormal(h: seq<Snapshot>, seen: set<string>, id: string)
    requires NormalIds(h) && id !in seen
    ensures FindVersion(NormalizeFrom(h, seen), id) == FindVersion(h, id)
  {
    if h != [] {
      var v := h[0].versionId;
      assert NormalIds(h[1..]);
      if v == id {
        assert h[0].(versionId := v) == h[0];
      } else if v in seen {
        NormalizeFromNormal(h[1..], seen, id);
      } else {
        NormalizeFromNormal(h[1..], seen + {v}, id);
        var rest := NormalizeFrom(h[1..], seen + {v});
        assert NormalizeFrom(h, seen) == [h[0].(versionId := v)] + rest;
        assert ([h[0].(versionId := v)] + rest)[1..] == rest;
      }
    }
  }

  /** With normalised ids, resolving looks at the first entry carrying the id. */
  function ResolveFirst(row: Row, wanted: string): (r: Result<string>) {
    var found := FindVersion(row.history, wanted);
    if found.Some? && found.value.objectKey.Some? then Ok(found.value.objectKey.value)
    else if CurrentId(row) == Some(wanted) then Ok(row.objectKey)
    else Err(NotFound)
  }

  lemma ResolvesFirst(row: Row, wanted: string)
    requires NormalIds(row.history)
    ensures ResolveWanted(row, wanted) == ResolveFirst(row, wanted)
  {
    NormalizeFromNormal(row.history, {}, wanted);
  }

  function ServedId(d: Disk, wanted: string): (r: Option<Bytes>) {
    match ResolveFirst(d.row, wanted)
    case Err(_) => None
    case Ok(key) => if key in d.objects then Some(d.objects[key]) else None
  }

  /** Whatever is served, it is what that version was saved with. */
  lemma ServesOnlySaved(legacy: Legacy, d: Disk, saved: map<string, Bytes>, wanted: string)
    requires Sound(legacy, d, saved) && ServedId(d, wanted).Some?
    ensures wanted in saved && ServedId(d, wanted).value == saved[wanted]
  {
    var h := d.row.history;
    var found := FindVersion(h, wanted);
    if found.Some? {
      var i :| 0 <= i < |h| && h[i] == found.value;
    }
  }

  ghost predicate StillServes(d: Disk, d': Disk) {
    forall wanted :: ServedId(d, wanted).Some? ==> ServedId(d', wanted) == ServedId(d, wanted)
  }

  lemma CopyIsSafe(legacy: Legacy, d: Disk, saved: map<string, Bytes>, id: string, bytes: Bytes)
    requires Sound(legacy, d, saved)
    requires id in saved && bytes == saved[id]
    ensures Sound(legacy, WithCopy(d, id, bytes), saved)
    ensures StillServes(d, WithCopy(d, id, bytes))
  {
    var d' := WithCopy(d, id, bytes);
    DestIsNotBare(d, id);
    forall other | Dest(d', other) in d'.objects
      ensures other in saved && d'.objects[Dest(d', other)] == saved[other]
    {
      assert Dest(d', other) == Dest(d, other);
      SameBaseInjective(d.row.objectKey, id, other);
    }
  }

  lemma RescueIsSafe(
      legacy: Legacy, listed: Option<set<string>>, d: Disk, saved: map<string, Bytes>, current: string, id: string)
    requires listed.Some? ==> legacy.KeepsVersions?
    requires Sound(legacy, d, saved) && CurrentId(d.row) == Some(current)
    requires id == current ==> BareNeeded(d.row)
    ensures var r := RescueDisk(Env(legacy, listed), d, current, id, None);
            Sound(legacy, r, saved) && StillServes(d, r)
  {
    if Rescued(Env(legacy, listed), d, current, id).Some? {
      RescuedIsSaved(legacy, listed, d, saved, current, id);
      CopyIsSafe(legacy, d, saved, id, saved[id]);
    }
  }

  lemma ValidatedCurrent(row: Row, id: string)
    requires row.current.Some? && ValidateVersionId(row.current.value) == Ok(id)
    ensures CurrentId(row) == Some(id) && ValidId(id) && NormalizeVersionId(id) == id
  {
    ValidationAccepts(row.current.value, id);
    ValidIdIsFixedPoint(id);
  }

  /** If the scan did not keep the current version, the bare key is what stands for it. */
  lemma TailNeedsBare(env: Env, d: Disk, current: string)
    requires CurrentId(d.row) == Some(current)
    requires !HasId(Moved(env, d, current, d.row.history), current)
    ensures BareNeeded(d.row)
  {
    var h := d.row.history;
    if HasId(h, current) {
      var i :| 0 <= i < |h| && h[i].versionId == current;
      if h[i].objectKey.Some? { MovedKeepsId(env, d, current, h, i); }
    }
  }

  lemma ScanIsSafe(legacy: Legacy, m: Machine, saved: map<string, Bytes>)
    requires Progress(legacy, m) && m.local.Scanning? && m.local.at < |m.disk.row.history|
    requires ListingHonest(legacy, m.local) && Sound(legacy, m.disk, saved)
    ensures var r := ScanStep(legacy, m, None); Sound(legacy, r.disk, saved) && StillServes(m.disk, r.disk)
  {
    var l, d, s := m.local, m.disk, m.disk.row.history[m.local.at];
    if s.objectKey.None? {
      ValidatedCurrent(d.row, l.current);
      RescueIsSafe(legacy, l.listed, d, saved, l.current, s.versionId);
      assert ScanStep(legacy, m, None).disk == RescueDisk(Env(legacy, l.listed), d, l.current, s.versionId, None);
    }
  }

  lemma TailIsSafe(legacy: Legacy, m: Machine, saved: map<string, Bytes>)
    requires Progress(legacy, m) && m.local.Scanning? && m.local.at == |m.disk.row.history|
    requires ListingHonest(legacy, m.local) && Sound(legacy, m.disk, saved)
    ensures var r := TailStep(legacy, m, None); Sound(legacy, r.disk, saved) && StillServes(m.disk, r.disk)
  {
    var l, d, h := m.local, m.disk, m.disk.row.history;
    if !HasId(l.migrated, l.current) {
      ValidatedCurrent(d.row, l.current);
      assert h[..l.at] == h;
      TailNeedsBare(Env(legacy, l.listed), d, l.current);
      RescueIsSafe(legacy, l.listed, d, saved, l.current, l.current);
      assert TailStep(legacy, m, None).disk == RescueDisk(Env(legacy, l.listed), d, l.current, l.current, None);
    }
  }

  function Committed(d: Disk, history: seq<Snapshot>, id: string): (r: Disk) {
    d.(row := d.row.(current := Some(id), history := history))
  }

  lemma FinalEntries(env: Env, d: Disk, current: string, j: nat)
    requires NormalIds(d.row.history) && OwnKeys(d, d.row.history)
    requires ValidId(current) && Final(env, d, current).Some? && j < |Final(env, d, current).value|
    ensures var s := Final(env, d, current).value[j];
            && s.versionId != [] && NormalizeVersionId(s.versionId) == s.versionId
            && s.objectKey == Some(Dest(d, s.versionId))
  {
    var h, m := d.row.history, Moved(env, d, current, d.row.history);
    ValidIdIsFixedPoint(current);
    if j < |m| {
      var i := MovedComesFrom(env, d, current, h, j);
      assert h[i].versionId != [];
    }
  }

  lemma CommitIsNormal(env: Env, d: Disk, id: string)
    requires NormalIds(d.row.history) && OwnKeys(d, d.row.history)
    requires ValidId(id) && Final(env, d, id).Some?
    ensures var d' := Committed(d, Final(env, d, id).value, id);
            NormalIds(d'.row.history) && OwnKeys(d', d'.row.history)
  {
    var f := Final(env, d, id).value;
    var d' := Committed(d, f, id);
    forall j | 0 <= j < |f|
      ensures f[j].versionId != [] && NormalizeVersionId(f[j].versionId) == f[j].versionId
      ensures f[j].objectKey == Some(Dest(d', f[j].versionId))
    {
      FinalEntries(env, d, id, j);
    }
  }

  lemma MigratedNeedsNoBare(row: Row, id: string)
    requires row.current == Some(id) && ValidId(id) && IsMigrated(row)
    ensures !BareNeeded(row)
  {
    ValidIdIsFixedPoint(id);
  }

  lemma CommitIsSound(legacy: Legacy, env: Env, d: Disk, saved: map<string, Bytes>, id: string)
    requires Sound(legacy, d, saved) && ValidId(id) && Final(env, d, id).Some?
    ensures Sound(legacy, Committed(d, Final(env, d, id).value, id), saved)
    ensures !BareNeeded(Committed(d, Final(env, d, id).value, id).row)
  {
    var d' := Committed(d, Final(env, d, id).value, id);
    CommitIsNormal(env, d, id);
    FinalIsMigrated(env, d, id);
    MigratedNeedsNoBare(d'.row, id);
    assert CopiesTrusted(d', saved) by {
      assert forall x :: Dest(d', x) == Dest(d, x);
    }
  }

  /** Every version that was served before the row write is in the new row, and its copy is in place. */
  lemma ServedIsCopied(legacy: Legacy, m: Machine, wanted: string)
    requires Progress(legacy, m) && m.local.Ready?
    requires NormalIds(m.disk.row.history) && OwnKeys(m.disk, m.disk.row.history)
    requires ServedId(m.disk, wanted).Some?
    ensures HasId(m.local.history, wanted) && Dest(m.disk, wanted) in m.disk.objects
  {
    var d, h, id := m.disk, m.disk.row.history, m.local.id;
    var env := Env(legacy, m.local.listing);
    ValidatedCurrent(d.row, id);
    FinalIsMigrated(env, d, id);
    var found := FindVersion(h, wanted);
    if found.Some? {
      var i :| 0 <= i < |h| && h[i] == found.value;
      assert RescuedAt(env, d, id, h, i);
      MovedKeepsId(env, d, id, h, i);
      FinalKeepsMoved(env, d, id, wanted);
    } else {
      FindVersionFinds(h, wanted);
      MovedIdsAreOld(env, d, id, h, wanted);
    }
  }

  lemma MovedIdsAreOld(env: Env, d: Disk, current: string, h: seq<Snapshot>, id: string)
    ensures HasId(Moved(env, d, current, h), id) ==> HasId(h, id)
  {
    var m := Moved(env, d, current, h);
    if HasId(m, id) {
      var j :| 0 <= j < |m| && m[j].versionId == id;
      var i := MovedComesFrom(env, d, current, h, j);
    }
  }

  lemma FindVersionFinds(h: seq<Snapshot>, id: string)
    ensures FindVersion(h, id).Some? <==> HasId(h, id)
  {
    var found := FindVersion(h, id);
    if found.Some? {
      var i :| 0 <= i < |h| && h[i] == found.value;
    }
    if HasId(h, id) {
      var i :| 0 <= i < |h| && h[i].versionId == id;
      assert h[i] in h;
    }
  }

  lemma FinalKeepsMoved(env: Env, d: Disk, current: string, id: string)
    requires Final(env, d, current).Some? && HasId(Moved(env, d, current, d.row.history), id)
    ensures HasId(Final(env, d, current).value, id)
  {
    var m := Moved(env, d, current, d.row.history);
    var j :| 0 <= j < |m| && m[j].versionId == id;
    assert Final(env, d, current).value[j].versionId == id;
  }

  lemma ServesFromOwnKey(d: Disk, wanted: string)
    requires AllKeyed(d.row.history) && OwnKeys(d, d.row.history) && HasId(d.row.history, wanted)
    ensures ResolveFirst(d.row, wanted) == Ok(Dest(d, wanted))
  {
    var h := d.row.history;
    var i :| 0 <= i < |h| && h[i].versionId == wanted;
    assert h[i] in h;
    var found := FindVersion(h, wanted).value;
    var j :| 0 <= j < |h| && h[j] == found;
  }

  lemma CommitIsSafe(legacy: Legacy, m: Machine, saved: map<string, Bytes>)
    requires Progress(legacy, m) && m.local.Ready? && Sound(legacy, m.disk, saved)
    ensures var r := Step(legacy, m, Advance(None)); Sound(legacy, r.disk, saved) && StillServes(m.disk, r.disk)
  {
    var d, id := m.disk, m.local.id;
    var env := Env(legacy, m.local.listing);
    ValidatedCurrent(d.row, id);
    CommitIsSound(legacy, env, d, saved, id);
    FinalIsMigrated(env, d, id);
    var d' := Committed(d, m.local.history, id);
    forall wanted | ServedId(d, wanted).Some?
      ensures ServedId(d', wanted) == ServedId(d, wanted)
    {
      ServedIsCopied(legacy, m, wanted);
      ServesFromOwnKey(d', wanted);
      ServesOnlySaved(legacy, d, saved, wanted);
      assert Dest(d', wanted) == Dest(d, wanted);
    }
  }

  lemma SweepIsSafe(legacy: Legacy, m: Machine, saved: map<string, Bytes>)
    requires Progress(legacy, m) && m.local.Sweeping? && Sound(legacy, m.disk, saved)
    ensures var r := Step(legacy, m, Advance(None)); Sound(legacy, r.disk, saved) && StillServes(m.disk, r.disk)
  {
    var d := m.disk;
    var d' := Step(legacy, m, Advance(None)).disk;
    ValidIdIsFixedPoint(d.row.current.value);
    assert forall x :: Dest(d', x) == Dest(d, x);
    forall wanted | ServedId(d, wanted).Some?
      ensures ServedId(d', wanted) == ServedId(d, wanted)
    {
      if HasId(d.row.history, wanted) {
        ServesFromOwnKey(d, wanted);
        ServesFromOwnKey(d', wanted);
        DestIsNotBare(d, wanted);
      } else {
        FindVersionFinds(d.row.history, wanted);
      }
    }
  }

  lemma RescuingIsSafe(legacy: Legacy, m: Machine, saved: map<string, Bytes>)
    requires Progress(legacy, m) && m.local.Scanning? && Sound(legacy, m.disk, saved) && ListingHonest(legacy, m.local)
    ensures var r := Step(legacy, m, Advance(None)); Sound(legacy, r.disk, saved) && StillServes(m.disk, r.disk)
  {
    if m.local.at < |m.disk.row.history| {
      assert Step(legacy, m, Advance(None)) == ScanStep(legacy, m, None);
      ScanIsSafe(legacy, m, saved);
    } else {
      assert Step(legacy, m, Advance(None)) == TailStep(legacy, m, None);
      TailIsSafe(legacy, m, saved);
    }
  }

  lemma AdvanceIsSafe(legacy: Legacy, m: Machine, saved: map<string, Bytes>)
    requires Progress(legacy, m) && Sound(legacy, m.disk, saved) && ListingHonest(legacy, m.local)
    ensures var r := Step(legacy, m, Advance(None)); Sound(legacy, r.disk, saved) && StillServes(m.disk, r.disk)
  {
    match m.local
    case Idle =>
    case Scanning(_, _, _, _, _, _) => RescuingIsSafe(legacy, m, saved);
    case Ready(_, _, _, _, _) => CommitIsSafe(legacy, m, saved);
    case Sweeping => SweepIsSafe(legacy, m, saved);
  }

  /** A run goes on with the listing it started with. */
  lemma ListingStaysHonest(legacy: Legacy, m: Machine, e: Event)
    requires ListingHonest(legacy, m.local) && (e.Start? && e.answer.Some? ==> legacy.KeepsVersions?)
    ensures ListingHonest(legacy, Step(legacy, m, e).local)
  {
  }

  lemma {:induction false} RunIsSafe(legacy: Legacy, d: Disk, run: seq<Event>, saved: map<string, Bytes>)
    requires Sound(legacy, d, saved) && Honest(legacy, run)
    ensures var m := Run(legacy, Machine(d, Idle), run);
            && Progress(legacy, m) && ListingHonest(legacy, m.local)
            && Sound(legacy, m.disk, saved) && StillServes(d, m.disk)
  {
    if run != [] {
      var n := |run| - 1;
      assert Honest(legacy, run[..n]) by {
        assert forall i :: 0 <= i < n ==> run[..n][i] == run[i];
      }
      RunIsSafe(legacy, d, run[..n], saved);
      var m := Run(legacy, Machine(d, Idle), run[..n]);
      if run[n].Advance? { AdvanceIsSafe(legacy, m, saved); }
      ListingStaysHonest(legacy, m, run[n]);
      StepKeepsProgress(legacy, m, run[n]);
    }
  }

  lemma ServedByRawId(d: Disk, raw: string)
    requires NormalIds(d.row.history)
    ensures Served(d, Some(raw)) ==
      if ValidId(NormalizeVersionId(raw)) then ServedId(d, NormalizeVersionId(raw)) else None
  {
    ValidationAccepts(raw, NormalizeVersionId(raw));
    ResolvesFirst(d.row, NormalizeVersionId(raw));
  }

  lemma StepKeepsCurrent(legacy: Legacy, m: Machine, e: Event)
    requires Progress(legacy, m)
    ensures CurrentId(Step(legacy, m, e).disk.row) == CurrentId(m.disk.row)
    ensures CurrentId(m.disk.row).None? && m.local.Idle? ==> Step(legacy, m, e) == m
  {
    if m.disk.row.current.Some? {
      var v := ValidateVersionId(m.disk.row.current.value);
      if v.Ok? { ValidatedCurrent(m.disk.row, v.value); }
    }
  }

  /** The current version stays the current version, and without one nothing is touched. */
  lemma {:induction false} CurrentStays(legacy: Legacy, d: Disk, run: seq<Event>)
    ensures var m := Run(legacy, Machine(d, Idle), run);
            && Progress(legacy, m)
            && CurrentId(m.disk.row) == CurrentId(d.row)
            && (CurrentId(d.row).None? ==> m == Machine(d, Idle))
  {
    if run != [] {
      var before, e := run[..|run| - 1], run[|run| - 1];
      CurrentStays(legacy, d, before);
      StepKeepsProgress(legacy, Run(legacy, Machine(d, Idle), before), e);
      StepKeepsCurrent(legacy, Run(legacy, Machine(d, Idle), before), e);
    }
  }

  lemma ServedCurrent(d: Disk)
    requires NormalIds(d.row.history) && CurrentId(d.row).Some?
    ensures Served(d, None) == ServedId(d, CurrentId(d.row).value)
  {
    ResolvesFirst(d.row, CurrentId(d.row).value);
  }

  /** A download that was answered is still answered with the same bytes. */
  predicate StillAnswers(d: Disk, after: Disk, versionId: Option<string>) {
    Served(d, versionId).Some? ==> Served(after, versionId) == Served(d, versionId)
  }

  /** A download without a version id keeps answering the current version. */
  lemma CurrentStillServed(legacy: Legacy, d: Disk, run: seq<Event>, saved: map<string, Bytes>)
    requires Sound(legacy, d, saved) && Honest(legacy, run)
    ensures StillAnswers(d, Run(legacy, Machine(d, Idle), run).disk, None)
  {
    RunIsSafe(legacy, d, run, saved);
    CurrentStays(legacy, d, run);
    if CurrentId(d.row).Some? {
      ServedCurrent(d);
      ServedCurrent(Run(legacy, Machine(d, Idle), run).disk);
    }
  }

  /**
   The migration never loses data. For either kind of legacy store and any sequence of runs,
   each stopped after any step: whatever version could be downloaded before is still
   downloaded with the same bytes.
   */
  lemma MigrationIsSafe(legacy: Legacy, d: Disk, run: seq<Event>, saved: map<string, Bytes>, raw: string)
    requires Sound(legacy, d, saved) && Honest(legacy, run)
    ensures StillAnswers(d, Run(legacy, Machine(d, Idle), run).disk, Some(raw))
  {
    RunIsSafe(legacy, d, run, saved);
    ServedByRawId(d, raw);
    ServedByRawId(Run(legacy, Machine(d, Idle), run).disk, raw);
  }

  /** Nor does it mix versions up: no id is ever answered with anything but the bytes it was saved with. */
  lemma MigrationServesOnlySaved(legacy: Legacy, d: Disk, run: seq<Event>, saved: map<string, Bytes>, raw: string)
    requires Sound(legacy, d, saved) && Honest(legacy, run)
    ensures var after := Run(legacy, Machine(d, Idle), run).disk;
            Served(after, Some(raw)).Some? ==>
              NormalizeVersionId(raw) in saved && Served(after, Some(raw)).value == saved[NormalizeVersionId(raw)]
  {
    RunIsSafe(legacy, d, run, saved);
    var after := Run(legacy, Machine(d, Idle), run).disk;
    ServedByRawId(after, raw);
    if Served(after, Some(raw)).Some? { ServesOnlySaved(legacy, after, saved, NormalizeVersionId(raw)); }
  }
}
