/**
 The size a vault reports comes from its version history; the size an operator sees
 comes from walking the bucket. On a quiet vault the two agree.
 */
module StoredSizes {
  import opened Results
  import opened KeyLayout
  import opened VaultRow
  import opened ObjectStore
  import opened VaultService

  function StoredVersionBytes(h: seq<Snapshot>): (n: int) {
    if h == [] then 0
    else StoredVersionBytes(h[..|h| - 1]) + (match h[|h| - 1].sizeBytes case Some(n) => n case None => 0)
  }

  ghost predicate DistinctKeys(visits: seq<Visit>) {
    forall i, j :: 0 <= i < j < |visits| ==> visits[i].key != visits[j].key
  }

  /** The pages list every object of the bucket once, with its true size. */
  ghost predicate ListsBucket(pages: seq<Page>, objects: map<string, Bytes>) {
    && Chained(pages)
    && var visits := AllVisits(pages);
    && DistinctKeys(visits)
    && (forall v :: v in visits ==> v.key in objects && v.size == |objects[v.key]|)
    && (forall k :: k in objects ==> Visit(k, |objects[k]|) in visits)
  }

  lemma {:induction false} TotalConcat(base: string, a: seq<Visit>, b: seq<Visit>)
    ensures TotalFor(base, a + b) == TotalFor(base, a) + TotalFor(base, b)
  {
    if b == [] {
      assert a + b == a;
    } else {
      var n := |b| - 1;
      TotalConcat(base, a, b[..n]);
      assert (a + b)[..|a + b| - 1] == a + b[..n];
      assert (a + b)[|a + b| - 1] == b[n];
    }
  }

  lemma TotalWithout(base: string, visits: seq<Visit>, j: nat)
    requires j < |visits| && BaseKey(visits[j].key) == base
    ensures TotalFor(base, visits) == TotalFor(base, visits[..j] + visits[j + 1..]) + visits[j].size
  {
    var v := visits[j];
    assert visits == visits[..j] + ([v] + visits[j + 1..]);
    TotalConcat(base, visits[..j], [v] + visits[j + 1..]);
    TotalConcat(base, [v], visits[j + 1..]);
    TotalConcat(base, visits[..j], visits[j + 1..]);
    assert [v][..0] == [];
  }

  function Without(visits: seq<Visit>, j: nat): (r: seq<Visit>)
    requires j < |visits|
  {
    visits[..j] + visits[j + 1..]
  }

  lemma WithoutOne(visits: seq<Visit>, j: nat)
    requires j < |visits| && DistinctKeys(visits)
    ensures DistinctKeys(Without(visits, j))
    ensures forall v :: v in Without(visits, j) <==> v in visits && v.key != visits[j].key
  {
    var rest := Without(visits, j);
    assert forall i :: 0 <= i < |rest| ==> rest[i] == visits[if i < j then i else i + 1];
    forall v | v in visits && v.key != visits[j].key
      ensures v in rest
    {
      var i :| 0 <= i < |visits| && visits[i] == v;
      assert v == rest[if i < j then i else i - 1];
    }
  }

  ghost predicate Lists(base: string, visits: seq<Visit>, s: Snapshot) {
    && s.objectKey.Some? && s.sizeBytes.Some? && s.sizeBytes.value >= 0
    && BaseKey(s.objectKey.value) == base
    && Visit(s.objectKey.value, s.sizeBytes.value) in visits
  }

  ghost predicate DistinctObjects(h: seq<Snapshot>) {
    forall i, j :: 0 <= i < j < |h| ==> h[i].objectKey != h[j].objectKey
  }

  /** The visits of this base key are those the history names, with the sizes it records. */
  ghost predicate Matches(base: string, visits: seq<Visit>, h: seq<Snapshot>) {
    && (forall i :: 0 <= i < |h| ==> Lists(base, visits, h[i]))
    && (forall v :: v in visits && BaseKey(v.key) == base ==> Named(h, v.key))
  }

  lemma MatchesWithout(base: string, visits: seq<Visit>, h: seq<Snapshot>, j: nat)
    requires h != [] && j < |visits| && DistinctKeys(visits) && DistinctObjects(h) && Matches(base, visits, h)
    requires h[|h| - 1].objectKey == Some(visits[j].key)
    ensures Matches(base, Without(visits, j), h[..|h| - 1])
  {
    var n, rest := |h| - 1, Without(visits, j);
    WithoutOne(visits, j);
    forall i | 0 <= i < n
      ensures Lists(base, rest, h[..n][i])
    {
      assert Lists(base, visits, h[i]);
    }
    forall v | v in rest && BaseKey(v.key) == base
      ensures Named(h[..n], v.key)
    {
      var i :| 0 <= i < |h| && h[i].objectKey == Some(v.key);
      assert h[..n][i].objectKey == Some(v.key);
    }
  }

  /** Two listings that show the same objects of a vault total the same, in whatever order. */
  lemma {:induction false} TotalsAgree(base: string, visits: seq<Visit>, h: seq<Snapshot>)
    requires DistinctKeys(visits) && DistinctObjects(h) && Matches(base, visits, h)
    ensures TotalFor(base, visits) == StoredVersionBytes(h)
  {
    if h == [] {
      forall i | 0 <= i < |visits|
        ensures BaseKey(visits[i].key) != base
      {
        assert visits[i] in visits;
      }
      UnseenIsZero(base, visits);
    } else {
      var n := |h| - 1;
      assert Lists(base, visits, h[n]);
      var j :| 0 <= j < |visits| && visits[j] == Visit(h[n].objectKey.value, h[n].sizeBytes.value);
      TotalWithout(base, visits, j);
      WithoutOne(visits, j);
      MatchesWithout(base, visits, h, j);
      TotalsAgree(base, Without(visits, j), h[..n]);
    }
  }

  // ---- Named objects and the others ---------------------------------------------

  function NamesOf(h: seq<Snapshot>): (keys: set<string>) {
    set i | 0 <= i < |h| && h[i].objectKey.Some? :: h[i].objectKey.value
  }

  /** The visits to keys in `keys`, or to the other ones. */
  function Pick(visits: seq<Visit>, keys: set<string>, among: bool): (r: seq<Visit>) {
    if visits == [] then []
    else
      var n := |visits| - 1;
      Pick(visits[..n], keys, among) + (if (visits[n].key in keys) == among then [visits[n]] else [])
  }

  lemma {:induction false} PickedVisits(visits: seq<Visit>, keys: set<string>, among: bool)
    ensures forall v :: v in Pick(visits, keys, among) <==> v in visits && (v.key in keys) == among
  {
    if visits != [] {
      var n := |visits| - 1;
      PickedVisits(visits[..n], keys, among);
      assert visits == visits[..n] + [visits[n]];
    }
  }

  lemma {:induction false} PickedDistinct(visits: seq<Visit>, keys: set<string>, among: bool)
    requires DistinctKeys(visits)
    ensures DistinctKeys(Pick(visits, keys, among))
  {
    if visits != [] {
      var n := |visits| - 1;
      PickedDistinct(visits[..n], keys, among);
      PickedVisits(visits[..n], keys, among);
      var rest := Pick(visits[..n], keys, among);
      forall i | 0 <= i < |rest| ensures rest[i].key != visits[n].key {
        assert rest[i] in visits[..n];
      }
    }
  }

  lemma TotalOneMore(base: string, visits: seq<Visit>, v: Visit)
    ensures TotalFor(base, visits + [v]) == TotalFor(base, visits) + (if BaseKey(v.key) == base then v.size else 0)
  {
    assert (visits + [v])[..|visits|] == visits;
  }

  lemma {:induction false} PicksTotal(base: string, visits: seq<Visit>, keys: set<string>)
    ensures TotalFor(base, visits)
         == TotalFor(base, Pick(visits, keys, true)) + TotalFor(base, Pick(visits, keys, false))
  {
    if visits != [] {
      var n := |visits| - 1;
      PicksTotal(base, visits[..n], keys);
      TotalOneMore(base, Pick(visits[..n], keys, visits[n].key in keys), visits[n]);
      var other := Pick(visits[..n], keys, visits[n].key !in keys);
      assert other + [] == other;
    }
  }

  /** The entries whose object a delete request has taken, or the other ones. */
  function Entries(h: seq<Snapshot>, torn: set<string>, gone: bool): (r: seq<Snapshot>) {
    if h == [] then []
    else
      var n := |h| - 1;
      Entries(h[..n], torn, gone) + (if (h[n].versionId in torn) == gone then [h[n]] else [])
  }

  lemma {:induction false} EntriesAre(h: seq<Snapshot>, torn: set<string>, gone: bool)
    ensures forall s :: s in Entries(h, torn, gone) <==> s in h && (s.versionId in torn) == gone
  {
    if h != [] {
      var n := |h| - 1;
      EntriesAre(h[..n], torn, gone);
      assert h == h[..n] + [h[n]];
    }
  }

  lemma {:induction false} EntriesDistinct(h: seq<Snapshot>, torn: set<string>, gone: bool)
    requires DistinctObjects(h)
    ensures DistinctObjects(Entries(h, torn, gone))
  {
    if h != [] {
      var n := |h| - 1;
      EntriesDistinct(h[..n], torn, gone);
      EntriesAre(h[..n], torn, gone);
      var rest := Entries(h[..n], torn, gone);
      forall i | 0 <= i < |rest| ensures rest[i].objectKey != h[n].objectKey {
        assert rest[i] in h[..n];
      }
    }
  }

  lemma StoredOneMore(h: seq<Snapshot>, s: Snapshot)
    ensures StoredVersionBytes(h + [s])
         == StoredVersionBytes(h) + (match s.sizeBytes case Some(n) => n case None => 0)
  {
    assert (h + [s])[..|h|] == h;
  }

  lemma {:induction false} EntriesTotal(h: seq<Snapshot>, torn: set<string>)
    ensures StoredVersionBytes(h)
         == StoredVersionBytes(Entries(h, torn, false)) + StoredVersionBytes(Entries(h, torn, true))
  {
    if h != [] {
      var n := |h| - 1;
      EntriesTotal(h[..n], torn);
      StoredOneMore(Entries(h[..n], torn, h[n].versionId in torn), h[n]);
      var other := Entries(h[..n], torn, h[n].versionId !in torn);
      assert other + [] == other;
    }
  }

  // ---- The account ---------------------------------------------------------------

  /** What the history records of entries whose object is gone. */
  function MissingBytes(w: World): (n: int) {
    StoredVersionBytes(Entries(w.row.history, w.torn, true))
  }

  /** What lies under the vault's key without a history entry to name it. */
  function OutstandingBytes(w: World, visits: seq<Visit>): (n: nat) {
    TotalFor(w.row.objectKey, Pick(visits, NamesOf(w.row.history), false))
  }

  lemma EntriesListed(w: World, pages: seq<Page>)
    requires Inv(w) && ListsBucket(pages, w.objects)
    ensures var here := Entries(w.row.history, w.torn, false);
            && DistinctObjects(here)
            && forall i :: 0 <= i < |here| ==>
                 Lists(w.row.objectKey, Pick(AllVisits(pages), NamesOf(w.row.history), true), here[i])
  {
    var h := w.row.history;
    var here, named := Entries(h, w.torn, false), Pick(AllVisits(pages), NamesOf(h), true);
    forall i, j | 0 <= i < j < |h|
      ensures h[i].objectKey != h[j].objectKey
    {
      assert EntryOk(w, h[i]) && EntryOk(w, h[j]);
      SameBaseInjective(w.row.objectKey, h[i].versionId, h[j].versionId);
    }
    EntriesDistinct(h, w.torn, false);
    EntriesAre(h, w.torn, false);
    PickedVisits(AllVisits(pages), NamesOf(h), true);
    forall i | 0 <= i < |here|
      ensures Lists(w.row.objectKey, named, here[i])
    {
      assert here[i] in here && EntryOk(w, here[i]);
      BaseKeyOfVersionKey(w.row.objectKey, here[i].versionId);
      var j :| 0 <= j < |h| && h[j] == here[i];
    }
  }

  lemma NamedVisitsMatch(w: World, pages: seq<Page>)
    requires Inv(w) && ListsBucket(pages, w.objects)
    ensures Matches(w.row.objectKey, Pick(AllVisits(pages), NamesOf(w.row.history), true),
                    Entries(w.row.history, w.torn, false))
  {
    var h := w.row.history;
    var here, named := Entries(h, w.torn, false), Pick(AllVisits(pages), NamesOf(h), true);
    EntriesListed(w, pages);
    EntriesAre(h, w.torn, false);
    PickedVisits(AllVisits(pages), NamesOf(h), true);
    forall v | v in named && BaseKey(v.key) == w.row.objectKey
      ensures Named(here, v.key)
    {
      var i :| 0 <= i < |h| && h[i].objectKey == Some(v.key);
      assert EntryOk(w, h[i]);
      assert h[i] in here;
    }
  }

  /**
   The whole account, in any consistent vault: what the walk totals and what is missing make
   up what the history records and what is outstanding.
   */
  lemma SizesAccount(w: World, pages: seq<Page>)
    requires Inv(w) && ListsBucket(pages, w.objects)
    ensures TotalFor(w.row.objectKey, AllVisits(pages)) + MissingBytes(w)
         == StoredVersionBytes(w.row.history) + OutstandingBytes(w, AllVisits(pages))
  {
    var names := NamesOf(w.row.history);
    PicksTotal(w.row.objectKey, AllVisits(pages), names);
    EntriesTotal(w.row.history, w.torn);
    PickedDistinct(AllVisits(pages), names, true);
    EntriesListed(w, pages);
    NamedVisitsMatch(w, pages);
    TotalsAgree(w.row.objectKey, Pick(AllVisits(pages), names, true), Entries(w.row.history, w.torn, false));
  }

  // ---- Quiet vaults -------------------------------------------------------------------

  /** No cleanup and no unconfirmed upload is outstanding, but perhaps the object a migration left at the bare key. */
  ghost predicate Quiet(w: World) {
    w.pending == {} && w.loose <= {w.row.objectKey}
  }

  ghost predicate Untorn(w: World) {
    forall s :: s in w.row.history ==> s.versionId !in w.torn
  }

  /** With nothing outstanding, a vault's objects are those its history names exactly when no version is torn. */
  lemma QuietObjectsIff(w: World)
    requires Inv(w) && w.pending == {} && w.loose == {}
    ensures (forall k :: k in w.objects && BaseKey(k) == w.row.objectKey <==> Named(w.row.history, k)) <==> Untorn(w)
  {
    var h := w.row.history;
    if Untorn(w) {
      forall k ensures k in w.objects && BaseKey(k) == w.row.objectKey <==> Named(h, k) {
        if Named(h, k) {
          var i :| 0 <= i < |h| && h[i].objectKey == Some(k);
          assert EntryOk(w, h[i]);
          BaseKeyOfVersionKey(w.row.objectKey, h[i].versionId);
        }
      }
    } else {
      var s :| s in h && s.versionId in w.torn;
      var i :| 0 <= i < |h| && h[i] == s;
      assert EntryOk(w, s);
      assert Named(h, KeyIn(w, s.versionId));
    }
  }

  function BareBytes(w: World): (n: nat) {
    if w.row.objectKey in w.objects then |w.objects[w.row.objectKey]| else 0
  }

  /** Visits that see nothing of a vault but its bare key total that object. */
  lemma OnlyBareTotal(base: string, visits: seq<Visit>, bare: Snapshot, size: nat)
    requires DistinctKeys(visits) && BaseKey(base) == base
    requires forall v :: v in visits && BaseKey(v.key) == base ==> v.key == base
    requires bare.objectKey == Some(base) && bare.sizeBytes == Some(size)
    ensures Visit(base, size) in visits ==> TotalFor(base, visits) == size
    ensures (forall v :: v in visits ==> v.key != base) ==> TotalFor(base, visits) == 0
  {
    if Visit(base, size) in visits {
      assert [bare][0] == bare && [bare][..0] == [];
      assert Lists(base, visits, bare);
      TotalsAgree(base, visits, [bare]);
    }
    if forall v :: v in visits ==> v.key != base {
      forall i | 0 <= i < |visits| ensures BaseKey(visits[i].key) != base { assert visits[i] in visits; }
      UnseenIsZero(base, visits);
    }
  }

  /** The one object that may be outstanding on a quiet vault is the one at the bare key. */
  lemma QuietOutstanding(w: World, pages: seq<Page>)
    requires Inv(w) && Quiet(w) && ListsBucket(pages, w.objects)
    ensures OutstandingBytes(w, AllVisits(pages)) == BareBytes(w)
  {
    var base, h := w.row.objectKey, w.row.history;
    var others := Pick(AllVisits(pages), NamesOf(h), false);
    PickedVisits(AllVisits(pages), NamesOf(h), false);
    PickedDistinct(AllVisits(pages), NamesOf(h), false);
    BaseKeyOfVersionKey(base, "");
    forall v | v in others && BaseKey(v.key) == base ensures v.key == base { NamesAreNamed(h, v.key); }
    BareIsUnnamed(w);
    OnlyBareTotal(base, others, Snapshot("", w.row.envelope, 0, Some(base), Some(BareBytes(w))), BareBytes(w));
  }

  lemma NamesAreNamed(h: seq<Snapshot>, k: string)
    ensures k in NamesOf(h) <==> Named(h, k)
  {
  }

  lemma BareIsUnnamed(w: World)
    requires Inv(w)
    ensures w.row.objectKey !in NamesOf(w.row.history)
  {
    forall i | 0 <= i < |w.row.history| ensures w.row.history[i].objectKey != Some(w.row.objectKey) {
      assert EntryOk(w, w.row.history[i]);
      BaseKeyOfVersionKey(w.row.objectKey, w.row.history[i].versionId);
    }
  }

  lemma {:induction false} NothingMissing(h: seq<Snapshot>, torn: set<string>)
    requires forall s :: s in h ==> s.versionId !in torn
    ensures Entries(h, torn, true) == []
  {
    if h != [] {
      var n := |h| - 1;
      assert h[n] in h;
      NothingMissing(h[..n], torn);
    }
  }

  /**
   Recorded sizes agree with the store: on a quiet vault without torn versions, reached by any
   allowed run from a consistent one, the bytes the history records are the bytes a walk of
   the whole bucket totals for the vault's base key, exactly when a migration has not left a
   non-empty object at the bare key.
   */
  lemma RecordedSizesAgreeIff(w0: World, run: seq<Action>, pages: seq<Page>)
    requires Inv(w0) && AllowedRun(w0, run)
    requires Quiet(Run(w0, run)) && Untorn(Run(w0, run)) && ListsBucket(pages, Run(w0, run).objects)
    ensures var w := Run(w0, run);
            TotalFor(w.row.objectKey, AllVisits(pages)) == StoredVersionBytes(w.row.history) <==> BareBytes(w) == 0
  {
    var w := Run(w0, run);
    RunKeepsInv(w0, run);
    SizesAccount(w, pages);
    QuietOutstanding(w, pages);
    NothingMissing(w.row.history, w.torn);
  }

  /** A vault that was created without objects never has one at the bare key, so there the sizes always agree. */
  lemma RecordedSizesAgree(w0: World, run: seq<Action>, pages: seq<Page>)
    requires Fresh(w0) && AllowedRun(w0, run)
    requires Quiet(Run(w0, run)) && Untorn(Run(w0, run)) && ListsBucket(pages, Run(w0, run).objects)
    ensures var w := Run(w0, run);
            TotalFor(w.row.objectKey, AllVisits(pages)) == StoredVersionBytes(w.row.history)
  {
    FreshIsInv(w0);
    BaseKeyOfVersionKey(w0.row.objectKey, "");
    BareStays(w0, run);
    RecordedSizesAgreeIff(w0, run, pages);
  }

  lemma BareIsNoVersion(w: World, id: string)
    ensures KeyIn(w, id) != w.row.objectKey
  {
    assert |KeyIn(w, id)| > |w.row.objectKey|;
  }

  /** The bare object is untouched, and no cleanup is asked to take it. */
  ghost predicate BareKept(w: World, r: World) {
    && r.row.objectKey == w.row.objectKey && r.row.objectKey !in r.pending
    && (r.row.objectKey in r.objects <==> w.row.objectKey in w.objects)
    && (w.row.objectKey in w.objects ==> r.objects[w.row.objectKey] == w.objects[w.row.objectKey])
  }

  lemma BareKeptBySave(w: World, id: string, now: Time, rowOk: bool, undoOk: bool)
    requires CanRecord(w, id) && w.row.objectKey !in w.pending
    ensures BareKept(w, if rowOk then Record(w, id, now) else Undo(w, id, undoOk))
  {
    BareIsNoVersion(w, id);
    NormalHistory(w);
    if rowOk {
      RecordPending(w, id, now, w.row.objectKey);
      BareIsUnnamed(w);
      NamesAreNamed(w.row.history, w.row.objectKey);
    }
  }

  lemma BareKeptByDelete(w: World, raw: string, deleteOk: bool, rowOk: bool)
    requires Inv(w) && w.row.objectKey !in w.pending
    ensures BareKept(w, AfterDelete(w, raw, deleteOk, rowOk))
  {
    var target := NormalizeVersionId(raw);
    if ResolveBlobKey(w.row, Some(target)).Ok? {
      var i := ResolvesOnlyHistory(w, target);
      BareIsNoVersion(w, w.row.history[i].versionId);
    }
  }

  lemma BareStepStays(w: World, a: Action)
    requires Inv(w) && Allowed(w, a) && w.row.objectKey !in w.pending
    ensures BareKept(w, Step(w, a))
  {
    match a
    case UploadBlob(body, id, now, putOk, rowOk, undoOk) =>
      BareIsNoVersion(w, id);
      PutKeepsInv(w, id, body);
      BareKeptBySave(Put(w, id, body), id, now, rowOk, undoOk);
    case ClientPut(id, _) => BareIsNoVersion(w, id);
    case ConfirmUpload(rawId, now, rowOk, undoOk) =>
      var v := ValidateVersionId(rawId);
      if v.Ok? && KeyIn(w, v.value) in w.objects {
        ValidationAccepts(rawId, v.value);
        BareKeptBySave(w, v.value, now, rowOk, undoOk);
      }
    case DeleteVersion(target, deleteOk, rowOk) => BareKeptByDelete(w, target, deleteOk, rowOk);
    case Elsewhere(_) => OwnBare(w);
    case _ =>
  }

  lemma OwnBare(w: World)
    requires Inv(w)
    ensures BaseKey(w.row.objectKey) == w.row.objectKey
  {
    BaseKeyOfVersionKey(w.row.objectKey, "");
  }

  /** No allowed run puts anything at the bare key or takes it away. */
  lemma {:induction false} BareStays(w: World, run: seq<Action>)
    requires Inv(w) && AllowedRun(w, run) && w.row.objectKey !in w.pending
    ensures BareKept(w, Run(w, run))
    decreases |run|
  {
    if run != [] {
      BareStepStays(w, run[0]);
      StepKeepsInv(w, run[0]);
      BareStays(Step(w, run[0]), run[1..]);
    }
  }
}
