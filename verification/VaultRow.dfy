/**
 The vault row: its version history, how a version id resolves to an object key,
 and how retention trims the history.
 */
module VaultRow {
  import opened Results
  import opened KeyLayout

  type Time = int

  /** The KEM envelope that unwraps a version's data key. */
  datatype Envelope = Envelope(ephClassicalPublic: string, ephPqCiphertext: string, wrappedDek: string)

  /** One saved version. `objectKey` is absent on rows older than per-version keys. */
  datatype Snapshot = Snapshot(
    versionId: string, envelope: Envelope, savedAt: Time, objectKey: Option<string>, sizeBytes: Option<int>)

  /** What the vault list shows, all of it encrypted or chosen by the client. */
  datatype Details = Details(
    title: string, color: Option<string>, note: Option<string>, encryptionMode: string, labels: seq<string>)

  datatype Row = Row(
    objectKey: string, current: Option<string>, history: seq<Snapshot>,
    maxVersions: nat, envelope: Envelope, updatedAt: Time, details: Details)

  // ---- Normalising the history -------------------------------------------

  function NormalizeFrom(h: seq<Snapshot>, seen: set<string>): (r: seq<Snapshot>) {
    if h == [] then []
    else
      var id := NormalizeVersionId(h[0].versionId);
      if id == [] || id in seen then NormalizeFrom(h[1..], seen)
      else [h[0].(versionId := id)] + NormalizeFrom(h[1..], seen + {id})
  }

  function NormalizeHistory(h: seq<Snapshot>): (r: seq<Snapshot>) {
    NormalizeFrom(h, {})
  }

  ghost predicate DistinctIds(h: seq<Snapshot>) {
    forall i, j :: 0 <= i < j < |h| ==> h[i].versionId != h[j].versionId
  }

  /** Whatever the row holds, its normal form has distinct, non-empty ids. */
  lemma {:induction false} NormalFormIdsDistinct(h: seq<Snapshot>, seen: set<string>)
    ensures DistinctIds(NormalizeFrom(h, seen))
    ensures forall s :: s in NormalizeFrom(h, seen) ==> s.versionId != [] && s.versionId !in seen
  {
    if h != [] {
      var id := NormalizeVersionId(h[0].versionId);
      NormalFormIdsDistinct(h[1..], if id == [] || id in seen then seen else seen + {id});
    }
  }

  /** Entry `i` is the first whose id normalises to what its own does, and that is not empty. */
  predicate FirstOfItsId(h: seq<Snapshot>, i: nat) {
    && i < |h| && NormalizeVersionId(h[i].versionId) != ""
    && forall k :: 0 <= k < i ==> NormalizeVersionId(h[k].versionId) != NormalizeVersionId(h[i].versionId)
  }

  /** The first entry of every id is kept, under its normalised id and otherwise unchanged. */
  lemma {:induction false} FirstEntryIsKept(h: seq<Snapshot>, seen: set<string>, i: nat) returns (j: nat)
    requires FirstOfItsId(h, i) && NormalizeVersionId(h[i].versionId) !in seen
    ensures j < |NormalizeFrom(h, seen)|
    ensures NormalizeFrom(h, seen)[j] == h[i].(versionId := NormalizeVersionId(h[i].versionId))
  {
    var id := NormalizeVersionId(h[0].versionId);
    if i == 0 {
      j := 0;
    } else {
      assert FirstOfItsId(h[1..], i - 1);
      if id == "" || id in seen {
        j := FirstEntryIsKept(h[1..], seen, i - 1);
      } else {
        j := FirstEntryIsKept(h[1..], seen + {id}, i - 1);
        j := j + 1;
      }
    }
  }

  /** And nothing else is in the normal form. */
  lemma {:induction false} KeptIsFirst(h: seq<Snapshot>, seen: set<string>, j: nat) returns (i: nat)
    requires j < |NormalizeFrom(h, seen)|
    ensures FirstOfItsId(h, i) && NormalizeVersionId(h[i].versionId) !in seen
    ensures NormalizeFrom(h, seen)[j] == h[i].(versionId := NormalizeVersionId(h[i].versionId))
  {
    var id := NormalizeVersionId(h[0].versionId);
    if id == "" || id in seen {
      i := KeptIsFirst(h[1..], seen, j);
      i := i + 1;
    } else if j == 0 {
      i := 0;
    } else {
      i := KeptIsFirst(h[1..], seen + {id}, j - 1);
      i := i + 1;
    }
  }

  /** The loop with its seen-set computes the normalised history. */
  method NormalizeVersionHistory(history: seq<Snapshot>) returns (normalized: seq<Snapshot>)
    ensures normalized == NormalizeHistory(history)
  {
    normalized := [];
    var seen: set<string> := {};
    for i := 0 to |history|
      invariant normalized + NormalizeFrom(history[i..], seen) == NormalizeHistory(history)
    {
      var id := NormalizeVersionId(history[i].versionId);
      assert history[i..][0] == history[i] && history[i..][1..] == history[i + 1..];
      if id != [] && id !in seen {
        var moved := history[i].(versionId := id);
        assert normalized + ([moved] + NormalizeFrom(history[i + 1..], seen + {id}))
            == (normalized + [moved]) + NormalizeFrom(history[i + 1..], seen + {id});
        seen := seen + {id};
        normalized := normalized + [moved];
      }
    }
    assert history[|history|..] == [];
  }

  /** A history of distinct, valid ids is its own normal form. */
  lemma {:induction false} NormalFormOfValid(h: seq<Snapshot>, seen: set<string>)
    requires DistinctIds(h)
    requires forall i :: 0 <= i < |h| ==> ValidId(h[i].versionId) && h[i].versionId !in seen
    ensures NormalizeFrom(h, seen) == h
  {
    if h != [] {
      ValidIdIsFixedPoint(h[0].versionId);
      NormalFormOfValid(h[1..], seen + {h[0].versionId});
      assert h == [h[0]] + h[1..];
    }
  }

  // ---- Resolving a version to an object key ------------------------------

  function FindVersion(h: seq<Snapshot>, id: string): (r: Option<Snapshot>)
    ensures r.Some? ==> r.value in h && r.value.versionId == id
    ensures r.None? ==> forall s :: s in h ==> s.versionId != id
  {
    if h == [] then None
    else if h[0].versionId == id then Some(h[0])
    else FindVersion(h[1..], id)
  }

  /** With distinct ids the search finds the one entry carrying the id. */
  lemma {:induction false} FindsTheEntry(h: seq<Snapshot>, i: nat)
    requires i < |h| && DistinctIds(h)
    ensures FindVersion(h, h[i].versionId) == Some(h[i])
  {
    if i > 0 {
      FindsTheEntry(h[1..], i - 1);
    }
  }

  function CurrentId(row: Row): (r: Option<string>) {
    match row.current
    case None => None
    case Some(raw) =>
      var v := NormalizeVersionId(raw);
      if v == [] then None else Some(v)
  }

  function ResolveWanted(row: Row, wanted: string): (r: Result<string>) {
    var found := FindVersion(NormalizeHistory(row.history), wanted);
    if found.Some? && found.value.objectKey.Some? then Ok(found.value.objectKey.value)
    else if CurrentId(row) == Some(wanted) then Ok(row.objectKey)
    else Err(NotFound)
  }

  /** No version id means the current version. */
  function ResolveBlobKey(row: Row, versionId: Option<string>): (r: Result<string>) {
    match versionId
    case Some(raw) =>
      (match ValidateVersionId(raw)
       case Err(e) => Err(e)
       case Ok(wanted) => ResolveWanted(row, wanted))
    case None =>
      (match CurrentId(row)
       case None => Ok(row.objectKey)
       case Some(current) => ResolveWanted(row, current))
  }

  // ---- Retention ---------------------------------------------------------

  function Keep(maxVersions: nat): (k: nat) {
    if maxVersions < 1 then 1 else maxVersions
  }

  function Excess(h: seq<Snapshot>, maxVersions: nat): (n: nat)
    ensures n <= |h|
  {
    if |h| <= Keep(maxVersions) then 0 else |h| - Keep(maxVersions)
  }

  function KeysOf(h: seq<Snapshot>): (r: seq<string>) {
    if h == [] then []
    else (if h[0].objectKey.Some? then [h[0].objectKey.value] else []) + KeysOf(h[1..])
  }

  /** Some entry of the history is stored under this key. */
  ghost predicate Named(h: seq<Snapshot>, k: string) {
    exists i :: 0 <= i < |h| && h[i].objectKey == Some(k)
  }

  lemma {:induction false} KeysOfAreNamed(h: seq<Snapshot>, k: string)
    ensures k in KeysOf(h) <==> Named(h, k)
  {
    if h != [] {
      KeysOfAreNamed(h[1..], k);
      if Named(h[1..], k) {
        var i :| 0 <= i < |h[1..]| && h[1..][i].objectKey == Some(k);
        assert h[i + 1].objectKey == Some(k);
      }
      if Named(h, k) && h[0].objectKey != Some(k) {
        var i :| 0 <= i < |h| && h[i].objectKey == Some(k);
        assert h[1..][i - 1].objectKey == Some(k);
      }
    }
  }

  lemma {:induction false} KeysOfAppend(h: seq<Snapshot>, s: Snapshot)
    ensures KeysOf(h + [s]) == KeysOf(h) + (if s.objectKey.Some? then [s.objectKey.value] else [])
  {
    if h == [] {
      assert [] + [s] == [s];
    } else {
      KeysOfAppend(h[1..], s);
      assert (h + [s])[1..] == h[1..] + [s];
    }
  }

  /** Drains the oldest entries and returns their object keys, oldest first. */
  method PruneHistory(history: seq<Snapshot>, maxVersions: nat) returns (kept: seq<Snapshot>, dropped: seq<string>)
    ensures kept == history[Excess(history, maxVersions)..]
    ensures dropped == KeysOf(history[..Excess(history, maxVersions)])
    ensures |kept| == if |history| <= Keep(maxVersions) then |history| else Keep(maxVersions)
  {
    var keep := if maxVersions < 1 then 1 else maxVersions;
    if |history| <= keep {
      return history, [];
    }
    var excess := |history| - keep;
    dropped := [];
    for i := 0 to excess
      invariant dropped == KeysOf(history[..i])
    {
      KeysOfAppend(history[..i], history[i]);
      assert history[..i] + [history[i]] == history[..i + 1];
      if history[i].objectKey.Some? {
        dropped := dropped + [history[i].objectKey.value];
      }
    }
    kept := history[excess..];
  }
}
