/**
 Listing, totalling and deleting objects through a paginated listing.

 A listing is the sequence of pages the store would answer with; a request without a
 continuation token gets page 0 and a request with token `t` gets page `t`.
 */
module ObjectStore {
  import opened Results
  import opened KeyLayout

  datatype Listed = Listed(key: Option<string>, size: Option<int>)

  datatype Page = Page(contents: seq<Listed>, truncated: bool, next: Option<nat>)

  datatype Visit = Visit(key: string, size: nat)

  /**
   Every page but the last says it is truncated and carries the token of the next one; the
   last is not truncated, or has no token to go on with.
   */
  predicate Chained(pages: seq<Page>) {
    && pages != []
    && (forall i :: 0 <= i < |pages| - 1 ==> pages[i].truncated && pages[i].next == Some(i + 1))
    && (!pages[|pages| - 1].truncated || pages[|pages| - 1].next.None?)
  }

  function SizeOf(l: Listed): (n: nat) {
    if l.size.Some? && l.size.value > 0 then l.size.value else 0
  }

  function VisitsOf(contents: seq<Listed>): (r: seq<Visit>) {
    if contents == [] then []
    else
      var rest := VisitsOf(contents[..|contents| - 1]);
      var last := contents[|contents| - 1];
      if last.key.Some? then rest + [Visit(last.key.value, SizeOf(last))] else rest
  }

  function AllVisits(pages: seq<Page>): (r: seq<Visit>) {
    if pages == [] then []
    else AllVisits(pages[..|pages| - 1]) + VisitsOf(pages[|pages| - 1].contents)
  }

  /** Follows continuation tokens for at most `maxPages` pages; `complete` is false when that cut it short. */
  method WalkObjects(pages: seq<Page>, maxPages: nat) returns (complete: bool, visited: seq<Visit>)
    requires Chained(pages)
    ensures complete <==> |pages| <= maxPages
    ensures visited == AllVisits(pages[..if complete then |pages| else maxPages])
  {
    visited := [];
    var continuation: Option<nat> := None;
    for n := 0 to maxPages
      invariant n < |pages|
      invariant continuation == if n == 0 then None else Some(n)
      invariant visited == AllVisits(pages[..n])
    {
      var response := pages[if continuation.Some? then continuation.value else 0];
      var start := visited;
      for i := 0 to |response.contents|
        invariant visited == start + VisitsOf(response.contents[..i])
      {
        assert response.contents[..i + 1][..i] == response.contents[..i];
        if response.contents[i].key.Some? {
          visited := visited + [Visit(response.contents[i].key.value, SizeOf(response.contents[i]))];
        }
      }
      assert response.contents[..|response.contents|] == response.contents;
      assert pages[..n + 1][..n] == pages[..n];
      if !response.truncated {
        return true, visited;
      }
      continuation := response.next;
      if continuation.None? {
        return true, visited;
      }
    }
    complete := false;
  }

  /** One listed object is visited under its key with its size, or with zero if that is missing or negative. */
  lemma OneVisit(l: Listed)
    ensures VisitsOf([l])
         == if l.key.None? then []
            else if l.size.Some? && l.size.value >= 0 then [Visit(l.key.value, l.size.value)]
            else [Visit(l.key.value, 0)]
  {
    assert [l][..0] == [];
  }

  /** Objects are visited in the order they are listed. */
  lemma {:induction false} VisitsInOrder(a: seq<Listed>, b: seq<Listed>)
    ensures VisitsOf(a + b) == VisitsOf(a) + VisitsOf(b)
  {
    if b == [] {
      assert a + b == a;
    } else {
      var n := |b| - 1;
      VisitsInOrder(a, b[..n]);
      assert (a + b)[..|a + b| - 1] == a + b[..n];
    }
  }

  /** Pages are visited in order. */
  lemma PageAfterPage(pages: seq<Page>, last: Page)
    ensures AllVisits(pages + [last]) == AllVisits(pages) + VisitsOf(last.contents)
  {
    assert (pages + [last])[..|pages|] == pages;
  }

  // ---- Totals per base key -------------------------------------------------

  function TotalFor(base: string, visits: seq<Visit>): (n: nat) {
    if visits == [] then 0
    else
      TotalFor(base, visits[..|visits| - 1])
      + (if BaseKey(visits[|visits| - 1].key) == base then visits[|visits| - 1].size else 0)
  }

  predicate Seen(base: string, visits: seq<Visit>) {
    exists i :: 0 <= i < |visits| && BaseKey(visits[i].key) == base
  }

  /** Totals the bytes stored under each wanted base key. */
  method PrefixSizeTotals(objectKeys: set<string>, pages: seq<Page>) returns (totals: map<string, nat>)
    requires Chained(pages)
    ensures forall b :: b in totals <==> b in objectKeys && Seen(b, AllVisits(pages))
    ensures forall b :: b in totals ==> totals[b] == TotalFor(b, AllVisits(pages))
  {
    totals := map[];
    if objectKeys == {} { return; }
    var complete, visits := WalkObjects(pages, |pages|);
    assert pages[..|pages|] == pages;
    for i := 0 to |visits|
      invariant forall b :: b in totals <==> b in objectKeys && Seen(b, visits[..i])
      invariant forall b :: b in totals ==> totals[b] == TotalFor(b, visits[..i])
    {
      TotalStep(objectKeys, visits, i, totals);
      totals := Add(objectKeys, totals, visits[i]);
    }
    assert visits[..|visits|] == visits;
  }

  /** One visit: the running total of its base key, if wanted, grows by its size. */
  function Add(objectKeys: set<string>, totals: map<string, nat>, v: Visit): (r: map<string, nat>) {
    var base := BaseKey(v.key);
    if base in objectKeys then totals[base := (if base in totals then totals[base] else 0) + v.size] else totals
  }

  lemma TotalStep(objectKeys: set<string>, visits: seq<Visit>, i: nat, totals: map<string, nat>)
    requires i < |visits|
    requires forall b :: b in totals <==> b in objectKeys && Seen(b, visits[..i])
    requires forall b :: b in totals ==> totals[b] == TotalFor(b, visits[..i])
    ensures var r := Add(objectKeys, totals, visits[i]);
            && (forall b :: b in r <==> b in objectKeys && Seen(b, visits[..i + 1]))
            && (forall b :: b in r ==> r[b] == TotalFor(b, visits[..i + 1]))
  {
    var r := Add(objectKeys, totals, visits[i]);
    assert visits[..i + 1][..i] == visits[..i];
    forall b
      ensures Seen(b, visits[..i + 1]) <==> Seen(b, visits[..i]) || BaseKey(visits[i].key) == b
    {
      SeenStep(b, visits, i);
    }
    forall b | b in objectKeys && !Seen(b, visits[..i])
      ensures TotalFor(b, visits[..i]) == 0
    {
      UnseenIsZero(b, visits[..i]);
    }
  }

  lemma SeenStep(b: string, visits: seq<Visit>, i: nat)
    requires i < |visits|
    ensures Seen(b, visits[..i + 1]) <==> Seen(b, visits[..i]) || BaseKey(visits[i].key) == b
  {
    if Seen(b, visits[..i]) {
      var j :| 0 <= j < i && BaseKey(visits[..i][j].key) == b;
      assert visits[..i + 1][j] == visits[..i][j];
    }
    if BaseKey(visits[i].key) == b { assert visits[..i + 1][i] == visits[i]; }
    if Seen(b, visits[..i + 1]) && BaseKey(visits[i].key) != b {
      var j :| 0 <= j < i + 1 && BaseKey(visits[..i + 1][j].key) == b;
      assert visits[..i][j] == visits[..i + 1][j];
    }
  }

  lemma {:induction false} UnseenIsZero(b: string, visits: seq<Visit>)
    requires !Seen(b, visits)
    ensures TotalFor(b, visits) == 0
  {
    if visits != [] {
      var n := |visits| - 1;
      assert visits[n].key == visits[n].key && BaseKey(visits[n].key) != b;
      forall j | 0 <= j < n ensures BaseKey(visits[..n][j].key) != b { assert visits[..n][j] == visits[j]; }
      UnseenIsZero(b, visits[..n]);
    }
  }

  // ---- Deleting a blob and every version of it ------------------------------

  function KeysIn(visits: seq<Visit>): (r: set<string>) {
    set i | 0 <= i < |visits| :: visits[i].key
  }

  /** The pages list, in some order, the keys of the store that start with `prefix`. */
  ghost predicate ListsKeysUnder(pages: seq<Page>, objects: map<string, Bytes>, prefix: string) {
    && Chained(pages)
    && KeysIn(AllVisits(pages)) == set k | k in objects && HasPrefix(k, prefix)
  }

  function KeySeq(visits: seq<Visit>): (keys: seq<string>) {
    seq(|visits|, i requires 0 <= i < |visits| => visits[i].key)
  }

  /** The keys that are deleted before a deletion is refused. */
  function DeletedFirst(keys: seq<string>, refused: set<string>): (gone: seq<string>)
    ensures |gone| <= |keys|
  {
    if keys == [] || keys[0] in refused then [] else [keys[0]] + DeletedFirst(keys[1..], refused)
  }

  lemma {:induction false} DeletedUpTo(keys: seq<string>, refused: set<string>, n: nat)
    requires n <= |keys| && (n < |keys| ==> keys[n] in refused)
    requires forall i :: 0 <= i < n ==> keys[i] !in refused
    ensures DeletedFirst(keys, refused) == keys[..n]
  {
    if n > 0 {
      DeletedUpTo(keys[1..], refused, n - 1);
      assert keys[..n] == [keys[0]] + keys[1..][..n - 1];
    }
  }

  function KeySet(keys: seq<string>): (r: set<string>) {
    set i | 0 <= i < |keys| :: keys[i]
  }

  lemma KeySetStep(keys: seq<string>, i: nat)
    requires i < |keys|
    ensures KeySet(keys[..i + 1]) == KeySet(keys[..i]) + {keys[i]}
  {
    assert keys[..i + 1][i] == keys[i];
    assert forall j :: 0 <= j < i ==> keys[..i + 1][j] == keys[..i][j];
  }

  /** The keys deleting a vault goes through: those its listing shows, then the bare one. */
  function VaultKeys(objectKey: string, listing: Option<seq<Page>>): (keys: seq<string>) {
    (if listing.Some? then KeySeq(AllVisits(listing.value)) else []) + [objectKey]
  }

  lemma VaultKeysAre(objectKey: string, listing: Option<seq<Page>>)
    ensures KeySet(VaultKeys(objectKey, listing))
         == (if listing.Some? then KeysIn(AllVisits(listing.value)) else {}) + {objectKey}
  {
    var keys := VaultKeys(objectKey, listing);
    var n := |keys| - 1;
    KeySetStep(keys, n);
    assert keys[..n + 1] == keys;
    if listing.Some? {
      var visits := AllVisits(listing.value);
      assert forall i :: 0 <= i < n ==> keys[..n][i] == visits[i].key;
    }
  }

  /** A listing of the vault's version segment shows nothing of another vault. */
  lemma VaultKeysAreOwned(objectKey: string, listing: Option<seq<Page>>, objects: map<string, Bytes>, k: string)
    requires SlashFree(objectKey)
    requires listing.Some? ==> ListsKeysUnder(listing.value, objects, objectKey + VERSION_SEGMENT)
    ensures k in KeySet(VaultKeys(objectKey, listing)) ==> BaseKey(k) == objectKey
    ensures listing.Some? && k in objects && BaseKey(k) == objectKey ==> k in KeySet(VaultKeys(objectKey, listing))
  {
    VaultKeysAre(objectKey, listing);
    OwnedIffPrefix(objectKey, k);
  }

  lemma {:induction false} DeletedAreKeys(keys: seq<string>, refused: set<string>)
    ensures KeySet(DeletedFirst(keys, refused)) <= KeySet(keys)
  {
    if keys != [] && keys[0] !in refused {
      DeletedAreKeys(keys[1..], refused);
      var rest := DeletedFirst(keys[1..], refused);
      forall k | k in KeySet([keys[0]] + rest) ensures k in KeySet(keys) {
        var i :| 0 <= i < 1 + |rest| && ([keys[0]] + rest)[i] == k;
        if i == 0 {
          assert keys[0] == k;
        } else {
          assert rest[i - 1] == k && k in KeySet(rest);
          var j :| 0 <= j < |keys[1..]| && keys[1..][j] == k;
          assert keys[j + 1] == k;
        }
      }
    }
  }

  /** What goes is the vault's own, and when nothing is refused after a good listing, it is all of it. */
  lemma GoneAreOwned(objectKey: string, listing: Option<seq<Page>>, objects: map<string, Bytes>, refused: set<string>)
    requires listing.Some? ==> ListsKeysUnder(listing.value, objects, objectKey + VERSION_SEGMENT)
    ensures SlashFree(objectKey) ==>
      forall k :: k in KeySet(DeletedFirst(VaultKeys(objectKey, listing), refused)) ==> BaseKey(k) == objectKey
    ensures SlashFree(objectKey) && listing.Some? ==>
      forall k :: k in objects && BaseKey(k) == objectKey ==> k in KeySet(VaultKeys(objectKey, listing))
  {
    DeletedAreKeys(VaultKeys(objectKey, listing), refused);
    if SlashFree(objectKey) {
      forall k
        ensures k in KeySet(VaultKeys(objectKey, listing)) ==> BaseKey(k) == objectKey
        ensures listing.Some? && k in objects && BaseKey(k) == objectKey ==> k in KeySet(VaultKeys(objectKey, listing))
      {
        VaultKeysAreOwned(objectKey, listing, objects, k);
      }
    }
  }

  class Bucket {
    var objects: map<string, Bytes>

    /** The store refuses to delete the keys in `refused`. */
    method DeleteObject(key: string, refused: set<string>) returns (r: Result<()>)
      modifies this
      ensures objects == if key in refused then old(objects) else old(objects) - {key}
      ensures r == if key in refused then Err(Storage) else Ok(())
    {
      if key in refused { return Err(Storage); }
      objects := objects - {key};
      return Ok(());
    }

    /** One after the other; the first deletion that fails ends it. */
    method DeleteKeys(keys: seq<string>, refused: set<string>) returns (r: Result<()>)
      modifies this
      ensures objects == old(objects) - KeySet(DeletedFirst(keys, refused))
      ensures r == if exists k :: k in keys && k in refused then Err(Storage) else Ok(())
      ensures r.Ok? ==> DeletedFirst(keys, refused) == keys
    {
      for i := 0 to |keys|
        invariant objects == old(objects) - KeySet(keys[..i])
        invariant forall j :: 0 <= j < i ==> keys[j] !in refused
      {
        KeySetStep(keys, i);
        var answer := DeleteObject(keys[i], refused);
        if answer.Err? {
          DeletedUpTo(keys, refused, i);
          assert keys[i] in keys;
          return answer;
        }
      }
      DeletedUpTo(keys, refused, |keys|);
      assert keys[..|keys|] == keys;
      return Ok(());
    }

    /** A failed listing is treated as an empty one, so only the bare key is then removed. */
    method DeleteAllVersions(
        objectKey: string, listing: Option<seq<Page>>, refused: set<string>) returns (r: Result<()>)
      requires listing.Some? ==> ListsKeysUnder(listing.value, objects, objectKey + VERSION_SEGMENT)
      modifies this
      ensures var keys := VaultKeys(objectKey, listing);
              && objects == old(objects) - KeySet(DeletedFirst(keys, refused))
              && r == if exists k :: k in keys && k in refused then Err(Storage) else Ok(())
      ensures SlashFree(objectKey) ==>
        forall k :: k in old(objects) && BaseKey(k) != objectKey ==> k in objects && objects[k] == old(objects)[k]
      ensures SlashFree(objectKey) && listing.Some? && r.Ok? ==>
        objects == map k | k in old(objects) && BaseKey(k) != objectKey :: old(objects)[k]
      ensures listing.None? && r.Ok? ==> objects == old(objects) - {objectKey}
    {
      var keys: seq<string> := [];
      if listing.Some? {
        var complete, visits := WalkObjects(listing.value, |listing.value|);
        assert listing.value[..|listing.value|] == listing.value;
        keys := KeySeq(visits);
      }
      r := DeleteKeys(keys + [objectKey], refused);
      GoneAreOwned(objectKey, listing, old(objects), refused);
      VaultKeysAre(objectKey, listing);
    }
  }
}
