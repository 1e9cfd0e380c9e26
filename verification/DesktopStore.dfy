/**
 The desktop's vault commands as they work on the files: each reads the index, changes the
 entry it finds in place, stamps every entry and writes the index back.
 */
module DesktopStore {
  import opened Results
  import opened EntryMac
  import opened VaultFile
  import opened DesktopIndex

  class Store {
    const env: Env
    var index: seq<Meta>
    var blobs: map<string, Bytes>
    var staged: Option<seq<Meta>>

    ghost function View(): (d: Disk)
      reads this
    {
      Disk(index, blobs, staged)
    }

    constructor (env: Env)
      ensures View() == DesktopIndex.EMPTY && this.env == env
    {
      this.env := env;
      index, blobs, staged := [], map[], None;
    }

    method Find(vaults: seq<Meta>, id: string) returns (p: nat)
      ensures p == Position(vaults, id) && p <= |vaults|
    {
      p := 0;
      while p < |vaults| && vaults[p].id != id
        invariant p <= |vaults|
        invariant forall i :: 0 <= i < p ==> vaults[i].id != id
      {
        p := p + 1;
      }
      PositionIs(vaults, id, p);
    }

    method StampForWrite(vaults: seq<Meta>) returns (stamped: seq<Meta>)
      ensures stamped == StampAll(env.mac, vaults)
    {
      stamped := vaults;
      for i := 0 to |vaults|
        invariant |stamped| == |vaults|
        invariant forall j :: 0 <= j < i ==> stamped[j] == Stamp(env.mac, vaults[j])
        invariant forall j :: i <= j < |vaults| ==> stamped[j] == vaults[j]
      {
        var v := stamped[i].(color := None);
        stamped := stamped[i := v.(mac := Some(env.mac(Input(v))))];
      }
    }

    method WriteIndex(vaults: seq<Meta>)
      modifies this`index
      ensures index == StampAll(env.mac, vaults)
    {
      index := StampForWrite(vaults);
    }

    method SaveVault(id: string, e: Envelope, now: string)
      modifies this
      ensures View() == Step(env, old(View()), Create(id, e, now)).disk
    {
      WriteIndex(index + [NewEntry(id, e, now)]);
    }

    method SaveVaultBlob(id: string, blob: Bytes, now: string)
      modifies this
      ensures View() == Step(env, old(View()), SaveBlob(id, blob, now)).disk
    {
      blobs := blobs[id := blob];
      var vaults := index;
      var p := Find(vaults, id);
      if p < |vaults| {
        vaults := vaults[p := vaults[p].(updated := now)];
      }
      WriteIndex(vaults);
    }

    method EditDisplay(m: Meta, e: Edit) returns (v: Meta)
      ensures v == Edited(m, e.(title := None, classical := None, pq := None, dek := None), m.updated)
    {
      v := m;
      if e.note.Some? { v := v.(note := e.note); }
      if e.sharing.Some? { v := v.(sharing := e.sharing.value); }
      if e.encryption.Some? { v := v.(encryption := e.encryption.value); }
      if e.maxVersions.Some? { v := v.(maxVersions := if e.maxVersions.value < 1 then 1 else e.maxVersions.value); }
    }

    method EditEntry(m: Meta, e: Edit, now: string) returns (v: Meta)
      ensures v == Edited(m, e, now)
    {
      v := EditDisplay(m, e);
      if e.title.Some? { v := v.(title := e.title.value, updated := now); }
      if e.classical.Some? { v := v.(classical := e.classical.value); }
      if e.pq.Some? { v := v.(pq := e.pq.value); }
      if e.dek.Some? { v := v.(dek := e.dek.value, updated := now); }
    }

    method UpdateVaultMeta(id: string, e: Edit, now: string) returns (failure: Option<Failure>)
      modifies this
      ensures Outcome(View(), failure) == Step(env, old(View()), Update(id, e, now))
    {
      var p := Find(index, id);
      if p == |index| { return Some(NoSuchVault); }
      var v := EditEntry(index[p], e, now);
      WriteIndex(index[p := v]);
      return None;
    }

    method DeleteVault(id: string)
      modifies this
      ensures View() == Step(env, old(View()), Delete(id)).disk
    {
      var kept: seq<Meta> := [];
      for i := 0 to |index|
        invariant View() == old(View()) && kept == Without(index[..i], id)
      {
        WithoutOneMore(index[..i], index[i], id);
        assert index[..i + 1] == index[..i] + [index[i]];
        if index[i].id != id { kept := kept + [index[i]]; }
      }
      assert index[..|index|] == index;
      WriteIndex(kept);
      blobs := blobs - {id};
    }

    method ExportVaultFile(id: string) returns (file: Option<Bytes>)
      ensures file == Export(env, View(), id)
    {
      var p := Find(index, id);
      if p == |index| { return None; }
      var json := env.codec.encode(index[p]);
      var blob := if id in blobs then blobs[id] else [];
      return Some(LengthField(|json|) + json + blob);
    }

    method ImportVaultFile(file: Bytes, newId: string, now: string) returns (failure: Option<Failure>)
      modifies this
      ensures Outcome(View(), failure) == Step(env, old(View()), Import(file, newId, now))
    {
      if |file| < 4 { return Some(BadFile(TooSmall)); }
      var n := ReadLength(file);
      if |file| < 4 + n { return Some(BadFile(Truncated)); }
      var meta := env.codec.decode(file[4..4 + n]);
      if meta.None? { return Some(BadFile(BadMetadata)); }
      var blob := file[4 + n..];
      WriteIndex(index + [ImportedEntry(meta.value, newId, now)]);
      if blob != [] { blobs := blobs[newId := blob]; }
      return None;
    }

    method VerifyVaultIntegrity(id: string) returns (r: Integrity)
      ensures r == Verify(env, View(), id)
    {
      var p := Find(index, id);
      if p == |index| { return Integrity.NotFound; }
      if index[p].mac.None? { return MissingMac; }
      var expected := env.mac(Input(index[p]));
      return if expected == index[p].mac.value then Integrity.Ok else Tampered;
    }

    method StageRotation(updates: seq<Rotated>)
      modifies this
      ensures View() == Step(env, old(View()), Stage(updates)).disk
    {
      var vaults := index;
      for i := 0 to |updates|
        invariant vaults == RotatedAll(index, updates[..i]) && View() == old(View())
      {
        assert updates[..i + 1][..i] == updates[..i];
        var u := updates[i];
        var p := Find(vaults, u.id);
        if p < |vaults| {
          var v := vaults[p].(title := u.title);
          if u.note.Some? { v := v.(note := if u.note.value == "" then None else u.note); }
          vaults := vaults[p := v];
        }
      }
      assert updates[..|updates|] == updates;
      var stamped := StampForWrite(vaults);
      staged := Some(stamped);
    }

    /** The second rename of a rotation. */
    method InstallStaged()
      modifies this
      ensures View() == Step(env, old(View()), Install).disk
    {
      if staged.Some? { index, staged := staged.value, None; }
    }

    /** Startup recovery: beside a staged profile the staged index goes; alone, it is installed. */
    method RecoverStaged(profileStaged: bool)
      modifies this
      ensures View() == (if old(staged).None? then old(View())
                         else Step(env, old(View()), if profileStaged then Discard else Install).disk)
      ensures staged == None
      ensures old(staged).Some? ==> index == if profileStaged then old(index) else old(staged).value
    {
      if staged.Some? {
        if profileStaged { staged := None; } else { InstallStaged(); }
      }
    }
  }
}
