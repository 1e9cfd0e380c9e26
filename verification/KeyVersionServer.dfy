/**
 The sign-in, refresh, write-check and rotation handlers over a database of users and
 an in-process key-version cache, each proved to be its `KeyVersions` step.
 */
module KeyVersionServer {
  import opened Results
  import opened KeyVersions
  import KeyVersionEffects

  class AuthServer {
    var users: map<Id, User>
    var cache: map<Id, nat>
    ghost var minted: set<Token>

    ghost function View(): (s: Server)
      reads this
    {
      Server(users, cache, minted)
    }

    constructor (users: map<Id, User>)
      ensures View() == Server(users, map[], {})
    {
      this.users, cache, minted := users, map[], {};
    }

    method Login(user: Id, passwordOk: bool) returns (r: Result<(Token, Token)>)
      modifies this
      ensures View() == Step(old(View()), KeyVersions.Login(user, passwordOk))
      ensures r.Ok? <==> user in old(users) && !old(users)[user].locked && passwordOk
      ensures r.Ok? ==>
        var kv := old(users)[user].keyVersion;
        && r.value == (Token(user, false, Some(kv)), Token(user, true, Some(kv)))
        && users == old(users) && cache == old(cache)[user := kv] && minted == old(minted) + {r.value.0, r.value.1}
      ensures r.Err? ==> r == Err(Unauthorized) && View() == old(View())
    {
      if user !in users { return Err(Unauthorized); }
      var row := users[user];
      if row.locked { return Err(Unauthorized); }
      if !passwordOk { return Err(Unauthorized); }
      var access := Token(user, false, Some(row.keyVersion));
      var refresh := Token(user, true, Some(row.keyVersion));
      cache := cache[user := row.keyVersion];
      minted := minted + {access, refresh};
      return Ok((access, refresh));
    }

    method Refresh(token: Token) returns (r: Result<Token>)
      modifies this
      ensures View() == Step(old(View()), KeyVersions.Refresh(token))
      ensures r.Ok? <==>
        && token.isRefresh && token.sub in old(users) && !old(users)[token.sub].locked
        && token.kv == Some(old(users)[token.sub].keyVersion)
      ensures r.Ok? ==>
        && r.value == Token(token.sub, false, Some(old(users)[token.sub].keyVersion))
        && users == old(users) && cache == old(cache)[token.sub := old(users)[token.sub].keyVersion]
        && minted == old(minted) + {r.value}
      ensures r.Err? ==> r == Err(Unauthorized) && View() == old(View())
    {
      if !token.isRefresh || token.sub !in users { return Err(Unauthorized); }
      var row := users[token.sub];
      if row.locked { return Err(Unauthorized); }
      if token.kv != Some(row.keyVersion) { return Err(Unauthorized); }
      cache := cache[token.sub := row.keyVersion];
      var access := Token(token.sub, false, Some(row.keyVersion));
      minted := minted + {access};
      return Ok(access);
    }

    /** The check in front of every write; a cold cache costs one read of the row. */
    method VerifyWriter(token: Token) returns (r: Result<Id>)
      modifies this`cache
      ensures View() == Seeded(old(View()), token)
      ensures r.Ok? <==> Verified(old(View()), token).Ok?
      ensures r.Ok? <==>
        && !token.isRefresh
        && (token.kv.None?
            || (token.sub in old(cache) && token.kv.value == old(cache)[token.sub])
            || (token.sub !in old(cache) && token.sub in users && token.kv.value == users[token.sub].keyVersion))
      ensures r.Ok? && token.kv.Some? ==> cache == old(cache)[token.sub := token.kv.value]
      ensures r == if Verified(old(View()), token).Ok? then Ok(token.sub) else Err(Unauthorized)
    {
      if token.isRefresh { return Err(Unauthorized); }
      if token.kv.Some? {
        var current: nat;
        if token.sub in cache {
          current := cache[token.sub];
        } else {
          if token.sub !in users { return Err(Unauthorized); }
          current := users[token.sub].keyVersion;
          cache := cache[token.sub := current];
        }
        if token.kv.value != current { return Err(Unauthorized); }
      }
      return Ok(token.sub);
    }

    method PerformWrite(token: Token, w: Write) returns (r: Result<()>)
      modifies this
      ensures View() == Step(old(View()), WriteAs(token, w))
      ensures r.Ok? <==> Verified(old(View()), token).Ok? && token.sub in old(users)
      ensures users == if r.Ok? then old(users)[token.sub := ApplyWrite(old(users)[token.sub], w)] else old(users)
      ensures minted == old(minted)
    {
      var writer := VerifyWriter(token);
      if writer.Err? { return Err(writer.error); }
      if token.sub !in users { return Err(NotFound); }
      users := users[token.sub := ApplyWrite(users[token.sub], w)];
      return Ok(());
    }

    /** One update statement for each entry, in order. */
    method UpdateVaults(vaults: map<Id, Vault>, entries: seq<RotatedVault>) returns (r: map<Id, Vault>)
      ensures r == ApplyVaults(vaults, entries)
    {
      r := vaults;
      for i := 0 to |entries|
        invariant r == ApplyVaults(vaults, entries[..i])
      {
        assert entries[..i + 1][..i] == entries[..i];
        var e := entries[i];
        if e.id in r {
          r := r[e.id := Vault(e.title, if e.note.Some? then e.note.value else r[e.id].note)];
        }
      }
      assert entries[..|entries|] == entries;
    }

    method UpdateAttachments(attachments: map<Id, Attachment>, entries: seq<RotatedAttachment>)
      returns (r: map<Id, Attachment>)
      ensures r == ApplyAttachments(attachments, entries)
    {
      r := attachments;
      for i := 0 to |entries|
        invariant r == ApplyAttachments(attachments, entries[..i])
      {
        assert entries[..i + 1][..i] == entries[..i];
        var e := entries[i];
        if e.id in r { r := r[e.id := r[e.id].(wrap := Some(e.wrap))]; }
      }
      assert entries[..|entries|] == entries;
    }

    /** The rotation transaction: check coverage against the locked rows, then update them one by one. */
    method RotateUserCredentials(user: Id, bundle: Bundle) returns (r: Result<()>)
      requires user in users
      modifies this`users
      ensures r.Ok? <==> RotateUser(old(users)[user], bundle).Ok?
      ensures r.Ok? <==> KeyVersionEffects.Complete(old(users)[user], bundle)
      ensures users == if r.Ok? then old(users)[user := RotateUser(old(users)[user], bundle).value] else old(users)
    {
      var row := users[user];
      KeyVersionEffects.RotationTakesIff(row, bundle);
      if !Covers(row, bundle) { return Err(BadRequest); }
      var vaults := UpdateVaults(row.vaults, bundle.vaults);
      var attachments := UpdateAttachments(row.attachments, bundle.attachments);
      users := users[user := row.(keyVersion := bundle.newVersion, credential := bundle.newCredential,
                                 vaults := vaults, attachments := attachments)];
      return Ok(());
    }

    method RotateCredentials(session: Token, currentOk: bool, bundle: Bundle) returns (r: Result<(Token, Token)>)
      modifies this
      ensures View() == Step(old(View()), Rotate(session, currentOk, bundle))
      ensures r.Ok? <==>
        && !session.isRefresh && session.sub in old(users) && currentOk
        && KeyVersionEffects.Complete(old(users)[session.sub], bundle)
      ensures r.Ok? ==>
        var kv := old(users)[session.sub].keyVersion + 1;
        && r.value == (Token(session.sub, false, Some(kv)), Token(session.sub, true, Some(kv)))
        && cache == old(cache)[session.sub := kv] && minted == old(minted) + {r.value.0, r.value.1}
        && forall x :: x != session.sub ==>
             (x in users <==> x in old(users)) && (x in old(users) ==> users[x] == old(users)[x])
      ensures r.Err? ==> View() == old(View())
    {
      if session.isRefresh { return Err(Unauthorized); }
      if session.sub !in users { return Err(NotFound); }
      if !currentOk { return Err(Unauthorized); }
      var rotated := RotateUserCredentials(session.sub, bundle);
      if rotated.Err? { return Err(BadRequest); }
      cache := cache[session.sub := bundle.newVersion];
      var access := Token(session.sub, false, Some(bundle.newVersion));
      var refresh := Token(session.sub, true, Some(bundle.newVersion));
      minted := minted + {access, refresh};
      return Ok((access, refresh));
    }
  }
}
