/** The table of API tokens as the service changes it, each method proved to be the step of `ApiTokens`. */
module ApiTokenStore {
  import opened Common
  import opened TokenFormat
  import opened ApiTokens

  datatype Refusal = BadScope | BadExpiryAsked | TooMany

  lemma RevokeAllLeavesNone(st: State, userId: User)
    requires Inv(st)
    ensures LiveIds(OnRevokeAll(st, userId).table, userId) == {} && Inv(OnRevokeAll(st, userId))
  {
  }

  class Store {
    var table: map<Id, Row>
    var now: int
    // Mints between their check and their insertion.
    var minting: seq<Request>
    ghost var issued: set<Id>

    ghost function View(): State
      reads this
    {
      State(table, now, minting, issued)
    }

    constructor ()
      ensures View() == Init && Inv(View())
    {
      table, now, minting, issued := map[], 0, [], {};
    }

    /** `mintToken` up to its last await; `askedAt` is when it was called, before the count was awaited. */
    method MintCheck(userId: User, scope: string, days: Days, askedAt: int) returns (refusal: Option<Refusal>)
      requires Inv(View()) && askedAt <= now
      modifies this
      ensures View() == Step(old(View()), Event.MintCheck(userId, scope, days, askedAt)) && Inv(View())
      ensures refusal == Some(TooMany) ==> |LiveIds(table, userId)| >= MAX_TOKENS_PER_USER
      ensures refusal.None? <==> |minting| == |old(minting)| + 1
    {
      if scope !in SCOPES { return Some(BadScope); }
      var expiry := ExpiryFromDays(days, askedAt);
      if expiry.BadExpiry? { return Some(BadExpiryAsked); }
      var held := |LiveIds(table, userId)|;
      if held >= MAX_TOKENS_PER_USER { return Some(TooMany); }
      minting := minting + [Request(userId, scope, expiry.at)];
      return None;
    }

    /** The rest of `mintToken`: the value is readable here and never again. */
    method MintInsert(which: nat, name: string, id: Id, secret: string) returns (value: string)
      requires Inv(View()) && Enabled(View(), Event.MintInsert(which, name, id, secret))
      modifies this
      ensures View() == Step(old(View()), Event.MintInsert(which, name, id, secret)) && Inv(View())
      ensures ParseToken(value) == Some(Parts(id, secret))
    {
      StepKeepsInv(View(), Event.MintInsert(which, name, id, secret));
      hide Inv;
      var r := minting[which];
      table := table[id := Row(r.userId, name, Digest(secret), r.scope, now, r.expiresAt, None, None)];
      minting := minting[..which] + minting[which + 1..];
      issued := issued + {id};
      value := Value(Parts(id, secret));
      ParsesExactly(value, Parts(id, secret));
    }

    method RenameToken(userId: User, id: Id, name: string) returns (renamed: bool)
      requires Inv(View())
      modifies this`table
      ensures View() == Step(old(View()), Event.Rename(userId, id, name)) && Inv(View())
      ensures renamed == Owns(old(View()), userId, id)
    {
      if id !in table || table[id].userId != userId || table[id].revokedAt.Some? { return false; }
      table := table[id := table[id].(name := name)];
      return true;
    }

    method NoteUse(id: Id)
      requires Inv(View())
      modifies this`table
      ensures View() == Step(old(View()), Event.NoteUse(id)) && Inv(View())
    {
      if id in table { table := table[id := table[id].(lastUsedAt := Some(now))]; }
    }

    method PurgeOldTombstones(userId: User)
      modifies this`table
      ensures table == Purge(old(table), userId, now)
    {
      var cutoff := now - TOMBSTONE_DAYS * DAY;
      table := map id | id in table && !(table[id].userId == userId && table[id].revokedAt.Some? && table[id].revokedAt.value < cutoff) :: table[id];
    }

    method RevokeToken(userId: User, id: Id) returns (revoked: bool)
      requires Inv(View())
      modifies this`table
      ensures View() == Step(old(View()), Event.Revoke(userId, id)) && Inv(View())
      ensures revoked == Owns(old(View()), userId, id)
    {
      if id !in table || table[id].userId != userId || table[id].revokedAt.Some? { return false; }
      table := table[id := table[id].(revokedAt := Some(now), hash := Revoked)];
      PurgeOldTombstones(userId);
      return true;
    }

    method RevokeAllTokens(userId: User) returns (changes: nat)
      requires Inv(View())
      modifies this`table
      ensures View() == Step(old(View()), Event.RevokeAll(userId)) && Inv(View())
      ensures changes == |LiveIds(old(table), userId)| && LiveIds(table, userId) == {}
    {
      RevokeAllLeavesNone(View(), userId);
      hide Inv, LiveIds, Purge;
      changes := |LiveIds(table, userId)|;
      table := map id | id in table :: if table[id].userId == userId && table[id].revokedAt.None?
                                       then table[id].(revokedAt := Some(now), hash := Revoked) else table[id];
      assert table == BuryAll(old(table), userId, now);
      PurgeOldTombstones(userId);
    }

    method AuthenticateToken(value: string) returns (answer: Answer)
      ensures answer == Authenticate(View(), value)
      ensures answer.Ok? ==> answer.tokenId in table && table[answer.tokenId].revokedAt.None? && answer.userId == table[answer.tokenId].userId
    {
      var parsed := ParseToken(value);
      if parsed.None? { return Malformed; }
      var id := parsed.value.id;
      if id !in table { return Unknown; }
      var row := table[id];
      if row.revokedAt.Some? { return WasRevoked(id); }
      if row.hash != Digest(parsed.value.secret) { return Unknown; }
      if row.expiresAt.Some? && row.expiresAt.value <= now { return Expired(id); }
      return Ok(row.userId, id, if row.scope in SCOPES then row.scope else "read");
    }
  }
}
