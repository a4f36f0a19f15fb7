// The server's tables and the operations the handlers run on them (server-py/database.py),
// with the two decisions a handler takes on a vault row it has read (server-py/server.py).
// A database call is one atomic step.
module Database {
  import opened Common

  datatype VaultRow<+B> = VaultRow(userId: nat, version: nat, blob: B, ts: nat)

  datatype UserRow = UserRow(id: nat, username: string, kAuth: Option<Bytes>, totpSecret: Option<string>)

  datatype SessionRow = SessionRow(userId: nat, expiry: nat, clientId: Bytes)

  datatype DbError = NegativeVersion | DuplicateKey | NoSuchUser

  function Lookup<K, V>(table: map<K, V>, key: K): Option<V> {
    if key in table then Some(table[key]) else None
  }

  // The conditional upsert inserts a missing row, and updates a present one only when its
  // owner matches and its version is exactly one below the new one.
  predicate UpsertHits<K, B>(table: map<K, VaultRow<B>>, id: K, userId: nat, version: int) {
    id in table ==> table[id].userId == userId && table[id].version == version - 1
  }

  // What a handler makes of the row it read for a PUT, before it awaits the upsert.
  datatype PutCheck = Foreign | Stale | Proceed(newVersion: nat)

  function CheckPut<B>(row: Option<VaultRow<B>>, userId: nat, base: nat): PutCheck {
    if row.Some? && row.value.userId != userId then Foreign
    else
      var current := if row.Some? then row.value.version else 0;
      if base != current then Stale else Proceed(current + 1)
  }

  // What a GET answers: nothing for a missing row or somebody else's row.
  function CheckGet<B>(row: Option<VaultRow<B>>, userId: nat): Option<(nat, B)> {
    if row.None? || row.value.userId != userId then None
    else Some((row.value.version, row.value.blob))
  }

  // The foreign key of the other two tables.
  predicate HasUser(users: map<string, UserRow>, id: nat) {
    exists name | name in users :: users[name].id == id
  }

  class DatabaseManager {
    var users: map<string, UserRow>
    var vaults: map<Bytes, VaultRow<Bytes>>
    var sessions: map<Bytes, SessionRow>

    // What other handlers have made of the tables while one of them awaited.
    method OthersRan(vaults: map<Bytes, VaultRow<Bytes>>, sessions: map<Bytes, SessionRow>)
      modifies this`vaults, this`sessions
      ensures this.vaults == vaults && this.sessions == sessions
    {
      this.vaults, this.sessions := vaults, sessions;
    }

    method GetUserByUsername(username: string) returns (row: Option<UserRow>)
      ensures row == Lookup(users, username)
    {
      row := Lookup(users, username);
    }

    method GetSession(token: Bytes) returns (row: Option<SessionRow>)
      ensures row == Lookup(sessions, token)
    {
      row := Lookup(sessions, token);
    }

    method GetVault(vaultId: Bytes) returns (row: Option<VaultRow<Bytes>>)
      ensures row == Lookup(vaults, vaultId)
    {
      row := Lookup(vaults, vaultId);
    }

    // A token is a primary key and the user a foreign one: a row that breaks either rule is
    // refused and changes nothing.
    method CreateSession(token: Bytes, userId: nat, expiry: nat, clientId: Bytes)
      returns (r: Result<(), DbError>)
      modifies this`sessions
      ensures r.Ok? <==> token !in old(sessions) && HasUser(users, userId)
      ensures r.Ok? ==> sessions == old(sessions)[token := SessionRow(userId, expiry, clientId)]
      ensures r.Err? ==> sessions == old(sessions)
    {
      if token in sessions { return Err(DuplicateKey); }
      if !HasUser(users, userId) { return Err(NoSuchUser); }
      sessions := sessions[token := SessionRow(userId, expiry, clientId)];
      return Ok(());
    }

    method UpdateVault(vaultId: Bytes, userId: nat, version: int, blob: Bytes, ts: nat)
      returns (r: Result<bool, DbError>)
      modifies this`vaults
      ensures r.Err? <==> version < 0 || (vaultId !in old(vaults) && !HasUser(users, userId))
      ensures r.Ok? ==> r.value == UpsertHits(old(vaults), vaultId, userId, version)
      ensures r == Ok(true) ==> vaults == old(vaults)[vaultId := VaultRow(userId, version, blob, ts)]
      ensures r != Ok(true) ==> vaults == old(vaults)
    {
      if version < 0 { return Err(NegativeVersion); }
      if vaultId !in vaults {
        if !HasUser(users, userId) { return Err(NoSuchUser); }
        vaults := vaults[vaultId := VaultRow(userId, version, blob, ts)];
        return Ok(true);
      }
      var row := vaults[vaultId];
      if row.userId == userId && row.version == version - 1 {
        vaults := vaults[vaultId := VaultRow(userId, version, blob, ts)];
        return Ok(true);
      }
      return Ok(false);
    }
  }
}
