// What many byte-level connections of one server do to its vaults, over every run of theirs.
module VaultRuns {
  import opened Common
  import opened Primitives
  import opened ByteIO
  import opened FrameCodec
  import opened AuthPayload
  import opened Payloads
  import opened Fragments
  import opened Database
  import opened ServerSession
  import opened SessionTheorems
  import opened Provenance

  // ----- one step -----

  // A row stored for a session: its user's, one version on from what the handler read, and
  // allowed by the table it is written to.
  ghost predicate Follows(s: Session, effect: Effect, w: World) {
    effect.Stored? ==>
      && s.user == Some(effect.vault.userId)
      && effect.vault.version == (if effect.vaultId in w.vaults then w.vaults[effect.vaultId].version else 0) + 1
      && UpsertHits(w.vaultsAtUpsert, effect.vaultId, effect.vault.userId, effect.vault.version)
  }

  lemma MessageFollows(s: Session, user: nat, message: Bytes, w: World)
    requires s.user == Some(user)
    ensures Follows(s, OnMessage(s, user, message, w).effect, w)
  {}

  lemma EstablishedFollows(s: Session, f: Frame, w: World)
    ensures Follows(s, OnEstablished(s, f, w).effect, w)
  {
    if s.user.Some? && f.msgType == VAULT_PUT {
      match OnPutFrame(s.buf, f.flags, f.payload)
      case Complete(message, left) =>
        MessageFollows(s.(buf := left, startedAt := if Fragmented(f.flags) then None else s.startedAt),
                       s.user.value, message, w);
      case _ =>
    }
  }

  lemma StepFollows(p: Crypto, t: TextCodec, s: Session, e: Event)
    ensures Step(p, t, s, e).effect.Stored? ==>
              e.Data? && s.phase.Established? && Follows(s, Step(p, t, s, e).effect, e.w)
  {
    if !e.Data? || s.phase.Closed? || Decode(p, e.bytes, ActiveKey(s)).Err? {
      QuietShape(p, t, s, e);
    } else {
      var f := Decode(p, e.bytes, ActiveKey(s)).value;
      match s.phase
      case Greeting => HelloShape(s, f, e.w);
      case Authenticating => AuthShape(p, t, s, f, e.w);
      case Established => EstablishedFollows(s, f, e.w);
    }
  }

  // ----- whole runs -----

  // The effect of act i, whatever kind of act it is.
  function EffectAt(h: History, i: nat): Effect
    requires i < |h.acts|
  {
    if h.acts[i].Arrive? && h.acts[i].c in h.At(i).connections
    then Step(h.p, h.t, h.At(i).connections[h.acts[i].c], h.acts[i].e).effect
    else Nothing
  }

  // The rows stored under an id, in order.
  function Stores(h: History, n: nat, id: Bytes): seq<VaultRow<Bytes>>
    requires n <= |h.acts|
  {
    if n == 0 then []
    else
      var effect := EffectAt(h, n - 1);
      Stores(h, n - 1, id) + if effect.Stored? && effect.vaultId == id then [effect.vault] else []
  }

  // A list of versions 1, 2, ... of one owner.
  ghost predicate Consecutive(rows: seq<VaultRow<Bytes>>) {
    forall i :: 0 <= i < |rows| ==> rows[i].version == i + 1 && rows[i].userId == rows[0].userId
  }

  ghost predicate IsLast(rows: seq<VaultRow<Bytes>>, vaults: map<Bytes, VaultRow<Bytes>>, id: Bytes) {
    if rows == [] then id !in vaults else id in vaults && vaults[id] == rows[|rows| - 1]
  }

  // The rows stored so far form such a list, and the table holds its last.
  ghost predicate Linear(rows: seq<VaultRow<Bytes>>, vaults: map<Bytes, VaultRow<Bytes>>, id: Bytes) {
    Consecutive(rows) && IsLast(rows, vaults, id)
  }

  lemma OneMoreStore(h: History, i: nat, id: Bytes)
    requires h.Possible() && i < |h.acts|
    requires Linear(Stores(h, i, id), h.At(i).vaults, id)
    ensures Linear(Stores(h, i + 1, id), h.At(i + 1).vaults, id)
  {
    StoreAt(h, i, id);
    NextStore(Stores(h, i, id), h.At(i).vaults, EffectAt(h, i), id);
  }

  // What act i does to the table and to the list, and that its row may follow.
  lemma StoreAt(h: History, i: nat, id: Bytes)
    requires h.Possible() && i < |h.acts|
    ensures var effect := EffectAt(h, i);
            && h.At(i + 1).vaults == SetVault(h.At(i).vaults, effect)
            && Stores(h, i + 1, id) ==
                 Stores(h, i, id) + (if effect.Stored? && effect.vaultId == id then [effect.vault] else [])
            && MayFollow(h.At(i).vaults, effect)
  {
    var g, effect := h.At(i), EffectAt(h, i);
    if effect.Stored? {
      assert h.PossibleAt(i);
      StepFollows(h.p, h.t, g.connections[h.acts[i].c], h.acts[i].e);
    }
  }

  // A row goes in as version 1, or on top of one of its owner.
  ghost predicate MayFollow(vaults: map<Bytes, VaultRow<Bytes>>, effect: Effect) {
    effect.Stored? ==>
      if effect.vaultId in vaults then
        vaults[effect.vaultId].userId == effect.vault.userId && vaults[effect.vaultId].version + 1 == effect.vault.version
      else effect.vault.version == 1
  }

  lemma NextStore(rows: seq<VaultRow<Bytes>>, vaults: map<Bytes, VaultRow<Bytes>>, effect: Effect, id: Bytes)
    requires Linear(rows, vaults, id) && MayFollow(vaults, effect)
    ensures var rows' := rows + (if effect.Stored? && effect.vaultId == id then [effect.vault] else []);
            Linear(rows', SetVault(vaults, effect), id)
  {
    if !(effect.Stored? && effect.vaultId == id) {
      assert rows + [] == rows;
    }
  }

  lemma NothingStored(h: History, id: Bytes)
    ensures Linear(Stores(h, 0, id), h.At(0).vaults, id)
  {}

  // The versions stored under an id by all connections together are 1, 2, ..., n, all of one
  // owner, and the table holds the last of them.
  lemma {:induction false} StoredVersionsAreConsecutive(h: History, n: nat, id: Bytes)
    requires h.Possible() && n <= |h.acts|
    ensures Linear(Stores(h, n, id), h.At(n).vaults, id)
    decreases n
  {
    if n == 0 {
      NothingStored(h, id);
    } else {
      StoredVersionsAreConsecutive(h, n - 1, id);
      OneMoreStore(h, n - 1, id);
    }
  }

  // ----- the foreign keys -----

  ghost predicate KeysHold(g: Server) {
    && (forall token <- g.sessions :: HasUser(g.users, g.sessions[token].userId))
    && (forall id <- g.vaults :: HasUser(g.users, g.vaults[id].userId))
    && (forall c <- g.connections :: g.connections[c].user.Some? ==> HasUser(g.users, g.connections[c].user.value))
  }

  // Who a step makes a session or a row for exists.
  lemma StepHasUser(p: Crypto, t: TextCodec, s: Session, e: Event, users: map<string, UserRow>)
    requires Coherent(s) && (s.user.Some? ==> HasUser(users, s.user.value)) && (e.Data? ==> Older(e.w.users, users))
    ensures var o := Step(p, t, s, e);
            && (o.s.user.Some? ==> HasUser(users, o.s.user.value))
            && (o.effect.NewSession? ==> HasUser(users, o.effect.row.userId))
            && (o.effect.Stored? ==> HasUser(users, o.effect.vault.userId))
  {
    StepFollows(p, t, s, e);
    if !e.Data? || s.phase.Closed? || Decode(p, e.bytes, ActiveKey(s)).Err? {
      QuietShape(p, t, s, e);
    } else {
      var f := Decode(p, e.bytes, ActiveKey(s)).value;
      match s.phase
      case Greeting => HelloShape(s, f, e.w);
      case Authenticating =>
        AuthShape(p, t, s, f, e.w);
        if OnAuth(p, t, s, f, e.w).effect.NewSession? {
          MintingStep(p, t, s, e);
          var a := Credentials(p, t, s, e).value;
          assert e.w.users[a.username].id == OnAuth(p, t, s, f, e.w).effect.row.userId;
          assert a.username in users;
        }
      case Established => EstablishedShape(s, f, e.w); NoSessionFromEstablished(s, f, e.w);
    }
  }

  lemma UsersStay(users: map<string, UserRow>, user: UserRow, id: nat)
    requires user.username !in users && HasUser(users, id)
    ensures HasUser(users[user.username := user], id)
  {
    var name :| name in users && users[name].id == id;
    assert name in users[user.username := user];
  }

  lemma KeysHoldAfter(h: History, i: nat)
    requires h.Possible() && i < |h.acts| && KeysHold(h.At(i))
    ensures KeysHold(h.At(i + 1))
  {
    var g, g' := h.At(i), h.At(i + 1);
    assert h.PossibleAt(i);
    match h.acts[i]
    case Register(user) =>
      forall token <- g'.sessions ensures HasUser(g'.users, g'.sessions[token].userId) {
        UsersStay(g.users, user, g.sessions[token].userId);
      }
      forall id <- g'.vaults ensures HasUser(g'.users, g'.vaults[id].userId) {
        UsersStay(g.users, user, g.vaults[id].userId);
      }
      forall c <- g'.connections ensures g'.connections[c].user.Some? ==> HasUser(g'.users, g'.connections[c].user.value) {
        if g.connections[c].user.Some? { UsersStay(g.users, user, g.connections[c].user.value); }
      }
    case Accept(_) =>
    case Arrive(c, e) =>
      ConnectionsAreCoherent(h, i, c);
      StepHasUser(h.p, h.t, g.connections[c], e, g.users);
  }

  // So the foreign keys of the tables never refuse what a handler writes.
  lemma {:induction false} ForeignKeysHold(h: History, n: nat)
    requires h.Possible() && n <= |h.acts|
    ensures KeysHold(h.At(n))
    decreases n
  {
    if n > 0 {
      ForeignKeysHold(h, n - 1);
      KeysHoldAfter(h, n - 1);
    }
  }
}
