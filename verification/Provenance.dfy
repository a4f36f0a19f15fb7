// Where sessions come from: many connections of one server, over every run of theirs.
module Provenance {
  import opened Common
  import opened Primitives
  import opened ByteIO
  import opened FrameCodec
  import opened AuthPayload
  import opened Database
  import opened ServerSession
  import opened SessionTheorems

  // The tables and the state of every connection.
  datatype Server = Server(users: map<string, UserRow>, sessions: map<Bytes, SessionRow>,
                           vaults: map<Bytes, VaultRow<Bytes>>, connections: map<nat, Session>)

  // An account appears, a connection is accepted, or an event reaches a connection.
  datatype Act = Register(user: UserRow) | Accept(c: nat) | Arrive(c: nat, e: Event)

  // Users and sessions are only ever inserted, and no vault is ever deleted, so a handler that
  // awaits may have read an older table, but sees no row that is gone when it writes its own.
  ghost predicate Older<K(!new), V>(was: map<K, V>, table: map<K, V>) {
    forall k :: k in was ==> k in table && table[k] == was[k]
  }

  ghost predicate Sees(g: Server, w: World) {
    && Older(w.users, g.users) && Older(w.sessions, g.sessions) && w.sessionsAtInsert == g.sessions
    && w.vaults.Keys <= g.vaults.Keys && w.vaultsAtUpsert == g.vaults
  }

  ghost predicate Enabled(g: Server, a: Act) {
    match a
    case Register(user) => user.username !in g.users
    case Accept(c) => c !in g.connections
    case Arrive(c, e) => c in g.connections && (e.Data? ==> Sees(g, e.w))
  }

  function AddSession(sessions: map<Bytes, SessionRow>, effect: Effect): map<Bytes, SessionRow> {
    if effect.NewSession? then sessions[effect.token := effect.row] else sessions
  }

  function SetVault(vaults: map<Bytes, VaultRow<Bytes>>, effect: Effect): map<Bytes, VaultRow<Bytes>> {
    if effect.Stored? then vaults[effect.vaultId := effect.vault] else vaults
  }

  datatype History = History(p: Crypto, t: TextCodec, acts: seq<Act>) {
    function At(n: nat): Server
      requires n <= |acts|
    {
      if n == 0 then Server(map[], map[], map[], map[])
      else
        var g := At(n - 1);
        match acts[n - 1]
        case Register(user) => g.(users := g.users[user.username := user])
        case Accept(c) => g.(connections := g.connections[c := NEW_SESSION])
        case Arrive(c, e) =>
          if c !in g.connections then g
          else
            var o := Step(p, t, g.connections[c], e);
            g.(connections := g.connections[c := o.s], sessions := AddSession(g.sessions, o.effect),
                vaults := SetVault(g.vaults, o.effect))
    }

    ghost predicate PossibleAt(i: nat)
      requires i < |acts|
    {
      Enabled(At(i), acts[i])
    }

    ghost predicate Possible() {
      forall i :: 0 <= i < |acts| ==> PossibleAt(i)
    }

    // The connection, event and outcome of act i, if it is the arrival of an event.
    predicate Arrives(i: nat)
      requires i < |acts|
    {
      acts[i].Arrive? && acts[i].c in At(i).connections && acts[i].e.Data?
    }

    function Before(i: nat): Session
      requires i < |acts| && Arrives(i)
    {
      At(i).connections[acts[i].c]
    }

    function EffectOf(i: nat): Effect
      requires i < |acts| && Arrives(i)
    {
      Step(p, t, Before(i), acts[i].e).effect
    }

    // Act i creates this session row.
    predicate Mints(i: nat, token: Bytes, row: SessionRow)
      requires i < |acts|
    {
      Arrives(i) && EffectOf(i) == NewSession(token, row)
    }

    // The credentials that act i presents to a connection that has been challenged.
    function Presented(i: nat): Option<Auth>
      requires i < |acts|
    {
      if Arrives(i) then Credentials(p, t, Before(i), acts[i].e) else None
    }

    // A challenge-response with the user's key over this connection's two nonces, and a valid
    // code when the user has a TOTP secret.
    ghost predicate LogsIn(i: nat, userId: nat, clientId: Bytes)
      requires i < |acts|
    {
      && Presented(i).Some?
      && var a, s, w := Presented(i).value, Before(i), acts[i].e.w;
      && s.nonceC.Some? && s.nonceS.Some? && s.clientId == Some(clientId)
      && a.tokenRefresh != 1
      && a.username in At(i).users && At(i).users[a.username].id == userId
      && LoginAccepted(p, t, s.nonceC.value, s.nonceS.value, a, At(i).users[a.username], w.nowMs)
    }

    // A session token of that user and client, unexpired at that moment.
    ghost predicate Refreshes(i: nat, token: Bytes, row: SessionRow, userId: nat, clientId: Bytes)
      requires i < |acts|
    {
      && Presented(i).Some?
      && var a, s, w := Presented(i).value, Before(i), acts[i].e.w;
      && s.clientId == Some(clientId)
      && a.tokenRefresh == 1 && a.refreshToken == Some(token)
      && a.username in At(i).users && At(i).users[a.username].id == userId
      && row.userId == userId && row.clientId == clientId && row.expiry > w.nowMs
    }

    // A login, and then refreshes, each with the token that the one before it was given.
    ghost predicate Chain(steps: seq<nat>, userId: nat, clientId: Bytes)
      decreases |steps|
    {
      && steps != [] && steps[|steps| - 1] < |acts|
      && var last, earlier := steps[|steps| - 1], steps[..|steps| - 1];
      if earlier == [] then LogsIn(last, userId, clientId)
      else
        var previous := earlier[|earlier| - 1];
        && previous < last
        && Chain(earlier, userId, clientId)
        && exists token, row :: Mints(previous, token, row) && Refreshes(last, token, row, userId, clientId)
    }
  }

  function Credentials(p: Crypto, t: TextCodec, s: Session, e: Event): Option<Auth>
    requires e.Data?
  {
    if !s.phase.Authenticating? then None
    else
      match Decode(p, e.bytes, ActiveKey(s))
      case Err(_) => None
      case Ok(f) =>
        if f.msgType != AUTH then None
        else match ParseAuth(t, f.payload) case Err(_) => None case Ok(a) => Some(a)
  }

  // ----- one step -----

  // A session row comes only from credentials that authenticate its user.
  lemma MintingStep(p: Crypto, t: TextCodec, s: Session, e: Event)
    requires Step(p, t, s, e).effect.NewSession?
    ensures e.Data? && Credentials(p, t, s, e).Some?
    ensures var a, o := Credentials(p, t, s, e).value, Step(p, t, s, e);
            && s.nonceC.Some? && s.nonceS.Some? && s.clientId.Some?
            && Authenticate(p, t, s.nonceC.value, s.nonceS.value, s.clientId.value, a, e.w) == Some(o.effect.row.userId)
            && o.effect.row.clientId == s.clientId.value
            && o.effect.token !in e.w.sessionsAtInsert
            && o.s.phase.Established? && o.s.user == Some(o.effect.row.userId) && o.s.clientId == s.clientId
  {
    if !e.Data? || s.phase.Closed? || Decode(p, e.bytes, ActiveKey(s)).Err? {
      QuietShape(p, t, s, e);
    } else {
      var f := Decode(p, e.bytes, ActiveKey(s)).value;
      match s.phase
      case Greeting => HelloShape(s, f, e.w);
      case Authenticating => AuthShape(p, t, s, f, e.w);
      case Established => NoSessionFromEstablished(s, f, e.w);
    }
  }

  lemma NoSessionFromEstablished(s: Session, f: Frame, w: World)
    ensures !OnEstablished(s, f, w).effect.NewSession?
  {}

  // A session becomes established only by creating a row, and keeps its user and client.
  lemma EstablishingStep(p: Crypto, t: TextCodec, s: Session, e: Event)
    requires Coherent(s) && Step(p, t, s, e).s.phase.Established?
    ensures if s.phase.Established? then
              Step(p, t, s, e).s.user == s.user && Step(p, t, s, e).s.clientId == s.clientId
            else Step(p, t, s, e).effect.NewSession?
  {
    if !e.Data? || s.phase.Closed? || Decode(p, e.bytes, ActiveKey(s)).Err? {
      QuietShape(p, t, s, e);
    } else {
      var f := Decode(p, e.bytes, ActiveKey(s)).value;
      match s.phase
      case Greeting => HelloShape(s, f, e.w);
      case Authenticating => AuthShape(p, t, s, f, e.w);
      case Established => EstablishedShape(s, f, e.w);
    }
  }

  // ----- whole runs -----

  lemma {:induction false} ConnectionsAreCoherent(h: History, n: nat, c: nat)
    requires n <= |h.acts| && c in h.At(n).connections
    ensures Coherent(h.At(n).connections[c])
    decreases n
  {
    var g := h.At(n - 1);
    if c in g.connections {
      ConnectionsAreCoherent(h, n - 1, c);
      if h.acts[n - 1].Arrive? {
        StepCoherent(h.p, h.t, g.connections[c], h.acts[n - 1].e);
      }
    }
  }

  // Rows stay: a new one never takes the token of another.
  lemma SessionRowsStay(h: History, i: nat, token: Bytes)
    requires h.Possible() && i < |h.acts|
    requires token in h.At(i + 1).sessions
    ensures if token in h.At(i).sessions then h.At(i + 1).sessions[token] == h.At(i).sessions[token]
            else h.Mints(i, token, h.At(i + 1).sessions[token])
  {
    var g := h.At(i);
    assert h.PossibleAt(i);
    if h.acts[i].Arrive? {
      var s, e := g.connections[h.acts[i].c], h.acts[i].e;
      if Step(h.p, h.t, s, e).effect.NewSession? {
        MintingStep(h.p, h.t, s, e);
      }
    }
  }

  // So every row was created by some act, just as it is.
  lemma {:induction false} MintedSomewhere(h: History, n: nat, token: Bytes, row: SessionRow) returns (i: nat)
    requires h.Possible() && n <= |h.acts|
    requires token in h.At(n).sessions && h.At(n).sessions[token] == row
    ensures i < n && h.Mints(i, token, row)
    decreases n
  {
    i := n - 1;
    SessionRowsStay(h, i, token);
    if token in h.At(i).sessions {
      i := MintedSomewhere(h, i, token, row);
    }
  }

  lemma RowsStayOneAct(h: History, i: nat)
    requires h.Possible() && i < |h.acts|
    ensures Older(h.At(i).sessions, h.At(i + 1).sessions)
  {
    var g := h.At(i);
    assert h.PossibleAt(i);
    if h.acts[i].Arrive? {
      var s, e := g.connections[h.acts[i].c], h.acts[i].e;
      if Step(h.p, h.t, s, e).effect.NewSession? {
        MintingStep(h.p, h.t, s, e);
      }
    }
  }

  lemma OlderTrans(a: map<Bytes, SessionRow>, b: map<Bytes, SessionRow>, c: map<Bytes, SessionRow>)
    requires Older(a, b) && Older(b, c)
    ensures Older(a, c)
  {}

  // A token is never revoked, also not by the refresh that presents it: its row stays as it
  // is for the rest of the run.
  lemma {:induction false} TokensAreNeverRevoked(h: History, n: nat, m: nat)
    requires h.Possible() && n <= m <= |h.acts|
    ensures Older(h.At(n).sessions, h.At(m).sessions)
    decreases m
  {
    if n < m {
      var i := m - 1;
      TokensAreNeverRevoked(h, n, i);
      RowsStayOneAct(h, i);
      OlderTrans(h.At(n).sessions, h.At(i).sessions, h.At(i + 1).sessions);
    }
  }

  // The credentials of a step that creates a row are a login, or a refresh with a row that
  // was in the table.
  lemma MintsByLoginOrRefresh(h: History, i: nat, token: Bytes, row: SessionRow)
    returns (presented: Option<Bytes>)
    requires h.Possible() && i < |h.acts| && h.Mints(i, token, row)
    ensures match presented
            case None => h.LogsIn(i, row.userId, row.clientId)
            case Some(previous) =>
              && previous in h.At(i).sessions
              && h.Refreshes(i, previous, h.At(i).sessions[previous], row.userId, row.clientId)
  {
    var g, e := h.At(i), h.acts[i].e;
    assert h.PossibleAt(i);
    MintingStep(h.p, h.t, h.Before(i), e);
    var a := h.Presented(i).value;
    assert a.username in e.w.users;
    if a.tokenRefresh == 1 {
      presented := a.refreshToken;
      assert presented.value in e.w.sessions;
    } else {
      presented := None;
    }
  }

  lemma ChainStarts(h: History, i: nat, userId: nat, clientId: Bytes)
    requires i < |h.acts| && h.LogsIn(i, userId, clientId)
    ensures h.Chain([i], userId, clientId)
  {
    assert [i][..0] == [];
  }

  lemma ChainGoesOn(h: History, earlier: seq<nat>, i: nat, token: Bytes, was: SessionRow, userId: nat, clientId: Bytes)
    requires h.Chain(earlier, userId, clientId) && earlier[|earlier| - 1] < i < |h.acts|
    requires h.Mints(earlier[|earlier| - 1], token, was) && h.Refreshes(i, token, was, userId, clientId)
    ensures h.Chain(earlier + [i], userId, clientId)
  {
    assert (earlier + [i])[..|earlier + [i]| - 1] == earlier;
  }

  lemma {:induction false} RowChain(h: History, i: nat, token: Bytes, row: SessionRow) returns (steps: seq<nat>)
    requires h.Possible() && i < |h.acts| && h.Mints(i, token, row)
    ensures h.Chain(steps, row.userId, row.clientId) && steps[|steps| - 1] == i
    decreases i, 1
  {
    var presented := MintsByLoginOrRefresh(h, i, token, row);
    match presented
    case None =>
      ChainStarts(h, i, row.userId, row.clientId);
      steps := [i];
    case Some(previous) =>
      var was := h.At(i).sessions[previous];
      var earlier := SessionsTraceToLogin(h, i, previous, was);
      ChainGoesOn(h, earlier, i, previous, was, row.userId, row.clientId);
      steps := earlier + [i];
  }

  // Every session row has a finite chain of refreshes, each with a token of the same user and
  // client that had not expired, back to an accepted login.
  lemma {:induction false} SessionsTraceToLogin(h: History, n: nat, token: Bytes, row: SessionRow)
    returns (steps: seq<nat>)
    requires h.Possible() && n <= |h.acts|
    requires token in h.At(n).sessions && h.At(n).sessions[token] == row
    ensures h.Chain(steps, row.userId, row.clientId)
    ensures steps[|steps| - 1] < n && h.Mints(steps[|steps| - 1], token, row)
    decreases n, 0
  {
    var i := MintedSomewhere(h, n, token, row);
    steps := RowChain(h, i, token, row);
  }

  // A connection is established because it was, for the same user and client, or because
  // this act has just created a row for them.
  lemma EstablishedBy(h: History, i: nat, c: nat) returns (minted: Option<(Bytes, SessionRow)>)
    requires h.Possible() && i < |h.acts|
    requires c in h.At(i + 1).connections && h.At(i + 1).connections[c].phase.Established?
    ensures var s' := h.At(i + 1).connections[c];
            match minted
            case None =>
              && c in h.At(i).connections && h.At(i).connections[c].phase.Established?
              && h.At(i).connections[c].user == s'.user && h.At(i).connections[c].clientId == s'.clientId
            case Some((token, row)) =>
              && h.acts[i].Arrive? && h.acts[i].c == c && h.Mints(i, token, row)
              && s'.user == Some(row.userId) && s'.clientId == Some(row.clientId)
  {
    var g := h.At(i);
    minted := None;
    if h.acts[i].Arrive? && h.acts[i].c == c {
      assert h.PossibleAt(i);
      ConnectionsAreCoherent(h, i, c);
      var s, e := g.connections[c], h.acts[i].e;
      EstablishingStep(h.p, h.t, s, e);
      if !s.phase.Established? {
        MintingStep(h.p, h.t, s, e);
        var effect := Step(h.p, h.t, s, e).effect;
        minted := Some((effect.token, effect.row));
      }
    }
  }

  // And so has every established connection, for the user it acts for, ending in an act of
  // that connection.
  lemma {:induction false} ConnectionsTraceToLogin(h: History, n: nat, c: nat) returns (steps: seq<nat>)
    requires h.Possible() && n <= |h.acts|
    requires c in h.At(n).connections && h.At(n).connections[c].phase.Established?
    ensures var s := h.At(n).connections[c];
            && s.user.Some? && s.clientId.Some?
            && h.Chain(steps, s.user.value, s.clientId.value)
            && steps[|steps| - 1] < n && h.acts[steps[|steps| - 1]].Arrive? && h.acts[steps[|steps| - 1]].c == c
    decreases n
  {
    ConnectionsAreCoherent(h, n, c);
    var i := n - 1;
    var minted := EstablishedBy(h, i, c);
    match minted
    case None => steps := ConnectionsTraceToLogin(h, i, c);
    case Some((token, row)) => steps := RowChain(h, i, token, row);
  }
}
