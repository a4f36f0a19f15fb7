// One server connection: the state machine of `handle_client` (server-py/server.py), as a
// function of the frame bytes that arrive, of timeouts, and of what the shared tables hold
// when they are read.
module ServerSession {
  import opened Common
  import opened LittleEndian
  import opened Primitives
  import opened ByteIO
  import opened FrameCodec
  import opened AuthPayload
  import opened Payloads
  import opened Fragments
  import opened Transport
  import opened Database

  const DUMMY_KEY: Bytes := Zeros(32)
  const FRAGMENT_TIMEOUT: real := 30.0
  const SESSION_TTL_MS: nat := 86_400_000

  datatype Phase = Greeting | Authenticating | Established | Closed

  datatype Session = Session(phase: Phase, outSeq: nat, nonceC: Option<Bytes>, nonceS: Option<Bytes>,
                             clientId: Option<Bytes>, user: Option<nat>, macKey: Option<Bytes>,
                             buf: Option<Bytes>, startedAt: Option<real>)

  const NEW_SESSION := Session(Greeting, 0, None, None, None, None, None, None, None)

  // What a handler finds outside itself while it processes one frame: the clocks, fresh
  // random values, and the tables at each of its awaits.
  datatype World = World(nowMs: nat, mono: real, nonceS: Bytes, token: Bytes,
                         users: map<string, UserRow>, sessions: map<Bytes, SessionRow>,
                         sessionsAtInsert: map<Bytes, SessionRow>,
                         vaults: map<Bytes, VaultRow<Bytes>>, vaultsAtUpsert: map<Bytes, VaultRow<Bytes>>)

  datatype Effect = Nothing | NewSession(token: Bytes, row: SessionRow)
                  | Stored(vaultId: Bytes, vault: VaultRow<Bytes>)

  // The new state, the frames sent, the effect on the tables, and the PUT message processed.
  datatype Outcome = Outcome(s: Session, sent: seq<Sent>, effect: Effect, processed: Option<Bytes>)

  // What a round of the loop finds: the bytes of one frame; a read that timed out before it
  // had the header, or with the header taken off the stream; the check at the head of the
  // loop; the end of the connection.
  datatype Event = Data(bytes: Bytes, w: World) | ReadTimeout(mono: real) | HeaderTimeout(mono: real)
                 | Wake(mono: real) | Disconnect

  function Close(s: Session): Session { s.(phase := Closed, buf := None, startedAt := None) }

  function Refuse(s: Session): Outcome { Outcome(Close(s), [], Nothing, None) }

  function ActiveKey(s: Session): Bytes {
    if s.phase.Established? && s.macKey.Some? then s.macKey.value else DUMMY_KEY
  }

  // One frame back, under the active key.
  function Answer(s: Session, m: MsgType, payload: Bytes): seq<Sent> {
    [Sent(m, NO_FLAGS, payload, s.outSeq, ActiveKey(s))]
  }

  // ----- GREETING -----

  function OnHello(s: Session, f: Frame, w: World): Outcome {
    if f.msgType != HELLO then Refuse(s)
    else
      match ParseHello(f.payload, w.nowMs)
      case Err(_) => Refuse(s)
      case Ok(h) =>
        Outcome(s.(phase := Authenticating, outSeq := s.outSeq + 1, nonceC := Some(h.nonceC),
                   nonceS := Some(w.nonceS), clientId := Some(h.clientId)),
                Answer(s, CHALLENGE, ChallengePayload(w.nonceS, w.nowMs)), Nothing, None)
  }

  // ----- AUTHENTICATING -----

  function NameBytes(t: TextCodec, username: string): Bytes {
    match t.encode(username) case Some(b) => b case None => []
  }

  // The challenge-response of a login, and the TOTP code when the user has a secret.
  predicate LoginAccepted(p: Crypto, t: TextCodec, nonceC: Bytes, nonceS: Bytes, a: Auth, user: UserRow, nowMs: nat) {
    && user.kAuth.Some?
    && a.hmacResp == p.Hmac(user.kAuth.value, nonceC + nonceS + NameBytes(t, a.username))
    && (user.totpSecret.Some? ==>
          a.totpPresent == 1 && a.totpCode.Some? && p.totp(user.totpSecret.value, a.totpCode.value, nowMs))
  }

  // A refresh presents a session token of that user and client that has not expired.
  predicate RefreshAccepted(clientId: Bytes, user: UserRow, row: SessionRow, nowMs: nat) {
    row.expiry > nowMs && row.userId == user.id && row.clientId == clientId
  }

  function Authenticate(p: Crypto, t: TextCodec, nonceC: Bytes, nonceS: Bytes, clientId: Bytes, a: Auth, w: World)
    : Option<nat>
  {
    match Lookup(w.users, a.username)
    case None => None
    case Some(user) =>
      if a.tokenRefresh == 1 then
        if a.refreshToken.Some? && a.refreshToken.value in w.sessions &&
           RefreshAccepted(clientId, user, w.sessions[a.refreshToken.value], w.nowMs)
        then Some(w.sessions[a.refreshToken.value].userId)
        else None
      else if LoginAccepted(p, t, nonceC, nonceS, a, user, w.nowMs) then Some(user.id)
      else None
  }

  function AuthFailPayload(): Bytes { [ERR_AUTH_FAILED] + LE(0, 4) }

  function OnAuth(p: Crypto, t: TextCodec, s: Session, f: Frame, w: World): Outcome {
    if f.msgType != AUTH then Refuse(s)
    else if s.nonceC.None? || s.nonceS.None? || s.clientId.None? then Refuse(s)
    else
      match ParseAuth(t, f.payload)
      case Err(_) => Refuse(s)
      case Ok(a) =>
        match Authenticate(p, t, s.nonceC.value, s.nonceS.value, s.clientId.value, a, w)
        case None =>
          Outcome(Close(s.(outSeq := s.outSeq + 1)), Answer(s, AUTH_FAIL, AuthFailPayload()), Nothing, None)
        case Some(user) => OnAccepted(p, s, user, w)
  }

  function OnAccepted(p: Crypto, s: Session, user: nat, w: World): Outcome
    requires s.nonceC.Some? && s.clientId.Some?
  {
    if w.token in w.sessionsAtInsert then Refuse(s)
    else
      var expiry := w.nowMs + SESSION_TTL_MS;
      Outcome(s.(phase := Established, outSeq := s.outSeq + 1, user := Some(user),
                 macKey := Some(p.Hkdf(w.token, s.nonceC.value))),
              Answer(s, AUTH_OK, AuthOkPayload(w.token, expiry, 0)),
              NewSession(w.token, SessionRow(user, expiry, s.clientId.value)), None)
  }

  // ----- ESTABLISHED -----

  function Reply(s: Session, m: MsgType, payload: Bytes): Outcome {
    Outcome(s.(outSeq := s.outSeq + 1), Answer(s, m, payload), Nothing, None)
  }

  function OnGet(s: Session, user: nat, f: Frame, w: World): Outcome {
    match ParseGet(f.payload)
    case Err(_) => Refuse(s)
    case Ok((vaultId, _)) =>
      match CheckGet(Lookup(w.vaults, vaultId), user)
      case None => Reply(s, ERROR, [ERR_NOT_FOUND])
      case Some((version, blob)) =>
        var frames := FramesOf(VAULT_DATA, DataPayload(vaultId, version, blob), s.outSeq, ActiveKey(s));
        Outcome(s.(outSeq := s.outSeq + |frames|), frames, Nothing, None)
  }

  // A complete PUT message, whole or reassembled.
  function OnMessage(s: Session, user: nat, message: Bytes, w: World): Outcome {
    match ParsePut(message)
    case Err(_) => Refuse(s).(processed := Some(message))
    case Ok(put) =>
      match CheckPut(Lookup(w.vaults, put.vaultId), user, put.base)
      case Foreign => Reply(s, ERROR, [ERR_NOT_FOUND]).(processed := Some(message))
      case Stale => Reply(s, ERROR, [ERR_CONFLICT]).(processed := Some(message))
      case Proceed(newVersion) =>
        if UpsertHits(w.vaultsAtUpsert, put.vaultId, user, newVersion) then
          Reply(s, VAULT_ACK, AckPayload(put.vaultId, newVersion)).(
            processed := Some(message),
            effect := Stored(put.vaultId, VaultRow(user, newVersion, put.blob, w.nowMs)))
        else Reply(s, ERROR, [ERR_CONFLICT]).(processed := Some(message))
  }

  function OnPut(s: Session, user: nat, f: Frame, w: World): Outcome {
    match OnPutFrame(s.buf, f.flags, f.payload)
    case BadFlags => Refuse(s)
    case Oversize => Refuse(s)
    case Buffered(b) =>
      Outcome(s.(buf := Some(b), startedAt := if s.buf.None? then Some(w.mono) else s.startedAt), [], Nothing, None)
    case Complete(message, left) =>
      OnMessage(s.(buf := left, startedAt := if Fragmented(f.flags) then None else s.startedAt), user, message, w)
  }

  function OnEstablished(s: Session, f: Frame, w: World): Outcome {
    if s.user.None? then Refuse(s)
    else if s.buf.Some? && f.msgType != VAULT_PUT then Refuse(s)
    else
      match f.msgType
      case PING => if |f.payload| != 8 then Refuse(s) else Reply(s, PONG, f.payload)
      case BYE =>
        if |f.payload| != 1 then Refuse(s)
        else Reply(s, BYE, [0x00]).(s := Close(s.(outSeq := s.outSeq + 1)))
      case VAULT_GET => OnGet(s, s.user.value, f, w)
      case VAULT_PUT => OnPut(s, s.user.value, f, w)
      case _ => Refuse(s)
  }

  // ----- one event -----

  function OnFrame(p: Crypto, t: TextCodec, s: Session, f: Frame, w: World): Outcome {
    match s.phase
    case Greeting => OnHello(s, f, w)
    case Authenticating => OnAuth(p, t, s, f, w)
    case Established => OnEstablished(s, f, w)
    case Closed => Outcome(s, [], Nothing, None)
  }

  predicate Expired(s: Session, mono: real) {
    s.startedAt.Some? && mono - s.startedAt.value >= FRAGMENT_TIMEOUT
  }

  function Drop(s: Session): Outcome { Outcome(s.(buf := None, startedAt := None), [], Nothing, None) }

  function Step(p: Crypto, t: TextCodec, s: Session, e: Event): Outcome {
    if s.phase.Closed? then Outcome(s, [], Nothing, None)
    else
      match e
      case Data(bytes, w) =>
        if s.phase.Established? && s.macKey.None? then Refuse(s)
        else
          (match Decode(p, bytes, ActiveKey(s))
           case Err(_) => Refuse(s)
           case Ok(f) => OnFrame(p, t, s, f, w))
      // The check at the head of the loop, before the next read.
      case Wake(mono) =>
        if s.phase.Established? && s.buf.Some? && (s.startedAt.None? || Expired(s, mono)) then Drop(s)
        else Outcome(s, [], Nothing, None)
      case ReadTimeout(mono) => TimedOut(s, mono)
      case HeaderTimeout(mono) => TimedOut(s, mono)
      case Disconnect => Refuse(s)
  }

  function TimedOut(s: Session, mono: real): Outcome {
    if s.phase.Established? && s.buf.Some? && Expired(s, mono) then Drop(s) else Refuse(s)
  }

  // ----- reading off the stream -----

  // The bytes the next read takes: a whole frame, or only a header that announces too much.
  function NextRead(stream: Bytes): Option<Bytes> {
    match TakeBytes(stream, HEADER_LEN)
    case None => None
    case Some((header, rest)) =>
      if ParseHeader(header).len > MAX_PAYLOAD then Some(header)
      else
        match TakeBytes(rest, ParseHeader(header).len + HMAC_LEN)
        case None => None
        case Some((body, _)) => Some(header + body)
  }

  // When the deadline of a read passes.
  datatype Deadline = NotReached | BeforeHeader | InBody

  function ReadOf(stream: Bytes, deadline: Deadline, mono: real, w: World): Event {
    if deadline.BeforeHeader? then ReadTimeout(mono)
    else
      match TakeBytes(stream, HEADER_LEN)
      case None => Disconnect
      case Some((header, _)) =>
        if ParseHeader(header).len > MAX_PAYLOAD then Data(header, w)
        else if deadline.InBody? then HeaderTimeout(mono)
        else match NextRead(stream) case None => Disconnect case Some(bytes) => Data(bytes, w)
  }

  // What an event leaves on the stream, if it can happen on it.
  function StreamAfter(stream: Bytes, e: Event): Option<Bytes> {
    match e
    case Data(bytes, _) =>
      if NextRead(stream) == Some(bytes) && |bytes| <= |stream| then Some(stream[|bytes|..]) else None
    case HeaderTimeout(_) =>
      if |stream| >= HEADER_LEN && ParseHeader(stream[..HEADER_LEN]).len <= MAX_PAYLOAD
      then Some(stream[HEADER_LEN..]) else None
    case _ => Some(stream)
  }

  // Decoding what the next read takes is reading a frame off the stream.
  lemma NextReadIsServerRead(p: Crypto, stream: Bytes, key: Bytes, f: Frame, rest: Bytes)
    ensures ServerRead(p, stream, key) == Ok((f, rest)) <==>
            && NextRead(stream).Some? && Decode(p, NextRead(stream).value, key) == Ok(f)
            && |NextRead(stream).value| <= |stream| && rest == stream[|NextRead(stream).value|..]
  {}

  // ----- the handler itself -----

  class Handler {
    const p: Crypto
    const t: TextCodec
    const out: Writer
    const db: DatabaseManager
    var phase: Phase
    var outboundSeq: nat
    var nonceC: Option<Bytes>
    var nonceS: Option<Bytes>
    var clientId: Option<Bytes>
    var authenticatedUser: Option<nat>
    var sessionMacKey: Option<Bytes>
    var fragmentedPutBuffer: Option<Bytes>
    var fragmentStartedAt: Option<real>

    function View(): Session
      reads this
    {
      Session(phase, outboundSeq, nonceC, nonceS, clientId, authenticatedUser, sessionMacKey,
              fragmentedPutBuffer, fragmentStartedAt)
    }

    // The user a handler acts for is never deleted.
    predicate Valid()
      reads this, db
    {
      authenticatedUser.Some? ==> HasUser(db.users, authenticatedUser.value)
    }

    // The tables as the handler finds them when it starts on a frame.
    predicate Finds(w: World)
      reads this, db
    {
      db.users == w.users && db.sessions == w.sessions && db.vaults == w.vaults
    }

    constructor (p: Crypto, t: TextCodec, out: Writer, db: DatabaseManager)
      ensures this.p == p && this.t == t && this.out == out && this.db == db
      ensures View() == NEW_SESSION && Valid()
    {
      this.p, this.t, this.out, this.db := p, t, out, db;
      phase, outboundSeq := Greeting, 0;
      nonceC, nonceS, clientId, authenticatedUser, sessionMacKey := None, None, None, None, None;
      fragmentedPutBuffer, fragmentStartedAt := None, None;
    }

    method Shut()
      modifies this
      ensures View() == Close(old(View()))
    {
      phase, fragmentedPutBuffer, fragmentStartedAt := Closed, None, None;
    }

    method Respond(m: MsgType, payload: Bytes)
      modifies this`outboundSeq, out
      ensures View() == old(View()).(outSeq := old(outboundSeq) + 1)
      ensures out.sent == old(out.sent) + Answer(old(View()), m, payload)
    {
      out.SendFrame(m, payload, outboundSeq, ActiveKey(View()), NO_FLAGS);
      outboundSeq := outboundSeq + 1;
    }

    method HandleHello(f: Frame, w: World)
      modifies this, out
      ensures View() == OnHello(old(View()), f, w).s
      ensures out.sent == old(out.sent) + OnHello(old(View()), f, w).sent
    {
      if f.msgType != HELLO { Shut(); return; }
      var h := ParseHello(f.payload, w.nowMs);
      if h.Err? { Shut(); return; }
      nonceC, clientId, nonceS := Some(h.value.nonceC), Some(h.value.clientId), Some(w.nonceS);
      Respond(CHALLENGE, ChallengePayload(w.nonceS, w.nowMs));
      phase := Authenticating;
    }

    // The credentials: who they authenticate, if anybody.
    method Verify(a: Auth, w: World) returns (accepted: Option<nat>)
      requires nonceC.Some? && nonceS.Some? && clientId.Some? && Finds(w)
      ensures accepted.Some? ==> HasUser(db.users, accepted.value)
      ensures accepted == Authenticate(p, t, nonceC.value, nonceS.value, clientId.value, a, w)
    {
      var user := db.GetUserByUsername(a.username);
      var authValid, authUser := false, None;
      if a.tokenRefresh == 1 {
        if user.Some? && a.refreshToken.Some? {
          var row := db.GetSession(a.refreshToken.value);
          if row.Some? {
            if row.value.expiry > w.nowMs && row.value.userId == user.value.id &&
               row.value.clientId == clientId.value {
              authValid, authUser := true, Some(row.value.userId);
            }
          }
        }
      } else if user.Some? && user.value.kAuth.Some? {
        var wanted := p.Hmac(user.value.kAuth.value, nonceC.value + nonceS.value + NameBytes(t, a.username));
        authValid := a.hmacResp == wanted;
        if authValid {
          authUser := Some(user.value.id);
          if user.value.totpSecret.Some? {
            if a.totpPresent != 1 || a.totpCode.None? {
              authValid := false;
            } else if !p.totp(user.value.totpSecret.value, a.totpCode.value, w.nowMs) {
              authValid := false;
            }
          }
        }
      }
      return if authValid then authUser else None;
    }

    // A new session for an authenticated user, unless its token is taken.
    method Establish(user: nat, w: World) returns (effect: Effect)
      requires nonceC.Some? && clientId.Some? && Valid() && HasUser(db.users, user)
      modifies this, out, db
      ensures Valid() && db.users == old(db.users) && db.vaults == old(db.vaults)
      ensures db.sessions ==
                if effect.NewSession? then w.sessionsAtInsert[effect.token := effect.row] else w.sessionsAtInsert
      ensures View() == OnAccepted(p, old(View()), user, w).s
      ensures out.sent == old(out.sent) + OnAccepted(p, old(View()), user, w).sent
      ensures effect == OnAccepted(p, old(View()), user, w).effect
    {
      var expiry := w.nowMs + SESSION_TTL_MS;
      db.OthersRan(db.vaults, w.sessionsAtInsert);
      var created := db.CreateSession(w.token, user, expiry, clientId.value);
      if created.Err? { Shut(); return Nothing; }
      effect := NewSession(w.token, SessionRow(user, expiry, clientId.value));
      Respond(AUTH_OK, AuthOkPayload(w.token, expiry, 0));
      authenticatedUser := Some(user);
      sessionMacKey := Some(p.Hkdf(w.token, nonceC.value));
      phase := Established;
    }

    method HandleAuth(f: Frame, w: World) returns (effect: Effect)
      requires Valid() && Finds(w)
      modifies this, out, db
      ensures Valid() && db.users == old(db.users) && db.vaults == old(db.vaults)
      ensures effect.NewSession? ==> db.sessions == w.sessionsAtInsert[effect.token := effect.row]
      ensures !effect.NewSession? ==> db.sessions == old(db.sessions) || db.sessions == w.sessionsAtInsert
      ensures View() == OnAuth(p, t, old(View()), f, w).s
      ensures out.sent == old(out.sent) + OnAuth(p, t, old(View()), f, w).sent
      ensures effect == OnAuth(p, t, old(View()), f, w).effect
    {
      if f.msgType != AUTH { Shut(); return Nothing; }
      if nonceC.None? || nonceS.None? || clientId.None? { Shut(); return Nothing; }
      var a := ParseAuth(t, f.payload);
      if a.Err? { Shut(); return Nothing; }
      var authUser := Verify(a.value, w);
      if authUser.None? {
        Respond(AUTH_FAIL, AuthFailPayload());
        Shut();
        return Nothing;
      }
      effect := Establish(authUser.value, w);
    }

    method HandleGet(f: Frame, w: World)
      requires phase.Established? && authenticatedUser.Some? && Finds(w)
      modifies this, out
      ensures View() == OnGet(old(View()), old(authenticatedUser).value, f, w).s
      ensures out.sent == old(out.sent) + OnGet(old(View()), old(authenticatedUser).value, f, w).sent
    {
      var g := ParseGet(f.payload);
      if g.Err? { Shut(); return; }
      var vaultId := g.value.0;
      var row := db.GetVault(vaultId);
      if row.None? { Respond(ERROR, [ERR_NOT_FOUND]); return; }
      if row.value.userId != authenticatedUser.value { Respond(ERROR, [ERR_NOT_FOUND]); return; }
      outboundSeq := out.SendFragmentedPayload(VAULT_DATA, DataPayload(vaultId, row.value.version, row.value.blob),
                                               outboundSeq, ActiveKey(View()));
    }

    method HandleMessage(message: Bytes, w: World) returns (effect: Effect)
      requires phase.Established? && authenticatedUser.Some? && Valid() && Finds(w)
      modifies this, out, db
      ensures Valid() && db.users == old(db.users) && db.sessions == old(db.sessions)
      ensures effect.Stored? ==> db.vaults == w.vaultsAtUpsert[effect.vaultId := effect.vault]
      ensures !effect.Stored? ==> db.vaults == old(db.vaults) || db.vaults == w.vaultsAtUpsert
      ensures View() == OnMessage(old(View()), old(authenticatedUser).value, message, w).s
      ensures out.sent == old(out.sent) + OnMessage(old(View()), old(authenticatedUser).value, message, w).sent
      ensures effect == OnMessage(old(View()), old(authenticatedUser).value, message, w).effect
    {
      effect := Nothing;
      var put := ParsePut(message);
      if put.Err? { Shut(); return; }
      var row := db.GetVault(put.value.vaultId);
      var currentVersion := 0;
      if row.Some? {
        if row.value.userId != authenticatedUser.value { Respond(ERROR, [ERR_NOT_FOUND]); return; }
        currentVersion := row.value.version;
      }
      if put.value.base != currentVersion { Respond(ERROR, [ERR_CONFLICT]); return; }
      var newVersion := currentVersion + 1;
      db.OthersRan(w.vaultsAtUpsert, db.sessions);
      var updated := db.UpdateVault(put.value.vaultId, authenticatedUser.value, newVersion, put.value.blob, w.nowMs);
      assert updated.Ok?;
      if !updated.value {
        Respond(ERROR, [ERR_CONFLICT]);
        return;
      }
      effect := Stored(put.value.vaultId, VaultRow(authenticatedUser.value, newVersion, put.value.blob, w.nowMs));
      Respond(VAULT_ACK, AckPayload(put.value.vaultId, newVersion));
    }

    method HandlePut(f: Frame, w: World) returns (effect: Effect)
      requires phase.Established? && authenticatedUser.Some? && Valid() && Finds(w)
      modifies this, out, db
      ensures Valid() && db.users == old(db.users) && db.sessions == old(db.sessions)
      ensures effect.Stored? ==> db.vaults == w.vaultsAtUpsert[effect.vaultId := effect.vault]
      ensures !effect.Stored? ==> db.vaults == old(db.vaults) || db.vaults == w.vaultsAtUpsert
      ensures View() == OnPut(old(View()), old(authenticatedUser).value, f, w).s
      ensures out.sent == old(out.sent) + OnPut(old(View()), old(authenticatedUser).value, f, w).sent
      ensures effect == OnPut(old(View()), old(authenticatedUser).value, f, w).effect
    {
      effect := Nothing;
      var isFragmented, isLast := Fragmented(f.flags), LastFrag(f.flags);
      if isLast && !isFragmented { Shut(); return; }
      var message := f.payload;
      if isFragmented {
        if fragmentedPutBuffer.None? {
          fragmentedPutBuffer, fragmentStartedAt := Some([]), Some(w.mono);
        }
        fragmentedPutBuffer := Some(fragmentedPutBuffer.value + f.payload);
        if |fragmentedPutBuffer.value| > MAX_PUT { Shut(); return; }
        if !isLast { return; }
        message := fragmentedPutBuffer.value;
        fragmentedPutBuffer, fragmentStartedAt := None, None;
      }
      effect := HandleMessage(message, w);
    }

    method HandleEstablished(f: Frame, w: World) returns (effect: Effect)
      requires phase.Established? && Valid() && Finds(w)
      modifies this, out, db
      ensures Valid() && db.users == old(db.users) && db.sessions == old(db.sessions)
      ensures effect.Stored? ==> db.vaults == w.vaultsAtUpsert[effect.vaultId := effect.vault]
      ensures !effect.Stored? ==> db.vaults == old(db.vaults) || db.vaults == w.vaultsAtUpsert
      ensures View() == OnEstablished(old(View()), f, w).s
      ensures out.sent == old(out.sent) + OnEstablished(old(View()), f, w).sent
      ensures effect == OnEstablished(old(View()), f, w).effect
    {
      effect := Nothing;
      if authenticatedUser.None? { Shut(); return; }
      if fragmentedPutBuffer.Some? && f.msgType != VAULT_PUT { Shut(); return; }
      match f.msgType
      case PING =>
        if |f.payload| != 8 { Shut(); return; }
        Respond(PONG, f.payload);
      case BYE =>
        if |f.payload| != 1 { Shut(); return; }
        Respond(BYE, [0x00]);
        Shut();
      case VAULT_GET => HandleGet(f, w);
      case VAULT_PUT => effect := HandlePut(f, w);
      case _ => Shut();
    }

    // The read of one round: which event it amounts to, and what it takes off the stream.
    method Read(reader: Socket, deadline: Deadline, mono: real, w: World) returns (e: Event)
      requires reader.Valid()
      modifies reader
      ensures reader.Valid() && e == ReadOf(old(reader.Stream()), deadline, mono, w)
      ensures !e.Disconnect? ==> StreamAfter(old(reader.Stream()), e) == Some(reader.Stream())
    {
      if deadline.BeforeHeader? { return ReadTimeout(mono); }
      var header := reader.ReadExact(HEADER_LEN);
      if header.None? { return Disconnect; }
      var len := ParseHeader(header.value).len;
      if len > MAX_PAYLOAD { return Data(header.value, w); }
      if deadline.InBody? { return HeaderTimeout(mono); }
      ghost var rest := reader.Stream();
      var body := reader.ReadExact(len + HMAC_LEN);
      if body.None? { return Disconnect; }
      assert old(reader.Stream()) == header.value + rest;
      return Data(header.value + body.value, w);
    }

    // What one round of the loop of `handle_client` does with its event.
    method Handle(e: Event) returns (effect: Effect)
      requires Valid() && (e.Data? ==> Finds(e.w))
      modifies this, out, db
      ensures Valid() && db.users == old(db.users)
      ensures effect.NewSession? ==> e.Data? && db.sessions == e.w.sessionsAtInsert[effect.token := effect.row]
      ensures !effect.NewSession? ==>
                db.sessions == old(db.sessions) || (e.Data? && db.sessions == e.w.sessionsAtInsert)
      ensures effect.Stored? ==> e.Data? && db.vaults == e.w.vaultsAtUpsert[effect.vaultId := effect.vault]
      ensures !effect.Stored? ==>
                db.vaults == old(db.vaults) || (e.Data? && db.vaults == e.w.vaultsAtUpsert)
      ensures View() == Step(p, t, old(View()), e).s
      ensures out.sent == old(out.sent) + Step(p, t, old(View()), e).sent
      ensures effect == Step(p, t, old(View()), e).effect
    {
      effect := Nothing;
      if phase.Closed? { return; }
      match e
      case Wake(mono) =>
        if phase.Established? && fragmentedPutBuffer.Some? {
          if fragmentStartedAt.None? || FRAGMENT_TIMEOUT - (mono - fragmentStartedAt.value) <= 0.0 {
            fragmentedPutBuffer, fragmentStartedAt := None, None;
          }
        }
      case ReadTimeout(mono) => HandleTimeout(mono);
      case HeaderTimeout(mono) => HandleTimeout(mono);
      case Disconnect => Shut();
      case Data(bytes, w) =>
        if phase.Established? && sessionMacKey.None? { Shut(); return; }
        var f := Decode(p, bytes, ActiveKey(View()));
        if f.Err? { Shut(); return; }
        effect := HandleFrame(f.value, w);
    }

    method HandleFrame(f: Frame, w: World) returns (effect: Effect)
      requires !phase.Closed? && Valid() && Finds(w)
      modifies this, out, db
      ensures Valid() && db.users == old(db.users)
      ensures effect.NewSession? ==> db.sessions == w.sessionsAtInsert[effect.token := effect.row]
      ensures !effect.NewSession? ==> db.sessions == old(db.sessions) || db.sessions == w.sessionsAtInsert
      ensures effect.Stored? ==> db.vaults == w.vaultsAtUpsert[effect.vaultId := effect.vault]
      ensures !effect.Stored? ==> db.vaults == old(db.vaults) || db.vaults == w.vaultsAtUpsert
      ensures View() == OnFrame(p, t, old(View()), f, w).s
      ensures out.sent == old(out.sent) + OnFrame(p, t, old(View()), f, w).sent
      ensures effect == OnFrame(p, t, old(View()), f, w).effect
    {
      effect := Nothing;
      match phase
      case Greeting => HandleHello(f, w);
      case Authenticating => effect := HandleAuth(f, w);
      case Established => effect := HandleEstablished(f, w);
    }

    method HandleTimeout(mono: real)
      modifies this
      ensures View() == TimedOut(old(View()), mono).s
    {
      if phase.Established? && fragmentedPutBuffer.Some? {
        if fragmentStartedAt.Some? && mono - fragmentStartedAt.value >= FRAGMENT_TIMEOUT {
          fragmentedPutBuffer, fragmentStartedAt := None, None;
          return;
        }
      }
      Shut();
    }
  }
}
