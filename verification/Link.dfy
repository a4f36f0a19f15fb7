// One honest client and one server handler on one connection: two queues of frames, the
// client's request-response steps, and any timeouts, disconnections and losses.
module Link {
  import opened Common
  import opened LittleEndian
  import opened Primitives
  import opened ByteIO
  import opened FrameCodec
  import opened AuthPayload
  import opened Payloads
  import opened Fragments
  import opened Transport
  import opened Database
  import opened ServerSession
  import SvpClient

  const MAX_SEQ: nat := 0x1_0000_0000

  // A frame that the encoders accept.
  predicate Packable(f: Sent) { f.seqId < MAX_SEQ && |f.payload| <= MAX_PAYLOAD && !Reserved(f.flags) }

  function FrameOf(f: Sent): Frame
    requires Packable(f)
  {
    Frame(1, f.msgType, f.flags, f.seqId, |f.payload|, f.payload, [])
  }

  // What it looks like on the wire.
  function BytesOf(p: Crypto, f: Sent): Bytes
    requires Packable(f)
  {
    match Encode(p, FrameOf(f), f.key) case Ok(b) => b case Err(_) => []
  }

  // ----- the client -----

  // How the last request ended.
  datatype Done = LoggedIn | Alive | Fetched(version: nat, blob: Bytes) | Missing
                | Saved(put: PutFields, newVersion: nat) | Rejected(code: byte)

  // Broken: a frame came that the client has no use for, or with a wrong HMAC.
  datatype Stage = Fresh | AwaitChallenge | AwaitAuthOk | Ready(done: Done) | AwaitPong(payload: Bytes)
                 | AwaitData(sofar: Option<Bytes>) | AwaitAck(put: PutFields) | Gone | Broken

  // key is the one its frames are signed and checked with: the dummy key until AUTH_OK.
  datatype Peer = Peer(stage: Stage, seqNo: nat, key: Bytes, nonceC: Bytes, clientId: Bytes, vaultId: Bytes)

  datatype Credentials = ByPassword(raw: Bytes, kAuth: Bytes, totp: Option<u32>) | ByToken(raw: Bytes, token: Bytes)

  predicate Waiting(c: Peer) {
    c.stage.AwaitChallenge? || c.stage.AwaitAuthOk? || c.stage.AwaitPong? || c.stage.AwaitData? || c.stage.AwaitAck?
  }

  function ClientSends(c: Peer, m: MsgType, payload: Bytes): seq<Sent> {
    [Sent(m, NO_FLAGS, payload, c.seqNo, c.key)]
  }

  // The AUTH payload, unless the user name or the token has a wrong length.
  function AuthMessage(p: Crypto, c: Peer, nonceS: Bytes, how: Credentials): Option<Bytes> {
    if |how.raw| > 64 then None
    else
      match how
      case ByPassword(raw, kAuth, totp) => Some(LoginPayload(raw, p.Hmac(kAuth, c.nonceC + nonceS + raw), totp))
      case ByToken(raw, token) => if |token| != 32 then None else Some(RefreshPayload(raw, token))
  }

  function OnChallenge(p: Crypto, c: Peer, payload: Bytes, how: Credentials): (Peer, seq<Sent>) {
    match ParseChallenge(payload)
    case Err(_) => (c.(stage := Broken), [])
    case Ok(nonceS) =>
      match AuthMessage(p, c, nonceS, how)
      case None => (c.(stage := Gone), [])
      case Some(message) => (c.(stage := AwaitAuthOk, seqNo := c.seqNo + 1), ClientSends(c, AUTH, message))
  }

  function OnAuthOk(p: Crypto, c: Peer, payload: Bytes): Peer {
    match ParseAuthOk(payload)
    case Err(_) => c.(stage := Broken)
    case Ok(ok) => c.(stage := Ready(LoggedIn), key := p.Hkdf(ok.token, c.nonceC))
  }

  function ClientOnData(c: Peer, flags: byte, payload: Bytes): Peer
    requires c.stage.AwaitData?
  {
    var all := (if c.stage.sofar.Some? then c.stage.sofar.value else []) + payload;
    if c.stage.sofar.Some? && !Fragmented(flags) then c.(stage := Broken)
    else if Fragmented(flags) && !LastFrag(flags) then c.(stage := AwaitData(Some(all)))
    else
      match ParseData(all)
      case Err(_) => c.(stage := Broken)
      case Ok((version, blob)) => c.(stage := Ready(Fetched(version, blob)))
  }

  function OnAck(c: Peer, payload: Bytes): Peer
    requires c.stage.AwaitAck?
  {
    match ParseData(payload)
    case Err(_) => c.(stage := Broken)
    case Ok((version, _)) => c.(stage := Ready(Saved(c.stage.put, version)))
  }

  // An ERROR frame: a missing vault ends a fetch, a refusal ends a save.
  function OnError(c: Peer, code: byte): Peer {
    if c.stage == AwaitData(None) && code == ERR_NOT_FOUND then c.(stage := Ready(Missing))
    else if c.stage.AwaitAck? && (code == ERR_CONFLICT || code == ERR_NOT_FOUND) then c.(stage := Ready(Rejected(code)))
    else c.(stage := Broken)
  }

  // What the client does with a frame it was waiting for.
  function ClientOnReply(p: Crypto, t: TextCodec, c: Peer, f: ClientFrame, how: Credentials): (Peer, seq<Sent>) {
    if f.code == Code(PING) then (c.(seqNo := c.seqNo + 1), ClientSends(c, PONG, f.payload))
    else if f.code == Code(ERROR) then
      match SvpClient.Receive(t, SvpClient.Rx(f.code, f.flags, f.payload))
      case Failed(code) => (OnError(c, code), [])
      case _ => (c.(stage := Broken), [])
    else if c.stage.AwaitChallenge? && f.code == Code(CHALLENGE) then OnChallenge(p, c, f.payload, how)
    else if c.stage.AwaitAuthOk? && f.code == Code(AUTH_OK) then (OnAuthOk(p, c, f.payload), [])
    else if c.stage.AwaitAuthOk? && f.code == Code(AUTH_FAIL) then (c.(stage := Gone), [])
    else if c.stage == AwaitPong(f.payload) && f.code == Code(PONG) then (c.(stage := Ready(Alive)), [])
    else if c.stage.AwaitData? && f.code == Code(VAULT_DATA) then (ClientOnData(c, f.flags, f.payload), [])
    else if c.stage.AwaitAck? && f.code == Code(VAULT_ACK) then (OnAck(c, f.payload), [])
    else (c.(stage := Broken), [])
  }

  // The next frame off the wire, checked with the client's key.
  function ClientReceives(p: Crypto, t: TextCodec, c: Peer, f: Sent, how: Credentials): (Peer, seq<Sent>)
    requires Packable(f)
  {
    match ClientRead(p, BytesOf(p, f), Some(c.key))
    case Err(_) => (c.(stage := Broken), [])
    case Ok((frame, _)) => ClientOnReply(p, t, c, frame, how)
  }

  datatype Request = Ping(payload: Bytes) | Get(known: nat) | Put(base: nat, blob: Bytes) | Quit(reason: byte)

  predicate Askable(r: Request) {
    match r
    case Ping(payload) => |payload| == 8
    case Get(known) => known < Shl8(1, 8)
    case Put(base, blob) => base < Shl8(1, 8) && |blob| < Shl8(1, 4)
    case Quit(_) => true
  }

  function Asked(c: Peer, r: Request): (Stage, seq<Sent>) {
    match r
    case Ping(payload) => (AwaitPong(payload), ClientSends(c, PING, payload))
    case Get(known) => (AwaitData(None), ClientSends(c, VAULT_GET, GetPayload(c.vaultId, known)))
    case Put(base, blob) =>
      var put := PutFields(c.vaultId, base, blob);
      (AwaitAck(put), FramesOf(VAULT_PUT, PutPayload(put), c.seqNo, c.key))
    case Quit(reason) => (Gone, ClientSends(c, BYE, [reason]))
  }

  // ----- the connection -----

  // What a list of frames is on the wire.
  function WireOf(p: Crypto, frames: seq<Sent>): Bytes {
    if frames == [] then []
    else (if Packable(frames[0]) then BytesOf(p, frames[0]) else []) + WireOf(p, frames[1..])
  }

  // The bytes under way to the server and the frames under way to the client. Beside them
  // stands a record of what happened: the frames sent to the server and not read yet, whether
  // a read has lost the header of one, the row the server answered the latest GET with, the
  // effect of the latest PUT message, the bytes of the latest PUT it has taken in, and whether
  // it has kept all of them.
  datatype Link = Link(c: Peer, s: Session, wire: Bytes, s2c: seq<Sent>, c2s: seq<Sent>, torn: bool,
                       seen: Option<(nat, Bytes)>, effect: Effect, taken: nat, intact: bool)

  datatype Move = SayHello(nonceC: Bytes, timestampMs: nat) | TakeReply(how: Credentials) | NoticeEnd
                | Ask(r: Request) | Leave | Serve(e: Event) | Cut(kept: nat)

  predicate SaneWorld(w: World) {
    && |w.token| == 32 && |w.nonceS| == 32 && w.nowMs + SESSION_TTL_MS < Shl8(1, 8)
    && forall id <- w.vaults :: w.vaults[id].version + 1 < Shl8(1, 8)
  }

  predicate Enabled(p: Crypto, t: TextCodec, l: Link, m: Move) {
    match m
    case SayHello(nonceC, ts) => l.c.stage.Fresh? && |nonceC| == 32 && ts < Shl8(1, 8) && l.c.seqNo < MAX_SEQ
    case TakeReply(_) => Waiting(l.c) && l.s2c != [] && Packable(l.s2c[0]) && l.c.seqNo < MAX_SEQ
    case NoticeEnd => Waiting(l.c) && l.s2c == [] && l.s.phase.Closed?
    case Ask(r) => l.c.stage.Ready? && Askable(r) && l.c.seqNo + |Asked(l.c, r).1| <= MAX_SEQ
    case Leave => true
    case Serve(e) =>
      && !l.s.phase.Closed? && StreamAfter(l.wire, e).Some?
      && (e.Data? ==> SaneWorld(e.w))
      && Step(p, t, l.s, e).s.outSeq <= MAX_SEQ
    case Cut(kept) => kept <= |l.s2c|
  }

  // A frame is read off the wire as it was sent, as long as no header was lost.
  predicate ReadsFrame(l: Link, e: Event) { e.Data? && !l.torn && l.c2s != [] }

  // The connection after an event that had this outcome at the server.
  function Served(l: Link, e: Event, o: Outcome): Link {
    var read := ReadsFrame(l, e);
    l.(s := o.s,
       wire := match StreamAfter(l.wire, e) case Some(rest) => rest case None => l.wire,
       c2s := if read then l.c2s[1..] else l.c2s,
       s2c := l.s2c + o.sent,
       torn := l.torn || (e.HeaderTimeout? && !o.s.phase.Closed?),
       seen := if read && l.c2s[0].msgType == VAULT_GET && l.s.user.Some?
               then CheckGet(Lookup(e.w.vaults, l.c.vaultId), l.s.user.value) else l.seen,
       effect := if o.processed.Some? then o.effect else l.effect,
       taken := if read then l.taken + |l.c2s[0].payload| else l.taken,
       intact := l.intact && (e.Data? || o.s.phase.Closed? || o.s.buf == l.s.buf))
  }

  // The client hands frames to the connection.
  function SendAll(p: Crypto, l: Link, out: seq<Sent>): Link {
    l.(wire := l.wire + WireOf(p, out), c2s := l.c2s + out)
  }

  function Taken(p: Crypto, t: TextCodec, l: Link, how: Credentials): Link
    requires l.s2c != [] && Packable(l.s2c[0])
  {
    var (c, out) := ClientReceives(p, t, l.c, l.s2c[0], how);
    SendAll(p, l.(c := c, s2c := l.s2c[1..]), out)
  }

  // The connection is lost, and with it what is under way but for some replies.
  function Lost(l: Link, kept: nat): Link
    requires kept <= |l.s2c|
  {
    l.(s := Close(l.s), wire := [], c2s := [], s2c := l.s2c[..kept])
  }

  function Apply(p: Crypto, t: TextCodec, l: Link, m: Move): Link
    requires Enabled(p, t, l, m)
  {
    match m
    case SayHello(nonceC, ts) =>
      SendAll(p, l.(c := l.c.(stage := AwaitChallenge, nonceC := nonceC, seqNo := l.c.seqNo + 1)),
              ClientSends(l.c, HELLO, HelloPayload(Hello(nonceC, l.c.clientId, ts))))
    case TakeReply(how) => Taken(p, t, l, how)
    case NoticeEnd => l.(c := l.c.(stage := Gone))
    case Ask(r) =>
      var (stage, out) := Asked(l.c, r);
      SendAll(p, l.(c := l.c.(stage := stage, seqNo := l.c.seqNo + |out|), taken := 0, intact := true), out)
    case Leave => l.(c := l.c.(stage := Gone))
    case Serve(e) => Served(l, e, Step(p, t, l.s, e))
    case Cut(kept) => Lost(l, kept)
  }

  // A new connection of a client that may have sent frames on earlier ones.
  predicate Starts(l: Link) {
    && l.c.stage.Fresh? && l.c.key == DUMMY_KEY && |l.c.clientId| == ID_LEN && |l.c.vaultId| == ID_LEN
    && l.c.seqNo <= MAX_SEQ && l.s == NEW_SESSION && l.wire == [] && l.c2s == [] && l.s2c == [] && !l.torn
  }

  // A run: at each point one move is tried, and changes nothing when it is not enabled.
  datatype Talk = Talk(p: Crypto, t: TextCodec, start: Link, moves: seq<Move>) {
    function At(n: nat): Link
      requires n <= |moves|
    {
      if n == 0 then start
      else if Enabled(p, t, At(n - 1), moves[n - 1]) then Apply(p, t, At(n - 1), moves[n - 1])
      else At(n - 1)
    }

    // After a header was lost, the server has taken some other stretch of bytes for a frame.
    predicate ForgedAt(i: nat)
      requires i < |moves|
    {
      && At(i).torn && Enabled(p, t, At(i), moves[i]) && moves[i].Serve? && moves[i].e.Data?
      && Decode(p, moves[i].e.bytes, ActiveKey(At(i).s)).Ok?
    }

    predicate NothingForged(n: nat)
      requires n <= |moves|
    {
      n == 0 || (NothingForged(n - 1) && !ForgedAt(n - 1))
    }
  }
}
