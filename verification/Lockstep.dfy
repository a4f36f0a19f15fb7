// An honest client and a server handler stay in lockstep: in every run the client only ever
// receives frames it was waiting for, under the key it checks them with, and the server too.
module Lockstep {
  import opened Common
  import opened LittleEndian
  import opened Primitives
  import opened ByteIO
  import opened FrameCodec
  import opened AuthPayload
  import opened Payloads
  import opened Fragments
  import opened Transport
  import opened Database
  import opened ServerSession
  import opened SessionTheorems
  import opened Link
  import SvpClient

  // ----- frames survive the wire -----

  lemma ServerDecodes(p: Crypto, f: Sent)
    requires Packable(f)
    ensures var d := Decode(p, BytesOf(p, f), f.key);
            d.Ok? && d.value.msgType == f.msgType && d.value.flags == f.flags && d.value.payload == f.payload
  {
    DecodeEncode(p, FrameOf(f), f.key);
  }

  lemma ClientDecodes(p: Crypto, f: Sent)
    requires Packable(f)
    ensures ClientRead(p, BytesOf(p, f), Some(f.key)) ==
            Ok((ClientFrame(1, Code(f.msgType), f.flags, f.seqId, f.payload), []))
  {
    ClientReadsEncoded(p, FrameOf(f), f.key, []);
    assert BytesOf(p, f) + [] == BytesOf(p, f);
  }

  // ----- the invariant -----

  predicate Plain(f: Sent, m: MsgType, key: Bytes) { Packable(f) && f.msgType == m && f.key == key && f.flags == NO_FLAGS }

  // The one frame queued, if any, satisfies the first two; a queue of exactly one request.
  predicate OneRequest(q: seq<Sent>, m: MsgType, key: Bytes) { |q| == 1 && Plain(q[0], m, key) }

  predicate AtMostOne(q: seq<Sent>, key: Bytes) { |q| <= 1 && (q != [] ==> Packable(q[0]) && q[0].key == key) }

  predicate Live(s: Session) { !s.phase.Closed? }

  // Established under the client's key, with no upload going on, or over.
  predicate Idle(s: Session) { Live(s) ==> s.phase.Established? && s.buf.None? }

  predicate InChallenge(c: Peer, s: Session, c2s: seq<Sent>, s2c: seq<Sent>) {
    && c.key == DUMMY_KEY && |c.nonceC| == 32
    && AtMostOne(s2c, DUMMY_KEY) && (s2c != [] ==> s2c[0].msgType == CHALLENGE && ParseChallenge(s2c[0].payload).Ok?)
    && (Live(s) ==>
          || (s.phase.Greeting? && s2c == [] && OneRequest(c2s, HELLO, DUMMY_KEY) && c.nonceC <= c2s[0].payload)
          || (s.phase.Authenticating? && s2c != [] && c2s == [] && s.nonceC == Some(c.nonceC)))
  }

  predicate AuthReply(p: Crypto, c: Peer, s: Session, f: Sent) {
    || f.msgType == AUTH_FAIL
    || (f.msgType == AUTH_OK && ParseAuthOk(f.payload).Ok?
        && s.macKey == Some(p.Hkdf(ParseAuthOk(f.payload).value.token, c.nonceC)))
  }

  predicate InAuth(p: Crypto, c: Peer, s: Session, c2s: seq<Sent>, s2c: seq<Sent>) {
    && c.key == DUMMY_KEY && |c.nonceC| == 32
    && AtMostOne(s2c, DUMMY_KEY) && (s2c != [] ==> AuthReply(p, c, s, s2c[0]))
    && (Live(s) ==>
          || (s.phase.Authenticating? && s2c == [] && OneRequest(c2s, AUTH, DUMMY_KEY) && s.nonceC == Some(c.nonceC))
          || (s.phase.Established? && s2c != [] && c2s == [] && s.buf.None? && s2c[0].msgType == AUTH_OK))
  }

  // What is left of the answer to a GET, after the fragments the client has.
  function AnswerLeft(vaultId: Bytes, row: Option<(nat, Bytes)>, sofar: Option<Bytes>, seqId: nat, key: Bytes)
    : seq<Sent>
  {
    match row
    case None => [Sent(ERROR, NO_FLAGS, [ERR_NOT_FOUND], seqId, key)]
    case Some((version, blob)) =>
      var payload := DataPayload(vaultId, version, blob);
      if sofar.None? then FramesOf(VAULT_DATA, payload, seqId, key)
      else FramesFrom(VAULT_DATA, payload, |sofar.value|, seqId, key)
  }

  predicate GotSofar(vaultId: Bytes, row: Option<(nat, Bytes)>, sofar: Option<Bytes>) {
    && (row.Some? ==> row.value.0 < Shl8(1, 8))
    && (sofar.Some? ==>
          && row.Some?
          && var payload := DataPayload(vaultId, row.value.0, row.value.1);
          0 < |sofar.value| < |payload| && |payload| > MAX_PAYLOAD && sofar.value == payload[..|sofar.value|])
  }

  predicate InFetch(c: Peer, s: Session, c2s: seq<Sent>, s2c: seq<Sent>, seen: Option<(nat, Bytes)>)
    requires c.stage.AwaitData?
  {
    && Idle(s)
    && (s2c != [] ==>
          && GotSofar(c.vaultId, seen, c.stage.sofar)
          && s2c <= AnswerLeft(c.vaultId, seen, c.stage.sofar, s2c[0].seqId, c.key))
    && (forall i :: 0 <= i < |s2c| ==> s2c[i].seqId < MAX_SEQ)
    && (Live(s) ==>
          if s2c == [] then
            c.stage.sofar.None? && OneRequest(c2s, VAULT_GET, c.key) && ParseGet(c2s[0].payload).Ok?
            && ParseGet(c2s[0].payload).value.0 == c.vaultId
          else c2s == [] && s2c == AnswerLeft(c.vaultId, seen, c.stage.sofar, s2c[0].seqId, c.key))
  }

  function Held(buf: Option<Bytes>): Bytes { if buf.None? then [] else buf.value }

  // The frames of a PUT the server has not taken yet. What it has taken is in the buffer, or
  // less than that if it dropped some.
  predicate Uploading(put: PutFields, key: Bytes, buf: Option<Bytes>, c2s: seq<Sent>, taken: nat, intact: bool) {
    var payload := PutPayload(put);
    && c2s != [] && (forall i :: 0 <= i < |c2s| ==> c2s[i].seqId < MAX_SEQ)
    && if |payload| <= MAX_PAYLOAD then
         c2s == FramesOf(VAULT_PUT, payload, c2s[0].seqId, key) && buf.None? && intact
       else
         && taken < |payload| && c2s == FramesFrom(VAULT_PUT, payload, taken, c2s[0].seqId, key)
         && (if intact then Held(buf) == payload[..taken] else |Held(buf)| < taken)
         && (buf.Some? ==> taken > 0)
  }

  // What an acknowledgement says about what was stored: this PUT, or something shorter.
  predicate PutAnswered(put: PutFields, effect: Effect, intact: bool, version: nat) {
    && effect.Stored? && effect.vault.version == version < Shl8(1, 8)
    && (if intact then effect.vaultId == put.vaultId && version == put.base + 1 && effect.vault.blob == put.blob
        else |effect.vault.blob| < |put.blob|)
  }

  predicate PutReply(put: PutFields, effect: Effect, intact: bool, f: Sent) {
    || (f.msgType == ERROR && effect == Nothing && (f.payload == [ERR_NOT_FOUND] || f.payload == [ERR_CONFLICT]))
    || (f.msgType == VAULT_ACK && ParseData(f.payload).Ok?
        && PutAnswered(put, effect, intact, ParseData(f.payload).value.0))
  }

  predicate InSave(put: PutFields, key: Bytes, s: Session, c2s: seq<Sent>, s2c: seq<Sent>,
                   effect: Effect, taken: nat, intact: bool) {
    && |put.vaultId| == ID_LEN && put.base < Shl8(1, 8)
    && AtMostOne(s2c, key)
    && (s2c != [] ==> PutReply(put, effect, intact, s2c[0]))
    && (Live(s) ==>
          && s.phase.Established?
          && (if s2c == [] then Uploading(put, key, s.buf, c2s, taken, intact) else c2s == [] && s.buf.None?))
  }

  // How a finished request relates to what the server did.
  predicate DoneRight(d: Done, l: Link) {
    match d
    case Fetched(version, blob) => l.seen == Some((version, blob))
    case Missing => l.seen == None
    case Saved(put, version) => PutAnswered(put, l.effect, l.intact, version)
    case Rejected(_) => l.effect == Nothing
    case _ => true
  }

  predicate Inv(p: Crypto, l: Link) {
    var c, s := l.c, l.s;
    && |c.clientId| == ID_LEN && |c.vaultId| == ID_LEN && c.seqNo <= MAX_SEQ
    && match c.stage
       case Fresh => c.key == DUMMY_KEY && l.c2s == [] && l.s2c == [] && (s.phase.Greeting? || s.phase.Closed?)
       case AwaitChallenge => InChallenge(c, s, l.c2s, l.s2c)
       case AwaitAuthOk => InAuth(p, c, s, l.c2s, l.s2c)
       case Ready(d) => s.macKey == Some(c.key) && Idle(s) && l.s2c == [] && (Live(s) ==> l.c2s == []) && DoneRight(d, l)
       case AwaitPong(payload) =>
         && s.macKey == Some(c.key) && Idle(s) && |payload| == 8
         && AtMostOne(l.s2c, c.key) && (l.s2c != [] ==> l.s2c[0].msgType == PONG && l.s2c[0].payload == payload)
         && (Live(s) ==> if l.s2c == [] then OneRequest(l.c2s, PING, c.key) && l.c2s[0].payload == payload else l.c2s == [])
       case AwaitData(_) => s.macKey == Some(c.key) && InFetch(c, s, l.c2s, l.s2c, l.seen)
       case AwaitAck(_) =>
         s.macKey == Some(c.key) && InSave(c.stage.put, c.key, s, l.c2s, l.s2c, l.effect, l.taken, l.intact)
       case Gone => true
       case Broken => false
  }

  // ----- client moves -----

  lemma HelloPlain(c: Peer, nonceC: Bytes, ts: nat)
    requires |nonceC| == 32 && |c.clientId| == ID_LEN && c.seqNo < MAX_SEQ
    ensures var q := ClientSends(c, HELLO, HelloPayload(Hello(nonceC, c.clientId, ts)));
            OneRequest(q, HELLO, c.key) && nonceC <= q[0].payload
  {
    FlagsMean();
  }

  lemma SayHelloKeeps(p: Crypto, t: TextCodec, l: Link, m: Move)
    requires Inv(p, l) && Enabled(p, t, l, m) && m.SayHello?
    ensures Inv(p, Apply(p, t, l, m))
  {
    HelloPlain(l.c, m.nonceC, m.timestampMs);
    var q := ClientSends(l.c, HELLO, HelloPayload(Hello(m.nonceC, l.c.clientId, m.timestampMs)));
    assert [] + q == q;
  }

  lemma EndKeeps(p: Crypto, t: TextCodec, l: Link, m: Move)
    requires Inv(p, l) && Enabled(p, t, l, m) && (m.NoticeEnd? || m.Leave?)
    ensures Inv(p, Apply(p, t, l, m))
  {}

  lemma CutKeeps(p: Crypto, l: Link, kept: nat)
    requires Inv(p, l) && kept <= |l.s2c|
    ensures Inv(p, Lost(l, kept))
  {}

  // The frames of a PUT are packable and start the upload.
  lemma UploadStarts(put: PutFields, seqId: nat, key: Bytes)
    requires seqId + |FramesOf(VAULT_PUT, PutPayload(put), seqId, key)| <= MAX_SEQ
    ensures Uploading(put, key, None, FramesOf(VAULT_PUT, PutPayload(put), seqId, key), 0, true)
  {
    var payload := PutPayload(put);
    var q := FramesOf(VAULT_PUT, payload, seqId, key);
    FramesOfShape(VAULT_PUT, payload, seqId, key);
    assert payload[..0] == [];
  }

  lemma AskPutKeeps(p: Crypto, t: TextCodec, l: Link, m: Move)
    requires Inv(p, l) && Enabled(p, t, l, m) && m.Ask? && m.r.Put?
    ensures Inv(p, Apply(p, t, l, m))
  {
    var q := Asked(l.c, m.r).1;
    assert [] + q == q;
    UploadStarts(PutFields(l.c.vaultId, m.r.base, m.r.blob), l.c.seqNo, l.c.key);
  }

  lemma AskKeeps(p: Crypto, t: TextCodec, l: Link, m: Move)
    requires Inv(p, l) && Enabled(p, t, l, m) && m.Ask?
    ensures Inv(p, Apply(p, t, l, m))
  {
    if m.r.Put? {
      AskPutKeeps(p, t, l, m);
    } else {
      FlagsMean();
      var q := Asked(l.c, m.r).1;
      assert [] + q == q;
      if m.r.Get? {
        GetParses(l.c.vaultId, m.r.known);
      }
    }
  }

  // ----- the client takes a reply -----

  // A frame signed with the client's key is read as what it is.
  lemma Receives(p: Crypto, t: TextCodec, c: Peer, f: Sent, how: Credentials)
    requires Packable(f) && f.key == c.key
    ensures ClientReceives(p, t, c, f, how) ==
            ClientOnReply(p, t, c, ClientFrame(1, Code(f.msgType), f.flags, f.seqId, f.payload), how)
  {
    ClientDecodes(p, f);
  }

  lemma ReceivesExpected(p: Crypto, t: TextCodec, c: Peer, f: Sent, how: Credentials)
    requires Packable(f) && f.key == c.key
    ensures var r := ClientReceives(p, t, c, f, how);
            match f.msgType
            case CHALLENGE => c.stage.AwaitChallenge? ==> r == OnChallenge(p, c, f.payload, how)
            case AUTH_OK => c.stage.AwaitAuthOk? ==> r == (OnAuthOk(p, c, f.payload), [])
            case AUTH_FAIL => c.stage.AwaitAuthOk? ==> r == (c.(stage := Gone), [])
            case PONG => c.stage == AwaitPong(f.payload) ==> r == (c.(stage := Ready(Alive)), [])
            case _ => true
  {
    Receives(p, t, c, f, how);
  }

  lemma ReceivesVaultReply(p: Crypto, t: TextCodec, c: Peer, f: Sent, how: Credentials)
    requires Packable(f) && f.key == c.key
    ensures var r := ClientReceives(p, t, c, f, how);
            match f.msgType
            case VAULT_DATA => c.stage.AwaitData? ==> r == (ClientOnData(c, f.flags, f.payload), [])
            case VAULT_ACK => c.stage.AwaitAck? ==> r == (OnAck(c, f.payload), [])
            case ERROR => |f.payload| == 1 ==> r == (OnError(c, f.payload[0]), [])
            case _ => true
  {
    Receives(p, t, c, f, how);
  }

  // The frames a waiting client has a use for.
  predicate Expects(stage: Stage, code: byte) {
    || code == Code(PING)
    || (stage.AwaitChallenge? && code == Code(CHALLENGE))
    || (stage.AwaitAuthOk? && (code == Code(AUTH_OK) || code == Code(AUTH_FAIL)))
    || (stage.AwaitPong? && code == Code(PONG))
    || (stage.AwaitData? && (code == Code(VAULT_DATA) || (stage.sofar.None? && code == Code(ERROR))))
    || (stage.AwaitAck? && (code == Code(VAULT_ACK) || code == Code(ERROR)))
  }

  // A client takes no frame of another type, and none that was not serialised under its key.
  lemma OnlyExpectedReplies(p: Crypto, t: TextCodec, c: Peer, f: Sent, how: Credentials)
    requires Packable(f) && !ClientReceives(p, t, c, f, how).0.stage.Broken?
    ensures Expects(c.stage, Code(f.msgType))
    ensures exists g: ClientFrame, rest: Bytes ::
              Serialize(p, g, Some(c.key)).Ok? && BytesOf(p, f) == Serialize(p, g, Some(c.key)).value + rest
  {
    var (g, rest) := ClientRead(p, BytesOf(p, f), Some(c.key)).value;
    ClientReadExact(p, BytesOf(p, f), c.key, g, rest);
    SameCode(p, f, g, rest, c.key);
  }

  lemma SameCode(p: Crypto, f: Sent, g: ClientFrame, rest: Bytes, key: Bytes)
    requires Packable(f) && ClientRead(p, BytesOf(p, f), Some(key)) == Ok((g, rest))
    ensures g.code == Code(f.msgType)
  {
    EncodedShape(p, FrameOf(f), f.key);
    assert ParseHeader(BytesOf(p, f)[..HEADER_LEN]) == FieldsOf(FrameOf(f));
  }

  lemma AuthMessagePlain(p: Crypto, c: Peer, nonceS: Bytes, how: Credentials)
    requires AuthMessage(p, c, nonceS, how).Some? && c.seqNo < MAX_SEQ
    ensures OneRequest(ClientSends(c, AUTH, AuthMessage(p, c, nonceS, how).value), AUTH, c.key)
  {
    FlagsMean();
    Widths();
  }

  lemma TakeChallenge(p: Crypto, t: TextCodec, l: Link, how: Credentials)
    requires Inv(p, l) && l.c.stage.AwaitChallenge? && l.s2c != [] && Packable(l.s2c[0]) && l.c.seqNo < MAX_SEQ
    ensures Inv(p, Taken(p, t, l, how))
  {
    var f := l.s2c[0];
    ReceivesExpected(p, t, l.c, f, how);
    var nonceS := ParseChallenge(f.payload).value;
    if AuthMessage(p, l.c, nonceS, how).Some? {
      AuthMessagePlain(p, l.c, nonceS, how);
      var q := ClientSends(l.c, AUTH, AuthMessage(p, l.c, nonceS, how).value);
      assert [] + q == q;
    }
  }

  lemma TakeAuthOk(p: Crypto, t: TextCodec, l: Link, how: Credentials)
    requires Inv(p, l) && l.c.stage.AwaitAuthOk? && l.s2c != [] && Packable(l.s2c[0]) && l.c.seqNo < MAX_SEQ
    ensures Inv(p, Taken(p, t, l, how))
  {
    ReceivesExpected(p, t, l.c, l.s2c[0], how);
    assert l.c2s + [] == l.c2s;
  }

  lemma TakePong(p: Crypto, t: TextCodec, l: Link, how: Credentials)
    requires Inv(p, l) && l.c.stage.AwaitPong? && l.s2c != [] && Packable(l.s2c[0]) && l.c.seqNo < MAX_SEQ
    ensures Inv(p, Taken(p, t, l, how))
  {
    ReceivesExpected(p, t, l.c, l.s2c[0], how);
    assert l.c2s + [] == l.c2s;
  }

  lemma SaveEnds(c: Peer, f: Sent, effect: Effect, intact: bool)
    requires c.stage.AwaitAck? && PutReply(c.stage.put, effect, intact, f)
    ensures f.msgType == ERROR ==>
              && effect == Nothing && |f.payload| == 1
              && OnError(c, f.payload[0]) == c.(stage := Ready(Rejected(f.payload[0])))
    ensures f.msgType != ERROR ==>
              && f.msgType == VAULT_ACK && ParseData(f.payload).Ok?
              && PutAnswered(c.stage.put, effect, intact, ParseData(f.payload).value.0)
              && OnAck(c, f.payload) == c.(stage := Ready(Saved(c.stage.put, ParseData(f.payload).value.0)))
  {}

  lemma TakeAck(p: Crypto, t: TextCodec, l: Link, how: Credentials)
    requires Inv(p, l) && l.c.stage.AwaitAck? && l.s2c != [] && Packable(l.s2c[0]) && l.c.seqNo < MAX_SEQ
    ensures Inv(p, Taken(p, t, l, how))
  {
    SaveEnds(l.c, l.s2c[0], l.effect, l.intact);
    ReceivesVaultReply(p, t, l.c, l.s2c[0], how);
    assert l.c2s + [] == l.c2s;
  }

  // What one frame of an answer does to the client.
  ghost predicate Advances(c: Peer, version: nat, blob: Bytes, left: seq<Sent>, q: nat, key: Bytes)
    requires c.stage.AwaitData?
  {
    && left != [] && left[0].msgType == VAULT_DATA && left[0].key == key && left[0].seqId == q
    && |left[0].payload| <= MAX_PAYLOAD && !Reserved(left[0].flags)
    && var c' := ClientOnData(c, left[0].flags, left[0].payload);
    if left[1..] == [] then c' == c.(stage := Ready(Fetched(version, blob)))
    else
      && c'.stage.AwaitData? && c' == c.(stage := c'.stage) && c'.stage.sofar.Some?
      && GotSofar(c.vaultId, Some((version, blob)), c'.stage.sofar)
      && left[1..] == AnswerLeft(c.vaultId, Some((version, blob)), c'.stage.sofar, q + 1, key)
      && left[1].seqId == q + 1
  }

  lemma WholeTaken(c: Peer, version: nat, blob: Bytes, q: nat, key: Bytes)
    requires c.stage == AwaitData(None) && |c.vaultId| == ID_LEN && version < Shl8(1, 8)
    requires |DataPayload(c.vaultId, version, blob)| <= MAX_PAYLOAD
    ensures Advances(c, version, blob, AnswerLeft(c.vaultId, Some((version, blob)), None, q, key), q, key)
  {
    FlagsMean();
    DataParses(c.vaultId, version, blob);
    var payload := DataPayload(c.vaultId, version, blob);
    assert [] + payload == payload;
  }

  lemma ChunkTaken(c: Peer, version: nat, blob: Bytes, offset: nat, q: nat, key: Bytes)
    requires c.stage.AwaitData? && |c.vaultId| == ID_LEN && version < Shl8(1, 8)
    requires var payload := DataPayload(c.vaultId, version, blob);
             && offset < |payload| && |payload| > MAX_PAYLOAD
             && (if c.stage.sofar.Some? then c.stage.sofar.value else []) == payload[..offset]
    ensures Advances(c, version, blob, FramesFrom(VAULT_DATA, DataPayload(c.vaultId, version, blob), offset, q, key), q, key)
  {
    FlagsMean();
    DataParses(c.vaultId, version, blob);
    var payload := DataPayload(c.vaultId, version, blob);
    var chunk := ChunkAt(payload, offset);
    var left := FramesFrom(VAULT_DATA, payload, offset, q, key);
    assert payload[..offset] + chunk == payload[..offset + |chunk|];
    assert left[1..] == FramesFrom(VAULT_DATA, payload, offset + |chunk|, q + 1, key);
    if offset + |chunk| >= |payload| {
      assert payload[..offset + |chunk|] == payload;
    }
  }

  // The head of the rest of an answer brings the client one fragment further, or to the end.
  lemma FragmentTaken(c: Peer, version: nat, blob: Bytes, q: nat, key: Bytes)
    requires c.stage.AwaitData? && |c.vaultId| == ID_LEN && GotSofar(c.vaultId, Some((version, blob)), c.stage.sofar)
    ensures Advances(c, version, blob, AnswerLeft(c.vaultId, Some((version, blob)), c.stage.sofar, q, key), q, key)
  {
    var payload := DataPayload(c.vaultId, version, blob);
    if c.stage.sofar.Some? {
      ChunkTaken(c, version, blob, |c.stage.sofar.value|, q, key);
    } else if |payload| <= MAX_PAYLOAD {
      WholeTaken(c, version, blob, q, key);
    } else {
      assert payload[..0] == [];
      ChunkTaken(c, version, blob, 0, q, key);
    }
  }

  // After one frame of the answer the fetch is over, with the row the server read, or goes on.
  lemma FetchGoesOn(c: Peer, s: Session, c2s: seq<Sent>, s2c: seq<Sent>, seen: Option<(nat, Bytes)>)
    requires c.stage.AwaitData? && |c.vaultId| == ID_LEN && InFetch(c, s, c2s, s2c, seen) && s2c != []
    ensures Packable(s2c[0]) && s2c[0].key == c.key
    ensures match seen
            case None =>
              s2c[0].msgType == ERROR && s2c[0].payload == [ERR_NOT_FOUND] && c.stage.sofar.None? && s2c[1..] == []
            case Some((version, blob)) =>
              var c' := ClientOnData(c, s2c[0].flags, s2c[0].payload);
              && s2c[0].msgType == VAULT_DATA
              && (if c'.stage.AwaitData? then
                    c' == c.(stage := c'.stage) && InFetch(c', s, c2s, s2c[1..], seen)
                  else c' == c.(stage := Ready(Fetched(version, blob))) && s2c[1..] == [])
  {
    var q := s2c[0].seqId;
    var left := AnswerLeft(c.vaultId, seen, c.stage.sofar, q, c.key);
    assert s2c[0] == left[0];
    if seen.Some? {
      FragmentTaken(c, seen.value.0, seen.value.1, q, c.key);
      assert s2c[1..] <= left[1..];
      if s2c[1..] != [] {
        assert s2c[1] == left[1];
      }
    }
  }

  lemma TakeData(p: Crypto, t: TextCodec, l: Link, how: Credentials)
    requires Inv(p, l) && l.c.stage.AwaitData? && l.s2c != [] && Packable(l.s2c[0]) && l.c.seqNo < MAX_SEQ
    ensures Inv(p, Taken(p, t, l, how))
  {
    FetchGoesOn(l.c, l.s, l.c2s, l.s2c, l.seen);
    ReceivesVaultReply(p, t, l.c, l.s2c[0], how);
    assert l.c2s + [] == l.c2s;
  }

  lemma TakeReplyKeeps(p: Crypto, t: TextCodec, l: Link, m: Move)
    requires Inv(p, l) && Enabled(p, t, l, m) && m.TakeReply?
    ensures Inv(p, Apply(p, t, l, m))
  {
    match l.c.stage
    case AwaitChallenge => TakeChallenge(p, t, l, m.how);
    case AwaitAuthOk => TakeAuthOk(p, t, l, m.how);
    case AwaitPong(_) => TakePong(p, t, l, m.how);
    case AwaitData(_) => TakeData(p, t, l, m.how);
    case AwaitAck(_) => TakeAck(p, t, l, m.how);
  }

  // ----- the server serves -----

  // A frame signed with the handler's key reaches its state machine as what it is.
  lemma Reads(p: Crypto, t: TextCodec, s: Session, f: Sent, e: Event) returns (d: Frame)
    requires !s.phase.Closed? && (s.phase.Established? ==> s.macKey.Some?)
    requires Packable(f) && f.key == ActiveKey(s) && e.Data? && e.bytes == BytesOf(p, f)
    ensures d.msgType == f.msgType && d.flags == f.flags && d.payload == f.payload
    ensures Step(p, t, s, e) == OnFrame(p, t, s, d, e.w)
  {
    ServerDecodes(p, f);
    d := Decode(p, e.bytes, ActiveKey(s)).value;
  }

  lemma HelloServed(c: Peer, s: Session, d: Frame, w: World)
    requires s.phase.Greeting? && d.msgType == HELLO && |c.nonceC| == 32 && c.nonceC <= d.payload && c.key == DUMMY_KEY
    requires SaneWorld(w) && OnHello(s, d, w).s.outSeq <= MAX_SEQ
    ensures InChallenge(c, OnHello(s, d, w).s, [], OnHello(s, d, w).sent)
  {
    FlagsMean();
    HelloShape(s, d, w);
    if ParseHello(d.payload, w.nowMs).Ok? {
      assert d.payload[..32] == c.nonceC;
    }
  }

  lemma AuthOkServed(p: Crypto, c: Peer, s: Session, token: Bytes, expiry: nat, seqId: nat)
    requires |token| == 32 && expiry < Shl8(1, 8) && seqId < MAX_SEQ
    requires s.phase.Established? && s.buf.None? && s.macKey == Some(p.Hkdf(token, c.nonceC))
    requires c.key == DUMMY_KEY && |c.nonceC| == 32
    ensures InAuth(p, c, s, [], [Sent(AUTH_OK, NO_FLAGS, AuthOkPayload(token, expiry, 0), seqId, DUMMY_KEY)])
  {
    FlagsMean();
    AuthOkParses(token, expiry, 0);
  }

  // Whichever way an AUTH ends, the client can read how.
  lemma AuthEnded(p: Crypto, c: Peer, s: Session, o: Outcome)
    requires s.phase.Authenticating? && o.s.outSeq <= MAX_SEQ && c.key == DUMMY_KEY && |c.nonceC| == 32
    requires || (o.s == Close(s) && o.sent == [])
             || (o.s == Close(s.(outSeq := s.outSeq + 1)) && o.sent == Answer(s, AUTH_FAIL, AuthFailPayload()))
    ensures InAuth(p, c, o.s, [], o.sent)
  {
    FlagsMean();
    Widths();
  }

  lemma AuthServed(p: Crypto, t: TextCodec, c: Peer, s: Session, d: Frame, w: World)
    requires s.phase.Authenticating? && s.nonceC == Some(c.nonceC) && |c.nonceC| == 32 && s.buf.None?
    requires c.key == DUMMY_KEY && SaneWorld(w) && OnAuth(p, t, s, d, w).s.outSeq <= MAX_SEQ
    ensures InAuth(p, c, OnAuth(p, t, s, d, w).s, [], OnAuth(p, t, s, d, w).sent)
  {
    AuthShape(p, t, s, d, w);
    var o := OnAuth(p, t, s, d, w);
    if o.effect.NewSession? {
      AuthOkServed(p, c, o.s, w.token, w.nowMs + SESSION_TTL_MS, s.outSeq);
    } else {
      AuthEnded(p, c, s, o);
    }
  }

  lemma GetServed(c: Peer, s: Session, user: nat, d: Frame, w: World)
    requires c.stage == AwaitData(None) && |c.vaultId| == ID_LEN
    requires s.phase.Established? && s.macKey == Some(c.key) && s.buf.None?
    requires ParseGet(d.payload).Ok? && ParseGet(d.payload).value.0 == c.vaultId
    requires SaneWorld(w) && OnGet(s, user, d, w).s.outSeq <= MAX_SEQ
    ensures InFetch(c, OnGet(s, user, d, w).s, [], OnGet(s, user, d, w).sent, CheckGet(Lookup(w.vaults, c.vaultId), user))
  {
    FlagsMean();
    var row := CheckGet(Lookup(w.vaults, c.vaultId), user);
    if row.Some? {
      FramesOfShape(VAULT_DATA, DataPayload(c.vaultId, row.value.0, row.value.1), s.outSeq, ActiveKey(s));
    }
  }

  // The payload of a PUT is read back as that PUT, or not at all when it is too large.
  lemma PutReadBack(put: PutFields)
    requires |put.vaultId| == ID_LEN && put.base < Shl8(1, 8)
    ensures ParsePut(PutPayload(put)).Ok? ==> ParsePut(PutPayload(put)).value == put
  {
    var parsed := ParsePut(PutPayload(put));
    if parsed.Ok? {
      PutExact(PutPayload(put), parsed.value);
      PutExact(PutPayload(put), put);
    }
  }

  // A complete message is refused with the connection, or answered truthfully.
  lemma MessageServed(put: PutFields, s: Session, user: nat, message: Bytes, w: World, intact: bool)
    requires |put.vaultId| == ID_LEN && put.base < Shl8(1, 8)
    requires if intact then message == PutPayload(put) else |message| < |PutPayload(put)|
    requires s.phase.Established? && SaneWorld(w) && OnMessage(s, user, message, w).s.outSeq <= MAX_SEQ
    ensures var o := OnMessage(s, user, message, w);
            || (o.s.phase.Closed? && o.sent == [])
            || (o.s == s.(outSeq := s.outSeq + 1) && |o.sent| == 1 && Packable(o.sent[0])
                && o.sent[0].key == ActiveKey(s) && PutReply(put, o.effect, intact, o.sent[0]))
  {
    FlagsMean();
    PutReadBack(put);
    if ParsePut(message).Ok? {
      var got := ParsePut(message).value;
      PutExact(message, got);
      match CheckPut(Lookup(w.vaults, got.vaultId), user, got.base)
      case Proceed(newVersion) =>
        Widths();
        DataParses(got.vaultId, newVersion, []);
      case _ =>
    }
  }

  // A PUT that fits one frame.
  lemma WholePutServed(put: PutFields, key: Bytes, s: Session, user: nat, d: Frame, w: World)
    requires |put.vaultId| == ID_LEN && put.base < Shl8(1, 8) && d.flags == NO_FLAGS && d.payload == PutPayload(put)
    requires s.phase.Established? && s.macKey == Some(key) && s.buf.None?
    requires SaneWorld(w) && OnPut(s, user, d, w).s.outSeq <= MAX_SEQ
    ensures var o := OnPut(s, user, d, w);
            o.processed.Some? && forall taken :: InSave(put, key, o.s, [], o.sent, o.effect, taken, true)
  {
    FlagsMean();
    MessageServed(put, s.(buf := None, startedAt := s.startedAt), user, d.payload, w, true);
  }

  // The last fragment of a PUT.
  lemma LastFragmentServed(put: PutFields, key: Bytes, s: Session, user: nat, d: Frame, w: World, intact: bool)
    requires |put.vaultId| == ID_LEN && put.base < Shl8(1, 8) && d.flags == LAST
    requires if intact then Held(s.buf) + d.payload == PutPayload(put)
             else |Held(s.buf) + d.payload| < |PutPayload(put)|
    requires s.phase.Established? && s.macKey == Some(key)
    requires SaneWorld(w) && OnPut(s, user, d, w).s.outSeq <= MAX_SEQ
    ensures var o := OnPut(s, user, d, w);
            && (o.processed.None? ==> o.s.phase.Closed? && o.sent == [])
            && (o.processed.Some? ==> forall taken :: InSave(put, key, o.s, [], o.sent, o.effect, taken, intact))
  {
    FlagsMean();
    var b := Held(s.buf) + d.payload;
    if |b| <= MAX_PUT {
      MessageServed(put, s.(buf := None, startedAt := None), user, b, w, intact);
    }
  }

  // Any other fragment.
  lemma FragmentServed(s: Session, user: nat, d: Frame, w: World)
    requires s.phase.Established? && d.flags == FRAGMENTED
    ensures var o := OnPut(s, user, d, w);
            && o.sent == [] && o.processed.None?
            && (o.s.phase.Closed? ||
                (o.s.phase.Established? && o.s.buf == Some(Held(s.buf) + d.payload)))
  {
    FlagsMean();
  }

  lemma PutServed(put: PutFields, key: Bytes, s: Session, user: nat, c2s: seq<Sent>, effect: Effect,
                  taken: nat, intact: bool, d: Frame, w: World)
    requires s.phase.Established? && s.macKey == Some(key)
    requires InSave(put, key, s, c2s, [], effect, taken, intact) && c2s != []
    requires d.flags == c2s[0].flags && d.payload == c2s[0].payload
    requires SaneWorld(w) && OnPut(s, user, d, w).s.outSeq <= MAX_SEQ
    ensures var o := OnPut(s, user, d, w);
            InSave(put, key, o.s, c2s[1..], o.sent, if o.processed.Some? then o.effect else effect,
                   taken + |d.payload|, intact)
  {
    var payload := PutPayload(put);
    if |payload| <= MAX_PAYLOAD {
      WholePutServed(put, key, s, user, d, w);
    } else {
      var chunk := ChunkAt(payload, taken);
      assert c2s[1..] == FramesFrom(VAULT_PUT, payload, taken + |chunk|, c2s[0].seqId + 1, key);
      assert payload[..taken] + chunk == payload[..taken + |chunk|];
      if taken + |chunk| >= |payload| {
        assert payload[..taken + |chunk|] == payload;
        LastFragmentServed(put, key, s, user, d, w, intact);
      } else {
        FragmentServed(s, user, d, w);
      }
    }
  }

  lemma QuietKeeps(p: Crypto, l: Link, e: Event, o: Outcome)
    requires Inv(p, l) && !l.s.phase.Closed? && !e.Data? && o.sent == [] && o.processed.None?
    requires || o.s == l.s || o.s == Close(l.s)
             || (o.s == l.s.(buf := None, startedAt := None) && l.s.phase.Established?)
    ensures Inv(p, Served(l, e, o))
  {
    assert l.s2c + [] == l.s2c;
  }

  predicate Deliverable(p: Crypto, l: Link, e: Event) {
    && !l.s.phase.Closed? && e.Data? && SaneWorld(e.w) && !l.torn
    && l.c2s != [] && Packable(l.c2s[0]) && e.bytes == BytesOf(p, l.c2s[0])
  }

  lemma HandshakeKeeps(p: Crypto, t: TextCodec, l: Link, e: Event)
    requires Inv(p, l) && Coherent(l.s) && Deliverable(p, l, e) && Step(p, t, l.s, e).s.outSeq <= MAX_SEQ
    requires l.c.stage.AwaitChallenge? || l.c.stage.AwaitAuthOk?
    ensures Inv(p, Served(l, e, Step(p, t, l.s, e)))
  {
    var d := Reads(p, t, l.s, l.c2s[0], e);
    var o := Step(p, t, l.s, e);
    assert [] + o.sent == o.sent && l.c2s[1..] == [];
    if l.c.stage.AwaitChallenge? {
      HelloServed(l.c, l.s, d, e.w);
    } else {
      AuthServed(p, t, l.c, l.s, d, e.w);
    }
  }

  lemma PingKeeps(p: Crypto, t: TextCodec, l: Link, e: Event)
    requires Inv(p, l) && Coherent(l.s) && Deliverable(p, l, e) && Step(p, t, l.s, e).s.outSeq <= MAX_SEQ
    requires l.c.stage.AwaitPong?
    ensures Inv(p, Served(l, e, Step(p, t, l.s, e)))
  {
    FlagsMean();
    var d := Reads(p, t, l.s, l.c2s[0], e);
    var o := Step(p, t, l.s, e);
    assert o == Reply(l.s, PONG, d.payload);
    assert [] + o.sent == o.sent && l.c2s[1..] == [];
  }

  lemma GetKeeps(p: Crypto, t: TextCodec, l: Link, e: Event)
    requires Inv(p, l) && Coherent(l.s) && Deliverable(p, l, e) && Step(p, t, l.s, e).s.outSeq <= MAX_SEQ
    requires l.c.stage.AwaitData?
    ensures Inv(p, Served(l, e, Step(p, t, l.s, e)))
  {
    var d := Reads(p, t, l.s, l.c2s[0], e);
    var o := Step(p, t, l.s, e);
    assert o == OnGet(l.s, l.s.user.value, d, e.w);
    GetShape(l.s, l.s.user.value, d, e.w);
    GetServed(l.c, l.s, l.s.user.value, d, e.w);
    assert [] + o.sent == o.sent && l.c2s[1..] == [];
  }

  lemma ReadsPut(p: Crypto, t: TextCodec, s: Session, f: Sent, e: Event) returns (d: Frame)
    requires s.phase.Established? && s.macKey.Some? && s.user.Some? && f.msgType == VAULT_PUT
    requires Packable(f) && f.key == ActiveKey(s) && e.Data? && e.bytes == BytesOf(p, f)
    ensures d.flags == f.flags && d.payload == f.payload
    ensures Step(p, t, s, e) == OnPut(s, s.user.value, d, e.w)
  {
    d := Reads(p, t, s, f, e);
  }

  lemma UploadHead(put: PutFields, key: Bytes, buf: Option<Bytes>, c2s: seq<Sent>, taken: nat, intact: bool)
    requires Uploading(put, key, buf, c2s, taken, intact)
    ensures c2s[0].msgType == VAULT_PUT && c2s[0].key == key
  {}

  lemma SaveServed(p: Crypto, t: TextCodec, l: Link, put: PutFields, e: Event)
    requires InSave(put, l.c.key, l.s, l.c2s, l.s2c, l.effect, l.taken, l.intact)
    requires Coherent(l.s) && l.s.macKey == Some(l.c.key)
    requires Deliverable(p, l, e) && Step(p, t, l.s, e).s.outSeq <= MAX_SEQ
    ensures var o := Step(p, t, l.s, e);
            && InSave(put, l.c.key, o.s, l.c2s[1..], o.sent, if o.processed.Some? then o.effect else l.effect,
                      l.taken + |l.c2s[0].payload|, l.intact)
            && o.s.macKey == l.s.macKey && l.s2c == [] && l.c2s[0].msgType == VAULT_PUT
  {
    UploadHead(put, l.c.key, l.s.buf, l.c2s, l.taken, l.intact);
    var d := ReadsPut(p, t, l.s, l.c2s[0], e);
    PutShape(l.s, l.s.user.value, d, e.w);
    PutServed(put, l.c.key, l.s, l.s.user.value, l.c2s, l.effect, l.taken, l.intact, d, e.w);
  }

  lemma SaveGoesOn(p: Crypto, l: Link, e: Event, o: Outcome)
    requires Inv(p, l) && l.c.stage.AwaitAck? && e.Data? && !l.torn && l.c2s != [] && l.s2c == []
    requires l.c2s[0].msgType == VAULT_PUT && o.s.macKey == l.s.macKey
    requires InSave(l.c.stage.put, l.c.key, o.s, l.c2s[1..], o.sent, if o.processed.Some? then o.effect else l.effect,
                    l.taken + |l.c2s[0].payload|, l.intact)
    ensures Inv(p, Served(l, e, o))
  {
    assert [] + o.sent == o.sent;
  }

  lemma PutKeeps(p: Crypto, t: TextCodec, l: Link, e: Event)
    requires Inv(p, l) && Coherent(l.s) && Deliverable(p, l, e) && Step(p, t, l.s, e).s.outSeq <= MAX_SEQ
    requires l.c.stage.AwaitAck?
    ensures Inv(p, Served(l, e, Step(p, t, l.s, e)))
  {
    SaveServed(p, t, l, l.c.stage.put, e);
    SaveGoesOn(p, l, e, Step(p, t, l.s, e));
  }

  lemma ReadKeeps(p: Crypto, t: TextCodec, l: Link, e: Event)
    requires Inv(p, l) && Coherent(l.s) && Deliverable(p, l, e) && Step(p, t, l.s, e).s.outSeq <= MAX_SEQ
    ensures Inv(p, Served(l, e, Step(p, t, l.s, e)))
  {
    match l.c.stage
    case AwaitChallenge => HandshakeKeeps(p, t, l, e);
    case AwaitAuthOk => HandshakeKeeps(p, t, l, e);
    case AwaitPong(_) => PingKeeps(p, t, l, e);
    case AwaitData(_) => GetKeeps(p, t, l, e);
    case AwaitAck(_) => PutKeeps(p, t, l, e);
    case Gone =>
  }

  // ----- the wire -----

  predicate AllPackable(frames: seq<Sent>) { forall i :: 0 <= i < |frames| ==> Packable(frames[i]) }

  // What the server has still to read is exactly the frames that were sent and not read yet,
  // unless a header was lost; then it is short of one.
  predicate WireOk(p: Crypto, l: Link) {
    && AllPackable(l.c2s)
    && (Live(l.s) ==>
          if l.torn then |l.wire| + HEADER_LEN <= |WireOf(p, l.c2s)| else l.wire == WireOf(p, l.c2s))
  }

  lemma {:induction false} WireAppend(p: Crypto, a: seq<Sent>, b: seq<Sent>)
    ensures WireOf(p, a + b) == WireOf(p, a) + WireOf(p, b)
  {
    if a == [] {
      assert a + b == b;
    } else {
      assert (a + b)[1..] == a[1..] + b;
      WireAppend(p, a[1..], b);
    }
  }

  // A read at the start of a frame takes exactly that frame.
  lemma ReadTakesFrame(p: Crypto, f: Sent, rest: Bytes)
    requires Packable(f)
    ensures |BytesOf(p, f)| >= HEADER_LEN && NextRead(BytesOf(p, f) + rest) == Some(BytesOf(p, f))
  {
    var b := BytesOf(p, f);
    EncodedShape(p, FrameOf(f), f.key);
    assert (b + rest)[..HEADER_LEN] == b[..HEADER_LEN];
    assert (b + rest)[HEADER_LEN..] == b[HEADER_LEN..] + rest;
    SplitAt(b[HEADER_LEN..], rest);
    assert b[..HEADER_LEN] + b[HEADER_LEN..] == b;
  }

  lemma ReadTakesHead(p: Crypto, frames: seq<Sent>)
    requires AllPackable(frames) && frames != []
    ensures NextRead(WireOf(p, frames)) == Some(BytesOf(p, frames[0]))
    ensures |BytesOf(p, frames[0])| <= |WireOf(p, frames)|
    ensures WireOf(p, frames)[|BytesOf(p, frames[0])|..] == WireOf(p, frames[1..])
    ensures |WireOf(p, frames)| >= HEADER_LEN
  {
    var rest := WireOf(p, frames[1..]);
    ReadTakesFrame(p, frames[0], rest);
    assert WireOf(p, frames) == BytesOf(p, frames[0]) + rest;
    SplitAt(BytesOf(p, frames[0]), rest);
  }

  lemma SentKeepsWire(p: Crypto, l: Link, out: seq<Sent>)
    requires WireOk(p, l) && AllPackable(out)
    ensures WireOk(p, SendAll(p, l, out))
  {
    WireAppend(p, l.c2s, out);
  }

  // Everything the client sends can be packed.
  lemma RepliesPackable(p: Crypto, t: TextCodec, c: Peer, f: Sent, how: Credentials)
    requires Packable(f) && c.seqNo < MAX_SEQ
    ensures AllPackable(ClientReceives(p, t, c, f, how).1)
  {
    FlagsMean();
    match ClientRead(p, BytesOf(p, f), Some(c.key))
    case Err(_) =>
    case Ok((frame, _)) =>
      if frame.code == Code(CHALLENGE) && c.stage.AwaitChallenge? && ParseChallenge(frame.payload).Ok? {
        var nonceS := ParseChallenge(frame.payload).value;
        if AuthMessage(p, c, nonceS, how).Some? {
          AuthMessagePlain(p, c, nonceS, how);
        }
      }
  }

  lemma RequestsPackable(c: Peer, r: Request)
    requires Askable(r) && |c.vaultId| == ID_LEN && c.seqNo + |Asked(c, r).1| <= MAX_SEQ
    ensures AllPackable(Asked(c, r).1)
  {
    FlagsMean();
    if r.Put? {
      FramesOfShape(VAULT_PUT, PutPayload(PutFields(c.vaultId, r.base, r.blob)), c.seqNo, c.key);
    }
  }

  lemma SendingKeepsWire(p: Crypto, t: TextCodec, l: Link, m: Move)
    requires WireOk(p, l) && Enabled(p, t, l, m) && (m.SayHello? || m.TakeReply? || m.Ask?)
    requires |l.c.clientId| == ID_LEN && |l.c.vaultId| == ID_LEN
    ensures WireOk(p, Apply(p, t, l, m))
  {
    match m
    case SayHello(nonceC, ts) =>
      HelloPlain(l.c, nonceC, ts);
      SentKeepsWire(p, l, ClientSends(l.c, HELLO, HelloPayload(Hello(nonceC, l.c.clientId, ts))));
    case TakeReply(how) =>
      RepliesPackable(p, t, l.c, l.s2c[0], how);
      SentKeepsWire(p, l, ClientReceives(p, t, l.c, l.s2c[0], how).1);
    case Ask(r) =>
      RequestsPackable(l.c, r);
      SentKeepsWire(p, l, Asked(l.c, r).1);
  }

  lemma ServedKeepsWire(p: Crypto, l: Link, e: Event, o: Outcome)
    requires WireOk(p, l) && Live(l.s) && StreamAfter(l.wire, e).Some?
    ensures WireOk(p, Served(l, e, o))
    ensures e.Data? && !l.torn ==> l.c2s != [] && e.bytes == BytesOf(p, l.c2s[0])
  {
    if !l.torn && l.c2s != [] {
      ReadTakesHead(p, l.c2s);
    }
  }

  // ----- after a lost header -----

  // Only a client in the middle of an upload, or one that has left, can be on such a line;
  // nothing is on its way to the former.
  predicate TornOk(l: Link) {
    && l.torn && l.c.seqNo <= MAX_SEQ && |l.c.clientId| == ID_LEN && |l.c.vaultId| == ID_LEN
    && (l.c.stage.Gone? || (l.c.stage.AwaitAck? && l.s2c == [] && l.s.macKey == Some(l.c.key)))
  }

  lemma HeaderLost(p: Crypto, t: TextCodec, l: Link, e: Event)
    requires Inv(p, l) && Coherent(l.s) && Live(l.s) && e.HeaderTimeout? && Live(Step(p, t, l.s, e).s)
    ensures TornOk(Served(l, e, Step(p, t, l.s, e)))
  {
    QuietShape(p, t, l.s, e);
    assert l.s2c + [] == l.s2c;
  }

  // A stretch of bytes that no key signed ends the session.
  lemma TornServed(p: Crypto, t: TextCodec, l: Link, e: Event)
    requires TornOk(l) && Live(l.s) && (e.Data? ==> Decode(p, e.bytes, ActiveKey(l.s)).Err?)
    ensures TornOk(Served(l, e, Step(p, t, l.s, e)))
    ensures e.Data? ==> !Live(Step(p, t, l.s, e).s)
  {
    QuietShape(p, t, l.s, e);
    assert l.s2c + [] == l.s2c;
  }

  lemma TornKeeps(p: Crypto, t: TextCodec, l: Link, m: Move)
    requires TornOk(l) && Enabled(p, t, l, m)
    requires m.Serve? && m.e.Data? ==> Decode(p, m.e.bytes, ActiveKey(l.s)).Err?
    ensures TornOk(Apply(p, t, l, m))
  {
    if m.Serve? {
      TornServed(p, t, l, m.e);
    }
  }

  // ----- every run -----

  lemma StartHolds(p: Crypto, l: Link)
    requires Starts(l)
    ensures Inv(p, l) && Coherent(l.s) && WireOk(p, l)
  {}

  lemma ServerStays(p: Crypto, t: TextCodec, l: Link, m: Move)
    requires Coherent(l.s) && Enabled(p, t, l, m) && !m.Serve?
    ensures Coherent(Apply(p, t, l, m).s) && Apply(p, t, l, m).torn == l.torn
  {}

  // What holds at every point of a run: the wire and the server are in order; as long as no
  // header was lost, client and server are in step; and after one was lost, the rest of the
  // connection is as good as over, unless bytes that nobody signed pass for a frame.
  ghost predicate Sound(p: Crypto, l: Link, honest: bool) {
    && WireOk(p, l) && Coherent(l.s) && |l.c.clientId| == ID_LEN && |l.c.vaultId| == ID_LEN
    && (!l.torn ==> Inv(p, l))
    && (l.torn && honest ==> TornOk(l))
  }

  lemma ServeSound(p: Crypto, t: TextCodec, l: Link, e: Event, honest: bool)
    requires Sound(p, l, honest) && Enabled(p, t, l, Serve(e))
    requires honest && l.torn && e.Data? ==> Decode(p, e.bytes, ActiveKey(l.s)).Err?
    ensures Sound(p, Served(l, e, Step(p, t, l.s, e)), honest)
  {
    var o := Step(p, t, l.s, e);
    ServedKeepsWire(p, l, e, o);
    StepCoherent(p, t, l.s, e);
    if !l.torn {
      if e.Data? {
        ReadKeeps(p, t, l, e);
      } else {
        QuietShape(p, t, l.s, e);
        QuietKeeps(p, l, e, o);
        if e.HeaderTimeout? && Live(o.s) {
          HeaderLost(p, t, l, e);
        }
      }
    } else if honest {
      TornServed(p, t, l, e);
    }
  }

  lemma OtherMoveKeeps(p: Crypto, t: TextCodec, l: Link, m: Move)
    requires Inv(p, l) && Enabled(p, t, l, m) && !m.Serve?
    ensures Inv(p, Apply(p, t, l, m))
  {
    match m
    case SayHello(_, _) => SayHelloKeeps(p, t, l, m);
    case TakeReply(_) => TakeReplyKeeps(p, t, l, m);
    case Ask(_) => AskKeeps(p, t, l, m);
    case Cut(kept) => CutKeeps(p, l, kept);
    case _ => EndKeeps(p, t, l, m);
  }

  lemma OtherMoveWire(p: Crypto, t: TextCodec, l: Link, m: Move)
    requires WireOk(p, l) && Enabled(p, t, l, m) && !m.Serve?
    requires |l.c.clientId| == ID_LEN && |l.c.vaultId| == ID_LEN
    ensures WireOk(p, Apply(p, t, l, m))
    ensures Apply(p, t, l, m).c.clientId == l.c.clientId && Apply(p, t, l, m).c.vaultId == l.c.vaultId
  {
    if m.SayHello? || m.TakeReply? || m.Ask? {
      SendingKeepsWire(p, t, l, m);
    }
  }

  lemma OtherMoveSound(p: Crypto, t: TextCodec, l: Link, m: Move, honest: bool)
    requires Sound(p, l, honest) && Enabled(p, t, l, m) && !m.Serve?
    ensures Sound(p, Apply(p, t, l, m), honest)
  {
    ServerStays(p, t, l, m);
    OtherMoveWire(p, t, l, m);
    if !l.torn {
      OtherMoveKeeps(p, t, l, m);
    } else if honest {
      TornKeeps(p, t, l, m);
    }
  }

  lemma MoveSound(p: Crypto, t: TextCodec, l: Link, m: Move, honest: bool)
    requires Sound(p, l, honest) && Enabled(p, t, l, m)
    requires honest && l.torn && m.Serve? && m.e.Data? ==> Decode(p, m.e.bytes, ActiveKey(l.s)).Err?
    ensures Sound(p, Apply(p, t, l, m), honest)
  {
    if m.Serve? {
      ServeSound(p, t, l, m.e, honest);
    } else {
      OtherMoveSound(p, t, l, m, honest);
    }
  }

  lemma {:induction false} LockstepHolds(r: Talk, n: nat)
    requires Starts(r.start) && n <= |r.moves|
    ensures Sound(r.p, r.At(n), r.NothingForged(n))
    decreases n
  {
    if n == 0 {
      StartHolds(r.p, r.start);
    } else {
      LockstepHolds(r, n - 1);
      StepSound(r, n - 1, r.NothingForged(n));
    }
  }

  lemma StepSound(r: Talk, i: nat, honest: bool)
    requires i < |r.moves| && Sound(r.p, r.At(i), r.NothingForged(i)) && honest == r.NothingForged(i + 1)
    ensures Sound(r.p, r.At(i + 1), honest)
  {
    var l, m := r.At(i), r.moves[i];
    if Enabled(r.p, r.t, l, m) {
      MoveSound(r.p, r.t, l, m, honest);
    }
  }

  predicate LosesHeader(r: Talk, i: nat)
    requires i < |r.moves|
  {
    && Enabled(r.p, r.t, r.At(i), r.moves[i])
    && r.moves[i].Serve? && r.moves[i].e.HeaderTimeout? && Live(Step(r.p, r.t, r.At(i).s, r.moves[i].e).s)
  }

  lemma SendingTearsNothing(p: Crypto, t: TextCodec, l: Link, m: Move)
    requires Enabled(p, t, l, m) && !m.Serve?
    ensures Apply(p, t, l, m).torn == l.torn
  {}

  lemma ServingTears(p: Crypto, t: TextCodec, l: Link, e: Event)
    requires Enabled(p, t, l, Serve(e))
    ensures Apply(p, t, l, Serve(e)).torn <==>
            l.torn || (e.HeaderTimeout? && Live(Step(p, t, l.s, e).s))
  {}

  lemma TornByMove(r: Talk, i: nat)
    requires i < |r.moves|
    ensures r.At(i + 1).torn <==> r.At(i).torn || LosesHeader(r, i)
  {
    var l, m := r.At(i), r.moves[i];
    if Enabled(r.p, r.t, l, m) {
      if m.Serve? {
        ServingTears(r.p, r.t, l, m.e);
      } else {
        SendingTearsNothing(r.p, r.t, l, m);
      }
    }
  }

  lemma {:induction false} LossBefore(r: Talk, n: nat) returns (i: nat)
    requires Starts(r.start) && n <= |r.moves| && r.At(n).torn
    ensures i < n && LosesHeader(r, i)
    decreases n
  {
    i := n - 1;
    TornByMove(r, i);
    if r.At(i).torn {
      i := LossBefore(r, i);
    }
  }

  lemma {:induction false} TornStays(r: Talk, i: nat, n: nat)
    requires i <= n <= |r.moves| && r.At(i).torn
    ensures r.At(n).torn
    decreases n
  {
    if i < n {
      TornStays(r, i, n - 1);
      TornByMove(r, n - 1);
    }
  }

  // A header is lost exactly by a fragment timeout that falls between a header and its body.
  lemma TornOnlyByTimeout(r: Talk, n: nat)
    requires Starts(r.start) && n <= |r.moves|
    ensures r.At(n).torn <==> exists i :: 0 <= i < n && LosesHeader(r, i)
  {
    if r.At(n).torn {
      var i := LossBefore(r, n);
    }
    if i :| 0 <= i < n && LosesHeader(r, i) {
      TornByMove(r, i);
      TornStays(r, i + 1, n);
    }
  }

  // Nothing can be forged as long as no header was lost.
  lemma {:induction false} ForgedOnlyAfterLoss(r: Talk, n: nat)
    requires n <= |r.moves| && !r.NothingForged(n)
    ensures r.At(n).torn
    decreases n
  {
    TornByMove(r, n - 1);
    if !r.NothingForged(n - 1) {
      ForgedOnlyAfterLoss(r, n - 1);
    }
  }

  lemma SoundInStep(p: Crypto, l: Link)
    requires Sound(p, l, true)
    ensures !l.c.stage.Broken? && (l.c.stage.Ready? ==> l.s.macKey == Some(l.c.key))
  {}

  // The client never meets a frame it has no use for or cannot verify, and both ends hold the
  // same key once it is ready, also when a header was lost on the way to the server.
  lemma NeverOutOfStep(r: Talk, n: nat)
    requires Starts(r.start) && n <= |r.moves| && r.NothingForged(n)
    ensures !r.At(n).c.stage.Broken?
    ensures r.At(n).c.stage.Ready? ==> r.At(n).s.macKey == Some(r.At(n).c.key)
  {
    LockstepHolds(r, n);
    SoundInStep(r.p, r.At(n));
  }

  // What the server reads next is exactly what was sent if and only if no header was lost.
  lemma WireIsWhatWasSent(r: Talk, n: nat)
    requires Starts(r.start) && n <= |r.moves| && Live(r.At(n).s)
    ensures r.At(n).wire == WireOf(r.p, r.At(n).c2s) <==> !r.At(n).torn
  {
    LockstepHolds(r, n);
  }

  // Then the next read takes a frame that was sent, and it was signed with the key the server
  // checks it with, also across the change of keys at AUTH_OK; and so is every reply the
  // client takes.
  lemma FramesMeetTheirKeys(r: Talk, n: nat)
    requires Starts(r.start) && n <= |r.moves|
    ensures var l := r.At(n);
            && (r.NothingForged(n) && Waiting(l.c) && l.s2c != [] ==>
                  && Packable(l.s2c[0]) && l.s2c[0].key == l.c.key
                  && ClientRead(r.p, BytesOf(r.p, l.s2c[0]), Some(l.c.key)).Ok?)
            && (!l.torn && !l.c.stage.Gone? && Live(l.s) && l.c2s != [] ==>
                  && Packable(l.c2s[0]) && l.c2s[0].key == ActiveKey(l.s)
                  && NextRead(l.wire) == Some(BytesOf(r.p, l.c2s[0]))
                  && Decode(r.p, BytesOf(r.p, l.c2s[0]), ActiveKey(l.s)).Ok?)
  {
    var l := r.At(n);
    LockstepHolds(r, n);
    if r.NothingForged(n) && Waiting(l.c) && l.s2c != [] {
      NextReply(r.p, l);
      ClientDecodes(r.p, l.s2c[0]);
    }
    if !l.torn && !l.c.stage.Gone? && Live(l.s) && l.c2s != [] {
      NextRequest(r.p, l);
      ReadTakesHead(r.p, l.c2s);
      ServerDecodes(r.p, l.c2s[0]);
    }
  }

  lemma NextReply(p: Crypto, l: Link)
    requires Inv(p, l) && Waiting(l.c) && l.s2c != []
    ensures Packable(l.s2c[0]) && l.s2c[0].key == l.c.key
  {
    if l.c.stage.AwaitData? {
      FetchGoesOn(l.c, l.s, l.c2s, l.s2c, l.seen);
    }
  }

  lemma NextRequest(p: Crypto, l: Link)
    requires Inv(p, l) && Coherent(l.s) && !l.c.stage.Gone? && Live(l.s) && l.c2s != []
    ensures Packable(l.c2s[0]) && l.c2s[0].key == ActiveKey(l.s)
  {
    FlagsMean();
  }

  // A waiting client has a reply to take, a closed connection to notice, or bytes of its own
  // that a live server has still to read or to give up on.
  lemma WaitingClientIsNotStuck(r: Talk, n: nat)
    requires Starts(r.start) && n <= |r.moves| && Waiting(r.At(n).c)
    ensures var l := r.At(n); l.s2c != [] || l.s.phase.Closed? || l.torn || (l.c2s != [] && NextRead(l.wire).Some?)
  {
    LockstepHolds(r, n);
    if !r.At(n).torn && r.At(n).c2s != [] && Live(r.At(n).s) {
      ReadTakesHead(r.p, r.At(n).c2s);
    }
  }

  // A finished request ended as what the server did: a fetch with exactly the row the server
  // read, or none when it read none; a save with a row stored at the version reported, which
  // holds the client's blob if and only if no fragments were dropped on the way; a rejected
  // save with nothing stored.
  lemma FinishedRequestsAreTrue(r: Talk, n: nat)
    requires Starts(r.start) && n <= |r.moves| && r.At(n).c.stage.Ready? && r.NothingForged(n)
    ensures var l := r.At(n);
            match l.c.stage.done
            case Fetched(version, blob) => l.seen == Some((version, blob))
            case Missing => l.seen == None
            case Saved(put, version) =>
              && l.effect.Stored? && l.effect.vault.version == version
              && (l.intact <==> l.effect.vault.blob == put.blob)
              && (l.intact ==> l.effect.vaultId == put.vaultId && version == put.base + 1)
            case Rejected(_) => l.effect == Nothing
            case _ => true
  {
    LockstepHolds(r, n);
  }
}
