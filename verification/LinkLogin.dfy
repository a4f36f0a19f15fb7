// When an honest client on a fresh connection ends up logged in: the five moves of a login or
// a refresh, down to the bytes, for any account, token, clocks and tables.
module LinkLogin {
  import opened Common
  import opened LittleEndian
  import opened Primitives
  import opened ByteIO
  import opened FrameCodec
  import opened AuthPayload
  import opened Payloads
  import opened Fragments
  import opened Transport
  import opened Database
  import opened ServerSession
  import opened SessionTheorems
  import opened Handshake
  import opened Link
  import opened Lockstep

  // ----- single moves -----

  lemma Advance(r: Talk, n: nat, l: Link, l': Link)
    requires n < |r.moves| && r.At(n) == l
    requires Enabled(r.p, r.t, l, r.moves[n]) && Apply(r.p, r.t, l, r.moves[n]) == l'
    ensures r.At(n + 1) == l'
  {}

  // Reading the only frame on the wire.
  lemma OneFrameRead(p: Crypto, t: TextCodec, l: Link, f: Sent, e: Event) returns (d: Frame)
    requires Live(l.s) && (l.s.phase.Established? ==> l.s.macKey.Some?)
    requires Packable(f) && f.key == ActiveKey(l.s) && l.wire == WireOf(p, [f])
    requires e.Data? && StreamAfter(l.wire, e).Some?
    ensures e.bytes == BytesOf(p, f) && StreamAfter(l.wire, e) == Some([])
    ensures d.msgType == f.msgType && d.flags == f.flags && d.payload == f.payload
    ensures Step(p, t, l.s, e) == OnFrame(p, t, l.s, d, e.w)
  {
    ReadTakesHead(p, [f]);
    d := Reads(p, t, l.s, f, e);
  }

  // A read of the only frame can happen.
  lemma OneFrameReadable(p: Crypto, f: Sent, w: World)
    requires Packable(f)
    ensures StreamAfter(WireOf(p, [f]), Data(BytesOf(p, f), w)) == Some([])
  {
    ReadTakesHead(p, [f]);
  }

  // What reading it makes of the connection.
  lemma OneFrameServed(p: Crypto, t: TextCodec, l: Link, f: Sent, e: Event, o: Outcome)
    requires Live(l.s) && l.c2s == [f] && !l.torn && l.s2c == [] && f.msgType != VAULT_GET
    requires e.Data? && SaneWorld(e.w) && StreamAfter(l.wire, e) == Some([])
    requires Step(p, t, l.s, e) == o && o.s.outSeq <= MAX_SEQ
    ensures Enabled(p, t, l, Serve(e))
    ensures Apply(p, t, l, Serve(e)) ==
            l.(s := o.s, wire := [], c2s := [], s2c := o.sent, taken := l.taken + |f.payload|,
               effect := if o.processed.Some? then o.effect else l.effect)
  {
    assert l.c2s[1..] == [] && [] + o.sent == o.sent;
  }

  // Taking the only reply, when it leaves nothing to send.
  lemma OneReplyTaken(p: Crypto, t: TextCodec, l: Link, f: Sent, c: Peer, how: Credentials)
    requires Waiting(l.c) && l.c.seqNo < MAX_SEQ && l.s2c == [f] && Packable(f)
    requires ClientReceives(p, t, l.c, f, how) == (c, [])
    ensures Enabled(p, t, l, TakeReply(how)) && Apply(p, t, l, TakeReply(how)) == l.(c := c, s2c := [])
  {
    assert l.wire + [] == l.wire && l.c2s + [] == l.c2s;
  }

  // ----- the scene -----

  // A connection, the client's nonce, clock and credentials, and what the handler finds when
  // it reads the HELLO and the AUTH.
  datatype Scene = Scene(p: Crypto, t: TextCodec, start: Link, nonceC: Bytes, ts: nat, w1: World,
                         how: Credentials, w2: World)
  {
    ghost predicate Set() {
      && t.Lawful() && Starts(start) && start.c.seqNo + 2 < MAX_SEQ
      && |nonceC| == 32 && ts < Shl8(1, 8) && Recent(Hello(nonceC, start.c.clientId, ts), w1.nowMs)
      && SaneWorld(w1) && SaneWorld(w2)
      && 1 <= |how.raw| <= 64 && (how.ByToken? ==> |how.token| == TOKEN_LEN)
    }

    function Proof(): Bytes { nonceC + w1.nonceS + how.raw }

    function Message(): Bytes {
      if |how.raw| > 64 then []
      else
        match how
        case ByPassword(raw, kAuth, totp) => LoginPayload(raw, p.Hmac(kAuth, Proof()), totp)
        case ByToken(raw, token) => RefreshPayload(raw, token)
    }

    function HelloSent(): Sent {
      Sent(HELLO, NO_FLAGS, HelloPayload(Hello(nonceC, start.c.clientId, ts)), start.c.seqNo, DUMMY_KEY)
    }

    function AuthSent(): Sent { Sent(AUTH, NO_FLAGS, Message(), start.c.seqNo + 1, DUMMY_KEY) }

    function Greeted(): Link {
      start.(c := start.c.(stage := AwaitChallenge, nonceC := nonceC, seqNo := start.c.seqNo + 1),
             wire := WireOf(p, [HelloSent()]), c2s := [HelloSent()])
    }

    function Challenged(): Session {
      NEW_SESSION.(phase := Authenticating, outSeq := 1, nonceC := Some(nonceC), nonceS := Some(w1.nonceS),
                   clientId := Some(start.c.clientId))
    }

    function ChallengeSent(): Sent { Sent(CHALLENGE, NO_FLAGS, ChallengePayload(w1.nonceS, w1.nowMs), 0, DUMMY_KEY) }

    function ChallengedLink(): Link {
      Greeted().(s := Challenged(), wire := [], c2s := [], s2c := [ChallengeSent()],
                 taken := start.taken + |HelloSent().payload|)
    }

    function Answering(): Peer {
      start.c.(stage := AwaitAuthOk, nonceC := nonceC, seqNo := start.c.seqNo + 2)
    }

    function Answered(): Link {
      ChallengedLink().(c := Answering(), s2c := [], wire := WireOf(p, [AuthSent()]), c2s := [AuthSent()])
    }

    // After the server has decided.
    function Decided(s: Session, sent: seq<Sent>): Link {
      Answered().(s := s, wire := [], c2s := [], s2c := sent,
                  taken := start.taken + |HelloSent().payload| + |AuthSent().payload|)
    }

    function LoggedInPeer(): Peer {
      start.c.(stage := Ready(LoggedIn), key := p.Hkdf(w2.token, nonceC), nonceC := nonceC, seqNo := start.c.seqNo + 2)
    }

    function LoggedInLink(s: Session): Link { Decided(s, []).(c := LoggedInPeer()) }

    // The run of a login: HELLO, its read, the CHALLENGE, the read of the AUTH, its answer.
    ghost predicate Plays(r: Talk) {
      && r.p == p && r.t == t && r.start == start && |r.moves| >= 5
      && r.moves[0] == SayHello(nonceC, ts) && r.moves[2] == TakeReply(how) && r.moves[4].TakeReply?
      && r.moves[1].Serve? && r.moves[1].e.Data? && r.moves[1].e.w == w1
      && r.moves[3].Serve? && r.moves[3].e.Data? && r.moves[3].e.w == w2
      && Enabled(p, t, r.At(1), r.moves[1]) && Enabled(p, t, r.At(3), r.moves[3])
    }
  }

  // The reads take the frames that were sent.
  function Moves(x: Scene): seq<Move>
    requires Packable(x.HelloSent()) && Packable(x.AuthSent())
  {
    [SayHello(x.nonceC, x.ts), Serve(Data(BytesOf(x.p, x.HelloSent()), x.w1)), TakeReply(x.how),
     Serve(Data(BytesOf(x.p, x.AuthSent()), x.w2)), TakeReply(x.how)]
  }

  lemma SentPackable(x: Scene)
    requires x.Set()
    ensures Packable(x.HelloSent()) && |x.HelloSent().payload| == 56 && Packable(x.AuthSent())
  {
    FlagsMean();
    Widths();
  }

  // ----- the moves -----

  lemma SaysHello(x: Scene)
    requires x.Set()
    ensures Enabled(x.p, x.t, x.start, SayHello(x.nonceC, x.ts))
    ensures Apply(x.p, x.t, x.start, SayHello(x.nonceC, x.ts)) == x.Greeted()
  {
    assert [] + [x.HelloSent()] == [x.HelloSent()];
    assert [] + WireOf(x.p, [x.HelloSent()]) == WireOf(x.p, [x.HelloSent()]);
  }

  lemma HelloServes(x: Scene, e: Event)
    requires x.Set() && e.Data? && e.w == x.w1 && StreamAfter(x.Greeted().wire, e).Some?
    ensures Enabled(x.p, x.t, x.Greeted(), Serve(e)) && Apply(x.p, x.t, x.Greeted(), Serve(e)) == x.ChallengedLink()
  {
    SentPackable(x);
    var d := OneFrameRead(x.p, x.t, x.Greeted(), x.HelloSent(), e);
    HelloParses(Hello(x.nonceC, x.start.c.clientId, x.ts), x.w1.nowMs);
    OneFrameServed(x.p, x.t, x.Greeted(), x.HelloSent(), e, Outcome(x.Challenged(), [x.ChallengeSent()], Nothing, None));
  }

  // What the client makes of the challenge.
  lemma ChallengeRead(x: Scene)
    requires x.Set()
    ensures Packable(x.ChallengeSent())
    ensures ClientReceives(x.p, x.t, x.ChallengedLink().c, x.ChallengeSent(), x.how) == (x.Answering(), [x.AuthSent()])
  {
    FlagsMean();
    Widths();
    ReceivesExpected(x.p, x.t, x.ChallengedLink().c, x.ChallengeSent(), x.how);
    assert x.ChallengeSent().payload[..32] == x.w1.nonceS;
  }

  lemma TakesChallenge(x: Scene)
    requires x.Set()
    ensures Enabled(x.p, x.t, x.ChallengedLink(), TakeReply(x.how))
    ensures Apply(x.p, x.t, x.ChallengedLink(), TakeReply(x.how)) == x.Answered()
  {
    ChallengeRead(x);
    assert [] + [x.AuthSent()] == [x.AuthSent()];
    assert [] + WireOf(x.p, [x.AuthSent()]) == WireOf(x.p, [x.AuthSent()]);
  }

  lemma AuthServes(x: Scene, e: Event) returns (d: Frame)
    requires x.Set() && e.Data? && e.w == x.w2 && StreamAfter(x.Answered().wire, e).Some?
    ensures d.msgType == AUTH && d.payload == x.Message()
    ensures var o := OnAuth(x.p, x.t, x.Challenged(), d, x.w2);
            Enabled(x.p, x.t, x.Answered(), Serve(e)) && Apply(x.p, x.t, x.Answered(), Serve(e)) == x.Decided(o.s, o.sent)
  {
    SentPackable(x);
    d := OneFrameRead(x.p, x.t, x.Answered(), x.AuthSent(), e);
    AuthShape(x.p, x.t, x.Challenged(), d, x.w2);
    OneFrameServed(x.p, x.t, x.Answered(), x.AuthSent(), e, OnAuth(x.p, x.t, x.Challenged(), d, x.w2));
  }

  // What the client makes of an AUTH_OK.
  lemma AuthOkArrives(p: Crypto, t: TextCodec, c: Peer, token: Bytes, expiry: nat, f: Sent, how: Credentials)
    requires c.stage.AwaitAuthOk? && c.key == DUMMY_KEY
    requires |token| == 32 && expiry < Shl8(1, 8) && f.seqId < MAX_SEQ
    requires f == Sent(AUTH_OK, NO_FLAGS, AuthOkPayload(token, expiry, 0), f.seqId, DUMMY_KEY)
    ensures Packable(f)
    ensures ClientReceives(p, t, c, f, how) == (c.(stage := Ready(LoggedIn), key := p.Hkdf(token, c.nonceC)), [])
  {
    FlagsMean();
    AuthOkParses(token, expiry, 0);
    ReceivesExpected(p, t, c, f, how);
  }

  lemma TakesAuthOk(x: Scene, s: Session, ok: Sent, how: Credentials)
    requires x.Set() && Packable(ok) && ClientReceives(x.p, x.t, x.Answering(), ok, how) == (x.LoggedInPeer(), [])
    ensures Enabled(x.p, x.t, x.Decided(s, [ok]), TakeReply(how))
    ensures Apply(x.p, x.t, x.Decided(s, [ok]), TakeReply(how)) == x.LoggedInLink(s)
  {
    OneReplyTaken(x.p, x.t, x.Decided(s, [ok]), ok, x.LoggedInPeer(), how);
  }

  // ----- the run -----

  lemma AnsweredAfterThree(x: Scene, r: Talk)
    requires x.Set() && x.Plays(r)
    ensures r.At(3) == x.Answered()
  {
    SaysHello(x);
    Advance(r, 0, x.start, x.Greeted());
    HelloServes(x, r.moves[1].e);
    Advance(r, 1, x.Greeted(), x.ChallengedLink());
    TakesChallenge(x);
    Advance(r, 2, x.ChallengedLink(), x.Answered());
  }

  // Such a run can always be had.
  lemma Playable(x: Scene, r: Talk)
    requires x.Set() && Packable(x.HelloSent()) && Packable(x.AuthSent())
    requires r.p == x.p && r.t == x.t && r.start == x.start && |r.moves| >= 5
    requires forall i :: 0 <= i < 5 ==> r.moves[i] == Moves(x)[i]
    ensures x.Plays(r)
  {
    var m := Moves(x);
    assert r.moves[0] == m[0] && r.moves[1] == m[1] && r.moves[2] == m[2] && r.moves[3] == m[3] && r.moves[4] == m[4];
    SaysHello(x);
    Advance(r, 0, x.start, x.Greeted());
    OneFrameReadable(x.p, x.HelloSent(), x.w1);
    HelloServes(x, m[1].e);
    Advance(r, 1, x.Greeted(), x.ChallengedLink());
    TakesChallenge(x);
    Advance(r, 2, x.ChallengedLink(), x.Answered());
    OneFrameReadable(x.p, x.AuthSent(), x.w2);
    var _ := AuthServes(x, m[3].e);
  }

  lemma DecidedAfterFour(x: Scene, r: Talk) returns (d: Frame)
    requires x.Set() && x.Plays(r)
    ensures d.msgType == AUTH && d.payload == x.Message()
    ensures var o := OnAuth(x.p, x.t, x.Challenged(), d, x.w2); r.At(4) == x.Decided(o.s, o.sent)
  {
    AnsweredAfterThree(x, r);
    d := AuthServes(x, r.moves[3].e);
    var o := OnAuth(x.p, x.t, x.Challenged(), d, x.w2);
    Advance(r, 3, x.Answered(), x.Decided(o.s, o.sent));
  }

  // An accepted AUTH is answered with one AUTH_OK of the fresh token.
  lemma AcceptedAnswer(p: Crypto, t: TextCodec, s: Session, d: Frame, w: World) returns (ok: Sent)
    requires OnAuth(p, t, s, d, w).s.phase.Established? && s.phase.Authenticating?
    ensures OnAuth(p, t, s, d, w).sent == [ok]
    ensures ok == Sent(AUTH_OK, NO_FLAGS, AuthOkPayload(w.token, w.nowMs + SESSION_TTL_MS, 0), s.outSeq, DUMMY_KEY)
  {
    AuthShape(p, t, s, d, w);
    ok := OnAuth(p, t, s, d, w).sent[0];
  }

  // It logs the client in.
  lemma AuthOkSent(x: Scene, d: Frame, how: Credentials) returns (ok: Sent)
    requires x.Set() && OnAuth(x.p, x.t, x.Challenged(), d, x.w2).s.phase.Established?
    ensures OnAuth(x.p, x.t, x.Challenged(), d, x.w2).sent == [ok]
    ensures Packable(ok) && ClientReceives(x.p, x.t, x.Answering(), ok, how) == (x.LoggedInPeer(), [])
  {
    ok := AcceptedAnswer(x.p, x.t, x.Challenged(), d, x.w2);
    AuthOkArrives(x.p, x.t, x.Answering(), x.w2.token, x.w2.nowMs + SESSION_TTL_MS, ok, how);
  }

  lemma LoggedInNext(x: Scene, r: Talk, n: nat, s: Session, ok: Sent)
    requires x.Set() && r.p == x.p && r.t == x.t && n < |r.moves| && r.moves[n].TakeReply?
    requires r.At(n) == x.Decided(s, [ok]) && Packable(ok)
    requires ClientReceives(x.p, x.t, x.Answering(), ok, r.moves[n].how) == (x.LoggedInPeer(), [])
    ensures r.At(n + 1) == x.LoggedInLink(s)
  {
    TakesAuthOk(x, s, ok, r.moves[n].how);
    Advance(r, n, x.Decided(s, [ok]), x.LoggedInLink(s));
  }

  lemma TakingKeepsServer(r: Talk, i: nat)
    requires i < |r.moves| && r.moves[i].TakeReply?
    ensures r.At(i + 1).s == r.At(i).s && r.At(i + 1).torn == r.At(i).torn
  {}

  // A client is not ready while the server holds no session key.
  lemma NotReadyWithoutKey(r: Talk, n: nat)
    requires Starts(r.start) && n <= |r.moves| && !r.At(n).torn && r.At(n).s.macKey.None?
    ensures !r.At(n).c.stage.Ready?
  {
    if !r.NothingForged(n) {
      ForgedOnlyAfterLoss(r, n);
    }
    NeverOutOfStep(r, n);
  }

  lemma NotReadyNext(r: Talk, n: nat)
    requires Starts(r.start) && n < |r.moves| && r.moves[n].TakeReply?
    requires !r.At(n).torn && r.At(n).s.macKey.None? && r.At(n).s.phase.Closed?
    ensures !r.At(n + 1).c.stage.Ready? && !r.At(n + 1).s.phase.Established?
  {
    TakingKeepsServer(r, n);
    NotReadyWithoutKey(r, n + 1);
  }

  // What the decision on the AUTH makes of both ends.
  lemma Outcomes(x: Scene, r: Talk, d: Frame, n: nat)
    requires x.Set() && x.Plays(r) && n == 4
    requires var o := OnAuth(x.p, x.t, x.Challenged(), d, x.w2);
             && r.At(n) == x.Decided(o.s, o.sent)
             && (o.s.phase.Established? || (o.s.phase.Closed? && o.s.macKey.None?))
    ensures var s := OnAuth(x.p, x.t, x.Challenged(), d, x.w2).s;
            if s.phase.Established? then r.At(n + 1) == x.LoggedInLink(s)
            else !r.At(n + 1).c.stage.Ready? && !r.At(n + 1).s.phase.Established?
  {
    if OnAuth(x.p, x.t, x.Challenged(), d, x.w2).s.phase.Established? {
      var ok := AuthOkSent(x, d, r.moves[n].how);
      LoggedInNext(x, r, n, r.At(n).s, ok);
    } else {
      NotReadyNext(r, n);
    }
  }

  // How both ends stand after the run, for a user.
  ghost predicate LoggedInAs(l: Link, user: nat) {
    && l.c.stage == Ready(LoggedIn) && l.s.phase.Established? && l.s.user == Some(user)
    && l.s.clientId == Some(l.c.clientId) && l.s.macKey == Some(l.c.key)
  }

  ghost predicate NotLoggedIn(l: Link) { !l.c.stage.Ready? && !l.s.phase.Established? }

  // A client that presents a token ends up logged in, at both ends, as that user, if and only
  // if the token has an unexpired row of that user and of this client id (and the server's
  // fresh token is not taken); otherwise at neither.
  lemma TokenLogsInIff(x: Scene, r: Talk, username: string)
    requires x.Set() && x.Plays(r) && x.t.encode(username) == Some(x.how.raw) && x.how.ByToken?
    ensures var w := x.w2;
            if && w.token !in w.sessionsAtInsert
               && username in w.users && x.how.token in w.sessions
               && w.sessions[x.how.token].expiry > w.nowMs
               && w.sessions[x.how.token].userId == w.users[username].id
               && w.sessions[x.how.token].clientId == x.start.c.clientId
            then LoggedInAs(r.At(5), w.users[username].id)
            else NotLoggedIn(r.At(5))
  {
    var d := DecidedAfterFour(x, r);
    RefreshAcceptedIff(x.p, x.t, x.Challenged(), d, x.w2, username, x.how.token);
    AuthShape(x.p, x.t, x.Challenged(), d, x.w2);
    Outcomes(x, r, d, 4);
  }

  // A client that knows a password ends up logged in as that user if and only if the key it
  // derived gives the HMAC of the stored one over both nonces and the name, and the TOTP code
  // is given and valid where the user has a secret (and the fresh token is not taken).
  lemma PasswordLogsInIff(x: Scene, r: Talk, username: string)
    requires x.Set() && x.Plays(r) && x.t.encode(username) == Some(x.how.raw) && x.how.ByPassword?
    ensures var w, message := x.w2, x.nonceC + x.w1.nonceS + x.how.raw;
            if && w.token !in w.sessionsAtInsert
               && username in w.users && w.users[username].kAuth.Some?
               && x.p.Hmac(x.how.kAuth, message) == x.p.Hmac(w.users[username].kAuth.value, message)
               && (w.users[username].totpSecret.Some? ==>
                     x.how.totp.Some? && x.p.totp(w.users[username].totpSecret.value, x.how.totp.value, w.nowMs))
            then LoggedInAs(r.At(5), w.users[username].id)
            else NotLoggedIn(r.At(5))
  {
    var d := DecidedAfterFour(x, r);
    LoginAcceptedIff(x.p, x.t, x.Challenged(), d, x.w2, username, x.how.kAuth, x.how.totp);
    AuthShape(x.p, x.t, x.Challenged(), d, x.w2);
    Outcomes(x, r, d, 4);
  }
}
