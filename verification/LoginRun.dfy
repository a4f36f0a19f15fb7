// A run in which somebody registers, connects, says HELLO and logs in: what the handshake is
// for, and a witness that the runs `Provenance` speaks about exist.
module LoginRun {
  import opened Common
  import opened LittleEndian
  import opened Primitives
  import opened ByteIO
  import opened FrameCodec
  import opened AuthPayload
  import opened Payloads
  import opened Fragments
  import opened Database
  import opened ServerSession
  import opened Handshake
  import opened Provenance

  // A client, the account it belongs to with its TOTP code if there is one, and the random
  // values and time of one login.
  datatype Setting = Setting(p: Crypto, t: TextCodec, user: UserRow, kAuth: Bytes, totp: Option<u32>,
                             nonceC: Bytes, clientId: Bytes, nonceS: Bytes, token: Bytes, now: nat)
  {
    ghost predicate Fits() {
      && t.Lawful() && t.encode(user.username).Some? && 1 <= |t.encode(user.username).value| <= 64
      && user.kAuth == Some(kAuth)
      && (user.totpSecret.Some? ==> totp.Some? && p.totp(user.totpSecret.value, totp.value, now))
      && |nonceC| == 32 && |clientId| == ID_LEN && now < Shl8(1, 8)
    }

    function Raw(): Bytes { match t.encode(user.username) case Some(b) => b case None => [] }

    function Seen(): World {
      World(now, 0.0, nonceS, token, map[user.username := user], map[], map[], map[], map[])
    }

    function FrameWith(m: MsgType, payload: Bytes): Frame { Frame(1, m, NO_FLAGS, 0, |payload|, payload, []) }

    function Wired(f: Frame): Event {
      Data(match Encode(p, f, DUMMY_KEY) case Ok(b) => b case Err(_) => [], Seen())
    }

    function HelloFrame(): Frame { FrameWith(HELLO, HelloPayload(Hello(nonceC, clientId, now))) }

    function AuthFrame(): Frame {
      FrameWith(AUTH, if |Raw()| <= 64 then LoginPayload(Raw(), p.Hmac(kAuth, nonceC + nonceS + Raw()), totp) else [])
    }

    function Challenged(): Session {
      NEW_SESSION.(phase := Authenticating, outSeq := 1, nonceC := Some(nonceC), nonceS := Some(nonceS),
                   clientId := Some(clientId))
    }

    function Accepted(): Session {
      Challenged().(phase := Established, outSeq := 2, user := Some(user.id), macKey := Some(p.Hkdf(token, nonceC)))
    }

    function Row(): SessionRow { SessionRow(user.id, now + SESSION_TTL_MS, clientId) }

    function Acts(): seq<Act> {
      [Register(user), Accept(0), Arrive(0, Wired(HelloFrame())), Arrive(0, Wired(AuthFrame()))]
    }
  }

  // A frame under the dummy key reaches a session that is not established yet.
  lemma Arrives(x: Setting, s: Session, f: Frame) returns (d: Frame)
    requires s.phase.Greeting? || s.phase.Authenticating?
    requires f == x.FrameWith(f.msgType, f.payload) && |f.payload| <= MAX_PAYLOAD
    ensures d.msgType == f.msgType && d.payload == f.payload
    ensures Step(x.p, x.t, s, x.Wired(f)) == OnFrame(x.p, x.t, s, d, x.Seen())
  {
    FlagsMean();
    DecodeEncode(x.p, f, DUMMY_KEY);
    d := Decode(x.p, x.Wired(f).bytes, DUMMY_KEY).value;
  }

  lemma HelloAnswered(x: Setting, d: Frame)
    requires x.Fits() && d.msgType == HELLO && d.payload == HelloPayload(Hello(x.nonceC, x.clientId, x.now))
    ensures OnHello(NEW_SESSION, d, x.Seen()) ==
            Outcome(x.Challenged(), Answer(NEW_SESSION, CHALLENGE, ChallengePayload(x.nonceS, x.now)), Nothing, None)
  {
    HelloParses(Hello(x.nonceC, x.clientId, x.now), x.now);
  }

  lemma AuthAnswered(x: Setting, d: Frame)
    requires x.Fits() && d.msgType == AUTH
    requires d.payload == LoginPayload(x.Raw(), x.p.Hmac(x.kAuth, x.nonceC + x.nonceS + x.Raw()), x.totp)
    ensures OnAuth(x.p, x.t, x.Challenged(), d, x.Seen()) ==
            Outcome(x.Accepted(), Answer(x.Challenged(), AUTH_OK, AuthOkPayload(x.token, x.now + SESSION_TTL_MS, 0)),
                    NewSession(x.token, x.Row()), None)
  {
    LoginAcceptedIff(x.p, x.t, x.Challenged(), d, x.Seen(), x.user.username, x.kAuth, x.totp);
    assert OnAuth(x.p, x.t, x.Challenged(), d, x.Seen()).s.phase.Established?;
  }

  lemma HelloMovesOn(x: Setting)
    requires x.Fits()
    ensures var o := Step(x.p, x.t, NEW_SESSION, x.Wired(x.HelloFrame())); o.s == x.Challenged() && o.effect == Nothing
  {
    assert |HelloPayload(Hello(x.nonceC, x.clientId, x.now))| == 56;
    var d := Arrives(x, NEW_SESSION, x.HelloFrame());
    HelloAnswered(x, d);
  }

  lemma AuthCreatesSession(x: Setting)
    requires x.Fits()
    ensures Step(x.p, x.t, x.Challenged(), x.Wired(x.AuthFrame())).effect == NewSession(x.token, x.Row())
  {
    var d := Arrives(x, x.Challenged(), x.AuthFrame());
    AuthAnswered(x, d);
  }

  function RunOf(x: Setting): History { History(x.p, x.t, x.Acts()) }

  function Users(x: Setting): map<string, UserRow> { map[x.user.username := x.user] }

  lemma Connected(x: Setting)
    ensures RunOf(x).At(1) == Server(Users(x), map[], map[], map[])
    ensures RunOf(x).At(2) == Server(Users(x), map[], map[], map[0 := NEW_SESSION])
  {
    assert RunOf(x).At(0) == Server(map[], map[], map[], map[]);
  }

  // What an event that reaches a connection leaves.
  lemma ArriveLeaves(h: History, i: nat, c: nat, e: Event, g: Server, s: Session)
    requires i < |h.acts| && h.acts[i] == Arrive(c, e) && h.At(i) == g
    requires c in g.connections && g.connections[c] == s
    ensures var o := Step(h.p, h.t, s, e);
            h.At(i + 1) == g.(connections := g.connections[c := o.s], sessions := AddSession(g.sessions, o.effect),
                              vaults := SetVault(g.vaults, o.effect))
  {}

  lemma AfterHello(x: Setting)
    requires x.Fits()
    ensures RunOf(x).At(3) == Server(Users(x), map[], map[], map[0 := x.Challenged()])
  {
    var i, e, g := 2, x.Wired(x.HelloFrame()), Server(Users(x), map[], map[], map[0 := NEW_SESSION]);
    Connected(x);
    HelloMovesOn(x);
    ArriveLeaves(RunOf(x), i, 0, e, g, NEW_SESSION);
    assert g.connections[0 := x.Challenged()] == map[0 := x.Challenged()];
  }

  lemma AfterAuth(x: Setting)
    requires x.Fits()
    ensures RunOf(x).At(4).sessions == map[x.token := x.Row()]
  {
    var i, e, g := 3, x.Wired(x.AuthFrame()), Server(Users(x), map[], map[], map[0 := x.Challenged()]);
    AfterHello(x);
    AuthCreatesSession(x);
    ArriveLeaves(RunOf(x), i, 0, e, g, x.Challenged());
  }

  // Registering and logging in with the registered key yields a session of that user.
  lemma HonestLoginYieldsSession(x: Setting)
    requires x.Fits()
    ensures RunOf(x).Possible()
    ensures x.token in RunOf(x).At(4).sessions && RunOf(x).At(4).sessions[x.token] == x.Row()
  {
    var h := RunOf(x);
    Connected(x);
    AfterHello(x);
    AfterAuth(x);
    forall i | 0 <= i < |h.acts| ensures h.PossibleAt(i) {
      FirstActs(x, i);
    }
  }

  lemma FirstActs(x: Setting, i: nat)
    requires x.Fits() && i < 4
    ensures Enabled(RunOf(x).At(i), RunOf(x).acts[i])
  {
    Connected(x);
    if i == 3 {
      AfterHello(x);
      assert Sees(RunOf(x).At(3), x.Seen());
    } else if i == 2 {
      assert Sees(RunOf(x).At(2), x.Seen());
    }
  }
}
