// Exactly when a HELLO moves a session on, and when the AUTH message of an honest client is
// accepted.
module Handshake {
  import opened Common
  import opened LittleEndian
  import opened Primitives
  import opened ByteIO
  import opened FrameCodec
  import opened AuthPayload
  import opened Payloads
  import opened Database
  import opened ServerSession

  ghost predicate Challenged(s: Session) {
    s.phase.Authenticating? && s.nonceC.Some? && s.nonceS.Some? && s.clientId.Some?
  }

  // The first frame moves the session on if and only if it is a HELLO of a client whose clock
  // is right; its nonce and client id are kept and the server's nonce is sent. Anything else
  // ends the session without an answer.
  lemma HelloAcceptedIff(s: Session, f: Frame, w: World)
    requires s.phase.Greeting?
    ensures var o := OnHello(s, f, w);
            && (o.s.phase.Authenticating? <==>
                  && f.msgType == HELLO
                  && exists h: Hello ::
                       && |h.nonceC| == 32 && |h.clientId| == ID_LEN && h.timestampMs < Shl8(1, 8)
                       && Recent(h, w.nowMs) && f.payload == HelloPayload(h))
            && (if o.s.phase.Authenticating? then
                  && |f.payload| == 56 && o.s.nonceC == Some(f.payload[..32]) && o.s.clientId == Some(f.payload[32..48])
                  && o.s.nonceS == Some(w.nonceS)
                  && o.sent == Answer(s, CHALLENGE, ChallengePayload(w.nonceS, w.nowMs))
                else o.s.phase.Closed? && o.sent == [])
  {
    match ParseHello(f.payload, w.nowMs)
    case Ok(h) => HelloExact(f.payload, w.nowMs, h);
    case Err(_) =>
      forall h: Hello
        ensures !(&& |h.nonceC| == 32 && |h.clientId| == ID_LEN && h.timestampMs < Shl8(1, 8)
                  && Recent(h, w.nowMs) && f.payload == HelloPayload(h))
      {
        HelloExact(f.payload, w.nowMs, h);
      }
  }

  // The key of that user, over this message, and a valid code when the user has a secret.
  predicate GoodLogin(p: Crypto, w: World, username: string, kAuth: Bytes, message: Bytes, totp: Option<u32>) {
    && username in w.users && w.users[username].kAuth.Some?
    && p.Hmac(kAuth, message) == p.Hmac(w.users[username].kAuth.value, message)
    && (w.users[username].totpSecret.Some? ==>
          totp.Some? && p.totp(w.users[username].totpSecret.value, totp.value, w.nowMs))
  }

  // An unexpired session of that user and client.
  predicate GoodToken(w: World, username: string, token: Bytes, clientId: Bytes) {
    && username in w.users && token in w.sessions
    && w.sessions[token].expiry > w.nowMs
    && w.sessions[token].userId == w.users[username].id
    && w.sessions[token].clientId == clientId
  }

  // A password login succeeds if and only if the user exists, the HMAC under the client's key
  // is the one under the stored key, and the TOTP code, where one is demanded, is given and
  // valid, and the fresh token is not taken; the session then belongs to that user. A login
  // that fails for its credentials is told so, and ends the session.
  lemma LoginAcceptedIff(p: Crypto, t: TextCodec, s: Session, f: Frame, w: World,
                         username: string, kAuth: Bytes, totp: Option<u32>)
    requires t.Lawful() && t.encode(username).Some? && 1 <= |t.encode(username).value| <= 64
    requires Challenged(s) && f.msgType == AUTH
    requires var raw := t.encode(username).value;
             f.payload == LoginPayload(raw, p.Hmac(kAuth, s.nonceC.value + s.nonceS.value + raw), totp)
    ensures var o, message := OnAuth(p, t, s, f, w), s.nonceC.value + s.nonceS.value + t.encode(username).value;
            && (o.s.phase.Established? <==>
                  w.token !in w.sessionsAtInsert && GoodLogin(p, w, username, kAuth, message, totp))
            && (if o.s.phase.Established? then o.s.user == Some(w.users[username].id)
                else o.s.phase.Closed? && o.s.user == s.user && o.s.macKey == s.macKey && o.effect == Nothing)
            && (!GoodLogin(p, w, username, kAuth, message, totp) ==> o.sent == Answer(s, AUTH_FAIL, AuthFailPayload()))
  {
    var raw := t.encode(username).value;
    LoginParses(t, username, p.Hmac(kAuth, s.nonceC.value + s.nonceS.value + raw), totp);
  }

  // A refresh succeeds if and only if the token is that of an unexpired session of that user
  // and of the client id this connection announced.
  lemma RefreshAcceptedIff(p: Crypto, t: TextCodec, s: Session, f: Frame, w: World, username: string, token: Bytes)
    requires t.Lawful() && t.encode(username).Some? && 1 <= |t.encode(username).value| <= 64 && |token| == TOKEN_LEN
    requires Challenged(s) && f.msgType == AUTH
    requires f.payload == RefreshPayload(t.encode(username).value, token)
    ensures var o := OnAuth(p, t, s, f, w);
            && (o.s.phase.Established? <==>
                  w.token !in w.sessionsAtInsert && GoodToken(w, username, token, s.clientId.value))
            && (if o.s.phase.Established? then o.s.user == Some(w.users[username].id)
                else o.s.phase.Closed? && o.s.user == s.user && o.s.macKey == s.macKey && o.effect == Nothing)
            && (!GoodToken(w, username, token, s.clientId.value) ==>
                  o.sent == Answer(s, AUTH_FAIL, AuthFailPayload()))
  {
    RefreshParses(t, username, token);
  }
}
