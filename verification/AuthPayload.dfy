// The AUTH payload: the server's parser with its optional tails (server-py/server.py) and the
// client's two builders (client-py/svpclient.py).
module AuthPayload {
  import opened Common
  import opened LittleEndian
  import opened Primitives
  import opened ByteIO

  const TOKEN_LEN := 32

  datatype Auth = Auth(username: string, hmacResp: Bytes, tokenRefresh: byte,
                       refreshToken: Option<Bytes>, totpPresent: byte, totpCode: Option<nat>)

  datatype AuthError = PayloadTooShort | BadUsernameLength | BadPayloadLength | BadUtf8
                     | TokenTruncated | BadRefreshFlag | TrailingBytes | BadTotpLength | BadTotpFlag

  // What follows the HMAC: whether a session token is presented and a TOTP code given.
  datatype Options = Options(tokenRefresh: byte, refreshToken: Option<Bytes>,
                             totpPresent: byte, totpCode: Option<nat>)

  function ParseTotp(refresh: byte, token: Option<Bytes>, tail: Bytes): Result<Options, AuthError> {
    if tail == [] then Ok(Options(refresh, token, 0, None))
    else if tail[0] == 0 then
      if |tail| != 1 then Err(TrailingBytes) else Ok(Options(refresh, token, 0, None))
    else if tail[0] == 1 then
      if |tail| - 1 != 4 then Err(BadTotpLength)
      else Ok(Options(refresh, token, 1, Some(FromLE(tail[1..]))))
    else Err(BadTotpFlag)
  }

  function ParseOptions(tail: Bytes): Result<Options, AuthError> {
    if tail == [] then Ok(Options(0, None, 0, None))
    else if tail[0] == 0 then ParseTotp(0, None, tail[1..])
    else if tail[0] == 1 then
      if |tail| - 1 < TOKEN_LEN then Err(TokenTruncated)
      else ParseTotp(1, Some(tail[1..1 + TOKEN_LEN]), tail[1 + TOKEN_LEN..])
    else Err(BadRefreshFlag)
  }

  function ParseAuth(t: TextCodec, payload: Bytes): Result<Auth, AuthError> {
    if |payload| < 1 + 32 then Err(PayloadTooShort)
    else
      var usernameLen := payload[0] as nat;
      var usernameEnd := 1 + usernameLen;
      var hmacEnd := usernameEnd + 32;
      if usernameLen == 0 || usernameLen > 64 then Err(BadUsernameLength)
      else if |payload| < hmacEnd then Err(BadPayloadLength)
      else
        match t.decode(payload[1..usernameEnd])
        case None => Err(BadUtf8)
        case Some(username) =>
          match ParseOptions(payload[hmacEnd..])
          case Err(e) => Err(e)
          case Ok(o) => Ok(Auth(username, payload[usernameEnd..hmacEnd],
                                o.tokenRefresh, o.refreshToken, o.totpPresent, o.totpCode))
  }

  // ----- the payloads that parse -----

  ghost predicate WellFormedOptions(o: Options) {
    && o.tokenRefresh <= 1 && o.totpPresent <= 1
    && (o.tokenRefresh == 1 <==> o.refreshToken.Some?)
    && (o.refreshToken.Some? ==> |o.refreshToken.value| == TOKEN_LEN)
    && (o.totpPresent == 1 <==> o.totpCode.Some?)
    && (o.totpCode.Some? ==> o.totpCode.value < Shl8(1, 4))
  }

  // The written-out forms of the options. Trailing zero flags may be left out.
  function TotpForms(o: Options): set<Bytes>
    requires o.totpPresent == 1 ==> o.totpCode.Some?
  {
    if o.totpPresent == 1 then {[1] + LE(o.totpCode.value, 4)} else {[], [0]}
  }

  ghost predicate IsForm(o: Options, tail: Bytes)
    requires WellFormedOptions(o)
  {
    if o.tokenRefresh == 1 then
      exists r <- TotpForms(o) :: tail == [1] + o.refreshToken.value + r
    else
      (tail == [] && o.totpPresent == 0) || exists r <- TotpForms(o) :: tail == [0] + r
  }

  lemma TotpExact(refresh: byte, token: Option<Bytes>, tail: Bytes, o: Options)
    requires WellFormedOptions(o) && o.tokenRefresh == refresh && o.refreshToken == token
    ensures ParseTotp(refresh, token, tail) == Ok(o) <==> tail in TotpForms(o)
  {
    if o.totpPresent == 1 {
      if tail == [1] + LE(o.totpCode.value, 4) {
        assert tail[1..] == LE(o.totpCode.value, 4);
        FromLEOfLE(o.totpCode.value, 4);
      }
      if ParseTotp(refresh, token, tail) == Ok(o) {
        LEOfFromLE(tail[1..]);
        assert tail == [tail[0]] + tail[1..];
      }
    } else {
      if ParseTotp(refresh, token, tail) == Ok(o) && tail != [] {
        assert tail == [0];
      }
    }
  }

  lemma ParsedTotpWellFormed(refresh: byte, token: Option<Bytes>, tail: Bytes)
    requires refresh <= 1 && (refresh == 1 <==> token.Some?) && (token.Some? ==> |token.value| == TOKEN_LEN)
    requires ParseTotp(refresh, token, tail).Ok?
    ensures var o := ParseTotp(refresh, token, tail).value;
            WellFormedOptions(o) && o.tokenRefresh == refresh && o.refreshToken == token
  {
    if tail != [] && tail[0] == 1 { FromLEBound(tail[1..]); }
  }

  lemma OptionsExact(tail: Bytes, o: Options)
    ensures ParseOptions(tail) == Ok(o) <==> WellFormedOptions(o) && IsForm(o, tail)
  {
    if ParseOptions(tail) == Ok(o) {
      if tail == [] {
      } else if tail[0] == 0 {
        ParsedTotpWellFormed(0, None, tail[1..]);
        TotpExact(0, None, tail[1..], o);
        assert tail == [0] + tail[1..];
      } else {
        var token := tail[1..1 + TOKEN_LEN];
        ParsedTotpWellFormed(1, Some(token), tail[1 + TOKEN_LEN..]);
        TotpExact(1, Some(token), tail[1 + TOKEN_LEN..], o);
        assert tail == [1] + token + tail[1 + TOKEN_LEN..];
      }
    }
    if WellFormedOptions(o) && IsForm(o, tail) && tail != [] {
      FormParses(tail, o);
    }
  }

  lemma FormParses(tail: Bytes, o: Options)
    requires WellFormedOptions(o) && IsForm(o, tail) && tail != []
    ensures ParseOptions(tail) == Ok(o)
  {
    if o.tokenRefresh == 1 {
      var token := o.refreshToken.value;
      var r :| r in TotpForms(o) && tail == [1] + token + r;
      assert tail[1..1 + TOKEN_LEN] == token && tail[1 + TOKEN_LEN..] == r;
      TotpExact(1, Some(token), r, o);
    } else {
      var r :| r in TotpForms(o) && tail == [0] + r;
      assert tail[1..] == r;
      TotpExact(0, None, r, o);
    }
  }

  function Head(raw: Bytes, hmacResp: Bytes): Bytes
    requires |raw| < 256
  {
    [|raw| as byte] + raw + hmacResp
  }

  function OptionsOf(a: Auth): Options {
    Options(a.tokenRefresh, a.refreshToken, a.totpPresent, a.totpCode)
  }

  // A payload is one of the written-out forms of the fields.
  ghost predicate IsPayload(t: TextCodec, a: Auth, payload: Bytes) {
    && t.encode(a.username).Some? && 1 <= |t.encode(a.username).value| <= 64
    && |a.hmacResp| == 32
    && WellFormedOptions(OptionsOf(a))
    && Head(t.encode(a.username).value, a.hmacResp) <= payload
    && IsForm(OptionsOf(a), payload[1 + |t.encode(a.username).value| + 32..])
  }

  lemma HeadParts(raw: Bytes, hmacResp: Bytes, payload: Bytes)
    requires 1 <= |raw| <= 64 && |hmacResp| == 32 && Head(raw, hmacResp) <= payload
    ensures |payload| >= 1 + |raw| + 32
    ensures payload[0] as nat == |raw| && payload[1..1 + |raw|] == raw
    ensures payload[1 + |raw|..1 + |raw| + 32] == hmacResp
  {
    var h := Head(raw, hmacResp);
    assert forall i :: 0 <= i < |h| ==> payload[i] == h[i];
  }

  // The parser accepts exactly the written-out forms, and gives back their fields.
  lemma ParseAuthExact(t: TextCodec, payload: Bytes, a: Auth)
    requires t.Lawful()
    ensures ParseAuth(t, payload) == Ok(a) <==> IsPayload(t, a, payload)
  {
    if ParseAuth(t, payload) == Ok(a) {
      var n := payload[0] as nat;
      assert t.Recodes(payload[1..1 + n]);
      OptionsExact(payload[1 + n + 32..], OptionsOf(a));
      assert payload == [payload[0]] + payload[1..1 + n] + payload[1 + n..1 + n + 32] + payload[1 + n + 32..];
    }
    if IsPayload(t, a, payload) {
      var raw := t.encode(a.username).value;
      assert t.Restores(a.username);
      HeadParts(raw, a.hmacResp, payload);
      OptionsExact(payload[1 + |raw| + 32..], OptionsOf(a));
    }
  }

  // Two payloads with the same parse are equal up to trailing zero bytes.
  lemma SameParse(t: TextCodec, p: Bytes, q: Bytes)
    requires t.Lawful() && ParseAuth(t, p).Ok? && ParseAuth(t, p) == ParseAuth(t, q)
    ensures exists k: nat :: k <= 2 && (p == q + Zeros(k) || q == p + Zeros(k))
  {
    var a := ParseAuth(t, p).value;
    ParseAuthExact(t, p, a);
    ParseAuthExact(t, q, a);
    var n := 1 + |t.encode(a.username).value| + 32;
    var h := Head(t.encode(a.username).value, a.hmacResp);
    assert p == h + p[n..] && q == h + q[n..];
    var k := SameForm(OptionsOf(a), p[n..], q[n..]);
    if p[n..] == q[n..] + Zeros(k) {
      Assoc(h, q[n..], Zeros(k));
    } else {
      Assoc(h, p[n..], Zeros(k));
    }
  }

  lemma SameForm(o: Options, p: Bytes, q: Bytes) returns (k: nat)
    requires WellFormedOptions(o) && IsForm(o, p) && IsForm(o, q)
    ensures k <= 2 && (p == q + Zeros(k) || q == p + Zeros(k))
  {
    k := if |p| <= |q| then |q| - |p| else |p| - |q|;
    assert o.totpPresent == 0 ==> TotpForms(o) == {[], [0]};
    assert Zeros(0) == [] && Zeros(1) == [0] && Zeros(2) == [0, 0];
    assert [0] + [0] == [0, 0];
    if p != [] && q != [] {
      var pre := if o.tokenRefresh == 1 then [1] + o.refreshToken.value else [0];
      var r :| r in TotpForms(o) && p == pre + r;
      var r' :| r' in TotpForms(o) && q == pre + r';
      assert |p| == |pre| + |r| && |q| == |pre| + |r'|;
      if |r| == |r'| {
        assert r == r' && k == 0;
        assert p + Zeros(0) == p;
      } else if r == [] {
        assert p == pre && q == pre + [0];
      } else {
        assert q == pre && p == pre + [0];
      }
    }
  }

  // ----- the client's builders -----

  function LoginPayload(raw: Bytes, hmacResp: Bytes, totp: Option<u32>): Bytes
    requires |raw| <= 64
  {
    Head(raw, hmacResp) + [0] + match totp case None => [] case Some(code) => [1] + LE(code, 4)
  }

  function RefreshPayload(raw: Bytes, token: Bytes): Bytes
    requires |raw| <= 64
  {
    Head(raw, Zeros(32)) + [1] + token
  }

  // The parser inverts a login, with and without a TOTP code; only an empty user name, which
  // the builder lets through, is refused.
  lemma LoginParses(t: TextCodec, username: string, hmacResp: Bytes, totp: Option<u32>)
    requires t.Lawful() && t.encode(username).Some? && |t.encode(username).value| <= 64
    requires |hmacResp| == 32
    ensures ParseAuth(t, LoginPayload(t.encode(username).value, hmacResp, totp)) ==
            if t.encode(username).value == [] then Err(BadUsernameLength)
            else Ok(Auth(username, hmacResp, 0, None, if totp.Some? then 1 else 0, totp))
  {
    var raw := t.encode(username).value;
    var payload := LoginPayload(raw, hmacResp, totp);
    var n := 1 + |raw| + 32;
    var r := match totp case None => [] case Some(code) => [1] + LE(code, 4);
    assert |Head(raw, hmacResp)| == n;
    assert payload[0] as nat == |raw|;
    if raw != [] {
      var a := Auth(username, hmacResp, 0, None, if totp.Some? then 1 else 0, totp);
      Widths();
      assert payload[n..] == [0] + r;
      assert r in TotpForms(OptionsOf(a));
      ParseAuthExact(t, payload, a);
    }
  }

  lemma RefreshParses(t: TextCodec, username: string, token: Bytes)
    requires t.Lawful() && t.encode(username).Some? && |t.encode(username).value| <= 64
    requires |token| == TOKEN_LEN
    ensures ParseAuth(t, RefreshPayload(t.encode(username).value, token)) ==
            if t.encode(username).value == [] then Err(BadUsernameLength)
            else Ok(Auth(username, Zeros(32), 1, Some(token), 0, None))
  {
    var raw := t.encode(username).value;
    var payload := RefreshPayload(raw, token);
    var n := 1 + |raw| + 32;
    assert |Head(raw, Zeros(32))| == n;
    assert payload[0] as nat == |raw|;
    if raw != [] {
      var a := Auth(username, Zeros(32), 1, Some(token), 0, None);
      assert payload[n..] == [1] + token + [];
      assert [] in TotpForms(OptionsOf(a));
      ParseAuthExact(t, payload, a);
    }
  }
}
