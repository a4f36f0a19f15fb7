// The payloads of the session messages: the server's builders and parsers
// (server-py/server.py) and the client's (client-py/svpclient.py).
module Payloads {
  import opened Common
  import opened LittleEndian
  import opened Primitives
  import opened ByteIO

  const ID_LEN := 16
  const PUT_HEADER_LEN := 28
  const DATA_HEADER_LEN := 24
  const MAX_BLOB: nat := 52_428_800
  const MAX_PUT: nat := MAX_BLOB + PUT_HEADER_LEN
  const MAX_CLOCK_SKEW_MS := 300_000

  const ERR_NOT_FOUND: byte := 0x08
  const ERR_CONFLICT: byte := 0x0A
  const ERR_AUTH_FAILED: byte := 0x06
  const ERR_INTERNAL: byte := 0xFF

  datatype PayloadError = BadLength | ClockSkew | BlobTooLarge

  // ----- HELLO and CHALLENGE -----

  datatype Hello = Hello(nonceC: Bytes, clientId: Bytes, timestampMs: nat)

  function HelloPayload(h: Hello): Bytes { h.nonceC + h.clientId + LE(h.timestampMs, 8) }

  function ParseHello(payload: Bytes, nowMs: nat): Result<Hello, PayloadError> {
    if |payload| != 56 then Err(BadLength)
    else
      var h := Hello(payload[..32], payload[32..48], FromLE(payload[48..]));
      var skew := nowMs as int - h.timestampMs;
      if skew > MAX_CLOCK_SKEW_MS || -skew > MAX_CLOCK_SKEW_MS then Err(ClockSkew) else Ok(h)
  }

  ghost predicate Recent(h: Hello, nowMs: nat) {
    -MAX_CLOCK_SKEW_MS <= nowMs as int - h.timestampMs <= MAX_CLOCK_SKEW_MS
  }

  // The server accepts exactly the payloads of a HELLO within the clock skew, and reads that.
  lemma HelloExact(payload: Bytes, nowMs: nat, h: Hello)
    ensures ParseHello(payload, nowMs) == Ok(h) <==>
            && |h.nonceC| == 32 && |h.clientId| == ID_LEN && h.timestampMs < Shl8(1, 8)
            && Recent(h, nowMs) && payload == HelloPayload(h)
  {
    if |payload| == 56 {
      FromLEBound(payload[48..]);
      LEOfFromLE(payload[48..]);
      assert payload == payload[..32] + payload[32..48] + payload[48..];
    }
    if |h.nonceC| == 32 && |h.clientId| == ID_LEN && h.timestampMs < Shl8(1, 8) && payload == HelloPayload(h) {
      assert payload[..32] == h.nonceC && payload[32..48] == h.clientId && payload[48..] == LE(h.timestampMs, 8);
      FromLEOfLE(h.timestampMs, 8);
    }
  }

  lemma HelloParses(h: Hello, nowMs: nat)
    requires |h.nonceC| == 32 && |h.clientId| == ID_LEN && h.timestampMs < Shl8(1, 8) && Recent(h, nowMs)
    ensures ParseHello(HelloPayload(h), nowMs) == Ok(h)
  {
    HelloExact(HelloPayload(h), nowMs, h);
  }

  function ChallengePayload(nonceS: Bytes, nowMs: nat): Bytes { nonceS + LE(nowMs, 8) }

  // The client reads the nonce and ignores the rest.
  function ParseChallenge(payload: Bytes): Result<Bytes, IOError> {
    match ReadRaw(payload, 32)
    case Err(e) => Err(e)
    case Ok((nonce, _)) => Ok(nonce)
  }

  // ----- AUTH_OK -----

  function AuthOkPayload(token: Bytes, expiryMs: nat, vaultVersion: nat): Bytes {
    LE(|token|, 2) + token + LE(expiryMs, 8) + LE(vaultVersion, 8)
  }

  datatype AuthOk = AuthOk(token: Bytes, expiryMs: nat, vaultVersion: nat)

  function ParseAuthOk(payload: Bytes): Result<AuthOk, IOError> {
    match ReadLp(payload, 2) case Err(e) => Err(e) case Ok((token, b1)) =>
    match ReadUint(b1, 8) case Err(e) => Err(e) case Ok((expiry, b2)) =>
    match ReadUint(b2, 8) case Err(e) => Err(e) case Ok((version, _)) =>
    Ok(AuthOk(token, expiry, version))
  }

  lemma AuthOkParses(token: Bytes, expiryMs: nat, vaultVersion: nat)
    requires |token| == 32 && expiryMs < Shl8(1, 8) && vaultVersion < Shl8(1, 8)
    ensures ParseAuthOk(AuthOkPayload(token, expiryMs, vaultVersion)) ==
            Ok(AuthOk(token, expiryMs, vaultVersion))
  {
    var len, e, v := LE(|token|, 2), LE(expiryMs, 8), LE(vaultVersion, 8);
    Widths();
    Assoc(len + token, e, v);
    Assoc(len, token, e + v);
    ReadUintInverse(|token|, 2, token + (e + v));
    SplitAt(token, e + v);
    ReadUintInverse(expiryMs, 8, v);
    ReadUintInverse(vaultVersion, 8, []);
    assert v + [] == v;
  }

  // ----- VAULT_GET -----

  function GetPayload(vaultId: Bytes, knownVersion: nat): Bytes { vaultId + LE(knownVersion, 8) }

  function ParseGet(payload: Bytes): Result<(Bytes, nat), PayloadError> {
    if |payload| != DATA_HEADER_LEN then Err(BadLength)
    else Ok((payload[..ID_LEN], FromLE(payload[ID_LEN..])))
  }

  lemma GetExact(payload: Bytes, vaultId: Bytes, knownVersion: nat)
    ensures ParseGet(payload) == Ok((vaultId, knownVersion)) <==>
            |vaultId| == ID_LEN && knownVersion < Shl8(1, 8) && payload == GetPayload(vaultId, knownVersion)
  {
    if |payload| == DATA_HEADER_LEN {
      FromLEBound(payload[ID_LEN..]);
      LEOfFromLE(payload[ID_LEN..]);
      assert payload == payload[..ID_LEN] + payload[ID_LEN..];
    }
    if |vaultId| == ID_LEN && knownVersion < Shl8(1, 8) && payload == GetPayload(vaultId, knownVersion) {
      SplitAt(vaultId, LE(knownVersion, 8));
      FromLEOfLE(knownVersion, 8);
    }
  }

  lemma GetParses(vaultId: Bytes, knownVersion: nat)
    requires |vaultId| == ID_LEN && knownVersion < Shl8(1, 8)
    ensures ParseGet(GetPayload(vaultId, knownVersion)) == Ok((vaultId, knownVersion))
  {
    GetExact(GetPayload(vaultId, knownVersion), vaultId, knownVersion);
  }

  // ----- VAULT_PUT -----

  datatype PutFields = PutFields(vaultId: Bytes, base: nat, blob: Bytes)

  function PutHeader(f: PutFields): Bytes { f.vaultId + LE(f.base, 8) + LE(|f.blob|, 4) }

  function PutPayload(f: PutFields): Bytes { PutHeader(f) + f.blob }

  function ParsePut(payload: Bytes): Result<PutFields, PayloadError> {
    if |payload| < PUT_HEADER_LEN then Err(BadLength)
    else
      var blobLen := FromLE(payload[24..28]);
      if blobLen > MAX_BLOB then Err(BlobTooLarge)
      else if |payload| != PUT_HEADER_LEN + blobLen then Err(BadLength)
      else Ok(PutFields(payload[..ID_LEN], FromLE(payload[ID_LEN..24]), payload[PUT_HEADER_LEN..]))
  }

  ghost predicate Puttable(f: PutFields) {
    |f.vaultId| == ID_LEN && f.base < Shl8(1, 8) && |f.blob| <= MAX_BLOB
  }

  // The server accepts exactly the payloads of fields within its limits, and reads those.
  lemma PutExact(payload: Bytes, f: PutFields)
    ensures ParsePut(payload) == Ok(f) <==> Puttable(f) && payload == PutPayload(f)
  {
    Widths();
    if ParsePut(payload) == Ok(f) {
      FromLEBound(payload[ID_LEN..24]);
      LEOfFromLE(payload[ID_LEN..24]);
      LEOfFromLE(payload[24..28]);
      assert payload == payload[..ID_LEN] + payload[ID_LEN..24] + payload[24..28] + payload[28..];
    }
    if Puttable(f) && payload == PutPayload(f) {
      var h := PutHeader(f);
      SplitAt(h, f.blob);
      assert payload[..ID_LEN] == f.vaultId && payload[ID_LEN..24] == LE(f.base, 8) &&
             payload[24..28] == LE(|f.blob|, 4);
      FromLEOfLE(f.base, 8);
      FromLEOfLE(|f.blob|, 4);
    }
  }

  // ----- VAULT_DATA and VAULT_ACK -----

  function DataPayload(vaultId: Bytes, version: nat, blob: Bytes): Bytes {
    vaultId + LE(version, 8) + blob
  }

  function AckPayload(vaultId: Bytes, newVersion: nat): Bytes { vaultId + LE(newVersion, 8) }

  // The client reads an id it ignores, a version, and whatever is left.
  function ParseData(payload: Bytes): Result<(nat, Bytes), IOError> {
    match ReadRaw(payload, ID_LEN) case Err(e) => Err(e) case Ok((_, b1)) =>
    match ReadUint(b1, 8) case Err(e) => Err(e) case Ok((version, blob)) =>
    Ok((version, blob))
  }

  lemma DataParses(vaultId: Bytes, version: nat, blob: Bytes)
    requires |vaultId| == ID_LEN && version < Shl8(1, 8)
    ensures ParseData(DataPayload(vaultId, version, blob)) == Ok((version, blob))
    ensures AckPayload(vaultId, version) == DataPayload(vaultId, version, [])
  {
    Assoc(vaultId, LE(version, 8), blob);
    SplitAt(vaultId, LE(version, 8) + blob);
    ReadUintInverse(version, 8, blob);
    assert vaultId + LE(version, 8) + [] == vaultId + LE(version, 8);
  }

  // The client accepts exactly a vault id, a version and anything after them.
  lemma DataExact(payload: Bytes, version: nat, blob: Bytes)
    ensures ParseData(payload) == Ok((version, blob)) <==>
            && |payload| >= DATA_HEADER_LEN && version < Shl8(1, 8)
            && payload == DataPayload(payload[..ID_LEN], version, blob)
  {
    if ParseData(payload) == Ok((version, blob)) {
      FromLEBound(payload[ID_LEN..][..8]);
      LEOfFromLE(payload[ID_LEN..][..8]);
      assert payload == payload[..ID_LEN] + payload[ID_LEN..][..8] + payload[ID_LEN..][8..];
    }
    if |payload| >= DATA_HEADER_LEN && version < Shl8(1, 8) &&
       payload == DataPayload(payload[..ID_LEN], version, blob) {
      DataParses(payload[..ID_LEN], version, blob);
    }
  }
}
