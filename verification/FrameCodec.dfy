// The binary frame format: SVPCodec of server-py/protocol.py and the client's serialiser
// (client-py/framing.py). A frame is an 11-byte header, a payload and a 32-byte HMAC.
module FrameCodec {
  import opened Common
  import opened LittleEndian
  import opened Primitives

  const HEADER_LEN := 11
  const HMAC_LEN := 32
  const MAX_PAYLOAD: nat := 1_048_576

  datatype MsgType = HELLO | CHALLENGE | AUTH | AUTH_OK | AUTH_FAIL | VAULT_GET | VAULT_PUT
                   | VAULT_SYNC | VAULT_DATA | VAULT_ACK | PING | PONG | BYE | ERROR

  function Code(m: MsgType): byte {
    match m
    case HELLO => 0x01 case CHALLENGE => 0x02 case AUTH => 0x03 case AUTH_OK => 0x04
    case AUTH_FAIL => 0x05 case VAULT_GET => 0x10 case VAULT_PUT => 0x11 case VAULT_SYNC => 0x12
    case VAULT_DATA => 0x13 case VAULT_ACK => 0x14 case PING => 0x20 case PONG => 0x21
    case BYE => 0xF0 case ERROR => 0xFF
  }

  function TypeOf(code: byte): (m: Option<MsgType>)
    ensures m.Some? ==> Code(m.value) == code
    ensures forall t :: Code(t) == code ==> m == Some(t)
  {
    match code
    case 0x01 => Some(HELLO) case 0x02 => Some(CHALLENGE) case 0x03 => Some(AUTH)
    case 0x04 => Some(AUTH_OK) case 0x05 => Some(AUTH_FAIL) case 0x10 => Some(VAULT_GET)
    case 0x11 => Some(VAULT_PUT) case 0x12 => Some(VAULT_SYNC) case 0x13 => Some(VAULT_DATA)
    case 0x14 => Some(VAULT_ACK) case 0x20 => Some(PING) case 0x21 => Some(PONG)
    case 0xF0 => Some(BYE) case 0xFF => Some(ERROR)
    case _ => None
  }

  // flags & 0xF0, the reserved bits
  predicate Reserved(flags: byte) { flags >= 0x10 }

  // flags & 0x04 and flags & 0x08
  predicate Fragmented(flags: byte) { flags / 4 % 2 == 1 }
  predicate LastFrag(flags: byte) { flags / 8 % 2 == 1 }

  // A flags byte is four reserved bits, LAST_FRAG, FRAGMENTED, and two more.
  lemma FlagBits(high: nat, last: nat, fragmented: nat, low: nat)
    requires high < 16 && last < 2 && fragmented < 2 && low < 4
    ensures var flags := (16 * high + 8 * last + 4 * fragmented + low) as byte;
            && (Reserved(flags) <==> high != 0) && (LastFrag(flags) <==> last == 1)
            && (Fragmented(flags) <==> fragmented == 1)
  {}

  datatype Frame = Frame(version: byte, msgType: MsgType, flags: byte, seqId: u32,
                         payloadLen: nat, payload: Bytes, hmac: Bytes)

  datatype CodecError = TooShort | LengthMismatch | TooLarge | ReservedFlags | UnknownType | BadHmac

  // ----- the header -----

  datatype HeaderFields = HeaderFields(version: byte, code: byte, flags: byte, seqId: u32, len: u32)

  function Header(h: HeaderFields): (b: Bytes)
    ensures |b| == HEADER_LEN
  {
    [h.version, h.code, h.flags] + LE(h.seqId, 4) + LE(h.len, 4)
  }

  function ParseHeader(b: Bytes): HeaderFields
    requires |b| == HEADER_LEN
  {
    Widths();
    FromLEBound(b[3..7]);
    FromLEBound(b[7..11]);
    HeaderFields(b[0], b[1], b[2], FromLE(b[3..7]), FromLE(b[7..11]))
  }

  lemma HeaderRoundTrip(h: HeaderFields)
    ensures ParseHeader(Header(h)) == h
  {
    var b := Header(h);
    assert b[3..7] == LE(h.seqId, 4) && b[7..11] == LE(h.len, 4);
    Widths();
    FromLEOfLE(h.seqId, 4);
    FromLEOfLE(h.len, 4);
  }

  lemma HeaderExact(b: Bytes)
    requires |b| == HEADER_LEN
    ensures Header(ParseHeader(b)) == b
  {
    LEOfFromLE(b[3..7]);
    LEOfFromLE(b[7..11]);
    assert b == [b[0], b[1], b[2]] + b[3..7] + b[7..11];
  }

  // ----- the server's codec -----

  // Everything a frame's HMAC covers.
  function Signed(h: HeaderFields, payload: Bytes): Bytes { Header(h) + payload }

  function FieldsOf(f: Frame): HeaderFields
    requires |f.payload| <= MAX_PAYLOAD
  {
    HeaderFields(f.version, Code(f.msgType), f.flags, f.seqId, |f.payload|)
  }

  function Encode(p: Crypto, f: Frame, key: Bytes): Result<Bytes, CodecError> {
    if |f.payload| != f.payloadLen then Err(LengthMismatch)
    else if f.payloadLen > MAX_PAYLOAD then Err(TooLarge)
    else if Reserved(f.flags) then Err(ReservedFlags)
    else
      var signed := Signed(FieldsOf(f), f.payload);
      Ok(signed + p.Hmac(key, signed))
  }

  function Decode(p: Crypto, data: Bytes, key: Bytes): Result<Frame, CodecError> {
    if |data| < HEADER_LEN + HMAC_LEN then Err(TooShort)
    else
      var h := ParseHeader(data[..HEADER_LEN]);
      if h.len > MAX_PAYLOAD then Err(TooLarge)
      else if |data| != HEADER_LEN + h.len + HMAC_LEN then Err(LengthMismatch)
      else
        var payload := data[HEADER_LEN..HEADER_LEN + h.len];
        var tag := data[HEADER_LEN + h.len..];
        if tag != p.Hmac(key, data[..HEADER_LEN] + payload) then Err(BadHmac)
        else if Reserved(h.flags) then Err(ReservedFlags)
        else
          match TypeOf(h.code)
          case None => Err(UnknownType)
          case Some(m) => Ok(Frame(h.version, m, h.flags, h.seqId, h.len, payload, tag))
  }

  // The three parts of an encoded frame, cut where the decoder cuts them.
  lemma Parts(h: HeaderFields, payload: Bytes, tag: Bytes)
    requires h.len == |payload|
    ensures var data := Signed(h, payload) + tag;
            && |data| == HEADER_LEN + |payload| + |tag|
            && data[..HEADER_LEN] == Header(h)
            && data[HEADER_LEN..HEADER_LEN + h.len] == payload
            && data[HEADER_LEN + h.len..] == tag
  {}

  // Decoding an encoded frame under the same key gives back its fields, and its real HMAC.
  lemma DecodeEncode(p: Crypto, f: Frame, key: Bytes)
    requires Encode(p, f, key).Ok?
    ensures Decode(p, Encode(p, f, key).value, key) ==
            Ok(f.(hmac := p.Hmac(key, Signed(FieldsOf(f), f.payload))))
  {
    var h := FieldsOf(f);
    Parts(h, f.payload, p.Hmac(key, Signed(h, f.payload)));
    HeaderRoundTrip(h);
  }

  // Whatever decodes is the encoding, under the same key, of what it decodes to.
  lemma EncodeDecode(p: Crypto, data: Bytes, key: Bytes)
    requires Decode(p, data, key).Ok?
    ensures Encode(p, Decode(p, data, key).value, key) == Ok(data)
  {
    var f := Decode(p, data, key).value;
    HeaderExact(data[..HEADER_LEN]);
    assert data[..HEADER_LEN] == Header(FieldsOf(f));
    assert data == data[..HEADER_LEN] + f.payload + f.hmac;
  }

  // So decoding is a bijection between the byte strings it accepts and the frames that
  // encode and carry their own HMAC.
  ghost predicate Sealed(p: Crypto, f: Frame, key: Bytes) {
    Encode(p, f, key).Ok? && f.hmac == p.Hmac(key, Signed(FieldsOf(f), f.payload))
  }

  lemma CodecIsBijection(p: Crypto, key: Bytes, data: Bytes, f: Frame)
    ensures Decode(p, data, key) == Ok(f) <==> Sealed(p, f, key) && Encode(p, f, key) == Ok(data)
  {
    if Decode(p, data, key) == Ok(f) {
      EncodeDecode(p, data, key);
      DecodeEncode(p, f, key);
    }
    if Sealed(p, f, key) && Encode(p, f, key) == Ok(data) {
      DecodeEncode(p, f, key);
    }
  }

  // ----- the client's serialiser -----

  datatype ClientFrame = ClientFrame(version: byte, code: byte, flags: byte, seqId: u32, payload: Bytes)

  function Serialize(p: Crypto, f: ClientFrame, key: Option<Bytes>): Result<Bytes, CodecError> {
    if |f.payload| > MAX_PAYLOAD then Err(TooLarge)
    else
      var signed := Signed(HeaderFields(f.version, f.code, f.flags, f.seqId, |f.payload|), f.payload);
      Ok(signed + match key case Some(k) => p.Hmac(k, signed) case None => Zeros(HMAC_LEN))
  }

  function ToServer(f: ClientFrame, m: MsgType): Frame {
    Frame(f.version, m, f.flags, f.seqId, |f.payload|, f.payload, [])
  }

  function ToClient(f: Frame): ClientFrame {
    ClientFrame(f.version, Code(f.msgType), f.flags, f.seqId, f.payload)
  }

  // A keyed client frame with clear reserved flags and a type the server knows is, byte for
  // byte, what the server's encoder writes for it.
  lemma SerializeIsEncode(p: Crypto, f: ClientFrame, key: Bytes)
    requires TypeOf(f.code).Some? && !Reserved(f.flags)
    ensures Serialize(p, f, Some(key)) == Encode(p, ToServer(f, TypeOf(f.code).value), key)
  {}

  // ----- frames delimit themselves -----

  lemma EncodedShape(p: Crypto, f: Frame, key: Bytes)
    requires Encode(p, f, key).Ok?
    ensures var b := Encode(p, f, key).value;
            && |b| == HEADER_LEN + |f.payload| + HMAC_LEN
            && b[..HEADER_LEN] == Header(FieldsOf(f))
            && ParseHeader(b[..HEADER_LEN]) == FieldsOf(f)
  {
    var h := FieldsOf(f);
    Parts(h, f.payload, p.Hmac(key, Signed(h, f.payload)));
    HeaderRoundTrip(h);
  }

  // No encoded frame is a proper prefix of another, whatever the keys.
  lemma NoProperPrefix(p: Crypto, f: Frame, k: Bytes, g: Frame, l: Bytes)
    requires Encode(p, f, k).Ok? && Encode(p, g, l).Ok?
    requires Encode(p, f, k).value <= Encode(p, g, l).value
    ensures Encode(p, f, k).value == Encode(p, g, l).value
    ensures ToClient(f) == ToClient(g)
  {
    EncodedShape(p, f, k);
    EncodedShape(p, g, l);
    var a, b := Encode(p, f, k).value, Encode(p, g, l).value;
    assert a[..HEADER_LEN] == b[..HEADER_LEN];
    assert a == b;
    Parts(FieldsOf(f), f.payload, p.Hmac(k, Signed(FieldsOf(f), f.payload)));
    Parts(FieldsOf(g), g.payload, p.Hmac(l, Signed(FieldsOf(g), g.payload)));
    assert Code(f.msgType) == Code(g.msgType);
    assert TypeOf(Code(f.msgType)) == Some(f.msgType);
  }
}
