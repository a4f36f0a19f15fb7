// Reading frames off a byte stream that arrives in arbitrary pieces (client-py/transport.py,
// server-py/server.py).
module Transport {
  import opened Common
  import opened LittleEndian
  import opened Primitives
  import opened FrameCodec

  datatype RecvError = Eof | BadVersion | Oversized | Codec(e: CodecError)

  // ----- what a reader makes of the bytes in front of it -----

  function TakeBytes(stream: Bytes, n: nat): Option<(Bytes, Bytes)> {
    if |stream| < n then None else Some((stream[..n], stream[n..]))
  }

  function ServerRead(p: Crypto, stream: Bytes, key: Bytes): Result<(Frame, Bytes), RecvError> {
    match TakeBytes(stream, HEADER_LEN)
    case None => Err(Eof)
    case Some((header, rest)) =>
      var len := ParseHeader(header).len;
      if len > MAX_PAYLOAD then Err(Oversized)
      else
        match TakeBytes(rest, len + HMAC_LEN)
        case None => Err(Eof)
        case Some((body, rest')) =>
          match Decode(p, header + body, key)
          case Err(e) => Err(Codec(e))
          case Ok(f) => Ok((f, rest'))
  }

  function ClientRead(p: Crypto, stream: Bytes, key: Option<Bytes>): Result<(ClientFrame, Bytes), RecvError> {
    match TakeBytes(stream, HEADER_LEN)
    case None => Err(Eof)
    case Some((header, rest)) =>
      var h := ParseHeader(header);
      if h.version != 1 then Err(BadVersion)
      else if h.len > MAX_PAYLOAD then Err(Oversized)
      else
        match TakeBytes(rest, h.len)
        case None => Err(Eof)
        case Some((payload, rest')) =>
          match TakeBytes(rest', HMAC_LEN)
          case None => Err(Eof)
          case Some((tag, rest'')) =>
            if key.Some? && tag != p.Hmac(key.value, header + payload) then Err(Codec(BadHmac))
            else Ok((ClientFrame(h.version, h.code, h.flags, h.seqId, payload), rest''))
  }

  // ----- one frame -----

  lemma ServerReadsEncoded(p: Crypto, f: Frame, key: Bytes, tail: Bytes)
    requires Encode(p, f, key).Ok?
    ensures ServerRead(p, Encode(p, f, key).value + tail, key) ==
            Ok((f.(hmac := p.Hmac(key, Signed(FieldsOf(f), f.payload))), tail))
  {
    var b := Encode(p, f, key).value;
    EncodedShape(p, f, key);
    DecodeEncode(p, f, key);
    var s := b + tail;
    assert s[..HEADER_LEN] == b[..HEADER_LEN];
    assert s[HEADER_LEN..] == b[HEADER_LEN..] + tail;
    SplitAt(b[HEADER_LEN..], tail);
    assert b[..HEADER_LEN] + b[HEADER_LEN..] == b;
  }

  lemma ClientReadsEncoded(p: Crypto, f: Frame, key: Bytes, tail: Bytes)
    requires Encode(p, f, key).Ok? && f.version == 1
    ensures ClientRead(p, Encode(p, f, key).value + tail, Some(key)) == Ok((ToClient(f), tail))
  {
    var h := FieldsOf(f);
    var signed := Signed(h, f.payload);
    var tag := p.Hmac(key, signed);
    HeaderRoundTrip(h);
    Assoc(signed, tag, tail);
    Assoc(Header(h), f.payload, tag + tail);
    SplitAt(Header(h), f.payload + (tag + tail));
    SplitAt(f.payload, tag + tail);
    SplitAt(tag, tail);
  }

  lemma TakeBytesExact(stream: Bytes, n: nat, a: Bytes, b: Bytes)
    ensures TakeBytes(stream, n) == Some((a, b)) <==> |a| == n && stream == a + b
  {
    if |stream| >= n {
      assert stream == stream[..n] + stream[n..];
    }
    if |a| == n && stream == a + b {
      SplitAt(a, b);
    }
  }

  // A client that holds a key reads a frame off a stream if and only if the stream starts with
  // exactly that frame, serialised under that key and of version 1.
  lemma ClientReadExact(p: Crypto, stream: Bytes, key: Bytes, f: ClientFrame, rest: Bytes)
    ensures ClientRead(p, stream, Some(key)) == Ok((f, rest)) <==>
            f.version == 1 && Serialize(p, f, Some(key)).Ok? && stream == Serialize(p, f, Some(key)).value + rest
  {
    if ClientRead(p, stream, Some(key)) == Ok((f, rest)) {
      ClientReadIsSerialized(p, stream, key, f, rest);
    }
    if f.version == 1 && Serialize(p, f, Some(key)).Ok? && stream == Serialize(p, f, Some(key)).value + rest {
      ClientReadsSerialized(p, f, key, rest);
    }
  }

  lemma ClientReadIsSerialized(p: Crypto, stream: Bytes, key: Bytes, f: ClientFrame, rest: Bytes)
    requires ClientRead(p, stream, Some(key)) == Ok((f, rest))
    ensures f.version == 1 && Serialize(p, f, Some(key)).Ok? && stream == Serialize(p, f, Some(key)).value + rest
  {
    var (header, afterHeader) := TakeBytes(stream, HEADER_LEN).value;
    var (payload, afterPayload) := TakeBytes(afterHeader, ParseHeader(header).len).value;
    var (tag, end) := TakeBytes(afterPayload, HMAC_LEN).value;
    TakeBytesExact(stream, HEADER_LEN, header, afterHeader);
    TakeBytesExact(afterHeader, ParseHeader(header).len, payload, afterPayload);
    TakeBytesExact(afterPayload, HMAC_LEN, tag, end);
    HeaderExact(header);
    Assoc(header, payload, tag + end);
    Assoc(header + payload, tag, end);
  }

  lemma ClientReadsSerialized(p: Crypto, f: ClientFrame, key: Bytes, rest: Bytes)
    requires f.version == 1 && Serialize(p, f, Some(key)).Ok?
    ensures ClientRead(p, Serialize(p, f, Some(key)).value + rest, Some(key)) == Ok((f, rest))
  {
    var h := HeaderFields(f.version, f.code, f.flags, f.seqId, |f.payload|);
    var signed := Signed(h, f.payload);
    var tag := p.Hmac(key, signed);
    HeaderRoundTrip(h);
    Assoc(signed, tag, rest);
    Assoc(Header(h), f.payload, tag + rest);
    SplitAt(Header(h), f.payload + (tag + rest));
    SplitAt(f.payload, tag + rest);
    SplitAt(tag, rest);
  }

  // And so does the server, for frames its codec accepts.
  lemma ServerReadExact(p: Crypto, stream: Bytes, key: Bytes, f: Frame, rest: Bytes)
    ensures ServerRead(p, stream, key) == Ok((f, rest)) <==>
            Sealed(p, f, key) && stream == Encode(p, f, key).value + rest
  {
    if ServerRead(p, stream, key) == Ok((f, rest)) {
      var (header, afterHeader) := TakeBytes(stream, HEADER_LEN).value;
      var (body, end) := TakeBytes(afterHeader, ParseHeader(header).len + HMAC_LEN).value;
      TakeBytesExact(stream, HEADER_LEN, header, afterHeader);
      TakeBytesExact(afterHeader, ParseHeader(header).len + HMAC_LEN, body, end);
      CodecIsBijection(p, key, header + body, f);
      Assoc(header, body, end);
    }
    if Sealed(p, f, key) && stream == Encode(p, f, key).value + rest {
      ServerReadsEncoded(p, f, key, rest);
    }
  }

  // ----- streams of frames, each with the key it was signed under -----

  ghost predicate Encodable(p: Crypto, frames: seq<(Frame, Bytes)>) {
    forall i :: 0 <= i < |frames| ==> Encode(p, frames[i].0, frames[i].1).Ok?
  }

  function Wire(p: Crypto, frames: seq<(Frame, Bytes)>): seq<Bytes> {
    seq(|frames|, i requires 0 <= i < |frames| =>
      match Encode(p, frames[i].0, frames[i].1) case Ok(b) => b case Err(_) => [])
  }

  // Reading one frame per key, as the server and as the client do.
  function ServerReadAll(p: Crypto, stream: Bytes, keys: seq<Bytes>): Result<(seq<Frame>, Bytes), RecvError> {
    if keys == [] then Ok(([], stream))
    else
      match ServerRead(p, stream, keys[0])
      case Err(e) => Err(e)
      case Ok((f, rest)) =>
        match ServerReadAll(p, rest, keys[1..])
        case Err(e) => Err(e)
        case Ok((fs, rest')) => Ok(([f] + fs, rest'))
  }

  function ClientReadAll(p: Crypto, stream: Bytes, keys: seq<Bytes>): Result<(seq<ClientFrame>, Bytes), RecvError> {
    if keys == [] then Ok(([], stream))
    else
      match ClientRead(p, stream, Some(keys[0]))
      case Err(e) => Err(e)
      case Ok((f, rest)) =>
        match ClientReadAll(p, rest, keys[1..])
        case Err(e) => Err(e)
        case Ok((fs, rest')) => Ok(([f] + fs, rest'))
  }

  function Keys(frames: seq<(Frame, Bytes)>): seq<Bytes> {
    seq(|frames|, i requires 0 <= i < |frames| => frames[i].1)
  }

  lemma WireCons(p: Crypto, frames: seq<(Frame, Bytes)>, tail: Bytes)
    requires frames != [] && Encodable(p, frames)
    ensures Flatten(Wire(p, frames)) + tail ==
            Encode(p, frames[0].0, frames[0].1).value + (Flatten(Wire(p, frames[1..])) + tail)
    ensures Encodable(p, frames[1..]) && Keys(frames)[1..] == Keys(frames[1..])
  {
    assert Wire(p, frames)[1..] == Wire(p, frames[1..]);
    Assoc(Wire(p, frames)[0], Flatten(Wire(p, frames[1..])), tail);
  }

  // Frames written one after the other, to a server, are read back as the same frames.
  lemma {:induction false} ServerReadsStream(p: Crypto, frames: seq<(Frame, Bytes)>, tail: Bytes)
    returns (read: seq<Frame>)
    requires Encodable(p, frames)
    ensures ServerReadAll(p, Flatten(Wire(p, frames)) + tail, Keys(frames)) == Ok((read, tail))
    ensures |read| == |frames|
    ensures forall i :: 0 <= i < |frames| ==>
              read[i] == frames[i].0.(hmac := p.Hmac(frames[i].1, Signed(FieldsOf(frames[i].0), frames[i].0.payload)))
    decreases |frames|
  {
    if frames == [] {
      read := [];
      assert Flatten(Wire(p, frames)) + tail == tail;
    } else {
      var (f, key) := frames[0];
      WireCons(p, frames, tail);
      ServerReadsEncoded(p, f, key, Flatten(Wire(p, frames[1..])) + tail);
      var more := ServerReadsStream(p, frames[1..], tail);
      read := [f.(hmac := p.Hmac(key, Signed(FieldsOf(f), f.payload)))] + more;
    }
  }

  // And to a client.
  lemma {:induction false} ClientReadsStream(p: Crypto, frames: seq<(Frame, Bytes)>, tail: Bytes)
    returns (read: seq<ClientFrame>)
    requires Encodable(p, frames)
    requires forall i :: 0 <= i < |frames| ==> frames[i].0.version == 1
    ensures ClientReadAll(p, Flatten(Wire(p, frames)) + tail, Keys(frames)) == Ok((read, tail))
    ensures |read| == |frames|
    ensures forall i :: 0 <= i < |frames| ==> read[i] == ToClient(frames[i].0)
    decreases |frames|
  {
    if frames == [] {
      read := [];
      assert Flatten(Wire(p, frames)) + tail == tail;
    } else {
      var (f, key) := frames[0];
      WireCons(p, frames, tail);
      ClientReadsEncoded(p, f, key, Flatten(Wire(p, frames[1..])) + tail);
      var more := ClientReadsStream(p, frames[1..], tail);
      read := [ToClient(f)] + more;
    }
  }

  // ----- reading from a socket that delivers arbitrary pieces -----

  class Socket {
    // What is still to be delivered, in the pieces in which it arrives; then end of file.
    var segments: seq<Bytes>

    ghost predicate Valid()
      reads this
    {
      forall i :: 0 <= i < |segments| ==> segments[i] != []
    }

    ghost function Stream(): Bytes
      reads this
    {
      Flatten(segments)
    }

    constructor (segments: seq<Bytes>)
      requires forall i :: 0 <= i < |segments| ==> segments[i] != []
      ensures Valid() && Stream() == Flatten(segments)
    {
      this.segments := segments;
    }

    // At most n bytes, at least one unless the stream has ended.
    method Recv(n: nat) returns (chunk: Bytes)
      requires Valid() && n > 0
      modifies this
      ensures Valid() && |chunk| <= n
      ensures chunk + Stream() == old(Stream())
      ensures chunk == [] <==> old(Stream()) == []
    {
      if segments == [] { return []; }
      var head := segments[0];
      if |head| <= n {
        segments := segments[1..];
        return head;
      }
      segments := [head[n..]] + segments[1..];
      assert segments[1..] == old(segments)[1..];
      assert head == head[..n] + head[n..];
      Assoc(head[..n], head[n..], Flatten(segments[1..]));
      return head[..n];
    }

    method ReadExact(n: nat) returns (r: Option<Bytes>)
      requires Valid()
      modifies this
      ensures Valid()
      ensures match TakeBytes(old(Stream()), n)
              case None => r.None?
              case Some((b, rest)) => r == Some(b) && Stream() == rest
    {
      var buf := [];
      while |buf| < n
        invariant Valid() && |buf| <= n
        invariant buf + Stream() == old(Stream())
        decreases n - |buf|
      {
        ghost var before := Stream();
        var chunk := Recv(n - |buf|);
        if chunk == [] {
          assert buf + before == buf;
          return None;
        }
        Assoc(buf, chunk, Stream());
        buf := buf + chunk;
      }
      SplitAt(buf, Stream());
      return Some(buf);
    }

    // `recv_frame` of the client.
    method RecvFrame(p: Crypto, key: Option<Bytes>) returns (r: Result<ClientFrame, RecvError>)
      requires Valid()
      modifies this
      ensures Valid()
      ensures match ClientRead(p, old(Stream()), key)
              case Err(e) => r == Err(e)
              case Ok((f, rest)) => r == Ok(f) && Stream() == rest
    {
      var header := ReadExact(HEADER_LEN);
      if header.None? { return Err(Eof); }
      var h := ParseHeader(header.value);
      if h.version != 1 { return Err(BadVersion); }
      if h.len > MAX_PAYLOAD { return Err(Oversized); }
      var payload := ReadExact(h.len);
      if payload.None? { return Err(Eof); }
      var tag := ReadExact(HMAC_LEN);
      if tag.None? { return Err(Eof); }
      if key.Some? {
        var wanted := p.Hmac(key.value, header.value + payload.value);
        if tag.value != wanted { return Err(Codec(BadHmac)); }
      }
      return Ok(ClientFrame(h.version, h.code, h.flags, h.seqId, payload.value));
    }

    // `_read_frame` of the server.
    method ReadFrame(p: Crypto, key: Bytes) returns (r: Result<Frame, RecvError>)
      requires Valid()
      modifies this
      ensures Valid()
      ensures match ServerRead(p, old(Stream()), key)
              case Err(e) => r == Err(e)
              case Ok((f, rest)) => r == Ok(f) && Stream() == rest
    {
      var header := ReadExact(HEADER_LEN);
      if header.None? { return Err(Eof); }
      var len := ParseHeader(header.value).len;
      if len > MAX_PAYLOAD { return Err(Oversized); }
      var body := ReadExact(len + HMAC_LEN);
      if body.None? { return Err(Eof); }
      var f := Decode(p, header.value + body.value, key);
      return match f case Err(e) => Err(Codec(e)) case Ok(frame) => Ok(frame);
    }
  }
}
