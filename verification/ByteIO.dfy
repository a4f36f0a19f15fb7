// Field-by-field writing and reading of byte strings: ByteWriter and ByteReader of
// client-py/framing.py, with the loops of client/src/bytes.h.
module ByteIO {
  import opened Common
  import opened LittleEndian

  // A text encoding: a partial injection from texts to byte strings, and its inverse.
  datatype TextCodec = TextCodec(encode: string -> Option<Bytes>, decode: Bytes -> Option<string>) {
    ghost predicate Restores(s: string) { encode(s).Some? ==> decode(encode(s).value) == Some(s) }

    ghost predicate Recodes(b: Bytes) { decode(b).Some? ==> encode(decode(b).value) == Some(b) }

    ghost predicate Lawful() {
      (forall s: string :: Restores(s)) && (forall b: Bytes :: Recodes(b))
    }
  }

  datatype IOError = Short | BadText | TooLong | OutOfRange | BadMagic

  // What reading one field off the front of a byte string yields: the value and the rest.
  type Parsed<T> = Result<(T, Bytes), IOError>

  function ReadUint(b: Bytes, w: nat): Parsed<nat> {
    if |b| < w then Err(Short) else Ok((FromLE(b[..w]), b[w..]))
  }

  function ReadRaw(b: Bytes, n: nat): Parsed<Bytes> {
    if |b| < n then Err(Short) else Ok((b[..n], b[n..]))
  }

  function ReadLp(b: Bytes, w: nat): Parsed<Bytes> {
    match ReadUint(b, w)
    case Err(e) => Err(e)
    case Ok((n, rest)) => ReadRaw(rest, n)
  }

  function ReadText(t: TextCodec, b: Bytes): Parsed<string> {
    match ReadLp(b, 2)
    case Err(e) => Err(e)
    case Ok((raw, rest)) =>
      match t.decode(raw)
      case None => Err(BadText)
      case Some(s) => Ok((s, rest))
  }

  // The bytes of a length-prefixed text field.
  function TextField(t: TextCodec, s: string): Result<Bytes, IOError> {
    match t.encode(s)
    case None => Err(BadText)
    case Some(raw) => if |raw| > 0xFFFF then Err(TooLong) else Ok(LE(|raw|, 2) + raw)
  }

  lemma ReadUintInverse(v: nat, w: nat, tail: Bytes)
    requires v < Shl8(1, w)
    ensures ReadUint(LE(v, w) + tail, w) == Ok((v, tail))
  {
    FromLEOfLE(v, w);
    assert (LE(v, w) + tail)[..w] == LE(v, w);
    assert (LE(v, w) + tail)[w..] == tail;
  }

  lemma ReadTextInverse(t: TextCodec, s: string, tail: Bytes)
    requires t.Lawful() && TextField(t, s).Ok?
    ensures ReadText(t, TextField(t, s).value + tail) == Ok((s, tail))
  {
    var raw := t.encode(s).value;
    assert t.Restores(s);
    Widths();
    ReadUintInverse(|raw|, 2, raw + tail);
    assert LE(|raw|, 2) + raw + tail == LE(|raw|, 2) + (raw + tail);
    assert (raw + tail)[..|raw|] == raw && (raw + tail)[|raw|..] == tail;
  }

  lemma ReadTextExact(t: TextCodec, b: Bytes)
    requires t.Lawful() && ReadText(t, b).Ok?
    ensures var (s, rest) := ReadText(t, b).value;
            TextField(t, s).Ok? && b == TextField(t, s).value + rest
  {
    var (raw, rest) := ReadLp(b, 2).value;
    assert t.Recodes(raw);
    Widths();
    FromLEBound(b[..2]);
    LEOfFromLE(b[..2]);
    assert b == b[..2] + b[2..];
    assert b[2..] == raw + rest;
    assert b[..2] + (raw + rest) == b[..2] + raw + rest;
  }

  class ByteWriter {
    var buf: Bytes

    constructor ()
      ensures buf == []
    {
      buf := [];
    }

    method PutLe(v: u64, n: nat)
      modifies this
      ensures buf == old(buf) + LE(v, n)
    {
      for i := 0 to n
        invariant buf == old(buf) + LE(v, i)
      {
        LESnoc(v, i);
        buf := buf + [(Shr8(v, i) % 256) as byte];
      }
    }

    // struct.pack refuses a value that does not fit.
    method Uint(v: nat, w: nat) returns (r: Result<(), IOError>)
      requires w == 2 || w == 4 || w == 8
      modifies this
      ensures r == if v < Shl8(1, w) then Ok(()) else Err(OutOfRange)
      ensures buf == if r.Ok? then old(buf) + LE(v, w) else old(buf)
    {
      Widths();
      if v >= Shl8(1, w) { return Err(OutOfRange); }
      PutLe(v, w);
      return Ok(());
    }

    method Raw(b: Bytes)
      modifies this
      ensures buf == old(buf) + b
    {
      buf := buf + b;
    }

    method LpStr(t: TextCodec, s: string) returns (r: Result<(), IOError>)
      modifies this
      ensures r == match TextField(t, s) case Ok(_) => Ok(()) case Err(e) => Err(e)
      ensures buf == if r.Ok? then old(buf) + TextField(t, s).value else old(buf)
    {
      var raw := t.encode(s);
      if raw.None? { return Err(BadText); }
      if |raw.value| > 0xFFFF { return Err(TooLong); }
      PutLe(|raw.value|, 2);
      buf := buf + raw.value;
      assert old(buf) + LE(|raw.value|, 2) + raw.value == old(buf) + (LE(|raw.value|, 2) + raw.value);
      return Ok(());
    }
  }

  class ByteReader {
    const buf: Bytes
    var pos: nat

    ghost predicate Valid()
      reads this
    {
      pos <= |buf|
    }

    function Rest(): Bytes
      reads this
      requires Valid()
    {
      buf[pos..]
    }

    constructor (b: Bytes)
      ensures Valid() && buf == b && Rest() == b
    {
      buf, pos := b, 0;
    }

    method GetLe(n: nat) returns (r: Result<nat, IOError>)
      requires Valid()
      modifies this
      ensures Valid()
      ensures match ReadUint(old(Rest()), n)
              case Ok((v, rest)) => r == Ok(v) && Rest() == rest
              case Err(e) => r == Err(e) && pos == old(pos)
    {
      if pos + n > |buf| { return Err(Short); }
      var v := 0;
      for i := 0 to n
        invariant pos == old(pos)
        invariant v == FromLE(buf[pos..pos+i])
      {
        var sofar := buf[pos..pos+i];
        FromLEBound(sofar);
        OrIsPlus(v, buf[pos+i] as nat, i);
        FromLESnoc(sofar, buf[pos+i]);
        assert buf[pos..pos+i+1] == sofar + [buf[pos+i]];
        v := BitOr(v, Shl8(buf[pos+i] as nat, i));
      }
      assert buf[pos..][..n] == buf[pos..pos+n];
      pos := pos + n;
      return Ok(v);
    }

    method Raw(n: nat) returns (r: Result<Bytes, IOError>)
      requires Valid()
      modifies this
      ensures Valid()
      ensures match ReadRaw(old(Rest()), n)
              case Ok((v, rest)) => r == Ok(v) && Rest() == rest
              case Err(e) => r == Err(e) && pos == old(pos)
    {
      if pos + n > |buf| { return Err(Short); }
      assert buf[pos..][..n] == buf[pos..pos+n];
      r := Ok(buf[pos..pos+n]);
      pos := pos + n;
    }

    method LpStr(t: TextCodec) returns (r: Result<string, IOError>)
      requires Valid()
      modifies this
      ensures Valid()
      ensures match ReadText(t, old(Rest()))
              case Ok((v, rest)) => r == Ok(v) && Rest() == rest
              case Err(e) => r == Err(e)
    {
      var n := GetLe(2);
      if n.Err? { return Err(n.error); }
      var raw := Raw(n.value);
      if raw.Err? { return Err(raw.error); }
      var s := t.decode(raw.value);
      return if s.None? then Err(BadText) else Ok(s.value);
    }
  }
}
