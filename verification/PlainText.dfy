// The vault's plaintext format and its encryption wrapper (client-py/vault.py,
// client/src/vault.cpp).
module PlainText {
  import opened Common
  import opened LittleEndian
  import opened ByteIO
  import opened Vaults

  // The eight characters SVVAULT1.
  const MAGIC: Bytes := [0x53, 0x56, 0x56, 0x41, 0x55, 0x4C, 0x54, 0x31]

  // ----- the five text fields of an entry -----

  // The fields behind what is already written; the first that cannot be written is the error.
  function WriteTexts(t: TextCodec, done: Bytes, texts: seq<string>): Result<Bytes, IOError>
    decreases |texts|
  {
    if texts == [] then Ok(done)
    else
      match TextField(t, texts[0])
      case Err(e) => Err(e)
      case Ok(b) => WriteTexts(t, done + b, texts[1..])
  }

  function ReadTexts(t: TextCodec, done: seq<string>, b: Bytes, n: nat): (r: Parsed<seq<string>>)
    ensures r.Ok? ==> |r.value.0| == |done| + n
    decreases n
  {
    if n == 0 then Ok((done, b))
    else
      match ReadText(t, b)
      case Err(e) => Err(e)
      case Ok((s, rest)) => ReadTexts(t, done + [s], rest, n - 1)
  }

  lemma {:induction false} ReadTextsInverse(t: TextCodec, acc: Bytes, done: seq<string>, texts: seq<string>, tail: Bytes)
    returns (body: Bytes)
    requires t.Lawful() && WriteTexts(t, acc, texts).Ok?
    ensures WriteTexts(t, acc, texts).value == acc + body
    ensures ReadTexts(t, done, body + tail, |texts|) == Ok((done + texts, tail))
    decreases |texts|
  {
    if texts == [] {
      body := [];
      assert acc + body == acc && done + texts == done && [] + tail == tail;
    } else {
      var b := TextField(t, texts[0]).value;
      var rest := ReadTextsInverse(t, acc + b, done + [texts[0]], texts[1..], tail);
      body := b + rest;
      ReadTextInverse(t, texts[0], rest + tail);
      Assoc(b, rest, tail);
      Assoc(acc, b, rest);
      SeqSnoc(done, texts);
    }
  }

  lemma SeqSnoc<T>(done: seq<T>, xs: seq<T>)
    requires xs != []
    ensures done + [xs[0]] + xs[1..] == done + xs
  {}

  lemma {:induction false} ReadTextsExact(t: TextCodec, acc: Bytes, done: seq<string>, b: Bytes, n: nat)
    returns (texts: seq<string>)
    requires t.Lawful() && ReadTexts(t, done, b, n).Ok?
    ensures var (all, rest) := ReadTexts(t, done, b, n).value;
            all == done + texts && |texts| == n &&
            WriteTexts(t, acc, texts).Ok? && acc + b == WriteTexts(t, acc, texts).value + rest
    decreases n
  {
    if n == 0 {
      texts := [];
      assert done + texts == done;
    } else {
      ReadTextExact(t, b);
      var (s, b') := ReadText(t, b).value;
      var f := TextField(t, s).value;
      var more := ReadTextsExact(t, acc + f, done + [s], b', n - 1);
      texts := [s] + more;
      assert texts[1..] == more;
      SeqSnoc(done, texts);
      Assoc(acc, f, b');
    }
  }

  // ----- one entry -----

  const FIELDS: seq<string> := ["id", "service", "username", "password", "notes"]

  function Texts(e: Entry): seq<string> { [e.id, e.service, e.username, e.password, e.notes] }

  function WriteEntry(t: TextCodec, done: Bytes, e: Entry): Result<Bytes, IOError> {
    match WriteTexts(t, done, Texts(e))
    case Err(err) => Err(err)
    case Ok(b) => if e.updatedAt < Shl8(1, 8) then Ok(b + LE(e.updatedAt, 8)) else Err(OutOfRange)
  }

  function ReadEntry(t: TextCodec, b: Bytes): Parsed<Entry> {
    match ReadTexts(t, [], b, |FIELDS|)
    case Err(e) => Err(e)
    case Ok((f, b')) =>
      match ReadUint(b', 8)
      case Err(e) => Err(e)
      case Ok((updatedAt, rest)) => Ok((Entry(f[0], f[1], f[2], f[3], f[4], updatedAt), rest))
  }

  lemma ReadEntryInverse(t: TextCodec, acc: Bytes, e: Entry, tail: Bytes) returns (body: Bytes)
    requires t.Lawful() && WriteEntry(t, acc, e).Ok?
    ensures WriteEntry(t, acc, e).value == acc + body
    ensures ReadEntry(t, body + tail) == Ok((e, tail))
  {
    var time := LE(e.updatedAt, 8);
    var b := ReadTextsInverse(t, acc, [], Texts(e), time + tail);
    body := b + time;
    Assoc(b, time, tail);
    Assoc(acc, b, time);
    assert [] + Texts(e) == Texts(e);
    ReadUintInverse(e.updatedAt, 8, tail);
  }

  lemma WriteEntryOf(t: TextCodec, acc: Bytes, e: Entry, texts: seq<string>, b: Bytes)
    requires Texts(e) == texts && WriteTexts(t, acc, texts) == Ok(b) && e.updatedAt < Shl8(1, 8)
    ensures WriteEntry(t, acc, e) == Ok(b + LE(e.updatedAt, 8))
  {}

  lemma ReadEntryExact(t: TextCodec, acc: Bytes, b: Bytes)
    requires t.Lawful() && ReadEntry(t, b).Ok?
    ensures var (e, rest) := ReadEntry(t, b).value;
            WriteEntry(t, acc, e).Ok? && acc + b == WriteEntry(t, acc, e).value + rest
  {
    var (e, rest) := ReadEntry(t, b).value;
    var texts := ReadTextsExact(t, acc, [], b, |FIELDS|);
    assert [] + texts == texts;
    var b' := ReadTexts(t, [], b, |FIELDS|).value.1;
    var written := WriteTexts(t, acc, texts).value;
    ReadUintExact(b', 8);
    assert Texts(e) == texts;
    WriteEntryOf(t, acc, e, texts, written);
    Assoc(written, LE(e.updatedAt, 8), rest);
  }

  lemma ReadUintExact(b: Bytes, w: nat)
    requires w <= |b|
    ensures var (v, rest) := ReadUint(b, w).value; v < Shl8(1, w) && b == LE(v, w) + rest
  {
    FromLEBound(b[..w]);
    LEOfFromLE(b[..w]);
  }

  // ----- a vault -----

  function WriteEntries(t: TextCodec, done: Bytes, es: seq<Entry>): Result<Bytes, IOError>
    decreases |es|
  {
    if es == [] then Ok(done)
    else
      match WriteEntry(t, done, es[0])
      case Err(e) => Err(e)
      case Ok(b) => WriteEntries(t, b, es[1..])
  }

  function Serialize(t: TextCodec, es: seq<Entry>): Result<Bytes, IOError> {
    if |es| >= Shl8(1, 4) then Err(OutOfRange)
    else WriteEntries(t, MAGIC + LE(|es|, 4), es)
  }

  function ReadEntries(t: TextCodec, done: seq<Entry>, b: Bytes, n: nat): Result<seq<Entry>, IOError>
    decreases n
  {
    if n == 0 then Ok(done)
    else
      match ReadEntry(t, b)
      case Err(e) => Err(e)
      case Ok((e, rest)) => ReadEntries(t, done + [e], rest, n - 1)
  }

  function Deserialize(t: TextCodec, b: Bytes): Result<seq<Entry>, IOError> {
    match ReadRaw(b, |MAGIC|)
    case Err(e) => Err(e)
    case Ok((magic, b1)) =>
      if magic != MAGIC then Err(BadMagic)
      else
        match ReadUint(b1, 4)
        case Err(e) => Err(e)
        case Ok((n, b2)) => ReadEntries(t, [], b2, n)
  }

  lemma FirstEntry(t: TextCodec, acc: Bytes, es: seq<Entry>) returns (acc': Bytes)
    requires es != [] && WriteEntries(t, acc, es).Ok?
    ensures WriteEntry(t, acc, es[0]) == Ok(acc')
    ensures WriteEntries(t, acc', es[1..]) == WriteEntries(t, acc, es)
  {
    acc' := WriteEntry(t, acc, es[0]).value;
  }

  // Reading one entry in front of others.
  lemma EntryInFront(t: TextCodec, acc: Bytes, done: seq<Entry>, es: seq<Entry>, rest: Bytes, tail: Bytes)
    returns (b: Bytes)
    requires es != [] && t.Lawful() && WriteEntry(t, acc, es[0]).Ok?
    requires ReadEntries(t, done + [es[0]], rest + tail, |es[1..]|) == Ok(done + [es[0]] + es[1..])
    ensures WriteEntry(t, acc, es[0]) == Ok(acc + b)
    ensures ReadEntries(t, done, b + rest + tail, |es|) == Ok(done + es)
  {
    b := ReadEntryInverse(t, acc, es[0], rest + tail);
    Assoc(b, rest, tail);
    SeqSnoc(done, es);
  }

  lemma {:induction false} ReadEntriesInverse(t: TextCodec, acc: Bytes, done: seq<Entry>, es: seq<Entry>, tail: Bytes)
    returns (body: Bytes)
    requires t.Lawful() && WriteEntries(t, acc, es).Ok?
    ensures WriteEntries(t, acc, es) == Ok(acc + body)
    ensures ReadEntries(t, done, body + tail, |es|) == Ok(done + es)
    decreases |es|
  {
    if es == [] {
      body := [];
      assert acc + body == acc && done + es == done;
    } else {
      var acc' := FirstEntry(t, acc, es);
      var rest := ReadEntriesInverse(t, acc', done + [es[0]], es[1..], tail);
      var b := EntryInFront(t, acc, done, es, rest, tail);
      body := b + rest;
      Assoc(acc, b, rest);
    }
  }

  lemma ReadRawInverse(a: Bytes, tail: Bytes)
    ensures ReadRaw(a + tail, |a|) == Ok((a, tail))
  {
    SplitAt(a, tail);
  }

  // A serialised vault, whatever follows it, is read back as the same entries in order.
  lemma RoundTrip(t: TextCodec, es: seq<Entry>, tail: Bytes)
    requires t.Lawful() && Serialize(t, es).Ok?
    ensures Deserialize(t, Serialize(t, es).value + tail) == Ok(es)
  {
    var count := LE(|es|, 4);
    var body := ReadEntriesInverse(t, MAGIC + count, [], es, tail);
    ReadUintInverse(|es|, 4, body + tail);
    ReadRawInverse(MAGIC, count + (body + tail));
    Assoc(MAGIC + count, body, tail);
    Assoc(MAGIC, count, body + tail);
    assert [] + es == es;
  }

  lemma ReadEntriesStep(t: TextCodec, acc: Bytes, done: seq<Entry>, b: Bytes, n: nat, all: seq<Entry>)
    returns (e: Entry, rest: Bytes, acc': Bytes)
    requires t.Lawful() && n > 0 && ReadEntries(t, done, b, n) == Ok(all)
    ensures ReadEntries(t, done + [e], rest, n - 1) == Ok(all)
    ensures ReadEntry(t, b) == Ok((e, rest)) && acc + b == acc' + rest
  {
    ReadEntryExact(t, acc, b);
    e, rest := ReadEntry(t, b).value.0, ReadEntry(t, b).value.1;
    acc' := WriteEntry(t, acc, e).value;
  }

  lemma WriteEntriesStep(t: TextCodec, acc: Bytes, b: Bytes, e: Entry, rest: Bytes, acc': Bytes, more: seq<Entry>)
    requires t.Lawful() && ReadEntry(t, b) == Ok((e, rest)) && acc + b == acc' + rest
    ensures WriteEntries(t, acc, [e] + more) == WriteEntries(t, acc', more)
  {
    ReadEntryExact(t, acc, b);
    var out := WriteEntry(t, acc, e).value;
    SplitAt(out, rest);
    SplitAt(acc', rest);
    assert |out| == |acc'|;
    WriteEntriesCons(t, acc, e, more);
  }

  lemma {:induction false} ReadEntriesExact(t: TextCodec, acc: Bytes, done: seq<Entry>, b: Bytes, n: nat, all: seq<Entry>)
    returns (es: seq<Entry>, out: Bytes, tail: Bytes)
    requires t.Lawful() && ReadEntries(t, done, b, n) == Ok(all)
    ensures all == done + es && |es| == n
    ensures WriteEntries(t, acc, es) == Ok(out) && acc + b == out + tail
    decreases n
  {
    if n == 0 {
      es, out, tail := [], acc, b;
      assert done + es == done;
    } else {
      var e, rest, acc' := ReadEntriesStep(t, acc, done, b, n, all);
      var more;
      more, out, tail := ReadEntriesExact(t, acc', done + [e], rest, n - 1, all);
      es := [e] + more;
      WriteEntriesStep(t, acc, b, e, rest, acc', more);
      Assoc(done, [e], more);
    }
  }

  lemma WriteEntriesCons(t: TextCodec, acc: Bytes, e: Entry, more: seq<Entry>)
    requires WriteEntry(t, acc, e).Ok?
    ensures WriteEntries(t, acc, [e] + more) == WriteEntries(t, WriteEntry(t, acc, e).value, more)
    ensures ([e] + more)[1..] == more
  {}

  // Whatever is accepted starts with the re-serialisation of what it was read as.
  lemma AcceptedIsSerialized(t: TextCodec, b: Bytes)
    requires t.Lawful() && Deserialize(t, b).Ok?
    ensures Serialize(t, Deserialize(t, b).value).Ok?
    ensures Serialize(t, Deserialize(t, b).value).value <= b
  {
    var b1 := b[|MAGIC|..];
    var (n, b2) := ReadUint(b1, 4).value;
    ReadUintExact(b1, 4);
    var es, out, tail := ReadEntriesExact(t, MAGIC + LE(n, 4), [], b2, n, Deserialize(t, b).value);
    assert [] + es == es;
    assert b == MAGIC + b1;
    Assoc(MAGIC, LE(n, 4), b2);
  }

  // ----- the loops -----

  // One call of `lpstr`, as a step through the fields to be written.
  method PutText(w: ByteWriter, t: TextCodec, text: string, ghost more: seq<string>) returns (r: Result<(), IOError>)
    modifies w
    ensures match r
            case Ok(_) => WriteTexts(t, old(w.buf), [text] + more) == WriteTexts(t, w.buf, more)
            case Err(err) => WriteTexts(t, old(w.buf), [text] + more) == Err(err)
  {
    assert ([text] + more)[1..] == more;
    r := w.LpStr(t, text);
  }

  // Five calls of `lpstr` and one of `u64`.
  method PutEntry(w: ByteWriter, t: TextCodec, e: Entry) returns (r: Result<(), IOError>)
    modifies w
    ensures match WriteEntry(t, old(w.buf), e)
            case Ok(b) => r.Ok? && w.buf == b
            case Err(err) => r == Err(err)
  {
    ghost var f4: seq<string> := [e.notes] + [];
    ghost var f3 := [e.password] + f4;
    ghost var f2 := [e.username] + f3;
    ghost var f1 := [e.service] + f2;
    assert [e.id] + f1 == Texts(e);
    r := PutText(w, t, e.id, f1);
    if r.Err? { return; }
    r := PutText(w, t, e.service, f2);
    if r.Err? { return; }
    r := PutText(w, t, e.username, f3);
    if r.Err? { return; }
    r := PutText(w, t, e.password, f4);
    if r.Err? { return; }
    r := PutText(w, t, e.notes, []);
    if r.Err? { return; }
    r := w.Uint(e.updatedAt, 8);
  }

  method SerializePlaintext(t: TextCodec, entries: seq<Entry>) returns (r: Result<Bytes, IOError>)
    ensures r == Serialize(t, entries)
  {
    var w := new ByteWriter();
    w.Raw(MAGIC);
    assert w.buf == MAGIC;
    var count := w.Uint(|entries|, 4);
    if count.Err? { return Err(count.error); }
    assert entries[0..] == entries;
    for i := 0 to |entries|
      invariant fresh(w)
      invariant WriteEntries(t, w.buf, entries[i..]) == Serialize(t, entries)
    {
      assert entries[i..][1..] == entries[i+1..];
      var f := PutEntry(w, t, entries[i]);
      if f.Err? { return Err(f.error); }
    }
    return Ok(w.buf);
  }

  // One call of `lpstr`, as a step towards the fields still to be read.
  method TakeText(reader: ByteReader, t: TextCodec, ghost done: seq<string>, ghost n: nat)
    returns (r: Result<string, IOError>)
    requires reader.Valid() && n > 0
    modifies reader
    ensures reader.Valid()
    ensures match r
            case Ok(s) => ReadTexts(t, done, old(reader.Rest()), n) == ReadTexts(t, done + [s], reader.Rest(), n - 1)
            case Err(err) => ReadTexts(t, done, old(reader.Rest()), n) == Err(err)
  {
    r := reader.LpStr(t);
  }

  // Five calls of `lpstr`.
  method TakeTexts(reader: ByteReader, t: TextCodec) returns (r: Result<seq<string>, IOError>)
    requires reader.Valid()
    modifies reader
    ensures reader.Valid()
    ensures match r
            case Ok(f) => ReadTexts(t, [], old(reader.Rest()), |FIELDS|) == Ok((f, reader.Rest()))
            case Err(err) => ReadTexts(t, [], old(reader.Rest()), |FIELDS|) == Err(err)
  {
    var f := [];
    var id := TakeText(reader, t, f, |FIELDS|);
    if id.Err? { return Err(id.error); }
    f := f + [id.value];
    var service := TakeText(reader, t, f, |FIELDS| - 1);
    if service.Err? { return Err(service.error); }
    f := f + [service.value];
    var username := TakeText(reader, t, f, |FIELDS| - 2);
    if username.Err? { return Err(username.error); }
    f := f + [username.value];
    var password := TakeText(reader, t, f, |FIELDS| - 3);
    if password.Err? { return Err(password.error); }
    f := f + [password.value];
    var notes := TakeText(reader, t, f, |FIELDS| - 4);
    if notes.Err? { return Err(notes.error); }
    return Ok(f + [notes.value]);
  }

  method TakeEntry(reader: ByteReader, t: TextCodec) returns (r: Result<Entry, IOError>)
    requires reader.Valid()
    modifies reader
    ensures reader.Valid()
    ensures match ReadEntry(t, old(reader.Rest()))
            case Ok((e, rest)) => r == Ok(e) && reader.Rest() == rest
            case Err(err) => r == Err(err)
  {
    var f := TakeTexts(reader, t);
    if f.Err? { return Err(f.error); }
    var updatedAt := reader.GetLe(8);
    if updatedAt.Err? { return Err(updatedAt.error); }
    return Ok(Entry(f.value[0], f.value[1], f.value[2], f.value[3], f.value[4], updatedAt.value));
  }

  method TakeEntries(reader: ByteReader, t: TextCodec, n: nat) returns (r: Result<seq<Entry>, IOError>)
    requires reader.Valid()
    modifies reader
    ensures reader.Valid() && r == ReadEntries(t, [], old(reader.Rest()), n)
  {
    var entries := [];
    for i := 0 to n
      invariant reader.Valid()
      invariant ReadEntries(t, entries, reader.Rest(), n - i) == ReadEntries(t, [], old(reader.Rest()), n)
    {
      var e := TakeEntry(reader, t);
      if e.Err? { return Err(e.error); }
      entries := entries + [e.value];
    }
    return Ok(entries);
  }

  method DeserializePlaintext(t: TextCodec, pt: Bytes) returns (r: Result<seq<Entry>, IOError>)
    ensures r == Deserialize(t, pt)
  {
    var reader := new ByteReader(pt);
    var magic := reader.Raw(|MAGIC|);
    if magic.Err? { return Err(magic.error); }
    if magic.value != MAGIC { return Err(BadMagic); }
    var n := reader.GetLe(4);
    if n.Err? { return Err(n.error); }
    r := TakeEntries(reader, t, n.value);
  }

  // ----- the C++ client's strings are bytes: its text codec -----

  function CppText(): TextCodec {
    TextCodec(
      (s: string) => if forall i :: 0 <= i < |s| ==> s[i] as int < 256
                     then Some(seq(|s|, i requires 0 <= i < |s| && s[i] as int < 256 => s[i] as int as byte))
                     else None,
      (b: Bytes) => Some(seq(|b|, i requires 0 <= i < |b| => b[i] as int as char)))
  }

  lemma CppTextLawful()
    ensures CppText().Lawful()
  {
    var t := CppText();
    forall s: string ensures t.Restores(s) {
      if t.encode(s).Some? { assert t.decode(t.encode(s).value).value == s; }
    }
    forall b: Bytes ensures t.Recodes(b) {
      if t.decode(b).Some? { assert t.encode(t.decode(b).value).value == b; }
    }
  }

  // ----- encryption -----

  // AES-256-GCM as its functional laws: opening undoes sealing, and the tag is 16 bytes.
  datatype Aead = Aead(seal: (Bytes, Bytes, Bytes) -> Bytes, open: (Bytes, Bytes, Bytes) -> Option<Bytes>) {
    ghost predicate Opens(k: Bytes, iv: Bytes, pt: Bytes) {
      open(k, iv, seal(k, iv, pt)) == Some(pt) && |seal(k, iv, pt)| == |pt| + 16
    }

    // The ciphertext and its tag are fixed by key, IV and plaintext.
    ghost predicate Tight(k: Bytes, iv: Bytes, ct: Bytes) {
      open(k, iv, ct).Some? ==> ct == seal(k, iv, open(k, iv, ct).value)
    }

    ghost predicate Lawful() {
      && (forall k: Bytes, iv: Bytes, pt: Bytes :: Opens(k, iv, pt))
      && (forall k: Bytes, iv: Bytes, ct: Bytes :: Tight(k, iv, ct))
    }
  }

  datatype OpenError = BlobTooShort | BadTag | BadPlaintext(e: IOError)

  function Encrypt(a: Aead, t: TextCodec, key: Bytes, iv: Bytes, es: seq<Entry>): Result<Bytes, IOError> {
    match Serialize(t, es)
    case Err(e) => Err(e)
    case Ok(pt) => Ok(iv + a.seal(key, iv, pt))
  }

  function Decrypt(a: Aead, t: TextCodec, key: Bytes, blob: Bytes): Result<seq<Entry>, OpenError> {
    if |blob| < 12 + 16 then Err(BlobTooShort)
    else
      match a.open(key, blob[..12], blob[12..])
      case None => Err(BadTag)
      case Some(pt) =>
        match Deserialize(t, pt)
        case Err(e) => Err(BadPlaintext(e))
        case Ok(es) => Ok(es)
  }

  // What a client stores, any client with the same vault key gets back.
  lemma DecryptUndoesEncrypt(a: Aead, t: TextCodec, key: Bytes, iv: Bytes, es: seq<Entry>)
    requires a.Lawful() && t.Lawful() && |iv| == 12
    requires Encrypt(a, t, key, iv, es).Ok?
    ensures Decrypt(a, t, key, Encrypt(a, t, key, iv, es).value) == Ok(es)
  {
    var pt := Serialize(t, es).value;
    var blob := iv + a.seal(key, iv, pt);
    assert a.Opens(key, iv, pt);
    assert blob[..12] == iv && blob[12..] == a.seal(key, iv, pt);
    RoundTrip(t, es, []);
    assert pt + [] == pt;
  }

  // And whatever opens under a key is an IV and the seal, under that key, of those entries.
  lemma OnlySealedOpens(a: Aead, t: TextCodec, key: Bytes, blob: Bytes) returns (pt: Bytes)
    requires a.Lawful() && t.Lawful() && Decrypt(a, t, key, blob).Ok?
    ensures Serialize(t, Decrypt(a, t, key, blob).value).Ok?
    ensures Serialize(t, Decrypt(a, t, key, blob).value).value <= pt
    ensures |blob| >= 28 && blob == blob[..12] + a.seal(key, blob[..12], pt)
  {
    assert a.Tight(key, blob[..12], blob[12..]);
    pt := a.open(key, blob[..12], blob[12..]).value;
    AcceptedIsSerialized(t, pt);
    assert blob == blob[..12] + blob[12..];
  }
}
