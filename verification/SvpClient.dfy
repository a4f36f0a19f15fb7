// The client's vault operations on one established connection (client-py/svpclient.py):
// receiving, fetching a vault that may come in fragments, and putting one.
module SvpClient {
  import opened Common
  import opened LittleEndian
  import opened ByteIO
  import opened FrameCodec
  import opened Payloads
  import opened Fragments

  // What a receiver looks at in a frame whose HMAC has been checked.
  datatype Rx = Rx(code: byte, flags: byte, payload: Bytes)

  function Delivered(frames: seq<Sent>): seq<Rx> {
    seq(|frames|, i requires 0 <= i < |frames| =>
      Rx(Code(frames[i].msgType), frames[i].flags, frames[i].payload))
  }

  // A reply as the caller of `_recv` sees it: a frame, an ERROR turned into an exception with
  // its code, an ERROR without a code, or the end of the connection.
  datatype Received = Got(f: Rx) | Failed(code: byte) | Malformed | Lost

  function Receive(t: TextCodec, f: Rx): Received {
    if f.code != Code(ERROR) then Got(f)
    else if f.payload == [] then Malformed
    else if |f.payload| > 1 && ReadText(t, f.payload[1..]).Err? then Malformed
    else Failed(f.payload[0])
  }

  predicate SaysText(t: TextCodec, b: Bytes, s: string, rest: Bytes) {
    TextField(t, s).Ok? && b == TextField(t, s).value + rest
  }

  // An ERROR carries its code, and after it nothing or a text; any other frame passes.
  lemma ReceiveExact(t: TextCodec, f: Rx, code: byte)
    requires t.Lawful()
    ensures Receive(t, f) == Failed(code) <==>
            && f.code == Code(ERROR) && f.payload != [] && f.payload[0] == code
            && (|f.payload| == 1 || exists s, rest :: SaysText(t, f.payload[1..], s, rest))
    ensures f.code != Code(ERROR) <==> Receive(t, f) == Got(f)
  {
    if f.code == Code(ERROR) && |f.payload| > 1 {
      var b := f.payload[1..];
      if ReadText(t, b).Ok? {
        ReadTextExact(t, b);
        assert SaysText(t, b, ReadText(t, b).value.0, ReadText(t, b).value.1);
      } else {
        forall s, rest ensures !SaysText(t, b, s, rest) {
          if SaysText(t, b, s, rest) {
            ReadTextInverse(t, s, rest);
          }
        }
      }
    }
  }

  // The frames that are not PINGs; those are answered and skipped.
  function Replies(fs: seq<Rx>): seq<Rx> {
    if fs == [] then []
    else if fs[0].code == Code(PING) then Replies(fs[1..])
    else [fs[0]] + Replies(fs[1..])
  }

  // What follows the PINGs in front.
  function AfterPings(fs: seq<Rx>): seq<Rx> {
    if fs != [] && fs[0].code == Code(PING) then AfterPings(fs[1..]) else fs
  }

  // The PONGs that echo the PINGs among these frames.
  function Pongs(fs: seq<Rx>, seqId: nat, key: Bytes): seq<Sent> {
    if fs == [] then []
    else if fs[0].code == Code(PING) then
      [Sent(PONG, NO_FLAGS, fs[0].payload, seqId, key)] + Pongs(fs[1..], seqId + 1, key)
    else Pongs(fs[1..], seqId, key)
  }

  lemma {:induction false} PongsAppend(a: seq<Rx>, b: seq<Rx>, seqId: nat, key: Bytes)
    ensures Pongs(a + b, seqId, key) == Pongs(a, seqId, key) + Pongs(b, seqId + |Pongs(a, seqId, key)|, key)
  {
    if a == [] {
      assert a + b == b;
    } else {
      assert (a + b)[1..] == a[1..] + b;
      PongsAppend(a[1..], b, if a[0].code == Code(PING) then seqId + 1 else seqId, key);
    }
  }

  // What is still to be read, what has been sent, and the next number.
  datatype Position = Position(incoming: seq<Rx>, sent: seq<Sent>, seqNo: nat)

  // These frames were read from a on, and all that was sent by b are the echoes of the PINGs
  // among them.
  predicate Echoed(read: seq<Rx>, a: Position, b: Position, key: Bytes) {
    && a.incoming == read + b.incoming
    && b.sent == a.sent + Pongs(read, a.seqNo, key)
    && b.seqNo == a.seqNo + |Pongs(read, a.seqNo, key)|
  }

  lemma EchoedMore(read: seq<Rx>, more: seq<Rx>, a: Position, b: Position, c: Position, key: Bytes)
    requires Echoed(read, a, b, key) && Echoed(more, b, c, key)
    ensures Echoed(read + more, a, c, key)
  {
    PongsAppend(read, more, a.seqNo, key);
    Assoc(a.sent, Pongs(read, a.seqNo, key), Pongs(more, b.seqNo, key));
    Assoc(read, more, c.incoming);
  }

  // Reading one frame.
  lemma EchoedOne(a: Position, b: Position, key: Bytes)
    requires a.incoming != [] && b.incoming == a.incoming[1..]
    requires var f := a.incoming[0];
             if f.code == Code(PING) then
               b.sent == a.sent + [Sent(PONG, NO_FLAGS, f.payload, a.seqNo, key)] && b.seqNo == a.seqNo + 1
             else b.sent == a.sent && b.seqNo == a.seqNo
    ensures Echoed(a.incoming[..1], a, b, key)
  {
    var f := a.incoming[0];
    assert a.incoming[..1] == [f] && [f][1..] == [];
    assert a.sent + [] == a.sent;
  }

  function First(t: TextCodec, replies: seq<Rx>): Received {
    if replies == [] then Lost else Receive(t, replies[0])
  }

  function Rest(replies: seq<Rx>): seq<Rx> {
    if replies == [] then [] else replies[1..]
  }

  datatype Fetched = Vault(version: nat, blob: Bytes) | NoVault | Raised

  // The fragments after the first: the payload so far and the replies left.
  function Collect(t: TextCodec, payload: Bytes, replies: seq<Rx>): Option<(Bytes, seq<Rx>)>
    decreases |replies|
  {
    match First(t, replies)
    case Got(f) =>
      if f.code != Code(VAULT_DATA) || !Fragmented(f.flags) then None
      else if LastFrag(f.flags) then Some((payload + f.payload, replies[1..]))
      else Collect(t, payload + f.payload, replies[1..])
    case _ => None
  }

  function Gather(t: TextCodec, f: Rx, replies: seq<Rx>): Option<(Bytes, seq<Rx>)> {
    if Fragmented(f.flags) && !LastFrag(f.flags) then Collect(t, f.payload, replies)
    else Some((f.payload, replies))
  }

  // What a fetch makes of the replies to its VAULT_GET.
  function Fetch(t: TextCodec, replies: seq<Rx>): Fetched {
    match First(t, replies)
    case Failed(code) => if code == ERR_NOT_FOUND then NoVault else Raised
    case Got(f) =>
      if f.code != Code(VAULT_DATA) then Raised
      else
        (match Gather(t, f, replies[1..])
         case None => Raised
         case Some((payload, _)) =>
           match ParseData(payload)
           case Err(_) => Raised
           case Ok((version, blob)) => Vault(version, blob))
    case _ => Raised
  }

  // The replies that a fetch leaves unread.
  function AfterAnswer(t: TextCodec, replies: seq<Rx>): seq<Rx> {
    match First(t, replies)
    case Got(f) =>
      (match Gather(t, f, replies[1..])
       case Some((_, left)) => left
       case None => [])
    case _ => Rest(replies)
  }

  // ----- download is lossless -----

  lemma {:induction false} CollectFrames(t: TextCodec, payload: Bytes, offset: nat, seqId: nat, key: Bytes, more: seq<Rx>)
    requires 0 < offset < |payload|
    ensures Collect(t, payload[..offset], Delivered(FramesFrom(VAULT_DATA, payload, offset, seqId, key)) + more) ==
            Some((payload, more))
    decreases |payload| - offset
  {
    var chunk := ChunkAt(payload, offset);
    var fs := FramesFrom(VAULT_DATA, payload, offset, seqId, key);
    var rest := FramesFrom(VAULT_DATA, payload, offset + |chunk|, seqId + 1, key);
    FlagsMean();
    var replies := Delivered(fs) + more;
    assert replies[0] == Rx(Code(VAULT_DATA), fs[0].flags, chunk);
    assert replies[1..] == Delivered(rest) + more;
    assert payload[..offset] + chunk == payload[..offset + |chunk|];
    if offset + |chunk| < |payload| {
      CollectFrames(t, payload, offset + |chunk|, seqId + 1, key, more);
    } else {
      assert payload[..offset + |chunk|] == payload;
      assert Delivered(rest) + more == more;
    }
  }

  // The frames the server sends for a vault come out of the fetch as exactly that version and
  // blob, and the fetch stops at the last of them.
  lemma DownloadLossless(t: TextCodec, vaultId: Bytes, version: nat, blob: Bytes, seqId: nat, key: Bytes, more: seq<Rx>)
    requires |vaultId| == ID_LEN && version < Shl8(1, 8)
    ensures var payload := DataPayload(vaultId, version, blob);
            var replies := Delivered(FramesOf(VAULT_DATA, payload, seqId, key)) + more;
            && Fetch(t, replies) == Vault(version, blob)
            && Gather(t, replies[0], replies[1..]) == Some((payload, more))
  {
    var payload := DataPayload(vaultId, version, blob);
    var fs := FramesOf(VAULT_DATA, payload, seqId, key);
    var replies := Delivered(fs) + more;
    DataParses(vaultId, version, blob);
    FlagsMean();
    if |payload| > MAX_PAYLOAD {
      var chunk := ChunkAt(payload, 0);
      var rest := FramesFrom(VAULT_DATA, payload, |chunk|, seqId + 1, key);
      assert replies[1..] == Delivered(rest) + more;
      assert chunk == payload[..|chunk|];
      CollectFrames(t, payload, |chunk|, seqId + 1, key, more);
    } else {
      assert replies[1..] == more;
    }
  }

  // ----- what a fetch accepts -----

  function Joined(fs: seq<Rx>): Bytes { if fs == [] then [] else fs[0].payload + Joined(fs[1..]) }

  // Fragments up to the one marked as the last.
  predicate FragmentList(fs: seq<Rx>) {
    && fs != []
    && (forall i :: 0 <= i < |fs| ==> fs[i].code == Code(VAULT_DATA) && Fragmented(fs[i].flags))
    && (forall i :: 0 <= i < |fs| ==> (LastFrag(fs[i].flags) <==> i == |fs| - 1))
  }

  // The frames of one answer: a single one, or a list of fragments.
  predicate OneAnswer(fs: seq<Rx>) {
    || (|fs| == 1 && fs[0].code == Code(VAULT_DATA) && !Fragmented(fs[0].flags))
    || FragmentList(fs)
  }

  lemma {:induction false} CollectTakes(t: TextCodec, payload: Bytes, replies: seq<Rx>) returns (n: nat)
    requires Collect(t, payload, replies).Some?
    ensures n <= |replies| && FragmentList(replies[..n])
    ensures Collect(t, payload, replies).value == (payload + Joined(replies[..n]), replies[n..])
    decreases |replies|
  {
    var f := replies[0];
    if LastFrag(f.flags) {
      n := 1;
      assert replies[..1] == [f] && Joined([f]) == f.payload + [];
      assert payload + (f.payload + []) == payload + f.payload;
    } else {
      var m := CollectTakes(t, payload + f.payload, replies[1..]);
      n := m + 1;
      assert replies[..n][1..] == replies[1..][..m] && replies[n..] == replies[1..][m..];
      Assoc(payload, f.payload, Joined(replies[1..][..m]));
      FragmentsCons(f, replies[1..][..m]);
      assert [f] + replies[1..][..m] == replies[..n];
    }
  }

  lemma FragmentsCons(f: Rx, fs: seq<Rx>)
    requires f.code == Code(VAULT_DATA) && Fragmented(f.flags) && !LastFrag(f.flags) && FragmentList(fs)
    ensures FragmentList([f] + fs)
  {}

  lemma {:induction false} CollectAccepts(t: TextCodec, payload: Bytes, replies: seq<Rx>, n: nat)
    requires n <= |replies| && FragmentList(replies[..n])
    ensures Collect(t, payload, replies) == Some((payload + Joined(replies[..n]), replies[n..]))
    decreases |replies|
  {
    var f, fs := replies[0], replies[..n];
    assert f == fs[0];
    if n == 1 {
      assert fs == [f] && Joined([f]) == f.payload + [];
      assert payload + (f.payload + []) == payload + f.payload;
    } else {
      var rest := replies[1..];
      assert fs[1..] == rest[..n-1] && replies[n..] == rest[n-1..];
      assert forall i :: 0 <= i < n - 1 ==> rest[i] == fs[i+1];
      CollectAccepts(t, payload + f.payload, rest, n - 1);
      Assoc(payload, f.payload, Joined(rest[..n-1]));
    }
  }

  // A fetch returns a vault if and only if the replies begin with the frames of one answer
  // whose payloads, put end to end, read as that vault; and it finds none if and only if the
  // first reply is the error that says so. The replies after the answer are left unread.
  lemma FetchExact(t: TextCodec, replies: seq<Rx>, version: nat, blob: Bytes)
    ensures Fetch(t, replies) == Vault(version, blob) <==>
            exists n :: 1 <= n <= |replies| && OneAnswer(replies[..n]) && AfterAnswer(t, replies) == replies[n..] &&
                        ParseData(Joined(replies[..n])) == Ok((version, blob))
    ensures Fetch(t, replies) == NoVault <==> replies != [] && Receive(t, replies[0]) == Failed(ERR_NOT_FOUND)
  {
    if Fetch(t, replies) == Vault(version, blob) {
      var n := FetchTakes(t, replies);
    }
    if n :| 1 <= n <= |replies| && OneAnswer(replies[..n]) && ParseData(Joined(replies[..n])) == Ok((version, blob)) {
      FetchAccepts(t, replies, n);
    }
  }

  lemma FetchTakes(t: TextCodec, replies: seq<Rx>) returns (n: nat)
    requires Fetch(t, replies).Vault?
    ensures 1 <= n <= |replies| && OneAnswer(replies[..n]) && AfterAnswer(t, replies) == replies[n..]
    ensures ParseData(Joined(replies[..n])) == Ok((Fetch(t, replies).version, Fetch(t, replies).blob))
  {
    var f := replies[0];
    if Fragmented(f.flags) && !LastFrag(f.flags) {
      var m := CollectTakes(t, f.payload, replies[1..]);
      n := m + 1;
      FragmentsCons(f, replies[1..][..m]);
      assert [f] + replies[1..][..m] == replies[..n] && replies[..n][1..] == replies[1..][..m];
      assert replies[1..][m..] == replies[n..];
    } else {
      n := 1;
      assert replies[..1] == [f] && Joined([f]) == f.payload + [] == f.payload;
    }
  }

  lemma FetchAccepts(t: TextCodec, replies: seq<Rx>, n: nat)
    requires 1 <= n <= |replies| && OneAnswer(replies[..n])
    ensures match ParseData(Joined(replies[..n]))
            case Ok((version, blob)) => Fetch(t, replies) == Vault(version, blob)
            case Err(_) => Fetch(t, replies) == Raised
  {
    var f, fs := replies[0], replies[..n];
    assert f == fs[0];
    if Fragmented(f.flags) && !LastFrag(f.flags) {
      var rest := replies[1..];
      assert fs[1..] == rest[..n-1];
      assert forall i :: 0 <= i < n - 1 ==> rest[i] == fs[i+1];
      CollectAccepts(t, f.payload, rest, n - 1);
    } else {
      assert n == 1 && fs == [f] && Joined([f]) == f.payload + [] == f.payload;
    }
  }

  // ----- the loops -----

  class Client {
    const t: TextCodec
    const vaultId: Bytes
    const kMac: Bytes
    const out: Writer
    // What the server has sent and is still to be read; then the connection is closed.
    var incoming: seq<Rx>
    var seqNo: nat
    var vaultVersion: nat

    constructor (t: TextCodec, vaultId: Bytes, kMac: Bytes, out: Writer, incoming: seq<Rx>, seqNo: nat)
      ensures this.t == t && this.vaultId == vaultId && this.kMac == kMac && this.out == out
      ensures this.incoming == incoming && this.seqNo == seqNo && vaultVersion == 0
    {
      this.t, this.vaultId, this.kMac, this.out := t, vaultId, kMac, out;
      this.incoming, this.seqNo, vaultVersion := incoming, seqNo, 0;
    }

    method Send(m: MsgType, payload: Bytes)
      modifies this`seqNo, out
      ensures out.sent == old(out.sent) + [Sent(m, NO_FLAGS, payload, old(seqNo), kMac)]
      ensures seqNo == old(seqNo) + 1
    {
      out.SendFrame(m, payload, seqNo, kMac, NO_FLAGS);
      seqNo := seqNo + 1;
    }

    function Here(): Position
      reads this, out
    {
      Position(incoming, out.sent, seqNo)
    }

    // The next reply; each PING before it is answered with its own payload.
    method Recv() returns (r: Received, ghost read: seq<Rx>)
      modifies this`seqNo, this`incoming, out
      ensures r == First(t, Replies(old(incoming)))
      ensures incoming == Rest(AfterPings(old(incoming))) && Replies(incoming) == Rest(Replies(old(incoming)))
      ensures Echoed(read, old(Here()), Here(), kMac)
    {
      read := [];
      assert out.sent + [] == out.sent;
      while incoming != []
        invariant Replies(incoming) == Replies(old(incoming))
        invariant AfterPings(incoming) == AfterPings(old(incoming))
        invariant Echoed(read, old(Here()), Here(), kMac)
        decreases |incoming|
      {
        var f := incoming[0];
        ghost var was, one := Here(), incoming[..1];
        incoming := incoming[1..];
        if f.code == Code(PING) {
          Send(PONG, f.payload);
        }
        EchoedOne(was, Here(), kMac);
        EchoedMore(read, one, old(Here()), was, Here(), kMac);
        read := read + one;
        if f.code != Code(PING) { return Receive(t, f), read; }
      }
      return Lost, read;
    }

    // The rest of an answer that began with this frame.
    method Gathered(first: Rx) returns (payload: Option<Bytes>, ghost read: seq<Rx>)
      modifies this`seqNo, this`incoming, out
      ensures match Gather(t, first, Replies(old(incoming)))
              case Some((all, left)) => payload == Some(all) && Replies(incoming) == left
              case None => payload.None?
      ensures Echoed(read, old(Here()), Here(), kMac)
    {
      read := [];
      assert out.sent + [] == out.sent;
      var sofar, last := first.payload, !Fragmented(first.flags) || LastFrag(first.flags);
      ghost var all := Gather(t, first, Replies(incoming));
      while !last
        invariant all == if last then Some((sofar, Replies(incoming))) else Collect(t, sofar, Replies(incoming))
        invariant Echoed(read, old(Here()), Here(), kMac)
        decreases |Replies(incoming)| + (if last then 0 else 1)
      {
        ghost var was := Here();
        var frag, more := Recv();
        EchoedMore(read, more, old(Here()), was, Here(), kMac);
        read := read + more;
        if !frag.Got? || frag.f.code != Code(VAULT_DATA) { return None, read; }
        if !Fragmented(frag.f.flags) { return None, read; }
        sofar := sofar + frag.f.payload;
        last := LastFrag(frag.f.flags);
      }
      return Some(sofar), read;
    }

    // GET, then its answer. All it sends besides are the echoes of the PINGs it reads.
    method FetchVault() returns (r: Fetched, ghost read: seq<Rx>)
      modifies this`seqNo, this`incoming, this`vaultVersion, out
      ensures r == Fetch(t, Replies(old(incoming)))
      ensures !r.Raised? ==> Replies(incoming) == AfterAnswer(t, Replies(old(incoming)))
      ensures vaultVersion == if r.Vault? then r.version else old(vaultVersion)
      ensures var get := Sent(VAULT_GET, NO_FLAGS, GetPayload(vaultId, old(vaultVersion)), old(seqNo), kMac);
              Echoed(read, Position(old(incoming), old(out.sent) + [get], old(seqNo) + 1), Here(), kMac)
    {
      Send(VAULT_GET, GetPayload(vaultId, vaultVersion));
      ghost var start := Here();
      var first;
      first, read := Recv();
      if first.Failed? && first.code == ERR_NOT_FOUND { return NoVault, read; }
      if !first.Got? || first.f.code != Code(VAULT_DATA) { return Raised, read; }
      ghost var was := Here();
      var payload, more := Gathered(first.f);
      EchoedMore(read, more, start, was, Here(), kMac);
      read := read + more;
      if payload.None? { return Raised, read; }
      match ParseData(payload.value)
      case Err(_) => return Raised, read;
      case Ok((version, blob)) =>
        vaultVersion := version;
        return Vault(version, blob), read;
    }

    // PUT, then the reply: the new version, or the exception's code.
    method PutVault(blob: Bytes, base: nat) returns (r: Result<nat, Option<byte>>, ghost read: seq<Rx>)
      modifies this`seqNo, this`incoming, this`vaultVersion, out
      ensures var frames := FramesOf(VAULT_PUT, PutPayload(PutFields(vaultId, base, blob)), old(seqNo), kMac);
              base < Shl8(1, 8) && |blob| < Shl8(1, 4) ==>
                && Echoed(read, Position(old(incoming), old(out.sent) + frames, old(seqNo) + |frames|), Here(), kMac)
                && incoming == Rest(AfterPings(old(incoming)))
                && (match First(t, Replies(old(incoming)))
                    case Got(reply) =>
                      if reply.code != Code(VAULT_ACK) then r == Err(Some(ERR_INTERNAL))
                      else if ParseData(reply.payload).Err? then r == Err(None)
                      else r == Ok(ParseData(reply.payload).value.0)
                    case Failed(code) => r == Err(Some(code))
                    case _ => r == Err(None))
      ensures base >= Shl8(1, 8) || |blob| >= Shl8(1, 4) ==>
                r == Err(None) && Here() == old(Here())
      ensures vaultVersion == if r.Ok? then r.value else old(vaultVersion)
    {
      read := [];
      if base >= Shl8(1, 8) || |blob| >= Shl8(1, 4) { return Err(None), read; }
      seqNo := out.SendFragmentedPayload(VAULT_PUT, PutPayload(PutFields(vaultId, base, blob)), seqNo, kMac);
      var ack;
      ack, read := Recv();
      match ack
      case Failed(code) => return Err(Some(code)), read;
      case Got(reply) =>
        if reply.code != Code(VAULT_ACK) { return Err(Some(ERR_INTERNAL)), read; }
        var fields := ParseData(reply.payload);
        if fields.Err? { return Err(None), read; }
        vaultVersion := fields.value.0;
        return Ok(vaultVersion), read;
      case _ => return Err(None), read;
    }
  }
}
