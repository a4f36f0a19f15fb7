// Splitting a large payload into frames and putting it together again, in both directions.
module Fragments {
  import opened Common
  import opened FrameCodec
  import opened Payloads

  const NO_FLAGS: byte := 0x00
  const FRAGMENTED: byte := 0x04
  const LAST: byte := 0x0C

  // A frame as it is handed to the encoder, with the key it is signed under.
  datatype Sent = Sent(msgType: MsgType, flags: byte, payload: Bytes, seqId: nat, key: Bytes)

  function ChunkAt(payload: Bytes, offset: nat): Bytes
    requires offset < |payload|
  {
    payload[offset..Min(offset + MAX_PAYLOAD, |payload|)]
  }

  // The frames from an offset on, as the sending loop writes them.
  function FramesFrom(m: MsgType, payload: Bytes, offset: nat, seqId: nat, key: Bytes): seq<Sent>
    decreases |payload| - offset
  {
    if offset >= |payload| then []
    else
      var chunk := ChunkAt(payload, offset);
      var flags := if offset + |chunk| >= |payload| then LAST else FRAGMENTED;
      [Sent(m, flags, chunk, seqId, key)] + FramesFrom(m, payload, offset + |chunk|, seqId + 1, key)
  }

  // All frames of one message.
  function FramesOf(m: MsgType, payload: Bytes, seqId: nat, key: Bytes): seq<Sent> {
    if |payload| <= MAX_PAYLOAD then [Sent(m, NO_FLAGS, payload, seqId, key)]
    else FramesFrom(m, payload, 0, seqId, key)
  }

  class Writer {
    var sent: seq<Sent>

    constructor ()
      ensures sent == []
    {
      sent := [];
    }

    method SendFrame(m: MsgType, payload: Bytes, seqId: nat, key: Bytes, flags: byte)
      modifies this
      ensures sent == old(sent) + [Sent(m, flags, payload, seqId, key)]
    {
      sent := sent + [Sent(m, flags, payload, seqId, key)];
    }

    // `_send_fragmented_payload` of the server and the sending half of the client's `put_vault`.
    method SendFragmentedPayload(m: MsgType, payload: Bytes, seqId: nat, key: Bytes) returns (nextSeq: nat)
      modifies this
      ensures sent == old(sent) + FramesOf(m, payload, seqId, key)
      ensures nextSeq == seqId + |FramesOf(m, payload, seqId, key)|
    {
      if |payload| <= MAX_PAYLOAD {
        SendFrame(m, payload, seqId, key, NO_FLAGS);
        return seqId + 1;
      }
      nextSeq := seqId;
      var offset := 0;
      ghost var all := old(sent) + FramesOf(m, payload, seqId, key);
      while offset < |payload|
        invariant offset <= |payload|
        invariant sent + FramesFrom(m, payload, offset, nextSeq, key) == all
        invariant nextSeq == seqId + |sent| - |old(sent)|
        decreases |payload| - offset
      {
        var chunk := payload[offset..Min(offset + MAX_PAYLOAD, |payload|)];
        var flags := FRAGMENTED;
        if offset + |chunk| >= |payload| {
          flags := LAST;
        }
        ghost var rest := FramesFrom(m, payload, offset + |chunk|, nextSeq + 1, key);
        Assoc(sent, [Sent(m, flags, chunk, nextSeq, key)], rest);
        SendFrame(m, chunk, nextSeq, key, flags);
        nextSeq := nextSeq + 1;
        offset := offset + |chunk|;
      }
      assert sent + [] == sent;
    }
  }

  // ----- what the frames of a message look like -----

  function CeilDiv(n: nat, d: nat): nat
    requires d > 0
  {
    (n + d - 1) / d
  }

  function PayloadsOf(frames: seq<Sent>): seq<Bytes> {
    seq(|frames|, i requires 0 <= i < |frames| => frames[i].payload)
  }

  lemma {:induction false} FramesFromShape(m: MsgType, payload: Bytes, offset: nat, seqId: nat, key: Bytes)
    requires offset <= |payload|
    ensures var fs := FramesFrom(m, payload, offset, seqId, key);
            && |fs| == CeilDiv(|payload| - offset, MAX_PAYLOAD)
            && Flatten(PayloadsOf(fs)) == payload[offset..]
            && (forall i :: 0 <= i < |fs| ==>
                  && fs[i].msgType == m && fs[i].key == key && fs[i].seqId == seqId + i
                  && 0 < |fs[i].payload| <= MAX_PAYLOAD
                  && fs[i].flags == (if i == |fs| - 1 then LAST else FRAGMENTED))
    decreases |payload| - offset
  {
    if offset < |payload| {
      var chunk := ChunkAt(payload, offset);
      var rest := FramesFrom(m, payload, offset + |chunk|, seqId + 1, key);
      FramesFromShape(m, payload, offset + |chunk|, seqId + 1, key);
      var fs := FramesFrom(m, payload, offset, seqId, key);
      assert PayloadsOf(fs)[1..] == PayloadsOf(rest);
      assert payload[offset..] == chunk + payload[offset + |chunk|..];
      assert rest == [] <==> offset + |chunk| >= |payload|;
    }
  }

  // A payload of n bytes above the limit becomes ceil(n / 1 MiB) non-empty frames within the
  // limit, numbered without a gap, all FRAGMENTED and only the last LAST_FRAG.
  lemma FramesOfShape(m: MsgType, payload: Bytes, seqId: nat, key: Bytes)
    ensures var fs := FramesOf(m, payload, seqId, key);
            && |fs| == (if |payload| <= MAX_PAYLOAD then 1 else CeilDiv(|payload|, MAX_PAYLOAD))
            && Flatten(PayloadsOf(fs)) == payload
            && (forall i :: 0 <= i < |fs| ==>
                  && fs[i].msgType == m && fs[i].key == key && fs[i].seqId == seqId + i
                  && |fs[i].payload| <= MAX_PAYLOAD
                  && (|payload| > MAX_PAYLOAD ==>
                        && fs[i].payload != []
                        && fs[i].flags == (if i == |fs| - 1 then LAST else FRAGMENTED))
                  && (|payload| <= MAX_PAYLOAD ==> fs[i].flags == NO_FLAGS))
  {
    if |payload| > MAX_PAYLOAD {
      FramesFromShape(m, payload, 0, seqId, key);
      assert payload[0..] == payload;
    } else {
      var fs := FramesOf(m, payload, seqId, key);
      assert PayloadsOf(fs) == [payload];
      assert Flatten([payload]) == payload;
    }
  }

  // ----- the server's reassembly buffer -----

  // What one VAULT_PUT frame does to the buffer.
  datatype PutStep = Buffered(buf: Bytes) | Complete(payload: Bytes, left: Option<Bytes>) | Oversize | BadFlags

  function OnPutFrame(buf: Option<Bytes>, flags: byte, payload: Bytes): PutStep {
    if LastFrag(flags) && !Fragmented(flags) then BadFlags
    else if Fragmented(flags) then
      var b := (if buf.None? then [] else buf.value) + payload;
      if |b| > MAX_PUT then Oversize
      else if !LastFrag(flags) then Buffered(b)
      else Complete(b, None)
    else Complete(payload, buf)
  }

  // A list of PUT frames run through the buffer: the messages completed, in order, and the
  // buffer left, unless a frame is refused.
  function Reassemble(buf: Option<Bytes>, frames: seq<Sent>): Option<(seq<Bytes>, Option<Bytes>)>
    decreases |frames|
  {
    if frames == [] then Some(([], buf))
    else
      match OnPutFrame(buf, frames[0].flags, frames[0].payload)
      case Buffered(b) => Reassemble(Some(b), frames[1..])
      case Complete(m, b) =>
        (match Reassemble(b, frames[1..])
         case None => None
         case Some((ms, b')) => Some(([m] + ms, b')))
      case _ => None
  }

  lemma FlagsMean()
    ensures Fragmented(FRAGMENTED) && !LastFrag(FRAGMENTED)
    ensures Fragmented(LAST) && LastFrag(LAST)
    ensures !Fragmented(NO_FLAGS) && !LastFrag(NO_FLAGS)
    ensures !Reserved(NO_FLAGS) && !Reserved(FRAGMENTED) && !Reserved(LAST)
  {}

  lemma {:induction false} ReassembleFrom(buf: Option<Bytes>, payload: Bytes, offset: nat, seqId: nat, key: Bytes)
    requires offset < |payload| <= MAX_PUT
    requires (if buf.None? then [] else buf.value) == payload[..offset]
    ensures Reassemble(buf, FramesFrom(VAULT_PUT, payload, offset, seqId, key)) == Some(([payload], None))
    decreases |payload| - offset
  {
    var chunk := ChunkAt(payload, offset);
    var fs := FramesFrom(VAULT_PUT, payload, offset, seqId, key);
    var rest := FramesFrom(VAULT_PUT, payload, offset + |chunk|, seqId + 1, key);
    FlagsMean();
    assert fs[1..] == rest;
    assert payload[..offset] + chunk == payload[..offset + |chunk|];
    if offset + |chunk| >= |payload| {
      assert payload[..offset + |chunk|] == payload;
      assert Reassemble(None, rest) == Some(([], None));
      assert [payload] + [] == [payload];
    } else {
      ReassembleFrom(Some(payload[..offset + |chunk|]), payload, offset + |chunk|, seqId + 1, key);
    }
  }

  // Upload is lossless: the frames of a PUT within the server's limits complete exactly one
  // message, which parses to exactly the fields, and leave no buffer.
  lemma UploadLossless(f: PutFields, seqId: nat, key: Bytes)
    requires Puttable(f)
    ensures Reassemble(None, FramesOf(VAULT_PUT, PutPayload(f), seqId, key)) == Some(([PutPayload(f)], None))
    ensures ParsePut(PutPayload(f)) == Ok(f)
  {
    var payload := PutPayload(f);
    PutExact(payload, f);
    if |payload| > MAX_PAYLOAD {
      ReassembleFrom(None, payload, 0, seqId, key);
    } else {
      FlagsMean();
      var fs := FramesOf(VAULT_PUT, payload, seqId, key);
      assert Reassemble(None, fs[1..]) == Some(([], None));
      assert [payload] + [] == [payload];
    }
  }

  // A PUT beyond the limits never completes a message the server accepts.
  lemma UploadTooLarge(f: PutFields, seqId: nat, key: Bytes)
    requires |f.vaultId| == ID_LEN && |f.blob| > MAX_BLOB
    ensures Reassemble(None, FramesOf(VAULT_PUT, PutPayload(f), seqId, key)) == None
  {
    OversizeFrom(None, PutPayload(f), 0, seqId, key);
  }

  lemma {:induction false} OversizeFrom(buf: Option<Bytes>, payload: Bytes, offset: nat, seqId: nat, key: Bytes)
    requires |payload| > MAX_PUT && offset <= MAX_PUT
    requires (if buf.None? then [] else buf.value) == payload[..offset]
    ensures Reassemble(buf, FramesFrom(VAULT_PUT, payload, offset, seqId, key)) == None
    decreases |payload| - offset
  {
    var chunk := ChunkAt(payload, offset);
    var fs := FramesFrom(VAULT_PUT, payload, offset, seqId, key);
    FlagsMean();
    assert fs[1..] == FramesFrom(VAULT_PUT, payload, offset + |chunk|, seqId + 1, key);
    assert payload[..offset] + chunk == payload[..offset + |chunk|];
    if offset + |chunk| <= MAX_PUT {
      OversizeFrom(Some(payload[..offset + |chunk|]), payload, offset + |chunk|, seqId + 1, key);
    }
  }
}
