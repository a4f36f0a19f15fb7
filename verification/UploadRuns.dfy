// An upload through the whole session machine: the frames of one PUT, read in order by an
// established session, with as many checks at the head of the loop in between as there may be,
// as long as the fragment timeout does not pass.
module UploadRuns {
  import opened Common
  import opened Primitives
  import opened ByteIO
  import opened FrameCodec
  import opened Payloads
  import opened Fragments
  import opened ServerSession
  import opened SessionTheorems
  import opened Link
  import opened Lockstep

  // The events are the reads of these frames in order, and checks within the time from t0.
  predicate Delivers(p: Crypto, events: seq<Event>, frames: seq<Sent>, t0: real)
    decreases |events|
  {
    if events == [] then frames == []
    else
      match events[0]
      case Wake(mono) => mono - t0 < FRAGMENT_TIMEOUT && Delivers(p, events[1..], frames, t0)
      case Data(bytes, _) =>
        && frames != [] && Packable(frames[0]) && bytes == BytesOf(p, frames[0])
        && Delivers(p, events[1..], frames[1..], t0)
      case _ => false
  }

  // The session has taken in the payload up to the offset.
  predicate Holding(s: Session, payload: Bytes, offset: nat, key: Bytes, t0: real) {
    && s.phase.Established? && s.macKey == Some(key) && offset <= |payload|
    && (if offset == 0 then s.buf.None? else s.buf == Some(payload[..offset]) && s.startedAt == Some(t0))
  }

  // A PUT frame reaches the buffer as it was sent.
  lemma PutFrameRead(r: Run, j: nat, f: Sent) returns (d: Frame)
    requires j < |r.events| && r.At(j).phase.Established? && Coherent(r.At(j))
    requires Packable(f) && f.msgType == VAULT_PUT && f.key == ActiveKey(r.At(j))
    requires r.events[j].Data? && r.events[j].bytes == BytesOf(r.p, f)
    ensures d.flags == f.flags && d.payload == f.payload
    ensures PutEffect(r.At(j), d, r.events[j].w.mono, r.Out(j)) && SameOwner(r.At(j), r.Out(j).s)
    ensures r.Out(j).s.phase.Established? <==>
            match OnPutFrame(r.At(j).buf, f.flags, f.payload)
            case Buffered(_) => true
            case Complete(message, _) => ParsePut(message).Ok?
            case _ => false
    ensures OnPutFrame(r.At(j).buf, f.flags, f.payload).Buffered? ==> r.Out(j).sent == []
  {
    d := ReadsPut(r.p, r.t, r.At(j), f, r.events[j]);
    PutFrameServed(r.At(j), r.At(j).user.value, d, r.events[j].w);
  }

  lemma PutFrameServed(s: Session, user: nat, d: Frame, w: World)
    requires s.phase.Established?
    ensures var o := OnPut(s, user, d, w);
            && PutEffect(s, d, w.mono, o) && SameOwner(s, o.s)
            && (o.s.phase.Established? <==>
                  match OnPutFrame(s.buf, d.flags, d.payload)
                  case Buffered(_) => true
                  case Complete(message, _) => ParsePut(message).Ok?
                  case _ => false)
            && (OnPutFrame(s.buf, d.flags, d.payload).Buffered? ==> o.sent == [])
  {
    PutShape(s, user, d, w);
  }

  // One chunk brings the buffer further, or completes the payload.
  lemma ChunkStep(buf: Option<Bytes>, payload: Bytes, offset: nat, seqId: nat, key: Bytes)
    requires offset < |payload| <= MAX_PUT
    requires if offset == 0 then buf.None? else buf == Some(payload[..offset])
    ensures var f, end := FramesFrom(VAULT_PUT, payload, offset, seqId, key)[0], offset + |ChunkAt(payload, offset)|;
            && f.msgType == VAULT_PUT && f.key == key
            && OnPutFrame(buf, f.flags, f.payload) ==
                 if end < |payload| then Buffered(payload[..end]) else Complete(payload, None)
  {
    FlagsMean();
    var chunk := ChunkAt(payload, offset);
    assert (if offset == 0 then [] else payload[..offset]) + chunk == payload[..offset + |chunk|];
    if offset + |chunk| >= |payload| {
      assert payload[..offset + |chunk|] == payload;
    }
  }

  lemma FragmentTakenIn(r: Run, j: nat, payload: Bytes, offset: nat, seqId: nat, key: Bytes, t0: real)
    requires j < |r.events| && offset < |payload| <= MAX_PUT && Holding(r.At(j), payload, offset, key, t0)
    requires Coherent(r.At(j)) && ParsePut(payload).Ok? && (offset == 0 ==> r.events[j].Data? && r.events[j].w.mono == t0)
    requires var f := FramesFrom(VAULT_PUT, payload, offset, seqId, key)[0];
             Packable(f) && r.events[j].Data? && r.events[j].bytes == BytesOf(r.p, f)
    ensures var end := offset + |ChunkAt(payload, offset)|;
            if end < |payload| then
              && Holding(r.At(j + 1), payload, end, key, t0)
              && r.Out(j).processed.None? && r.Out(j).sent == []
            else
              && r.Out(j).processed == Some(payload)
              && r.At(j + 1).phase.Established? && r.At(j + 1).buf.None?
  {
    ChunkStep(r.At(j).buf, payload, offset, seqId, key);
    var d := PutFrameRead(r, j, FramesFrom(VAULT_PUT, payload, offset, seqId, key)[0]);
  }

  lemma OneDelivered(r: Run, j: nat, n: nat, frames: seq<Sent>, t0: real)
    requires j < n <= |r.events| && Delivers(r.p, r.events[j..n], frames, t0)
    ensures match r.events[j]
            case Wake(mono) => mono - t0 < FRAGMENT_TIMEOUT && Delivers(r.p, r.events[j+1..n], frames, t0)
            case Data(bytes, _) =>
              && frames != [] && Packable(frames[0]) && bytes == BytesOf(r.p, frames[0])
              && Delivers(r.p, r.events[j+1..n], frames[1..], t0)
            case _ => false
  {
    assert r.events[j..n][1..] == r.events[j+1..n] && r.events[j..n][0] == r.events[j];
  }

  // Nothing is processed or sent from event j up to event m.
  ghost predicate Silent(r: Run, j: nat, m: nat)
    requires m <= |r.events|
  {
    forall i :: j <= i < m ==> r.Out(i).processed.None? && r.Out(i).sent == []
  }

  lemma SilentCons(r: Run, j: nat, m: nat)
    requires j < m <= |r.events| && r.Out(j).processed.None? && r.Out(j).sent == [] && Silent(r, j + 1, m)
    ensures Silent(r, j, m)
  {}

  lemma WakeKeeps(r: Run, j: nat, payload: Bytes, offset: nat, key: Bytes, t0: real)
    requires j < |r.events| && Holding(r.At(j), payload, offset, key, t0)
    requires r.events[j].Wake? && r.events[j].mono - t0 < FRAGMENT_TIMEOUT
    ensures r.At(j + 1) == r.At(j) && r.Out(j).processed.None? && r.Out(j).sent == []
  {
    WakeDropsExactlyOldFragments(r, j);
  }

  // Where the rest of an upload ends, from event j on.
  ghost predicate EndsAt(r: Run, j: nat, n: nat, payload: Bytes, m: nat)
    requires n <= |r.events|
  {
    && j <= m < n && r.Out(m).processed == Some(payload)
    && r.At(m + 1).phase.Established? && r.At(m + 1).buf.None?
    && Silent(r, j, m)
  }

  lemma LaterEnd(r: Run, j: nat, n: nat, payload: Bytes, m: nat)
    requires j < n <= |r.events| && EndsAt(r, j + 1, n, payload, m)
    requires r.Out(j).processed.None? && r.Out(j).sent == []
    ensures EndsAt(r, j, n, payload, m)
  {
    SilentCons(r, j, m);
  }

  lemma {:induction false} UploadGoesOn(r: Run, j: nat, n: nat, payload: Bytes, offset: nat, seqId: nat, key: Bytes,
                                        t0: real) returns (m: nat)
    requires j <= n <= |r.events| && offset < |payload| <= MAX_PUT && ParsePut(payload).Ok?
    requires Holding(r.At(j), payload, offset, key, t0)
    requires Delivers(r.p, r.events[j..n], FramesFrom(VAULT_PUT, payload, offset, seqId, key), t0)
    requires offset == 0 ==> j < n && r.events[j].Data? && r.events[j].w.mono == t0
    ensures EndsAt(r, j, n, payload, m)
    decreases n - j
  {
    RunCoherent(r, j);
    var frames := FramesFrom(VAULT_PUT, payload, offset, seqId, key);
    OneDelivered(r, j, n, frames, t0);
    if r.events[j].Wake? {
      WakeKeeps(r, j, payload, offset, key, t0);
      m := UploadGoesOn(r, j + 1, n, payload, offset, seqId, key, t0);
      LaterEnd(r, j, n, payload, m);
    } else {
      var end := offset + |ChunkAt(payload, offset)|;
      assert frames[1..] == FramesFrom(VAULT_PUT, payload, end, seqId + 1, key);
      FragmentTakenIn(r, j, payload, offset, seqId, key, t0);
      if end < |payload| {
        m := UploadGoesOn(r, j + 1, n, payload, end, seqId + 1, key, t0);
        LaterEnd(r, j, n, payload, m);
      } else {
        m := j;
      }
    }
  }

  lemma WholeTakenIn(r: Run, j: nat, payload: Bytes, f: Sent)
    requires j < |r.events| && r.At(j).phase.Established? && r.At(j).buf.None? && Coherent(r.At(j))
    requires ParsePut(payload).Ok? && f.msgType == VAULT_PUT && f.flags == NO_FLAGS && f.payload == payload
    requires Packable(f) && f.key == ActiveKey(r.At(j)) && r.events[j].Data? && r.events[j].bytes == BytesOf(r.p, f)
    ensures r.Out(j).processed == Some(payload)
    ensures r.At(j + 1).phase.Established? && r.At(j + 1).buf.None?
  {
    FlagsMean();
    var d := PutFrameRead(r, j, f);
  }

  // In every run, the frames of a PUT within the server's limits, however large, read one
  // after the other from a session without a buffer, end in exactly that message, which parses
  // to exactly the fields; nothing is processed or answered before, the session goes on, and
  // no buffer is left.
  lemma UploadThroughSession(r: Run, i: nat, n: nat, f: PutFields, seqId: nat) returns (m: nat)
    requires i < n <= |r.events| && Puttable(f)
    requires r.At(i).phase.Established? && r.At(i).macKey.Some? && r.At(i).buf.None? && r.events[i].Data?
    requires Delivers(r.p, r.events[i..n], FramesOf(VAULT_PUT, PutPayload(f), seqId, r.At(i).macKey.value),
                      r.events[i].w.mono)
    ensures EndsAt(r, i, n, PutPayload(f), m) && ParsePut(PutPayload(f)) == Ok(f)
  {
    var payload, key := PutPayload(f), r.At(i).macKey.value;
    PutExact(payload, f);
    RunCoherent(r, i);
    var frames := FramesOf(VAULT_PUT, payload, seqId, key);
    assert r.events[i..n][0] == r.events[i];
    if |payload| <= MAX_PAYLOAD {
      m := i;
      WholeTakenIn(r, i, payload, frames[0]);
    } else {
      m := UploadGoesOn(r, i, n, payload, 0, seqId, key, r.events[i].w.mono);
    }
  }

  // ----- such runs exist -----

  lemma {:induction false} FramesDelivered(p: Crypto, frames: seq<Sent>, w: World, t0: real) returns (events: seq<Event>)
    requires AllPackable(frames)
    ensures Delivers(p, events, frames, t0) && |events| == |frames|
    ensures forall i :: 0 <= i < |events| ==> events[i].Data? && events[i].w == w
    decreases |frames|
  {
    if frames == [] {
      events := [];
    } else {
      var rest := FramesDelivered(p, frames[1..], w, t0);
      events := [Data(BytesOf(p, frames[0]), w)] + rest;
      assert events[1..] == rest;
    }
  }

  lemma {:induction false} SamePrefix(r: Run, r': Run, n: nat)
    requires r'.p == r.p && r'.t == r.t && r.events <= r'.events && n <= |r.events|
    ensures r'.At(n) == r.At(n)
    decreases n
  {
    if n > 0 {
      SamePrefix(r, r', n - 1);
    }
  }

  lemma PutFramesPackable(payload: Bytes, seqId: nat, key: Bytes)
    requires seqId + |FramesOf(VAULT_PUT, payload, seqId, key)| <= MAX_SEQ
    ensures AllPackable(FramesOf(VAULT_PUT, payload, seqId, key)) && FramesOf(VAULT_PUT, payload, seqId, key) != []
  {
    FramesOfShape(VAULT_PUT, payload, seqId, key);
    FlagsMean();
  }

  // A run that goes on with the frames of a payload.
  lemma GoesOnWith(r: Run, payload: Bytes, seqId: nat, key: Bytes, w: World) returns (r': Run)
    requires seqId + |FramesOf(VAULT_PUT, payload, seqId, key)| <= MAX_SEQ
    ensures r'.p == r.p && r'.t == r.t && r.events < r'.events && r'.events[|r.events|].Data?
    ensures Delivers(r.p, r'.events[|r.events|..|r'.events|], FramesOf(VAULT_PUT, payload, seqId, key),
                     r'.events[|r.events|].w.mono)
    ensures r'.At(|r.events|) == r.At(|r.events|)
  {
    PutFramesPackable(payload, seqId, key);
    var events := FramesDelivered(r.p, FramesOf(VAULT_PUT, payload, seqId, key), w, w.mono);
    r' := Run(r.p, r.t, r.events + events);
    SamePrefix(r, r', |r.events|);
    assert r'.events[|r.events|..|r'.events|] == events && r'.events[|r.events|] == events[0];
  }

  // Any run that leaves a session established and without a buffer can go on with any upload
  // that the client's numbers have room for, and the session takes it in.
  lemma UploadPossible(r: Run, f: PutFields, seqId: nat, key: Bytes, w: World) returns (r': Run, m: nat)
    requires Puttable(f) && seqId + |FramesOf(VAULT_PUT, PutPayload(f), seqId, key)| <= MAX_SEQ
    requires var s := r.At(|r.events|); s.phase.Established? && s.macKey == Some(key) && s.buf.None?
    ensures r'.p == r.p && r'.t == r.t && r.events < r'.events
    ensures EndsAt(r', |r.events|, |r'.events|, PutPayload(f), m)
  {
    r' := GoesOnWith(r, PutPayload(f), seqId, key, w);
    m := UploadThroughSession(r', |r.events|, |r'.events|, f, seqId);
  }
}
