// Two runs of an honest client in which the fragment timeout strikes in the middle of an
// upload: one loses a header and with it the place on the stream, the other ends in an
// acknowledgement although the client's blob was not stored.
module LostFragments {
  import opened Common
  import opened LittleEndian
  import opened Primitives
  import opened ByteIO
  import opened FrameCodec
  import opened AuthPayload
  import opened Payloads
  import opened Fragments
  import opened Transport
  import opened Database
  import opened ServerSession
  import opened Link
  import opened Lockstep
  import opened LoginRun
  import opened LinkLogin

  // ----- from the start to a client that is logged in -----

  ghost predicate Staged(x: Setting, v: Bytes) {
    x.Fits() && |x.nonceS| == 32 && |x.token| == 32 && x.now + SESSION_TTL_MS < Shl8(1, 8) && |v| == ID_LEN
  }

  function StartOf(x: Setting, v: Bytes): Link {
    Link(Peer(Fresh, 0, DUMMY_KEY, [], x.clientId, v), NEW_SESSION, [], [], [], false, None, Nothing, 0, true)
  }

  function How(x: Setting): Credentials { ByPassword(x.Raw(), x.kAuth, x.totp) }

  function MacKey(x: Setting): Bytes { x.p.Hkdf(x.token, x.nonceC) }

  // The frame with these bytes, as an event.
  function Reading(x: Setting, f: Sent): Move
    requires Packable(f)
  {
    Serve(Data(BytesOf(x.p, f), x.Seen()))
  }

  // The login that the upload follows.
  function SceneOf(x: Setting, v: Bytes): Scene {
    Scene(x.p, x.t, StartOf(x, v), x.nonceC, x.now, x.Seen(), How(x), x.Seen())
  }

  ghost predicate LogsIn(x: Setting, v: Bytes, r: Talk) {
    && Packable(SceneOf(x, v).HelloSent()) && Packable(SceneOf(x, v).AuthSent())
    && r.p == x.p && r.t == x.t && r.start == StartOf(x, v) && |r.moves| >= 5
    && forall i :: 0 <= i < 5 ==> r.moves[i] == Moves(SceneOf(x, v))[i]
  }

  function LoggedInLink(x: Setting, v: Bytes): Link { SceneOf(x, v).LoggedInLink(x.Accepted()) }

  lemma LoggedInAfterFive(x: Setting, v: Bytes, r: Talk)
    requires Staged(x, v) && LogsIn(x, v, r)
    ensures r.At(5) == LoggedInLink(x, v)
  {
    var scene := SceneOf(x, v);
    Playable(scene, r);
    var d := DecidedAfterFour(scene, r);
    AuthAnswered(x, d);
    var ok := AuthOkSent(scene, d, How(x));
    LoggedInNext(scene, r, 4, x.Accepted(), ok);
  }

  // ----- an upload in two fragments -----

  // A blob that makes a PUT of two frames.
  predicate NeedsTwo(blob: Bytes) { MAX_PAYLOAD < PUT_HEADER_LEN + |blob| <= 2 * MAX_PAYLOAD }

  function PutOf(v: Bytes, blob: Bytes): PutFields { PutFields(v, 0, blob) }

  lemma PutLength(put: PutFields)
    requires |put.vaultId| == ID_LEN
    ensures |PutPayload(put)| == PUT_HEADER_LEN + |put.blob|
  {}

  function Fragment1(x: Setting, v: Bytes, blob: Bytes): Sent
    requires |v| == ID_LEN && NeedsTwo(blob)
  {
    PutLength(PutOf(v, blob));
    Sent(VAULT_PUT, FRAGMENTED, PutPayload(PutOf(v, blob))[..MAX_PAYLOAD], 2, MacKey(x))
  }

  function Fragment2(x: Setting, v: Bytes, blob: Bytes): Sent
    requires |v| == ID_LEN && NeedsTwo(blob)
  {
    PutLength(PutOf(v, blob));
    Sent(VAULT_PUT, LAST, PutPayload(PutOf(v, blob))[MAX_PAYLOAD..], 3, MacKey(x))
  }

  lemma TwoFrames(x: Setting, v: Bytes, blob: Bytes)
    requires |v| == ID_LEN && NeedsTwo(blob)
    ensures FramesOf(VAULT_PUT, PutPayload(PutOf(v, blob)), 2, MacKey(x)) == [Fragment1(x, v, blob), Fragment2(x, v, blob)]
    ensures Packable(Fragment1(x, v, blob)) && Packable(Fragment2(x, v, blob))
  {
    FlagsMean();
    var put, key := PutOf(v, blob), MacKey(x);
    PutLength(put);
    var payload := PutPayload(put);
    assert ChunkAt(payload, 0) == payload[..MAX_PAYLOAD];
    assert ChunkAt(payload, MAX_PAYLOAD) == payload[MAX_PAYLOAD..];
    assert FramesFrom(VAULT_PUT, payload, |payload|, 4, key) == [];
    assert FramesFrom(VAULT_PUT, payload, MAX_PAYLOAD, 3, key) == [Fragment2(x, v, blob)];
    assert FramesFrom(VAULT_PUT, payload, 0, 2, key) == [Fragment1(x, v, blob)] + [Fragment2(x, v, blob)];
  }

  function Asking(x: Setting, v: Bytes, blob: Bytes): Link
    requires |v| == ID_LEN && NeedsTwo(blob)
  {
    var frames := [Fragment1(x, v, blob), Fragment2(x, v, blob)];
    LoggedInLink(x, v).(c := Peer(AwaitAck(PutOf(v, blob)), 4, MacKey(x), x.nonceC, x.clientId, v),
                        wire := WireOf(x.p, frames), c2s := frames, taken := 0)
  }

  // The first fragment is in the buffer, since the time 0.
  function Halfway(x: Setting, v: Bytes, blob: Bytes): Link
    requires |v| == ID_LEN && NeedsTwo(blob)
  {
    var rest := [Fragment2(x, v, blob)];
    Asking(x, v, blob).(s := x.Accepted().(buf := Some(Fragment1(x, v, blob).payload), startedAt := Some(0.0)),
                        wire := WireOf(x.p, rest), c2s := rest, taken := MAX_PAYLOAD)
  }

  lemma Put6(x: Setting, v: Bytes, blob: Bytes)
    requires Staged(x, v) && NeedsTwo(blob)
    ensures Enabled(x.p, x.t, LoggedInLink(x, v), Ask(Put(0, blob)))
    ensures Apply(x.p, x.t, LoggedInLink(x, v), Ask(Put(0, blob))) == Asking(x, v, blob)
  {
    Widths();
    TwoFrames(x, v, blob);
    var frames := [Fragment1(x, v, blob), Fragment2(x, v, blob)];
    assert [] + frames == frames && [] + WireOf(x.p, frames) == WireOf(x.p, frames);
  }

  lemma Put7(x: Setting, v: Bytes, blob: Bytes)
    requires Staged(x, v) && NeedsTwo(blob) && Packable(Fragment1(x, v, blob))
    ensures Enabled(x.p, x.t, Asking(x, v, blob), Reading(x, Fragment1(x, v, blob)))
    ensures Apply(x.p, x.t, Asking(x, v, blob), Reading(x, Fragment1(x, v, blob))) == Halfway(x, v, blob)
  {
    TwoFrames(x, v, blob);
    PutLength(PutOf(v, blob));
    var l, f := Asking(x, v, blob), Fragment1(x, v, blob);
    ReadTakesHead(x.p, l.c2s);
    assert l.c2s[1..] == [Fragment2(x, v, blob)];
    var d := ReadsPut(x.p, x.t, l.s, f, Reading(x, f).e);
    FragmentStored(l.s, x.user.id, d, x.Seen());
    assert l.s2c + [] == l.s2c;
  }

  lemma FragmentStored(s: Session, user: nat, d: Frame, w: World)
    requires s.buf.None? && s.startedAt.None? && d.flags == FRAGMENTED && |d.payload| <= MAX_PUT
    ensures OnPut(s, user, d, w) == Outcome(s.(buf := Some(d.payload), startedAt := Some(w.mono)), [], Nothing, None)
  {
    FlagsMean();
    assert [] + d.payload == d.payload;
  }

  // ----- the deadline passes -----

  const LATE: real := 30.0

  lemma BufferDropped(x: Setting, v: Bytes, blob: Bytes, e: Event)
    requires Staged(x, v) && NeedsTwo(blob) && (e == HeaderTimeout(LATE) || e == ReadTimeout(LATE))
    ensures Step(x.p, x.t, Halfway(x, v, blob).s, e) == Outcome(x.Accepted(), [], Nothing, None)
  {}

  function TornLink(x: Setting, v: Bytes, blob: Bytes): Link
    requires |v| == ID_LEN && NeedsTwo(blob) && |Halfway(x, v, blob).wire| >= HEADER_LEN
  {
    var l := Halfway(x, v, blob);
    l.(s := x.Accepted(), wire := l.wire[HEADER_LEN..], torn := true, intact := false)
  }

  lemma Torn8(x: Setting, v: Bytes, blob: Bytes)
    requires Staged(x, v) && NeedsTwo(blob)
    ensures |Halfway(x, v, blob).wire| >= HEADER_LEN
    ensures Enabled(x.p, x.t, Halfway(x, v, blob), Serve(HeaderTimeout(LATE)))
    ensures Apply(x.p, x.t, Halfway(x, v, blob), Serve(HeaderTimeout(LATE))) == TornLink(x, v, blob)
  {
    TwoFrames(x, v, blob);
    var l := Halfway(x, v, blob);
    HeaderFits(x.p, l.c2s);
    BufferDropped(x, v, blob, HeaderTimeout(LATE));
    assert l.s2c + [] == l.s2c;
  }

  lemma HeaderFits(p: Crypto, frames: seq<Sent>)
    requires |frames| == 1 && Packable(frames[0])
    ensures |WireOf(p, frames)| >= HEADER_LEN && ParseHeader(WireOf(p, frames)[..HEADER_LEN]).len == |frames[0].payload|
  {
    var f := frames[0];
    EncodedShape(p, FrameOf(f), f.key);
    assert WireOf(p, frames) == BytesOf(p, f) + WireOf(p, frames[1..]);
    assert WireOf(p, frames)[..HEADER_LEN] == BytesOf(p, f)[..HEADER_LEN];
  }

  function DroppedLink(x: Setting, v: Bytes, blob: Bytes): Link
    requires |v| == ID_LEN && NeedsTwo(blob)
  {
    Halfway(x, v, blob).(s := x.Accepted(), intact := false)
  }

  lemma Dropped8(x: Setting, v: Bytes, blob: Bytes)
    requires Staged(x, v) && NeedsTwo(blob)
    ensures Enabled(x.p, x.t, Halfway(x, v, blob), Serve(ReadTimeout(LATE)))
    ensures Apply(x.p, x.t, Halfway(x, v, blob), Serve(ReadTimeout(LATE))) == DroppedLink(x, v, blob)
  {
    BufferDropped(x, v, blob, ReadTimeout(LATE));
    assert Halfway(x, v, blob).s2c + [] == Halfway(x, v, blob).s2c;
  }

  // ----- a header lost -----

  lemma HalfwayAfterSeven(x: Setting, v: Bytes, blob: Bytes, r: Talk)
    requires Staged(x, v) && NeedsTwo(blob) && Packable(Fragment1(x, v, blob))
    requires LogsIn(x, v, r) && |r.moves| >= 7
    requires r.moves[5] == Ask(Put(0, blob)) && r.moves[6] == Reading(x, Fragment1(x, v, blob))
    ensures r.At(7) == Halfway(x, v, blob)
  {
    LoggedInAfterFive(x, v, r);
    Put6(x, v, blob);
    Advance(r, 5, LoggedInLink(x, v), Asking(x, v, blob));
    Put7(x, v, blob);
    Advance(r, 6, Asking(x, v, blob), Halfway(x, v, blob));
  }

  // A run that gets that far and goes on with these moves.
  lemma HalfwayRun(x: Setting, v: Bytes, blob: Bytes, tail: seq<Move>) returns (r: Talk)
    requires Staged(x, v) && NeedsTwo(blob)
    ensures r.p == x.p && r.t == x.t && Starts(r.start) && |r.moves| == 7 + |tail| && r.moves[7..] == tail
    ensures r.At(7) == Halfway(x, v, blob)
  {
    SentPackable(SceneOf(x, v));
    TwoFrames(x, v, blob);
    var head := Moves(SceneOf(x, v)) + [Ask(Put(0, blob)), Reading(x, Fragment1(x, v, blob))];
    r := Talk(x.p, x.t, StartOf(x, v), head + tail);
    HalfwayAfterSeven(x, v, blob, r);
  }

  // With a blob of zeros the server next takes zeros for a header: a frame of no type.
  lemma ZerosAreNoFrame(p: Crypto, stream: Bytes, key: Bytes)
    requires |stream| >= HEADER_LEN + HMAC_LEN && stream[..HEADER_LEN] == Zeros(HEADER_LEN)
    ensures NextRead(stream).Some? && Decode(p, NextRead(stream).value, key).Err?
  {
    var b := Zeros(HEADER_LEN);
    assert b[7..11] == [0, 0, 0, 0];
    assert FromLE([0, 0, 0, 0]) == 0 by {
      assert [0, 0, 0, 0] == LE(0, 4);
      Widths();
      FromLEOfLE(0, 4);
    }
    var read := NextRead(stream).value;
    assert read[..HEADER_LEN] == b;
  }

  // The fragment timeout takes the header of the second fragment with it. What the server
  // reads next is no frame at all under its key, and so none that was sent to it.
  lemma HeaderLostMidUpload(x: Setting, v: Bytes) returns (r: Talk)
    requires Staged(x, v)
    ensures r.p == x.p && Starts(r.start) && |r.moves| == 8 && LosesHeader(r, 7)
    ensures var l := r.At(8);
            && l.torn && Live(l.s) && l.c.stage.AwaitAck? && NextRead(l.wire).Some?
            && Decode(r.p, NextRead(l.wire).value, ActiveKey(l.s)).Err?
            && forall f: Sent | Packable(f) && f.key == ActiveKey(l.s) :: NextRead(l.wire).value != BytesOf(r.p, f)
  {
    var blob := Zeros(MAX_PAYLOAD);
    r := HalfwayRun(x, v, blob, [Serve(HeaderTimeout(LATE))]);
    assert r.moves[7] == r.moves[7..][0];
    Torn8(x, v, blob);
    Advance(r, 7, Halfway(x, v, blob), TornLink(x, v, blob));
    TornByMove(r, 7);
    var l := TornLink(x, v, blob);
    ZerosLeft(x, v, blob);
    ZerosAreNoFrame(x.p, l.wire, ActiveKey(l.s));
    forall f: Sent | Packable(f) && f.key == ActiveKey(l.s) ensures NextRead(l.wire).value != BytesOf(r.p, f) {
      ServerDecodes(x.p, f);
    }
  }

  lemma ZerosLeft(x: Setting, v: Bytes, blob: Bytes)
    requires Staged(x, v) && blob == Zeros(MAX_PAYLOAD) && |Halfway(x, v, blob).wire| >= HEADER_LEN
    ensures |TornLink(x, v, blob).wire| >= HEADER_LEN + HMAC_LEN
    ensures TornLink(x, v, blob).wire[..HEADER_LEN] == Zeros(HEADER_LEN)
  {
    TwoFrames(x, v, blob);
    var put, f := PutOf(v, blob), Fragment2(x, v, blob);
    PutLength(put);
    var payload := PutPayload(put);
    assert f.payload == payload[MAX_PAYLOAD..] && |f.payload| == PUT_HEADER_LEN;
    assert forall i :: PUT_HEADER_LEN <= i < |payload| ==> payload[i] == blob[i - PUT_HEADER_LEN];
    var h := FieldsOf(FrameOf(f));
    Parts(h, f.payload, x.p.Hmac(f.key, Signed(h, f.payload)));
    var b := BytesOf(x.p, f);
    assert b[HEADER_LEN..HEADER_LEN + |f.payload|] == f.payload;
    assert WireOf(x.p, [f]) == b + WireOf(x.p, []);
    assert WireOf(x.p, [f])[HEADER_LEN..][..HEADER_LEN] == f.payload[..HEADER_LEN];
  }

  // ----- an acknowledgement for something else -----

  // A blob whose last bytes, the second fragment, are an empty PUT for another vault.
  function Decoy(other: Bytes): Bytes { Zeros(MAX_PAYLOAD - PUT_HEADER_LEN) + PutHeader(PutFields(other, 0, [])) }

  lemma DecoyTail(x: Setting, v: Bytes, other: Bytes)
    requires |v| == ID_LEN && |other| == ID_LEN
    ensures NeedsTwo(Decoy(other)) && Fragment2(x, v, Decoy(other)).payload == PutPayload(PutFields(other, 0, []))
  {
    var tail := PutHeader(PutFields(other, 0, []));
    assert |tail| == PUT_HEADER_LEN;
    var put := PutOf(v, Decoy(other));
    PutLength(put);
    Assoc(PutHeader(put), Zeros(MAX_PAYLOAD - PUT_HEADER_LEN), tail);
    SplitAt(PutHeader(put) + Zeros(MAX_PAYLOAD - PUT_HEADER_LEN), tail);
    assert tail + [] == tail;
  }

  function OtherStored(x: Setting, other: Bytes): Effect { Stored(other, VaultRow(x.user.id, 1, [], x.now)) }

  lemma TailStored(x: Setting, other: Bytes, d: Frame)
    requires |other| == ID_LEN && d.flags == LAST && d.payload == PutPayload(PutFields(other, 0, []))
    ensures OnPut(x.Accepted(), x.user.id, d, x.Seen()) ==
            Outcome(x.Accepted().(outSeq := 3), Answer(x.Accepted(), VAULT_ACK, AckPayload(other, 1)),
                    OtherStored(x, other), Some(d.payload))
  {
    FlagsMean();
    Widths();
    PutExact(d.payload, PutFields(other, 0, []));
    PutLength(PutFields(other, 0, []));
    assert [] + d.payload == d.payload;
  }

  function AckedLink(x: Setting, v: Bytes, other: Bytes): Link
    requires |v| == ID_LEN && NeedsTwo(Decoy(other))
  {
    DroppedLink(x, v, Decoy(other)).(
      s := x.Accepted().(outSeq := 3), wire := [], c2s := [], taken := MAX_PAYLOAD + PUT_HEADER_LEN,
      s2c := Answer(x.Accepted(), VAULT_ACK, AckPayload(other, 1)), effect := OtherStored(x, other))
  }

  lemma TailRead(x: Setting, other: Bytes, f: Sent)
    requires |other| == ID_LEN && Packable(f) && f.msgType == VAULT_PUT && f.flags == LAST && f.key == MacKey(x)
    requires f.payload == PutPayload(PutFields(other, 0, []))
    ensures Step(x.p, x.t, x.Accepted(), Reading(x, f).e) ==
            Outcome(x.Accepted().(outSeq := 3), Answer(x.Accepted(), VAULT_ACK, AckPayload(other, 1)),
                    OtherStored(x, other), Some(f.payload))
  {
    var d := ReadsPut(x.p, x.t, x.Accepted(), f, Reading(x, f).e);
    TailStored(x, other, d);
  }

  lemma Tail9(x: Setting, v: Bytes, other: Bytes)
    requires Staged(x, v) && |other| == ID_LEN && NeedsTwo(Decoy(other))
    requires Packable(Fragment2(x, v, Decoy(other)))
    ensures var l, m := DroppedLink(x, v, Decoy(other)), Reading(x, Fragment2(x, v, Decoy(other)));
            Enabled(x.p, x.t, l, m) && Apply(x.p, x.t, l, m) == AckedLink(x, v, other)
  {
    DecoyTail(x, v, other);
    PutLength(PutFields(other, 0, []));
    var l, f := DroppedLink(x, v, Decoy(other)), Fragment2(x, v, Decoy(other));
    TailRead(x, other, f);
    OneFrameReadable(x.p, f, x.Seen());
    OneFrameServed(x.p, x.t, l, f, Reading(x, f).e, Step(x.p, x.t, l.s, Reading(x, f).e));
  }

  function SavedLink(x: Setting, v: Bytes, other: Bytes): Link
    requires |v| == ID_LEN && NeedsTwo(Decoy(other))
  {
    AckedLink(x, v, other).(
      c := Peer(Ready(Saved(PutOf(v, Decoy(other)), 1)), 4, MacKey(x), x.nonceC, x.clientId, v), s2c := [])
  }

  lemma AckArrives(p: Crypto, t: TextCodec, c: Peer, id: Bytes, version: nat, seqId: nat, how: Credentials)
    requires c.stage.AwaitAck? && |id| == ID_LEN && version < Shl8(1, 8) && seqId < MAX_SEQ
    ensures var f := Sent(VAULT_ACK, NO_FLAGS, AckPayload(id, version), seqId, c.key);
            && Packable(f)
            && ClientReceives(p, t, c, f, how) == (c.(stage := Ready(Saved(c.stage.put, version))), [])
  {
    FlagsMean();
    DataParses(id, version, []);
    ReceivesVaultReply(p, t, c, Sent(VAULT_ACK, NO_FLAGS, AckPayload(id, version), seqId, c.key), how);
  }

  lemma Tail10(x: Setting, v: Bytes, other: Bytes)
    requires Staged(x, v) && |other| == ID_LEN && NeedsTwo(Decoy(other))
    ensures Enabled(x.p, x.t, AckedLink(x, v, other), TakeReply(How(x)))
    ensures Apply(x.p, x.t, AckedLink(x, v, other), TakeReply(How(x))) == SavedLink(x, v, other)
  {
    var l := AckedLink(x, v, other);
    Widths();
    AckArrives(x.p, x.t, l.c, other, 1, 2, How(x));
    var ack := Sent(VAULT_ACK, NO_FLAGS, AckPayload(other, 1), 2, MacKey(x));
    OneReplyTaken(x.p, x.t, l, ack, SavedLink(x, v, other).c, How(x));
  }

  // The first fragment times out, the second passes for a PUT of its own: the client is told
  // that its blob was saved, and what was stored is an empty vault under another id.
  lemma WrongBlobAcknowledged(x: Setting, v: Bytes, other: Bytes) returns (r: Talk)
    requires Staged(x, v) && |other| == ID_LEN
    ensures r.p == x.p && Starts(r.start) && |r.moves| == 10
    ensures var l := r.At(10);
            && !l.torn && !l.intact
            && l.c.stage == Ready(Saved(PutFields(v, 0, Decoy(other)), 1))
            && l.effect == Stored(other, VaultRow(x.user.id, 1, [], x.now))
            && l.effect.vault.blob != Decoy(other) && r.At(8).effect == Nothing
  {
    var blob := Decoy(other);
    DecoyTail(x, v, other);
    TwoFrames(x, v, blob);
    var tail := [Serve(ReadTimeout(LATE)), Reading(x, Fragment2(x, v, blob)), TakeReply(How(x))];
    r := HalfwayRun(x, v, blob, tail);
    assert r.moves[7] == tail[0] && r.moves[8] == tail[1] && r.moves[9] == tail[2];
    Dropped8(x, v, blob);
    Advance(r, 7, Halfway(x, v, blob), DroppedLink(x, v, blob));
    Tail9(x, v, other);
    Advance(r, 8, DroppedLink(x, v, blob), AckedLink(x, v, other));
    Tail10(x, v, other);
    Advance(r, 9, AckedLink(x, v, other), SavedLink(x, v, other));
    assert |blob| > 0;
  }
}
