// What holds of one server connection over every list of events: frames of any content,
// timeouts at any time, and tables holding anything at all.
module SessionTheorems {
  import opened Common
  import opened Primitives
  import opened ByteIO
  import opened FrameCodec
  import opened Payloads
  import opened Fragments
  import opened Database
  import opened ServerSession

  datatype Run = Run(p: Crypto, t: TextCodec, events: seq<Event>) {
    // The state after the first n events.
    function At(n: nat): Session
      requires n <= |events|
    {
      if n == 0 then NEW_SESSION else Step(p, t, At(n - 1), events[n - 1]).s
    }

    // What the event at index i leads to.
    function Out(i: nat): Outcome
      requires i < |events|
    {
      Step(p, t, At(i), events[i])
    }

    // Every frame sent during the first n events.
    function SentBy(n: nat): seq<Sent>
      requires n <= |events|
    {
      if n == 0 then [] else SentBy(n - 1) + Out(n - 1).sent
    }

    // The PUT frame that event i delivers to an established session, if it does.
    function PutFrameAt(i: nat): Option<Frame>
      requires i < |events|
    {
      PutFrame(p, At(i), events[i])
    }

    function FragmentAt(i: nat): Bytes
      requires i < |events|
    {
      match PutFrameAt(i)
      case Some(f) => if Fragmented(f.flags) then f.payload else []
      case None => []
    }

    // The PUT fragments among the events from j to n, put end to end in order.
    function Cat(j: nat, n: nat): Bytes
      requires n <= |events|
    {
      if n <= j then [] else Cat(j, n - 1) + FragmentAt(n - 1)
    }

    // The last moment, at or before n, at which there was no buffer.
    function OpenedAt(n: nat): nat
      requires n <= |events|
    {
      if n == 0 || At(n).buf.None? then n else OpenedAt(n - 1)
    }
  }

  function PutFrame(p: Crypto, s: Session, e: Event): Option<Frame> {
    if s.phase.Established? && s.macKey.Some? && s.user.Some? && e.Data? then
      match Decode(p, e.bytes, ActiveKey(s))
      case Ok(f) => if f.msgType == VAULT_PUT then Some(f) else None
      case Err(_) => None
    else None
  }

  // ----- the states a connection can be in -----

  ghost predicate Coherent(s: Session) {
    && (s.buf.Some? <==> s.startedAt.Some?)
    && (s.buf.Some? ==> s.phase.Established? && |s.buf.value| <= MAX_PUT)
    && (s.phase.Greeting? ==> s.nonceC.None? && s.nonceS.None? && s.clientId.None?)
    && (s.phase.Authenticating? || s.phase.Established? ==> s.nonceC.Some? && s.nonceS.Some? && s.clientId.Some?)
    && (s.phase.Established? ==> s.macKey.Some? && s.user.Some?)
    && (s.phase.Greeting? || s.phase.Authenticating? ==> s.macKey.None? && s.user.None?)
  }

  // ----- what each handler may do to the state and send -----

  // Frames are numbered from the state's counter on and signed with its key.
  ghost predicate Numbered(s: Session, o: Outcome) {
    && o.s.outSeq == s.outSeq + |o.sent|
    && forall i :: 0 <= i < |o.sent| ==> o.sent[i].seqId == s.outSeq + i && o.sent[i].key == ActiveKey(s)
  }

  // Who the session belongs to does not change, and it ends or stays.
  ghost predicate SameOwner(s: Session, s': Session) {
    && s'.nonceC == s.nonceC && s'.nonceS == s.nonceS && s'.clientId == s.clientId
    && s'.user == s.user && s'.macKey == s.macKey
    && (s'.phase == s.phase || s'.phase.Closed?)
    && (s'.phase.Closed? ==> s'.buf.None? && s'.startedAt.None?)
  }

  ghost predicate SameBuffer(s: Session, s': Session) {
    s'.phase.Closed? || (s'.buf == s.buf && s'.startedAt == s.startedAt)
  }

  lemma ReplyShape(s: Session, m: MsgType, payload: Bytes)
    requires !s.phase.Closed?
    ensures var o := Reply(s, m, payload); Numbered(s, o) && SameOwner(s, o.s) && SameBuffer(s, o.s)
  {}

  lemma GetShape(s: Session, user: nat, f: Frame, w: World)
    requires !s.phase.Closed?
    ensures var o := OnGet(s, user, f, w);
            Numbered(s, o) && SameOwner(s, o.s) && SameBuffer(s, o.s) && o.processed.None?
  {
    match ParseGet(f.payload)
    case Err(_) =>
    case Ok((vaultId, _)) =>
      match CheckGet(Lookup(w.vaults, vaultId), user)
      case None => ReplyShape(s, ERROR, [ERR_NOT_FOUND]);
      case Some((version, blob)) =>
        FramesOfShape(VAULT_DATA, DataPayload(vaultId, version, blob), s.outSeq, ActiveKey(s));
  }

  lemma MessageShape(s: Session, user: nat, message: Bytes, w: World)
    requires !s.phase.Closed?
    ensures var o := OnMessage(s, user, message, w);
            && Numbered(s, o) && SameOwner(s, o.s) && SameBuffer(s, o.s) && o.processed == Some(message)
            && (o.s.phase.Closed? || o.s == s.(outSeq := s.outSeq + 1))
  {}

  // What one PUT frame does to the buffer and which message it completes.
  ghost predicate PutEffect(s: Session, f: Frame, mono: real, o: Outcome) {
    match OnPutFrame(s.buf, f.flags, f.payload)
    case BadFlags => o.s.phase.Closed? && o.processed.None?
    case Oversize => o.s.phase.Closed? && o.processed.None?
    case Buffered(b) =>
      && o.s.phase == s.phase && o.s.buf == Some(b) && o.processed.None?
      && o.s.startedAt == (if s.buf.None? then Some(mono) else s.startedAt)
    case Complete(message, left) =>
      && o.processed == Some(message)
      && (o.s.phase.Closed? ||
          (o.s.buf == left && o.s.startedAt == (if Fragmented(f.flags) then None else s.startedAt)))
  }

  lemma PutShape(s: Session, user: nat, f: Frame, w: World)
    requires !s.phase.Closed?
    ensures var o := OnPut(s, user, f, w);
            Numbered(s, o) && SameOwner(s, o.s) && PutEffect(s, f, w.mono, o)
  {
    match OnPutFrame(s.buf, f.flags, f.payload)
    case Complete(message, left) =>
      MessageShape(s.(buf := left, startedAt := if Fragmented(f.flags) then None else s.startedAt),
                   user, message, w);
    case _ =>
  }

  lemma EstablishedShape(s: Session, f: Frame, w: World)
    requires s.phase.Established? && s.user.Some?
    ensures var o := OnEstablished(s, f, w);
            && Numbered(s, o) && SameOwner(s, o.s)
            && (f.msgType == VAULT_PUT ==> PutEffect(s, f, w.mono, o))
            && (f.msgType != VAULT_PUT ==> SameBuffer(s, o.s) && o.processed.None?)
  {
    if s.buf.Some? && f.msgType != VAULT_PUT {
    } else {
      match f.msgType
      case VAULT_GET => GetShape(s, s.user.value, f, w);
      case VAULT_PUT => PutShape(s, s.user.value, f, w);
      case _ =>
    }
  }

  lemma EstablishedCoherent(s: Session, f: Frame, w: World)
    requires Coherent(s) && s.phase.Established?
    ensures Coherent(OnEstablished(s, f, w).s)
  {
    EstablishedShape(s, f, w);
  }

  // Before the session is established a frame is sent only to move on or to refuse.
  lemma HelloShape(s: Session, f: Frame, w: World)
    ensures var o := OnHello(s, f, w);
            || (o.s == Close(s) && o.sent == [])
            || (o.s == s.(phase := Authenticating, outSeq := s.outSeq + 1, nonceC := o.s.nonceC,
                          nonceS := Some(w.nonceS), clientId := o.s.clientId)
                && o.s.nonceC.Some? && o.s.clientId.Some?
                && o.sent == Answer(s, CHALLENGE, ChallengePayload(w.nonceS, w.nowMs)))
    ensures OnHello(s, f, w).processed.None? && OnHello(s, f, w).effect == Nothing
  {}

  lemma AuthShape(p: Crypto, t: TextCodec, s: Session, f: Frame, w: World)
    ensures var o := OnAuth(p, t, s, f, w);
            || (o.s == Close(s) && o.sent == [] && o.effect == Nothing)
            || (o.s == Close(s.(outSeq := s.outSeq + 1)) && o.effect == Nothing
                && o.sent == Answer(s, AUTH_FAIL, AuthFailPayload()))
            || (o.effect.NewSession? && s.nonceC.Some? && s.clientId.Some?
                && o.s == s.(phase := Established, outSeq := s.outSeq + 1, user := Some(o.effect.row.userId),
                             macKey := Some(p.Hkdf(w.token, s.nonceC.value)))
                && o.sent == Answer(s, AUTH_OK, AuthOkPayload(w.token, o.effect.row.expiry, 0))
                && o.effect.token == w.token && o.effect.row.clientId == s.clientId.value
                && o.effect.row.expiry == w.nowMs + SESSION_TTL_MS)
    ensures OnAuth(p, t, s, f, w).processed.None?
  {}

  // An event without a frame in it sends nothing: it ends the session, drops the buffer, or
  // changes nothing.
  lemma QuietShape(p: Crypto, t: TextCodec, s: Session, e: Event)
    requires !e.Data? || s.phase.Closed? || Decode(p, e.bytes, ActiveKey(s)).Err?
    ensures var o := Step(p, t, s, e);
            && o.sent == [] && o.effect == Nothing && o.processed.None?
            && (o.s == s || o.s == Close(s) || (o.s == s.(buf := None, startedAt := None) && s.phase.Established?))
  {}

  // The buffer is there exactly when its start time is, only once established, and never
  // above the limit between frames; so none of the handler's checks for missing state can fire.
  lemma StepCoherent(p: Crypto, t: TextCodec, s: Session, e: Event)
    requires Coherent(s)
    ensures Coherent(Step(p, t, s, e).s)
  {
    if !e.Data? || s.phase.Closed? || Decode(p, e.bytes, ActiveKey(s)).Err? {
      QuietShape(p, t, s, e);
    } else {
      var f := Decode(p, e.bytes, ActiveKey(s)).value;
      match s.phase
      case Greeting => HelloShape(s, f, e.w);
      case Authenticating => AuthShape(p, t, s, f, e.w);
      case Established => EstablishedCoherent(s, f, e.w);
    }
  }

  lemma {:induction false} RunCoherent(r: Run, n: nat)
    requires n <= |r.events|
    ensures Coherent(r.At(n))
    decreases n
  {
    if n > 0 {
      RunCoherent(r, n - 1);
      StepCoherent(r.p, r.t, r.At(n - 1), r.events[n - 1]);
    }
  }

  // ----- numbers and keys of everything sent -----

  ghost predicate AuthOkFor(p: Crypto, f: Sent, nonceC: Bytes, key: Bytes) {
    exists token: Bytes, expiry: nat ::
      f.msgType == AUTH_OK && f.payload == AuthOkPayload(token, expiry, 0) && key == p.Hkdf(token, nonceC)
  }

  // The frames of a connection are numbered 0, 1, 2, ...; the first two, CHALLENGE and AUTH_OK
  // or AUTH_FAIL, are under the dummy key, and all later ones under the key derived from the
  // token that AUTH_OK carries.
  ghost predicate Transcript(p: Crypto, s: Session, sent: seq<Sent>) {
    && |sent| == s.outSeq
    && (forall i :: 0 <= i < |sent| ==> sent[i].seqId == i)
    && (forall i :: 0 <= i < |sent| && i < 2 ==> sent[i].key == DUMMY_KEY)
    && (s.phase.Greeting? ==> sent == [])
    && (s.phase.Authenticating? ==> |sent| == 1)
    && (|sent| >= 1 ==> sent[0].msgType == CHALLENGE)
    && (s.macKey.None? ==> |sent| <= 2 && (|sent| == 2 ==> sent[1].msgType == AUTH_FAIL))
    && (s.macKey.Some? ==>
          && |sent| >= 2 && s.nonceC.Some? && AuthOkFor(p, sent[1], s.nonceC.value, s.macKey.value)
          && forall i :: 2 <= i < |sent| ==> sent[i].key == s.macKey.value)
  }

  lemma TranscriptStep(p: Crypto, t: TextCodec, s: Session, sent: seq<Sent>, e: Event)
    requires Coherent(s) && Transcript(p, s, sent)
    ensures Transcript(p, Step(p, t, s, e).s, sent + Step(p, t, s, e).sent)
  {
    var o := Step(p, t, s, e);
    if !e.Data? || s.phase.Closed? || Decode(p, e.bytes, ActiveKey(s)).Err? {
      QuietShape(p, t, s, e);
      assert sent + o.sent == sent;
    } else {
      var f := Decode(p, e.bytes, ActiveKey(s)).value;
      match s.phase
      case Greeting => HelloShape(s, f, e.w);
      case Authenticating => AuthShape(p, t, s, f, e.w);
      case Established => EstablishedShape(s, f, e.w);
    }
  }

  lemma OneMore(r: Run, i: nat)
    requires i < |r.events|
    ensures r.At(i + 1) == Step(r.p, r.t, r.At(i), r.events[i]).s
    ensures r.SentBy(i + 1) == r.SentBy(i) + Step(r.p, r.t, r.At(i), r.events[i]).sent
  {}

  lemma TranscriptGoesOn(r: Run, i: nat)
    requires i < |r.events| && Transcript(r.p, r.At(i), r.SentBy(i))
    ensures Transcript(r.p, r.At(i + 1), r.SentBy(i + 1))
  {
    RunCoherent(r, i);
    TranscriptStep(r.p, r.t, r.At(i), r.SentBy(i), r.events[i]);
    OneMore(r, i);
  }

  lemma {:induction false} OutboundNumbersAndKeys(r: Run, n: nat)
    requires n <= |r.events|
    ensures Transcript(r.p, r.At(n), r.SentBy(n))
    decreases n
  {
    if n > 0 {
      OutboundNumbersAndKeys(r, n - 1);
      TranscriptGoesOn(r, n - 1);
    }
  }

  // ----- reassembly -----

  // One event: how the buffer and the processed message follow from the PUT frame, if any.
  lemma BufferStep(p: Crypto, t: TextCodec, s: Session, e: Event)
    requires Coherent(s)
    ensures var o := Step(p, t, s, e);
            match PutFrame(p, s, e)
            case Some(f) => PutEffect(s, f, e.w.mono, o)
            case None => o.processed.None? && (o.s.buf.None? || (o.s.buf == s.buf && o.s.startedAt == s.startedAt))
  {
    if !e.Data? || s.phase.Closed? || Decode(p, e.bytes, ActiveKey(s)).Err? {
      QuietShape(p, t, s, e);
    } else {
      var f := Decode(p, e.bytes, ActiveKey(s)).value;
      match s.phase
      case Greeting => HelloShape(s, f, e.w);
      case Authenticating => AuthShape(p, t, s, f, e.w);
      case Established => EstablishedShape(s, f, e.w);
    }
    StepCoherent(p, t, s, e);
  }

  lemma BufferGrows(r: Run, i: nat)
    requires i < |r.events|
    ensures r.At(i + 1).buf.Some? ==>
              && r.At(i + 1).buf.value == (if r.At(i).buf.None? then [] else r.At(i).buf.value) + r.FragmentAt(i)
              && (if r.At(i).buf.None? then
                    r.PutFrameAt(i).Some? && r.events[i].Data? && r.At(i + 1).startedAt == Some(r.events[i].w.mono)
                  else r.At(i + 1).startedAt == r.At(i).startedAt)
  {
    var s, e := r.At(i), r.events[i];
    RunCoherent(r, i);
    BufferStep(r.p, r.t, s, e);
    StepCoherent(r.p, r.t, s, e);
    if r.At(i + 1).buf.Some? && s.buf.Some? {
      assert s.buf.value + [] == s.buf.value;
    }
  }

  // The buffer of state n is what was received from event j on, which opened it.
  ghost predicate Holds(r: Run, j: nat, n: nat)
    requires n <= |r.events|
  {
    && j < n && r.At(n).buf == Some(r.Cat(j, n))
    && r.PutFrameAt(j).Some? && r.events[j].Data?
    && r.At(n).startedAt == Some(r.events[j].w.mono)
  }

  lemma BufferOpens(r: Run, i: nat)
    requires i < |r.events| && r.At(i).buf.None? && r.At(i + 1).buf.Some?
    ensures Holds(r, i, i + 1)
  {
    BufferGrows(r, i);
    assert r.Cat(i, i) == [];
  }

  lemma BufferGoesOn(r: Run, j: nat, i: nat)
    requires i < |r.events| && r.At(i + 1).buf.Some? && Holds(r, j, i)
    ensures Holds(r, j, i + 1)
  {
    BufferGrows(r, i);
  }

  lemma StillOpen(r: Run, i: nat)
    requires i < |r.events|
    ensures r.OpenedAt(i + 1) == if r.At(i + 1).buf.None? then i + 1 else r.OpenedAt(i)
    ensures r.At(i).buf.None? ==> r.OpenedAt(i) == i
  {}

  // The buffer holds exactly the PUT fragments received since it was opened, in order, and
  // was opened by the first of them, whose arrival time it keeps.
  lemma {:induction false} BufferIsFragments(r: Run, n: nat)
    requires n <= |r.events|
    ensures r.OpenedAt(n) <= n && r.At(r.OpenedAt(n)).buf.None?
    ensures r.At(n).buf.Some? ==> Holds(r, r.OpenedAt(n), n)
    decreases n
  {
    if n > 0 {
      var i := n - 1;
      StillOpen(r, i);
      if r.At(i + 1).buf.Some? {
        BufferIsFragments(r, i);
        if r.At(i).buf.None? {
          BufferOpens(r, i);
        } else {
          BufferGoesOn(r, r.OpenedAt(i), i);
        }
      }
    }
  }

  // Every processed message is one whole PUT frame, which leaves the buffer alone, or exactly
  // the fragments since the buffer was opened, which empties it.
  lemma ProcessedIsOneMessage(r: Run, i: nat)
    requires i < |r.events| && r.Out(i).processed.Some?
    ensures r.PutFrameAt(i).Some?
    ensures var f, message, s' := r.PutFrameAt(i).value, r.Out(i).processed.value, r.At(i + 1);
            if Fragmented(f.flags) then
              LastFrag(f.flags) && message == r.Cat(r.OpenedAt(i), i + 1) && |message| <= MAX_PUT && s'.buf.None?
            else message == f.payload && (s'.phase.Closed? || s'.buf == r.At(i).buf)
  {
    RunCoherent(r, i);
    RunCoherent(r, i + 1);
    BufferStep(r.p, r.t, r.At(i), r.events[i]);
    BufferIsFragments(r, i);
    var j := r.OpenedAt(i);
    if r.At(i).buf.None? {
      assert j == i;
    }
  }

  // No fragment is used twice: once a message has been put together from fragments, or the
  // buffer dropped, everything put together later was opened later.
  lemma {:induction false} NoFragmentTwice(r: Run, k: nat, n: nat)
    requires k <= n <= |r.events| && r.At(k).buf.None?
    ensures k <= r.OpenedAt(n)
    decreases n
  {
    if k < n {
      StillOpen(r, n - 1);
      NoFragmentTwice(r, k, n - 1);
    } else if n > 0 {
      StillOpen(r, n - 1);
    }
  }

  // The check before a read drops the buffer if and only if its time is up, and changes
  // nothing else.
  lemma WakeDropsExactlyOldFragments(r: Run, i: nat)
    requires i < |r.events| && r.events[i].Wake?
    ensures var s := r.At(i);
            && (s.buf.Some? ==> s.startedAt.Some?)
            && r.At(i + 1) ==
                 (if s.buf.Some? && r.events[i].mono - s.startedAt.value >= FRAGMENT_TIMEOUT
                  then s.(buf := None, startedAt := None) else s)
            && r.Out(i).sent == []
  {
    RunCoherent(r, i);
  }

  // A read that times out, before or after the header, drops a buffer whose time is up and
  // goes on; otherwise it ends the session.
  lemma TimeoutEndsUnlessFragments(r: Run, i: nat)
    requires i < |r.events| && (r.events[i].ReadTimeout? || r.events[i].HeaderTimeout?) && !r.At(i).phase.Closed?
    ensures var s := r.At(i);
            && (s.buf.Some? ==> s.startedAt.Some?)
            && r.At(i + 1) ==
                 (if s.buf.Some? && r.events[i].mono - s.startedAt.value >= FRAGMENT_TIMEOUT
                  then s.(buf := None, startedAt := None) else Close(s))
            && r.Out(i).sent == []
  {
    RunCoherent(r, i);
  }

  // A frame that does not decode under the session's key ends the session without an answer.
  lemma BadFrameEndsSession(r: Run, i: nat)
    requires i < |r.events| && r.events[i].Data? && !r.At(i).phase.Closed?
    requires Decode(r.p, r.events[i].bytes, ActiveKey(r.At(i))).Err?
    ensures r.At(i + 1) == Close(r.At(i)) && r.Out(i).sent == [] && r.Out(i).effect == Nothing
  {}

  // So does a header that announces more than the limit: no body is awaited, and a deadline
  // that passes after it makes no difference.
  lemma OversizeEndsSession(p: Crypto, t: TextCodec, s: Session, stream: Bytes, deadline: Deadline, mono: real, w: World)
    requires |stream| >= HEADER_LEN && ParseHeader(stream[..HEADER_LEN]).len > MAX_PAYLOAD
    requires !deadline.BeforeHeader? && !s.phase.Closed?
    ensures Step(p, t, s, ReadOf(stream, deadline, mono, w)) == Outcome(Close(s), [], Nothing, None)
  {
    var header := stream[..HEADER_LEN];
    assert header[..HEADER_LEN] == header;
    assert Decode(p, header, ActiveKey(s)).Err?;
  }

  // Once established, a session goes on exactly after a PING of 8 bytes, a GET, a PUT fragment
  // within the limit, or a PUT whose message parses; and while fragments are pending only PUTs
  // count. A BYE is answered before the end, anything else is not.
  lemma EstablishedGoesOnIff(s: Session, f: Frame, w: World)
    requires Coherent(s) && s.phase.Established?
    ensures var o := OnEstablished(s, f, w);
            && (o.s.phase.Established? <==>
                  || (f.msgType == PING && s.buf.None? && |f.payload| == 8)
                  || (f.msgType == VAULT_GET && s.buf.None? && ParseGet(f.payload).Ok?)
                  || (f.msgType == VAULT_PUT &&
                      var all := (if s.buf.None? then [] else s.buf.value) + f.payload;
                      if !Fragmented(f.flags) then !LastFrag(f.flags) && ParsePut(f.payload).Ok?
                      else |all| <= MAX_PUT && (LastFrag(f.flags) ==> ParsePut(all).Ok?)))
            && (!o.s.phase.Established? ==>
                  && o.s.phase.Closed? && o.effect == Nothing
                  && o.sent == (if f.msgType == BYE && s.buf.None? && |f.payload| == 1
                                then Answer(s, BYE, [0x00]) else []))
            && (f.msgType == PING && o.s.phase.Established? ==> o.sent == Answer(s, PONG, f.payload))
  {
    if f.msgType == VAULT_PUT && Fragmented(f.flags) {
      FragmentGoesOnIff(s, f, w);
    }
  }

  lemma FragmentGoesOnIff(s: Session, f: Frame, w: World)
    requires s.phase.Established? && s.user.Some? && f.msgType == VAULT_PUT && Fragmented(f.flags)
    ensures var o, all := OnEstablished(s, f, w), (if s.buf.None? then [] else s.buf.value) + f.payload;
            && (o.s.phase.Established? <==> |all| <= MAX_PUT && (LastFrag(f.flags) ==> ParsePut(all).Ok?))
            && (!o.s.phase.Established? ==> o.s.phase.Closed? && o.sent == [] && o.effect == Nothing)
  {}

  // ----- what a PUT does to the table and what it answers -----

  // A row is stored exactly when a VAULT_ACK goes out: for the message's vault, under the
  // session's user, at the message's base version plus one, over a row that was there at
  // that version, or over none at version 0.
  lemma StoredIffAcked(s: Session, user: nat, message: Bytes, w: World)
    ensures var o := OnMessage(s, user, message, w);
            && (o.effect != Nothing <==> |o.sent| == 1 && o.sent[0].msgType == VAULT_ACK)
            && (o.effect != Nothing ==>
                  && ParsePut(message).Ok? && o.effect.Stored?
                  && var put, row := ParsePut(message).value, o.effect.vault;
                  && o.effect.vaultId == put.vaultId && row == VaultRow(user, put.base + 1, put.blob, w.nowMs)
                  && o.sent[0].payload == AckPayload(put.vaultId, row.version)
                  && (if put.vaultId in w.vaultsAtUpsert then
                        && w.vaultsAtUpsert[put.vaultId].userId == user
                        && w.vaultsAtUpsert[put.vaultId].version == put.base
                      else put.base == (if put.vaultId in w.vaults then w.vaults[put.vaultId].version else 0)))
  {}
}
