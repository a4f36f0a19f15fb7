// The invariant of the save protocol and its preservation by every action.
module SaveInvariant {
  import opened Common
  import opened Vaults
  import opened Database
  import opened SaveProtocol

  // ----- what must never be lost -----

  // An entry survives with its content, or gives way to a strictly newer one.
  predicate Keeps(was: Entry, now: Entry) {
    now.SameContent(was) || now.updatedAt > was.updatedAt
  }

  // Every id the user did not remove is still there, and every id the user did not touch
  // either is there with its content or gave way to something newer.
  ghost predicate Preserves(was: seq<Entry>, now: seq<Entry>, ch: Changes) {
    forall k :: k in Ids(was) && k !in ch.removed ==>
                  k in Ids(now) && (k in ch.edited || Keeps(ById(was)[k], ById(now)[k]))
  }

  // Every entry is still there or was replaced by one that is no older.
  ghost predicate Advances(was: seq<Entry>, now: seq<Entry>) {
    forall k :: k in Ids(was) ==> k in Ids(now) && ById(now)[k].updatedAt >= ById(was)[k].updatedAt
  }

  // ----- histories -----

  ghost predicate Extends(h: History, h': History) {
    forall v :: H(h, v) <= H(h', v)
  }

  // The local entries are safe to commit on top of version `base`; version 0 is empty.
  ghost predicate Covers(h: History, vid: VaultId, base: nat, entries: seq<Entry>, ch: Changes) {
    && base <= |H(h, vid)|
    && (base > 0 ==> H(h, vid)[base-1].blob.Sealed? &&
                     Preserves(H(h, vid)[base-1].blob.entries, entries, ch))
  }

  ghost predicate OwnedBy(h: History, vid: VaultId, user: UserId) {
    |H(h, vid)| > 0 && H(h, vid)[0].user == user
  }

  ghost predicate ForeignTo(h: History, vid: VaultId, user: UserId) {
    |H(h, vid)| > 0 && H(h, vid)[0].user != user
  }

  ghost predicate CommitOk(cs: seq<Commit>, conns: map<ConnId, Conn>, vid: VaultId, i: nat)
    requires i < |cs|
  {
    && cs[i].user == cs[0].user
    && cs[i].base == i
    && cs[i].blob.Sealed? && cs[i].blob.key == cs[i].user
    && (i > 0 ==> cs[i-1].blob.Sealed? && Preserves(cs[i-1].blob.entries, cs[i].blob.entries, cs[i].changes))
    && cs[i].ticket.conn in conns
    && AckRecord(vid, i + 1, cs[i].ticket.n, i) in conns[cs[i].ticket.conn].acks
  }

  // The row of a vault is the last version of its history.
  ghost predicate RowOk(table: map<VaultId, VaultRow<Blob>>, cs: seq<Commit>, vid: VaultId) {
    && (vid in table <==> cs != [])
    && (vid in table ==>
          && table[vid].version == |cs|
          && table[vid].userId == cs[0].user
          && table[vid].blob == cs[|cs|-1].blob)
  }

  ghost predicate VaultOk(s: Sys, vid: VaultId) {
    && RowOk(s.table, H(s.hist, vid), vid)
    && forall i :: 0 <= i < |H(s.hist, vid)| ==> CommitOk(H(s.hist, vid), s.conns, vid, i)
  }

  // ----- connections -----

  ghost predicate PutOk(h: History, conn: Conn, p: Put) {
    && p.blob.Sealed? && p.blob.key == conn.user
    && p.n + 1 == conn.issued
    && Covers(h, p.vid, p.base, p.blob.entries, p.changes)
  }

  predicate InFlight(conn: Conn) {
    conn.handler.Checked? || (conn.inbox != [] && conn.inbox[0].PutReq?)
  }

  ghost predicate AckOk(h: History, k: ConnId, a: AckRecord) {
    && a.version == a.base + 1
    && a.version <= |H(h, a.vid)|
    && H(h, a.vid)[a.base].ticket == Ticket(k, a.n)
  }

  ghost predicate AcksOk(h: History, k: ConnId, conn: Conn) {
    && (forall i :: 0 <= i < |conn.acks| ==> AckOk(h, k, conn.acks[i]))
    && (forall i, j :: 0 <= i < j < |conn.acks| ==> conn.acks[i].n < conn.acks[j].n)
    && (forall i :: 0 <= i < |conn.acks| ==>
                      conn.acks[i].n + (if InFlight(conn) then 1 else 0) < conn.issued)
  }

  ghost predicate ConnOk(h: History, k: ConnId, conn: Conn) {
    && |conn.inbox| <= 1
    && (conn.inbox != [] && conn.inbox[0].PutReq? ==> PutOk(h, conn, conn.inbox[0].put))
    && (conn.handler.Checked? ==>
          && conn.inbox == []
          && PutOk(h, conn, conn.handler.put)
          && conn.handler.newVersion == conn.handler.put.base + 1
          && (conn.handler.put.base > 0 ==> OwnedBy(h, conn.handler.put.vid, conn.user)))
    && (conn.handler.Dead? ==> conn.inbox == [])
    && AcksOk(h, k, conn)
  }

  // ----- a client and its connection -----

  predicate Quiet(conn: Conn) {
    conn.inbox == [] && !conn.handler.Checked? && conn.outbox == []
  }

  // One reply is waiting and nothing else is under way.
  predicate Answered(conn: Conn) {
    conn.inbox == [] && !conn.handler.Checked? && |conn.outbox| == 1
  }

  ghost predicate DataOk(h: History, cl: Client, r: Reply)
    requires r.Data?
  {
    && r.vid == cl.vid
    && 1 <= r.version <= |H(h, cl.vid)|
    && r.blob == H(h, cl.vid)[r.version-1].blob
    && r.blob.Sealed? && r.blob.key == cl.user
    && OwnedBy(h, cl.vid, cl.user)
  }

  ghost predicate GetReplyOk(h: History, cl: Client, why: Why, r: Reply) {
    match r
    case Data(_, version, _) => DataOk(h, cl, r) && (why.Retry? ==> version > cl.base)
    case NotFound => why.Retry? ==> ForeignTo(h, cl.vid, cl.user)
    case _ => false
  }

  // None of the PUTs numbered from n0 on has been acknowledged, but for the one that is
  // being acknowledged right now.
  predicate OwnAcks(conn: Conn, n0: nat) {
    forall i :: 0 <= i < |conn.acks| && conn.acks[i].n >= n0 ==>
                  conn.acks[i].n + 1 == conn.issued && |conn.outbox| == 1 && conn.outbox[0].Ack?
  }

  ghost predicate SyncOk(h: History, cl: Client, conn: Conn, sync: Sync) {
    && 1 <= sync.attempt <= 3
    && conn.issued == sync.n0 + sync.attempt
    && Advances(sync.start, cl.entries)
    && OwnAcks(conn, sync.n0)
    && (sync.first.None? ==> sync.attempt == 1 || ForeignTo(h, cl.vid, cl.user))
    && (sync.first.Some? ==> sync.attempt >= 2 && OwnedBy(h, cl.vid, cl.user) &&
                             cl.base + 2 >= sync.first.value + sync.attempt)
  }

  ghost predicate PutReplyOk(h: History, k: ConnId, cl: Client, conn: Conn, sync: Sync, r: Reply) {
    match r
    case Ack(vid, version) =>
      && vid == cl.vid && version == cl.base + 1
      && version <= |H(h, vid)|
      && H(h, vid)[cl.base].blob == Sealed(cl.user, cl.entries)
      && (sync.first.Some? || sync.attempt == 1)
    case Conflict =>
      && |H(h, cl.vid)| > cl.base && OwnAcks(conn, sync.n0)
      && (sync.first.Some? || sync.attempt == 1)
    case NotFound => ForeignTo(h, cl.vid, cl.user)
    case _ => false
  }

  ghost predicate FetchingOk(h: History, cl: Client, conn: Conn, why: Why) {
    && (|| (conn.inbox == [Get(cl.vid)] && conn.handler.Idle? && conn.outbox == [])
        || (Answered(conn) && GetReplyOk(h, cl, why, conn.outbox[0]))
        || (conn.handler.Dead? && conn.outbox == []))
    && (why.Login? ==> cl.entries == [] && cl.base == 0)
    && (why.Retry? ==>
          && SyncOk(h, cl, conn, why.sync)
          && |H(h, cl.vid)| > cl.base
          && (why.sync.first.Some? || why.sync.attempt == 1))
  }

  ghost predicate PuttingOk(h: History, k: ConnId, cl: Client, conn: Conn, sync: Sync) {
    && conn.issued > 0
    && SyncOk(h, cl, conn, sync)
    && var p := PutOf(cl, conn.issued - 1);
       || (conn.inbox == [PutReq(p)] && conn.handler.Idle? && conn.outbox == [])
       || (&& conn.inbox == [] && conn.handler == Checked(p, cl.base + 1) && conn.outbox == []
           && (sync.first.Some? || sync.attempt == 1))
       || (Answered(conn) && PutReplyOk(h, k, cl, conn, sync, conn.outbox[0]))
       || (conn.handler.Dead? && conn.outbox == [])
  }

  // A client and the connection it is using agree on what is under way.
  ghost predicate PairOk(h: History, k: ConnId, cl: Client, conn: Conn) {
    && conn.user == cl.user
    && match cl.mode
       case Ready => Quiet(conn)
       case Fetching(why) => FetchingOk(h, cl, conn, why)
       case Putting(sync) => PuttingOk(h, k, cl, conn, sync)
       case Boot => false
       case Gone => true
  }

  // ----- clients -----

  // None of the three PUTs of a call that gave up was committed or ever will be.
  ghost predicate Refused(conn: Conn, n0: nat) {
    && conn.issued >= n0 + 3
    && (InFlight(conn) ==> conn.issued > n0 + 3)
    && forall i :: 0 <= i < |conn.acks| ==> !(n0 <= conn.acks[i].n < n0 + 3)
  }

  ghost predicate OutcomeOk(h: History, conns: map<ConnId, Conn>, c: ClientId, cl: Client) {
    match cl.last
    case None => true
    case Some(Saved(version, saved, start)) =>
      && 1 <= version <= |H(h, cl.vid)|
      && H(h, cl.vid)[version-1].blob == Sealed(cl.user, saved)
      && Advances(start, saved)
    case Some(GaveUp(first, k, n0)) =>
      && first.Some?
      && first.value + 2 <= |H(h, cl.vid)|
      && k in conns && conns[k].client == c && Refused(conns[k], n0)
  }

  ghost predicate ClientOk(h: History, conns: map<ConnId, Conn>, c: ClientId, cl: Client) {
    && Covers(h, cl.vid, cl.base, cl.entries, cl.changes)
    && OutcomeOk(h, conns, c, cl)
    && (cl.mode.Boot? ==> cl.conn.None? && cl.entries == [])
    && (cl.conn.Some? ==>
          && cl.conn.value in conns
          && conns[cl.conn.value].client == c
          && PairOk(h, cl.conn.value, cl, conns[cl.conn.value]))
  }

  ghost predicate Inv(s: Sys) {
    && (forall v :: VaultOk(s, v))
    && (forall k :: k in s.conns ==> ConnOk(s.hist, k, s.conns[k]))
    && (forall c :: c in s.clients ==> ClientOk(s.hist, s.conns, c, s.clients[c]))
  }

  lemma InitInv(s: Sys)
    requires Init(s)
    ensures Inv(s)
  {}

  // ----- growth of the history disturbs nothing -----

  lemma CoversGrows(h: History, h': History, vid: VaultId, base: nat, es: seq<Entry>, ch: Changes)
    requires Extends(h, h') && Covers(h, vid, base, es, ch)
    ensures Covers(h', vid, base, es, ch)
  {
    assert H(h, vid) <= H(h', vid);
  }

  lemma ConnGrows(h: History, h': History, k: ConnId, conn: Conn)
    requires Extends(h, h') && ConnOk(h, k, conn)
    ensures ConnOk(h', k, conn)
  {
    if conn.inbox != [] && conn.inbox[0].PutReq? {
      var p := conn.inbox[0].put;
      CoversGrows(h, h', p.vid, p.base, p.blob.entries, p.changes);
    }
    if conn.handler.Checked? {
      var p := conn.handler.put;
      CoversGrows(h, h', p.vid, p.base, p.blob.entries, p.changes);
      assert H(h, p.vid) <= H(h', p.vid);
    }
    forall i | 0 <= i < |conn.acks| ensures AckOk(h', k, conn.acks[i]) {
      assert AckOk(h, k, conn.acks[i]);
      assert H(h, conn.acks[i].vid) <= H(h', conn.acks[i].vid);
    }
  }

  lemma PairGrows(h: History, h': History, k: ConnId, cl: Client, conn: Conn)
    requires Extends(h, h') && PairOk(h, k, cl, conn)
    ensures PairOk(h', k, cl, conn)
  {
    assert H(h, cl.vid) <= H(h', cl.vid);
  }

  // A client is undisturbed by a longer history and by what happens on connections of others.
  lemma ClientGrows(h: History, h': History, conns: map<ConnId, Conn>, conns': map<ConnId, Conn>,
                    c: ClientId, cl: Client)
    requires Extends(h, h') && ClientOk(h, conns, c, cl)
    requires forall k :: k in conns ==> k in conns' && (conns[k].client == c ==> conns'[k] == conns[k])
    ensures ClientOk(h', conns', c, cl)
  {
    CoversGrows(h, h', cl.vid, cl.base, cl.entries, cl.changes);
    assert H(h, cl.vid) <= H(h', cl.vid);
    if cl.conn.Some? {
      PairGrows(h, h', cl.conn.value, cl, conns[cl.conn.value]);
    }
  }

  lemma ExtendsSelf(h: History)
    ensures Extends(h, h)
  {}

  // Connections keep every acknowledgement they have sent.
  ghost predicate ConnsGrow(conns: map<ConnId, Conn>, conns': map<ConnId, Conn>) {
    forall k :: k in conns ==> k in conns' && conns[k].acks <= conns'[k].acks
  }

  lemma VaultKept(s: Sys, s': Sys, vid: VaultId)
    requires VaultOk(s, vid)
    requires H(s'.hist, vid) == H(s.hist, vid) && Lookup(s'.table, vid) == Lookup(s.table, vid)
    requires ConnsGrow(s.conns, s'.conns)
    ensures VaultOk(s', vid)
  {
    forall i | 0 <= i < |H(s.hist, vid)| ensures CommitOk(H(s.hist, vid), s'.conns, vid, i) {
      assert CommitOk(H(s.hist, vid), s.conns, vid, i);
      var a := AckRecord(vid, i + 1, H(s.hist, vid)[i].ticket.n, i);
      var k := H(s.hist, vid)[i].ticket.conn;
      assert a in s.conns[k].acks && s.conns[k].acks <= s'.conns[k].acks;
    }
  }

  lemma VaultsKept(s: Sys, s': Sys)
    requires forall v :: VaultOk(s, v)
    requires s'.hist == s.hist && s'.table == s.table && ConnsGrow(s.conns, s'.conns)
    ensures forall v :: VaultOk(s', v)
  {
    forall v ensures VaultOk(s', v) { VaultKept(s, s', v); }
  }

  // A step that leaves the table alone and changes one client and one connection of that
  // client keeps the invariant if it does so for those two.
  lemma LocalStep(s: Sys, s': Sys, c: ClientId, k: ConnId)
    requires Inv(s)
    requires s'.table == s.table && s'.hist == s.hist
    requires c in s.clients && c in s'.clients
    requires s'.clients == s.clients[c := s'.clients[c]]
    requires s'.conns == s.conns || (k in s'.conns && s'.conns == s.conns[k := s'.conns[k]])
    requires k in s.conns ==> s.conns[k].client == c && k in s'.conns && s.conns[k].acks <= s'.conns[k].acks
    requires k in s'.conns ==> ConnOk(s'.hist, k, s'.conns[k])
    requires ClientOk(s'.hist, s'.conns, c, s'.clients[c])
    ensures Inv(s')
  {
    ExtendsSelf(s.hist);
    VaultsKept(s, s');
    forall c' | c' in s'.clients ensures ClientOk(s'.hist, s'.conns, c', s'.clients[c']) {
      if c' != c {
        ClientGrows(s.hist, s'.hist, s.conns, s'.conns, c', s.clients[c']);
      }
    }
  }

  // ----- what the local operations preserve -----

  lemma PreservesRefl(es: seq<Entry>)
    ensures Preserves(es, es, NO_CHANGES)
    ensures Advances(es, es)
  {}

  lemma {:induction false} ByIdElsewhere(a: seq<Entry>, mid: seq<Entry>, mid': seq<Entry>, z: seq<Entry>, k: string)
    requires |mid| <= 1 && |mid'| <= 1
    requires mid != [] ==> mid[0].id != k
    requires mid' != [] ==> mid'[0].id != k
    ensures k in ById(a + mid + z) <==> k in ById(a + mid' + z)
    ensures k in ById(a + mid + z) ==> ById(a + mid + z)[k] == ById(a + mid' + z)[k]
  {
    if z == [] {
      assert a + mid + z == a + mid && a + mid' + z == a + mid';
      if mid == [] { assert a + mid == a; } else { ByIdSnoc(a, mid[0]); assert a + mid == a + [mid[0]]; }
      if mid' == [] { assert a + mid' == a; } else { ByIdSnoc(a, mid'[0]); assert a + mid' == a + [mid'[0]]; }
    } else {
      var init, last := z[..|z|-1], z[|z|-1];
      ByIdElsewhere(a, mid, mid', init, k);
      assert a + mid + z == (a + mid + init) + [last];
      assert a + mid' + z == (a + mid' + init) + [last];
      ByIdSnoc(a + mid + init, last);
      ByIdSnoc(a + mid' + init, last);
    }
  }

  lemma AddPreserves(was: seq<Entry>, es: seq<Entry>, ch: Changes, e: Entry)
    requires Preserves(was, es, ch)
    ensures Preserves(was, es + [e], ch.(edited := ch.edited + {e.id}))
  {
    ByIdSnoc(es, e);
  }

  lemma EditPreserves(was: seq<Entry>, es: seq<Entry>, ch: Changes, i: nat, e: Entry)
    requires Preserves(was, es, ch) && i < |es| && es[i].id == e.id
    ensures Preserves(was, es[i := e], ch.(edited := ch.edited + {e.id}))
  {
    assert es == es[..i] + [es[i]] + es[i+1..];
    assert es[i := e] == es[..i] + [e] + es[i+1..];
    IdAt(es[i := e], i);
    forall k | k in Ids(was) && k !in ch.removed && k != e.id
      ensures k in Ids(es[i := e]) && ById(es[i := e])[k] == ById(es)[k]
    {
      ByIdElsewhere(es[..i], [es[i]], [e], es[i+1..], k);
    }
  }

  lemma RemovePreserves(was: seq<Entry>, es: seq<Entry>, ch: Changes, i: nat)
    requires Preserves(was, es, ch) && i < |es|
    ensures Preserves(was, es[..i] + es[i+1..], ch.(removed := ch.removed + {es[i].id}))
  {
    assert es == es[..i] + [es[i]] + es[i+1..];
    assert es[..i] + es[i+1..] == es[..i] + [] + es[i+1..];
    forall k | k in Ids(was) && k !in ch.removed && k != es[i].id
      ensures k in Ids(es[..i] + es[i+1..]) && ById(es[..i] + es[i+1..])[k] == ById(es)[k]
    {
      ByIdElsewhere(es[..i], [es[i]], [], es[i+1..], k);
    }
  }

  // A merge makes the local vault safe to commit on top of the merged version, whatever was
  // edited or removed before, and never moves a local entry back.
  lemma MergePreserves(mine: seq<Entry>, theirs: seq<Entry>)
    ensures Preserves(theirs, Merge(mine, theirs), NO_CHANGES)
    ensures Advances(mine, Merge(mine, theirs))
  {
    MergeById(mine, theirs);
    forall k | k in Ids(theirs)
      ensures k in Ids(Merge(mine, theirs)) && Keeps(ById(theirs)[k], ById(Merge(mine, theirs))[k])
    {
      MergeMapServer(ById(mine), theirs, k);
    }
    forall k | k in Ids(mine)
      ensures k in Ids(Merge(mine, theirs)) &&
              ById(Merge(mine, theirs))[k].updatedAt >= ById(mine)[k].updatedAt
    {
      MergeMapLocal(ById(mine), theirs, k);
    }
  }

  lemma AdvancesTrans(a: seq<Entry>, b: seq<Entry>, c: seq<Entry>)
    requires Advances(a, b) && Advances(b, c)
    ensures Advances(a, c)
  {}

  // ----- client actions -----

  // A client at rest may change its entries as long as they stay safe on top of its base.
  lemma EntriesChange(h: History, conns: map<ConnId, Conn>, c: ClientId, cl: Client, cl': Client)
    requires ClientOk(h, conns, c, cl) && cl.mode.Ready?
    requires cl' == cl.(entries := cl'.entries, changes := cl'.changes)
    requires cl.base > 0 ==>
               Preserves(H(h, cl.vid)[cl.base-1].blob.entries, cl'.entries, cl'.changes)
    ensures ClientOk(h, conns, c, cl')
  {}

  lemma CommandInv(s: Sys, a: Action)
    requires Inv(s) && Enabled(s, a)
    requires a.AddEntry? || a.EditEntry? || a.RemoveEntry?
    ensures Inv(Apply(s, a))
  {
    var s' := Apply(s, a);
    var c := a.c;
    var cl, cl' := s.clients[c], s'.clients[c];
    assert ClientOk(s.hist, s.conns, c, cl);
    if cl.base > 0 {
      var was := H(s.hist, cl.vid)[cl.base-1].blob.entries;
      match a
      case AddEntry(_, e) => AddPreserves(was, cl.entries, cl.changes, e);
      case EditEntry(_, i, e) => EditPreserves(was, cl.entries, cl.changes, i, e);
      case RemoveEntry(_, i) => RemovePreserves(was, cl.entries, cl.changes, i);
    }
    EntriesChange(s.hist, s.conns, c, cl, cl');
    ClientStep(s, s', c);
  }

  // The same for a step that changes one client and no connection.
  lemma ClientStep(s: Sys, s': Sys, c: ClientId)
    requires Inv(s)
    requires s'.table == s.table && s'.hist == s.hist && s'.conns == s.conns
    requires c in s.clients && c in s'.clients
    requires s'.clients == s.clients[c := s'.clients[c]]
    requires ClientOk(s'.hist, s'.conns, c, s'.clients[c])
    ensures Inv(s')
  {
    VaultsKept(s, s');
  }

  lemma AbortInv(s: Sys, c: ClientId)
    requires Inv(s) && Enabled(s, Abort(c))
    ensures Inv(Apply(s, Abort(c)))
  {
    ClientStep(s, Apply(s, Abort(c)), c);
  }

  lemma ConnectInv(s: Sys, c: ClientId, k: ConnId)
    requires Inv(s) && Enabled(s, Connect(c, k))
    ensures Inv(Apply(s, Connect(c, k)))
  {
    LocalStep(s, Apply(s, Connect(c, k)), c, k);
  }

  // A client at rest sends a request: its connection stays well formed, a call that gave up
  // stays refused, and the two agree on the request.
  lemma RequestSent(h: History, k: ConnId, cl: Client, conn: Conn, cl': Client, req: Request)
    requires ConnOk(h, k, conn) && PairOk(h, k, cl, conn) && cl.mode.Ready?
    requires Covers(h, cl.vid, cl.base, cl.entries, cl.changes)
    requires || (cl' == cl.(mode := Fetching(Pull)) && req == Get(cl.vid))
             || (cl' == cl.(mode := Putting(Sync(1, cl.entries, None, conn.issued)))
                 && req == PutReq(PutOf(cl, conn.issued)))
    ensures ConnOk(h, k, Send(conn, req)) && PairOk(h, k, cl', Send(conn, req))
    ensures forall n0 :: Refused(conn, n0) ==> Refused(Send(conn, req), n0)
  {
    PreservesRefl(cl.entries);
  }

  lemma SenderOk(h: History, conns: map<ConnId, Conn>, c: ClientId, k: ConnId, cl: Client, conn': Conn, cl': Client)
    requires ClientOk(h, conns, c, cl) && cl.conn == Some(k) && cl' == cl.(mode := cl'.mode) && !cl'.mode.Boot?
    requires conn'.client == c && PairOk(h, k, cl', conn')
    requires forall n0 :: Refused(conns[k], n0) ==> Refused(conn', n0)
    ensures ClientOk(h, conns[k := conn'], c, cl')
  {}

  lemma SendInv(s: Sys, s': Sys, c: ClientId, k: ConnId, cl': Client, req: Request)
    requires Inv(s) && CanSend(s, c) && s.clients[c].conn == Some(k)
    requires var cl := s.clients[c];
             || (cl' == cl.(mode := Fetching(Pull)) && req == Get(cl.vid))
             || (cl' == cl.(mode := Putting(Sync(1, cl.entries, None, s.conns[k].issued)))
                 && req == PutReq(PutOf(cl, s.conns[k].issued)))
    requires s' == s.(clients := s.clients[c := cl'], conns := s.conns[k := Send(s.conns[k], req)])
    ensures Inv(s')
  {
    assert ClientOk(s.hist, s.conns, c, s.clients[c]);
    RequestSent(s.hist, k, s.clients[c], s.conns[k], cl', req);
    SenderOk(s.hist, s.conns, c, k, s.clients[c], Send(s.conns[k], req), cl');
    LocalStep(s, s', c, k);
  }

  lemma StartPullInv(s: Sys, c: ClientId)
    requires Inv(s) && Enabled(s, StartPull(c))
    ensures Inv(Apply(s, StartPull(c)))
  {
    var cl := s.clients[c];
    SendInv(s, Apply(s, StartPull(c)), c, cl.conn.value, cl.(mode := Fetching(Pull)), Get(cl.vid));
  }

  lemma StartSyncInv(s: Sys, c: ClientId)
    requires Inv(s) && Enabled(s, StartSync(c))
    ensures Inv(Apply(s, StartSync(c)))
  {
    var cl := s.clients[c];
    var k := cl.conn.value;
    var n := s.conns[k].issued;
    SendInv(s, Apply(s, StartSync(c)), c, k,
            cl.(mode := Putting(Sync(1, cl.entries, None, n))), PutReq(PutOf(cl, n)));
  }

  // ----- a client takes a reply -----

  // The client and its connection after a reply, as `Apply` leaves them.
  ghost predicate ReceiveOk(s: Sys, c: ClientId, k: ConnId, cl': Client, conn': Conn) {
    && ConnOk(s.hist, k, conn')
    && k in s.conns && s.conns[k].client == c == conn'.client && s.conns[k].acks <= conn'.acks
    && cl'.conn == Some(k)
    && ClientOk(s.hist, s.conns[k := conn'], c, cl')
  }

  lemma NextAttemptOk(s: Sys, c: ClientId, k: ConnId, cl: Client, conn: Conn, sync: Sync)
    requires k in s.conns && s.conns[k].client == c == conn.client && conn.user == cl.user
    requires s.conns[k].acks == conn.acks
    requires cl.conn == Some(k) && cl.mode.Fetching?
    requires ConnOk(s.hist, k, conn) && Quiet(conn)
    requires Covers(s.hist, cl.vid, cl.base, cl.entries, cl.changes)
    requires OutcomeOk(s.hist, s.conns[k := conn], c, cl)
    requires 1 <= sync.attempt <= 3 && conn.issued == sync.n0 + sync.attempt
    requires Advances(sync.start, cl.entries)
    requires OwnAcks(conn, sync.n0)
    requires sync.first.None? ==> sync.attempt == 1 && ForeignTo(s.hist, cl.vid, cl.user)
    requires sync.first.Some? ==> OwnedBy(s.hist, cl.vid, cl.user) &&
                                  cl.base + 1 >= sync.first.value + sync.attempt
    ensures var (cl', req) := NextAttempt(cl, sync, k, conn.issued);
            ReceiveOk(s, c, k, cl', SendAll(conn, req))
  {
    var (cl', req) := NextAttempt(cl, sync, k, conn.issued);
    var conn' := SendAll(conn, req);
    if sync.attempt < 3 {
      assert SyncOk(s.hist, cl', conn', cl'.mode.sync);
    } else {
      assert Refused(conn, sync.n0);
    }
  }

  lemma OnDataOk(s: Sys, c: ClientId, k: ConnId, cl: Client, conn: Conn, why: Why, r: Reply)
    requires k in s.conns && s.conns[k].client == c == conn.client && conn.user == cl.user
    requires s.conns[k].acks == conn.acks
    requires cl.conn == Some(k) && cl.mode == Fetching(why) && r.Data?
    requires ConnOk(s.hist, k, conn) && Quiet(conn)
    requires OutcomeOk(s.hist, s.conns[k := conn], c, cl)
    requires GetReplyOk(s.hist, cl, why, r)
    requires why.Retry? ==> SyncOk(s.hist, cl, conn, why.sync) && (why.sync.first.Some? || why.sync.attempt == 1)
    ensures var (cl', req) := OnData(cl, why, r.version, r.blob, k, conn.issued);
            ReceiveOk(s, c, k, cl', SendAll(conn, req))
  {
    var theirs := r.blob.entries;
    PreservesRefl(theirs);
    MergePreserves(cl.entries, theirs);
    var mine := if why.Login? then theirs else Merge(cl.entries, theirs);
    var cl1 := cl.(base := r.version, entries := mine, changes := NO_CHANGES);
    assert Covers(s.hist, cl.vid, r.version, mine, NO_CHANGES);
    if why.Retry? {
      var sync := why.sync;
      AdvancesTrans(sync.start, cl.entries, mine);
      NextAttemptOk(s, c, k, cl1, conn,
                    sync.(first := if sync.first.None? then Some(r.version) else sync.first));
    }
  }

  lemma OnReplyOk(s: Sys, c: ClientId, k: ConnId, cl: Client, conn: Conn)
    requires k in s.conns && s.conns[k] == conn && conn.client == c
    requires cl.conn == Some(k) && (cl.mode.Fetching? || cl.mode.Putting?)
    requires ConnOk(s.hist, k, conn) && ClientOk(s.hist, s.conns, c, cl)
    requires conn.outbox != []
    ensures var (cl', req) := OnReply(cl, conn.outbox[0], k, conn.issued);
            ReceiveOk(s, c, k, cl', SendAll(conn.(outbox := conn.outbox[1..]), req))
  {
    var r := conn.outbox[0];
    var quiet := conn.(outbox := conn.outbox[1..]);
    assert Answered(conn);
    assert Quiet(quiet) && ConnOk(s.hist, k, quiet);
    if cl.mode.Fetching? {
      var why := cl.mode.why;
      if why.Retry? { assert OwnAcks(quiet, why.sync.n0); }
      if r.Data? {
        OnDataOk(s, c, k, cl, quiet, why, r);
      } else if why.Retry? {
        NextAttemptOk(s, c, k, cl, quiet, why.sync);
      }
    } else {
      OnPutReplyOk(s, c, k, cl, conn);
    }
  }

  lemma OnPutReplyOk(s: Sys, c: ClientId, k: ConnId, cl: Client, conn: Conn)
    requires k in s.conns && s.conns[k] == conn && conn.client == c
    requires cl.conn == Some(k) && cl.mode.Putting?
    requires ConnOk(s.hist, k, conn) && ClientOk(s.hist, s.conns, c, cl)
    requires Answered(conn)
    ensures var (cl', req) := OnReply(cl, conn.outbox[0], k, conn.issued);
            ReceiveOk(s, c, k, cl', SendAll(conn.(outbox := conn.outbox[1..]), req))
  {
    var sync := cl.mode.sync;
    var r := conn.outbox[0];
    var quiet := conn.(outbox := conn.outbox[1..]);
    PreservesRefl(cl.entries);
    match r
    case Ack(_, version) =>
      assert Covers(s.hist, cl.vid, version, cl.entries, NO_CHANGES);
    case Conflict =>
      var conn' := Send(quiet, Get(cl.vid));
      assert OwnAcks(conn', sync.n0);
      assert FetchingOk(s.hist, cl.(mode := Fetching(Retry(sync))), conn', Retry(sync));
    case _ =>
  }

  lemma ReceiveInv(s: Sys, c: ClientId)
    requires Inv(s) && Enabled(s, Receive(c))
    ensures Inv(Apply(s, Receive(c)))
  {
    var k := s.clients[c].conn.value;
    assert ClientOk(s.hist, s.conns, c, s.clients[c]);
    assert ConnOk(s.hist, k, s.conns[k]);
    OnReplyOk(s, c, k, s.clients[c], s.conns[k]);
    LocalStep(s, Apply(s, Receive(c)), c, k);
  }

  // ----- server actions -----

  // A step that leaves the clients alone and changes one connection keeps the invariant if
  // that connection and its client still agree.
  lemma ServerStep(s: Sys, s': Sys, k: ConnId)
    requires Inv(s)
    requires s'.clients == s.clients
    requires k in s.conns && k in s'.conns && s'.conns == s.conns[k := s'.conns[k]]
    requires s'.conns[k].client == s.conns[k].client
    requires Extends(s.hist, s'.hist)
    requires forall v :: VaultOk(s', v)
    requires ConnOk(s'.hist, k, s'.conns[k])
    requires var c := s.conns[k].client; c in s.clients ==> ClientOk(s'.hist, s'.conns, c, s.clients[c])
    ensures Inv(s')
  {
    forall k' | k' in s'.conns ensures ConnOk(s'.hist, k', s'.conns[k']) {
      if k' != k { ConnGrows(s.hist, s'.hist, k', s.conns[k']); }
    }
    forall c' | c' in s'.clients ensures ClientOk(s'.hist, s'.conns, c', s'.clients[c']) {
      if c' != s.conns[k].client {
        ClientGrows(s.hist, s'.hist, s.conns, s'.conns, c', s.clients[c']);
      }
    }
  }

  // A client that is not using connection k only cares about the PUTs refused on it.
  lemma ZombieStep(s: Sys, s': Sys, k: ConnId, c: ClientId)
    requires Inv(s) && c in s.clients
    requires k in s.conns && k in s'.conns && s'.conns == s.conns[k := s'.conns[k]]
    requires s.conns[k].client == c == s'.conns[k].client
    requires Extends(s.hist, s'.hist)
    requires forall n0 :: Refused(s.conns[k], n0) ==> Refused(s'.conns[k], n0)
    requires s.clients[c].conn == Some(k) ==> PairOk(s'.hist, k, s.clients[c], s'.conns[k])
    ensures ClientOk(s'.hist, s'.conns, c, s.clients[c])
  {
    var cl := s.clients[c];
    assert ClientOk(s.hist, s.conns, c, cl);
    CoversGrows(s.hist, s'.hist, cl.vid, cl.base, cl.entries, cl.changes);
    assert H(s.hist, cl.vid) <= H(s'.hist, cl.vid);
    if cl.conn.Some? && cl.conn.value != k {
      PairGrows(s.hist, s'.hist, cl.conn.value, cl, s.conns[cl.conn.value]);
    }
  }

  // A handler's step keeps the invariant if its connection stays well formed, PUTs refused
  // stay refused, and the client using it still agrees with it.
  lemma HandlerStep(s: Sys, s': Sys, k: ConnId)
    requires Inv(s) && s'.clients == s.clients
    requires k in s.conns && k in s'.conns && s'.conns == s.conns[k := s'.conns[k]]
    requires s'.conns[k].client == s.conns[k].client
    requires Extends(s.hist, s'.hist)
    requires forall v :: VaultOk(s', v)
    requires ConnOk(s'.hist, k, s'.conns[k])
    requires forall n0 :: Refused(s.conns[k], n0) ==> Refused(s'.conns[k], n0)
    requires var c := s.conns[k].client;
             c in s.clients && s.clients[c].conn == Some(k) ==> PairOk(s'.hist, k, s.clients[c], s'.conns[k])
    ensures Inv(s')
  {
    if s.conns[k].client in s.clients {
      ZombieStep(s, s', k, s.conns[k].client);
    }
    ServerStep(s, s', k);
  }

  // What the invariant says about one connection and the client that opened it.
  lemma AboutConn(s: Sys, k: ConnId)
    requires Inv(s) && k in s.conns
    ensures ConnOk(s.hist, k, s.conns[k])
    ensures var c := s.conns[k].client;
            c in s.clients && s.clients[c].conn == Some(k) ==>
              && PairOk(s.hist, k, s.clients[c], s.conns[k])
              && s.clients[c].base <= |H(s.hist, s.clients[c].vid)|
  {
    var c := s.conns[k].client;
    if c in s.clients {
      assert ClientOk(s.hist, s.conns, c, s.clients[c]);
    }
  }

  lemma KilledConn(h: History, k: ConnId, conn: Conn, conn': Conn)
    requires ConnOk(h, k, conn) && conn' == conn.(handler := Dead, inbox := [])
    ensures ConnOk(h, k, conn')
    ensures forall n0 :: Refused(conn, n0) ==> Refused(conn', n0)
  {}

  lemma KilledPair(h: History, k: ConnId, cl: Client, conn: Conn, conn': Conn)
    requires PairOk(h, k, cl, conn) && conn' == conn.(handler := Dead, inbox := [])
    ensures PairOk(h, k, cl, conn')
  {
    if cl.mode.Fetching? && cl.mode.why.Retry? {
      assert OwnAcks(conn', cl.mode.why.sync.n0);
    }
    if cl.mode.Putting? {
      assert OwnAcks(conn', cl.mode.sync.n0);
    }
  }

  lemma KillInv(s: Sys, k: ConnId)
    requires Inv(s) && Enabled(s, Kill(k))
    ensures Inv(Apply(s, Kill(k)))
  {
    var s' := Apply(s, Kill(k));
    var c := s.conns[k].client;
    AboutConn(s, k);
    KilledConn(s.hist, k, s.conns[k], s'.conns[k]);
    if c in s.clients && s.clients[c].conn == Some(k) {
      KilledPair(s.hist, k, s.clients[c], s.conns[k], s'.conns[k]);
    }
    ExtendsSelf(s.hist);
    VaultsKept(s, s');
    HandlerStep(s, s', k);
  }

  // ----- the handler's read -----

  lemma RowMeans(s: Sys, vid: VaultId)
    requires VaultOk(s, vid)
    ensures Lookup(s.table, vid).None? <==> H(s.hist, vid) == []
    ensures Lookup(s.table, vid).Some? ==>
              var row, cs := s.table[vid], H(s.hist, vid);
              row.version == |cs| && row.userId == cs[0].user && row.blob == cs[|cs|-1].blob &&
              row.blob.Sealed? && row.blob.key == row.userId
  {
    if H(s.hist, vid) != [] {
      assert CommitOk(H(s.hist, vid), s.conns, vid, |H(s.hist, vid)| - 1);
    }
  }

  lemma ServePair(s: Sys, k: ConnId, cl: Client)
    requires VaultOk(s, cl.vid) && Enabled(s, Serve(k)) && cl.base <= |H(s.hist, cl.vid)|
    requires PairOk(s.hist, k, cl, s.conns[k])
    ensures PairOk(s.hist, k, cl, Served(s, k))
  {
    var conn, conn' := s.conns[k], Served(s, k);
    RowMeans(s, cl.vid);
    match cl.mode {
      case Fetching(why) =>
        assert conn.inbox[0] == Get(cl.vid);
        if why.Retry? { assert OwnAcks(conn', why.sync.n0); }
      case Putting(sync) =>
        assert conn.inbox[0] == PutReq(PutOf(cl, conn.issued - 1));
        assert OwnAcks(conn', sync.n0);
      case _ =>
    }
  }

  lemma ServeConn(s: Sys, k: ConnId)
    requires Enabled(s, Serve(k)) && ConnOk(s.hist, k, s.conns[k])
    requires s.conns[k].inbox[0].PutReq? ==> VaultOk(s, s.conns[k].inbox[0].put.vid)
    ensures ConnOk(s.hist, k, Served(s, k))
    ensures forall n0 :: Refused(s.conns[k], n0) ==> Refused(Served(s, k), n0)
  {
    var conn := s.conns[k];
    if conn.inbox[0].PutReq? {
      RowMeans(s, conn.inbox[0].put.vid);
    }
  }

  lemma ServeChangesOneConn(s: Sys, k: ConnId)
    requires Enabled(s, Serve(k))
    ensures var s', conn' := Apply(s, Serve(k)), Served(s, k);
            && s' == s.(conns := s.conns[k := conn'])
            && conn'.client == s.conns[k].client && conn'.acks == s.conns[k].acks
            && ConnsGrow(s.conns, s'.conns)
  {}

  lemma ServeInv(s: Sys, k: ConnId)
    requires Inv(s) && Enabled(s, Serve(k))
    ensures Inv(Apply(s, Serve(k)))
  {
    var s' := Apply(s, Serve(k));
    var c := s.conns[k].client;
    ServeChangesOneConn(s, k);
    AboutConn(s, k);
    ServeConn(s, k);
    if c in s.clients && s.clients[c].conn == Some(k) {
      ServePair(s, k, s.clients[c]);
    }
    ExtendsSelf(s.hist);
    VaultsKept(s, s');
    HandlerStep(s, s', k);
  }

  // ----- the conditional upsert -----

  lemma UpsertExtends(s: Sys, k: ConnId, ts: nat)
    requires Enabled(s, Upsert(k, ts))
    ensures Extends(s.hist, Apply(s, Upsert(k, ts)).hist)
  {}

  // The new version satisfies everything a committed version must.
  lemma UpsertVault(s: Sys, k: ConnId, ts: nat)
    requires Enabled(s, Upsert(k, ts)) && ConnOk(s.hist, k, s.conns[k]) && VaultOk(s, s.conns[k].handler.put.vid)
    requires var cc := s.conns[k].handler; UpsertHits(s.table, cc.put.vid, s.conns[k].user, cc.newVersion)
    ensures VaultOk(Apply(s, Upsert(k, ts)), s.conns[k].handler.put.vid)
  {
    var s' := Apply(s, Upsert(k, ts));
    var conn := s.conns[k];
    var p := conn.handler.put;
    var cs, cs' := H(s.hist, p.vid), H(s'.hist, p.vid);
    RowMeans(s, p.vid);
    assert p.base == |cs|;
    forall i | 0 <= i < |cs'| ensures CommitOk(cs', s'.conns, p.vid, i) {
      if i < |cs| {
        assert CommitOk(cs, s.conns, p.vid, i);
        if i > 0 { assert CommitOk(cs, s.conns, p.vid, i - 1); }
        var a := AckRecord(p.vid, i + 1, cs[i].ticket.n, i);
        var k' := cs[i].ticket.conn;
        assert a in s.conns[k'].acks && s.conns[k'].acks <= s'.conns[k'].acks;
      } else {
        if i > 0 { assert CommitOk(cs, s.conns, p.vid, i - 1); assert CommitOk(cs, s.conns, p.vid, 0); }
        assert s'.conns[k].acks[|conn.acks|] == AckRecord(p.vid, i + 1, p.n, i);
      }
    }
  }

  lemma UpsertPair(s: Sys, k: ConnId, ts: nat, cl: Client)
    requires Enabled(s, Upsert(k, ts)) && ConnOk(s.hist, k, s.conns[k]) && VaultOk(s, s.conns[k].handler.put.vid)
    requires PairOk(s.hist, k, cl, s.conns[k])
    ensures PairOk(Apply(s, Upsert(k, ts)).hist, k, cl, Apply(s, Upsert(k, ts)).conns[k])
  {
    var s' := Apply(s, Upsert(k, ts));
    var conn, conn' := s.conns[k], s'.conns[k];
    UpsertExtends(s, k, ts);
    assert H(s.hist, cl.vid) <= H(s'.hist, cl.vid);
    RowMeans(s, conn.handler.put.vid);
    if cl.mode.Putting? {
      assert conn.handler.put == PutOf(cl, conn.issued - 1);
      assert OwnAcks(conn', cl.mode.sync.n0);
    }
  }

  // One more acknowledgement, for the PUT that was in flight.
  lemma AcksGrow(h: History, k: ConnId, conn: Conn, conn': Conn, a: AckRecord)
    requires AcksOk(h, k, conn) && InFlight(conn) && !InFlight(conn')
    requires conn'.acks == conn.acks + [a] && conn'.issued == conn.issued
    requires a.n + 1 == conn.issued && AckOk(h, k, a)
    ensures AcksOk(h, k, conn')
    ensures forall n0 :: Refused(conn, n0) ==> Refused(conn', n0)
  {}

  lemma UpsertConn(s: Sys, k: ConnId, ts: nat)
    requires Enabled(s, Upsert(k, ts)) && ConnOk(s.hist, k, s.conns[k]) && VaultOk(s, s.conns[k].handler.put.vid)
    ensures ConnOk(Apply(s, Upsert(k, ts)).hist, k, Apply(s, Upsert(k, ts)).conns[k])
    ensures forall n0 :: Refused(s.conns[k], n0) ==> Refused(Apply(s, Upsert(k, ts)).conns[k], n0)
  {
    var s' := Apply(s, Upsert(k, ts));
    var conn, conn' := s.conns[k], s'.conns[k];
    var p := conn.handler.put;
    UpsertExtends(s, k, ts);
    ConnGrows(s.hist, s'.hist, k, conn);
    if UpsertHits(s.table, p.vid, conn.user, conn.handler.newVersion) {
      RowMeans(s, p.vid);
      AcksGrow(s'.hist, k, conn, conn', AckRecord(p.vid, p.base + 1, p.n, p.base));
    }
  }

  lemma UpsertVaults(s: Sys, k: ConnId, ts: nat)
    requires (forall v :: VaultOk(s, v)) && Enabled(s, Upsert(k, ts)) && ConnOk(s.hist, k, s.conns[k])
    ensures forall v :: VaultOk(Apply(s, Upsert(k, ts)), v)
  {
    var s' := Apply(s, Upsert(k, ts));
    var p := s.conns[k].handler.put;
    assert s.conns[k].acks <= s'.conns[k].acks;
    forall v ensures VaultOk(s', v) {
      if v == p.vid && UpsertHits(s.table, p.vid, s.conns[k].user, s.conns[k].handler.newVersion) {
        UpsertVault(s, k, ts);
      } else {
        VaultKept(s, s', v);
      }
    }
  }

  lemma UpsertInv(s: Sys, k: ConnId, ts: nat)
    requires Inv(s) && Enabled(s, Upsert(k, ts))
    ensures Inv(Apply(s, Upsert(k, ts)))
  {
    var s' := Apply(s, Upsert(k, ts));
    var c := s.conns[k].client;
    AboutConn(s, k);
    assert VaultOk(s, s.conns[k].handler.put.vid);
    UpsertExtends(s, k, ts);
    UpsertConn(s, k, ts);
    UpsertVaults(s, k, ts);
    if c in s.clients && s.clients[c].conn == Some(k) {
      UpsertPair(s, k, ts, s.clients[c]);
    }
    HandlerStep(s, s', k);
  }

  // ----- every action, every run -----

  lemma StepInv(s: Sys, a: Action)
    requires Inv(s) && Enabled(s, a)
    ensures Inv(Apply(s, a))
  {
    match a
    case AddEntry(_, _) => CommandInv(s, a);
    case EditEntry(_, _, _) => CommandInv(s, a);
    case RemoveEntry(_, _) => CommandInv(s, a);
    case Connect(c, k) => ConnectInv(s, c, k);
    case StartPull(c) => StartPullInv(s, c);
    case StartSync(c) => StartSyncInv(s, c);
    case Receive(c) => ReceiveInv(s, c);
    case Abort(c) => AbortInv(s, c);
    case Serve(k) => ServeInv(s, k);
    case Upsert(k, ts) => UpsertInv(s, k, ts);
    case Kill(k) => KillInv(s, k);
  }

  lemma {:induction false} RunInv(s: Sys, run: seq<Action>)
    requires Inv(s) && IsRun(s, run)
    ensures Inv(After(s, run))
    decreases |run|
  {
    if run != [] {
      StepInv(s, run[0]);
      RunInv(Apply(s, run[0]), run[1..]);
    }
  }
}
