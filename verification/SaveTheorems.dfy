// What the save protocol guarantees over every run, for any number of users, clients,
// vaults, connections and handlers, in every interleaving.
module SaveTheorems {
  import opened Common
  import opened Vaults
  import opened Database
  import opened SaveProtocol
  import opened SaveInvariant

  ghost predicate Reachable(s: Sys) {
    exists s0: Sys, run: seq<Action> :: Init(s0) && IsRun(s0, run) && s == After(s0, run)
  }

  lemma ReachableInv(s: Sys)
    requires Reachable(s)
    ensures Inv(s)
  {
    var s0: Sys, run: seq<Action> :| Init(s0) && IsRun(s0, run) && s == After(s0, run);
    InitInv(s0);
    RunInv(s0, run);
  }

  function Contents(s: Sys, vid: VaultId, version: nat): seq<Entry>
    requires 1 <= version <= |H(s.hist, vid)|
  {
    var blob := H(s.hist, vid)[version-1].blob;
    if blob.Sealed? then blob.entries else []
  }

  // ----- no lost update -----

  // From each committed version to the next, an id disappears only if the user of the client
  // that committed the next one removed it since that client last caught up; and an entry
  // that user did not touch either keeps its content or gives way to a strictly newer one.
  lemma NoLostUpdate(s: Sys, vid: VaultId, version: nat)
    requires Reachable(s)
    requires 1 <= version < |H(s.hist, vid)|
    ensures Preserves(Contents(s, vid, version), Contents(s, vid, version + 1),
                      H(s.hist, vid)[version].changes)
  {
    ReachableInv(s);
    assert VaultOk(s, vid);
    assert CommitOk(H(s.hist, vid), s.conns, vid, version);
  }

  // What a client holds locally is safe to put on top of its base version, at every moment:
  // after logins, reconnects, pulls, lost acknowledgements and conflict retries.
  lemma ClientCoversItsBase(s: Sys, c: ClientId)
    requires Reachable(s) && c in s.clients
    ensures var cl := s.clients[c];
            && cl.base <= |H(s.hist, cl.vid)|
            && (cl.base > 0 ==> Preserves(Contents(s, cl.vid, cl.base), cl.entries, cl.changes))
  {
    ReachableInv(s);
    assert ClientOk(s.hist, s.conns, c, s.clients[c]);
  }

  predicate NoRemovals(run: seq<Action>) {
    forall i :: 0 <= i < |run| ==> !run[i].RemoveEntry?
  }

  ghost predicate PlainRequest(r: Request) { r.PutReq? ==> r.put.changes.removed == {} }

  ghost predicate PlainConn(conn: Conn) {
    && (conn.handler.Checked? ==> conn.handler.put.changes.removed == {})
    && (forall i :: 0 <= i < |conn.inbox| ==> PlainRequest(conn.inbox[i]))
  }

  ghost predicate NothingRemoved(s: Sys) {
    && (forall c :: c in s.clients ==> s.clients[c].changes.removed == {})
    && (forall k :: k in s.conns ==> PlainConn(s.conns[k]))
    && (forall v, i :: 0 <= i < |H(s.hist, v)| ==> H(s.hist, v)[i].changes.removed == {})
  }

  lemma PlainReply(cl: Client, r: Reply, k: ConnId, n: nat)
    requires cl.mode.Fetching? || cl.mode.Putting?
    requires cl.changes.removed == {}
    ensures var (cl', req) := OnReply(cl, r, k, n);
            cl'.changes.removed == {} && (req.Some? ==> PlainRequest(req.value))
  {}

  lemma NothingRemovedReceive(s: Sys, c: ClientId)
    requires NothingRemoved(s) && Enabled(s, Receive(c))
    ensures NothingRemoved(Apply(s, Receive(c)))
  {
    var k := s.clients[c].conn.value;
    assert PlainConn(s.conns[k]);
    PlainReply(s.clients[c], s.conns[k].outbox[0], k, s.conns[k].issued);
  }

  lemma NothingRemovedServe(s: Sys, k: ConnId)
    requires NothingRemoved(s) && Enabled(s, Serve(k))
    ensures NothingRemoved(Apply(s, Serve(k)))
  {
    assert PlainConn(s.conns[k]);
  }

  lemma NothingRemovedStep(s: Sys, a: Action)
    requires NothingRemoved(s) && Enabled(s, a) && !a.RemoveEntry?
    ensures NothingRemoved(Apply(s, a))
  {
    match a
    case Receive(c) => NothingRemovedReceive(s, c);
    case Serve(k) => NothingRemovedServe(s, k);
    case Upsert(k, ts) => NothingRemovedUpsert(s, k, ts);
    case _ =>
  }

  lemma NothingRemovedUpsert(s: Sys, k: ConnId, ts: nat)
    requires NothingRemoved(s) && Enabled(s, Upsert(k, ts))
    ensures NothingRemoved(Apply(s, Upsert(k, ts)))
  {
    var s' := Apply(s, Upsert(k, ts));
    assert PlainConn(s.conns[k]);
    forall v, i | 0 <= i < |H(s'.hist, v)| ensures H(s'.hist, v)[i].changes.removed == {} {
      if i < |H(s.hist, v)| { assert H(s'.hist, v)[i] == H(s.hist, v)[i]; }
    }
  }

  lemma {:induction false} NothingRemovedRun(s: Sys, run: seq<Action>)
    requires NothingRemoved(s) && IsRun(s, run) && NoRemovals(run)
    ensures NothingRemoved(After(s, run))
    decreases |run|
  {
    if run != [] {
      assert !run[0].RemoveEntry?;
      NothingRemovedStep(s, run[0]);
      NothingRemovedRun(Apply(s, run[0]), run[1..]);
    }
  }

  // When no client removes entries, the id set of the committed versions never shrinks.
  lemma {:induction false} IdsNeverShrink(s0: Sys, run: seq<Action>, vid: VaultId, i: nat, j: nat)
    requires Init(s0) && IsRun(s0, run) && NoRemovals(run)
    requires 1 <= i <= j <= |H(After(s0, run).hist, vid)|
    ensures Ids(Contents(After(s0, run), vid, i)) <= Ids(Contents(After(s0, run), vid, j))
    decreases j - i
  {
    if i < j {
      var s := After(s0, run);
      NothingRemovedRun(s0, run);
      NoLostUpdate(s, vid, i);
      IdsNeverShrink(s0, run, vid, i + 1, j);
      assert Ids(Contents(s, vid, i)) <= Ids(Contents(s, vid, i + 1));
    }
  }

  // Then a client holds every id of its base version.
  lemma ClientHoldsItsBase(s0: Sys, run: seq<Action>, c: ClientId)
    requires Init(s0) && IsRun(s0, run) && NoRemovals(run)
    requires c in After(s0, run).clients
    requires After(s0, run).clients[c].base > 0
    ensures var s, cl := After(s0, run), After(s0, run).clients[c];
            cl.base <= |H(s.hist, cl.vid)| && Ids(Contents(s, cl.vid, cl.base)) <= Ids(cl.entries)
  {
    NothingRemovedRun(s0, run);
    ClientCoversItsBase(After(s0, run), c);
  }

  // ----- the role of decryption -----

  // Every blob a waiting client is handed opens under its key.
  lemma FetchedBlobsOpen(s: Sys, c: ClientId)
    requires Reachable(s) && c in s.clients && Enabled(s, Receive(c))
    requires s.conns[s.clients[c].conn.value].outbox[0].Data?
    ensures var r := s.conns[s.clients[c].conn.value].outbox[0];
            && s.clients[c].mode.Fetching?
            && 1 <= r.version <= |H(s.hist, s.clients[c].vid)|
            && Open(s.clients[c].user, r.blob) == Some(Contents(s, s.clients[c].vid, r.version))
  {
    ReachableInv(s);
    assert ClientOk(s.hist, s.conns, c, s.clients[c]);
  }

  // A fetch takes over the version before it opens the blob. Whether the client may then
  // commit on top of that version depends exactly on the blob having opened, or on the local
  // entries having been good enough before.
  lemma FetchIsSafeIffOpened(cl: Client, why: Why, version: nat, blob: Blob, k: ConnId, n: nat)
    requires blob.Sealed?
    ensures var cl' := OnData(cl, why, version, blob, k, n).0;
            && cl'.base == version
            && (Preserves(blob.entries, cl'.entries, cl'.changes) <==>
                Open(cl.user, blob).Some? || Preserves(blob.entries, cl.entries, cl.changes))
  {
    MergePreserves(cl.entries, blob.entries);
    PreservesRefl(blob.entries);
  }

  // ----- what each step leaves in the local vault -----

  // Everything local is still there or gave way to something no older; the ids are those of
  // both sides; an entry only one side has is taken as it is; and an id both have keeps the
  // local entry if its content is the same or it is strictly newer, and takes the other's
  // otherwise. For ids that the other side repeats, what is left has the content of its last
  // entry or is strictly newer than that.
  ghost predicate MergedInto(mine: seq<Entry>, theirs: seq<Entry>, now: seq<Entry>) {
    && Advances(mine, now)
    && Ids(now) == Ids(mine) + Ids(theirs)
    && (forall k :: k in Ids(mine) && k !in Ids(theirs) ==> ById(now)[k] == ById(mine)[k])
    && (forall k :: k in Ids(theirs) ==>
          ById(now)[k].SameContent(ById(theirs)[k]) || ById(now)[k].updatedAt > ById(theirs)[k].updatedAt)
    && (UniqueIds(theirs) ==>
          && (forall k :: k in Ids(theirs) && k !in Ids(mine) ==> ById(now)[k] == ById(theirs)[k])
          && (forall k :: k in Ids(theirs) && k in Ids(mine) ==>
                var l, r := ById(mine)[k], ById(theirs)[k];
                ById(now)[k] == if l.SameContent(r) || l.updatedAt > r.updatedAt then l else r))
  }

  lemma MergeIsMergedInto(mine: seq<Entry>, theirs: seq<Entry>)
    ensures MergedInto(mine, theirs, Merge(mine, theirs))
  {
    MergePreserves(mine, theirs);
    MergeById(mine, theirs);
    MergeMapIds(ById(mine), theirs);
    forall k | k in Ids(mine) && k !in Ids(theirs) ensures ById(Merge(mine, theirs))[k] == ById(mine)[k] {
      MergeMapLocal(ById(mine), theirs, k);
    }
    forall k | k in Ids(theirs)
      ensures var now, r := ById(Merge(mine, theirs))[k], ById(theirs)[k];
              now.SameContent(r) || now.updatedAt > r.updatedAt
    {
      MergeMapServer(ById(mine), theirs, k);
    }
    if UniqueIds(theirs) {
      forall k | k in Ids(theirs)
        ensures var now, r := ById(Merge(mine, theirs))[k], ById(theirs)[k];
                if k !in Ids(mine) then now == r
                else now == if ById(mine)[k].SameContent(r) || ById(mine)[k].updatedAt > r.updatedAt
                            then ById(mine)[k] else r
      {
        MergeAlgebra(mine, theirs, k);
      }
    }
  }

  // A pull, and the fetch after a conflict, merges the committed version into the local vault;
  // the first fetch after a login takes it as it is.
  lemma FetchMerges(s: Sys, c: ClientId)
    requires Reachable(s) && c in s.clients && Enabled(s, Receive(c))
    requires s.conns[s.clients[c].conn.value].outbox[0].Data?
    ensures var cl, cl' := s.clients[c], Apply(s, Receive(c)).clients[c];
            var version := s.conns[cl.conn.value].outbox[0].version;
            && cl.mode.Fetching? && 1 <= version <= |H(s.hist, cl.vid)| && cl'.base == version
            && (if cl.mode.why.Login? then cl'.entries == Contents(s, cl.vid, version)
                else MergedInto(cl.entries, Contents(s, cl.vid, version), cl'.entries))
            && (!cl.mode.why.Retry? ==> cl'.mode == Ready)
  {
    FetchedBlobsOpen(s, c);
    var cl := s.clients[c];
    var conn := s.conns[cl.conn.value];
    OpenedDataMerges(cl, conn.outbox[0], Contents(s, cl.vid, conn.outbox[0].version), cl.conn.value, conn.issued);
  }

  lemma OpenedDataMerges(cl: Client, r: Reply, theirs: seq<Entry>, k: ConnId, n: nat)
    requires cl.mode.Fetching? && r.Data? && Open(cl.user, r.blob) == Some(theirs)
    ensures var cl' := OnReply(cl, r, k, n).0;
            && cl'.base == r.version
            && (if cl.mode.why.Login? then cl'.entries == theirs else MergedInto(cl.entries, theirs, cl'.entries))
            && (!cl.mode.why.Retry? ==> cl'.mode == Ready)
  {
    MergeIsMergedInto(cl.entries, theirs);
  }

  // A reply to a login or a pull ends it and sends nothing. It leaves the client ready, but for
  // a login whose reply is no vault that opens and not the news that there is none; and no
  // such reply comes in a run.
  lemma FetchEnds(s: Sys, c: ClientId)
    requires c in s.clients && Enabled(s, Receive(c))
    requires s.clients[c].mode.Fetching? && !s.clients[c].mode.why.Retry?
    ensures var cl, cl' := s.clients[c], Apply(s, Receive(c)).clients[c];
            var conn := s.conns[cl.conn.value];
            var r := conn.outbox[0];
            && Apply(s, Receive(c)).conns[cl.conn.value].inbox == conn.inbox
            && cl'.base == (if r.Data? then r.version else cl.base)
            && cl'.mode == (if || cl.mode.why.Pull? || r.NotFound?
                               || (r.Data? && r.blob.Sealed? && r.blob.key == cl.user)
                            then Ready else Gone)
            && (Reachable(s) ==> cl'.mode == Ready)
  {
    if Reachable(s) {
      WaitingClientIsServed(s, c);
      if s.conns[s.clients[c].conn.value].outbox[0].Data? {
        FetchedBlobsOpen(s, c);
      }
    }
  }

  // The steps that may change a client's entries: its own commands, and a fetch that brings
  // vault data.
  predicate MayChangeEntries(s: Sys, a: Action, c: ClientId) {
    match a
    case AddEntry(c', _) => c' == c
    case EditEntry(c', _, _) => c' == c
    case RemoveEntry(c', _) => c' == c
    case Receive(c') =>
      && c' == c && c in s.clients && s.clients[c].conn.Some? && s.clients[c].conn.value in s.conns
      && s.conns[s.clients[c].conn.value].outbox != [] && s.conns[s.clients[c].conn.value].outbox[0].Data?
    case _ => false
  }

  // Every other step leaves them as they are: any other reply to a pull, a lost connection, a
  // reconnect, an acknowledgement, and whatever others do.
  lemma EntriesStayOtherwise(s: Sys, a: Action, c: ClientId)
    requires Enabled(s, a) && c in s.clients && !MayChangeEntries(s, a, c)
    ensures c in Apply(s, a).clients && Apply(s, a).clients[c].entries == s.clients[c].entries
  {
    if a == Receive(c) {
      var cl := s.clients[c];
      var conn := s.conns[cl.conn.value];
      ReplyKeepsEntries(cl, conn.outbox[0], cl.conn.value, conn.issued);
    }
  }

  lemma ReplyKeepsEntries(cl: Client, r: Reply, k: ConnId, n: nat)
    requires (cl.mode.Fetching? || cl.mode.Putting?) && !r.Data?
    ensures OnReply(cl, r, k, n).0.entries == cl.entries
  {}

  // A connection starts over at version 0 and keeps the entries.
  lemma ReconnectStartsOver(s: Sys, c: ClientId, k: ConnId)
    requires Enabled(s, Connect(c, k))
    ensures var cl' := Apply(s, Connect(c, k)).clients[c];
            && cl'.base == 0 && cl'.conn == Some(k) && cl'.entries == s.clients[c].entries
            && (cl'.mode.Ready? <==> s.clients[c].mode.Ready?)
  {}

  // A call of do_sync goes on after a reply exactly when its PUT met a conflict, or the fetch
  // after one was answered, with data or without, and a third attempt is not behind it; and
  // then it asks for the vault, or puts its entries on top of its new base version.
  lemma SyncGoesOnIff(s: Sys, c: ClientId)
    requires Reachable(s) && c in s.clients && Enabled(s, Receive(c))
    requires s.clients[c].mode.Putting? || (s.clients[c].mode.Fetching? && s.clients[c].mode.why.Retry?)
    ensures var cl, cl' := s.clients[c], Apply(s, Receive(c)).clients[c];
            var k := cl.conn.value;
            var r, inbox' := s.conns[k].outbox[0], Apply(s, Receive(c)).conns[k].inbox;
            if cl.mode.Putting? then
              && (cl'.mode.Fetching? <==> r.Conflict?)
              && (if r.Conflict? then !s.conns[k].handler.Dead? ==> inbox' == [Get(cl.vid)] else cl'.mode == Ready)
            else
              && (cl'.mode.Putting? <==> cl.mode.why.sync.attempt < 3)
              && (if cl'.mode.Putting? then
                    !s.conns[k].handler.Dead? ==>
                      |inbox'| == 1 && inbox'[0].PutReq? && inbox'[0].put.base == cl'.base
                      && inbox'[0].put.blob == Sealed(cl.user, cl'.entries)
                  else cl'.mode == Ready && cl'.last.Some? && cl'.last.value.GaveUp?)
  {
    ReachableInv(s);
    assert ClientOk(s.hist, s.conns, c, s.clients[c]);
    if s.conns[s.clients[c].conn.value].outbox[0].Data? {
      FetchedBlobsOpen(s, c);
    }
  }

  lemma StepThenRun(s: Sys, a: Action, rest: seq<Action>)
    requires Enabled(s, a) && IsRun(Apply(s, a), rest)
    ensures IsRun(s, [a] + rest) && After(s, [a] + rest) == After(Apply(s, a), rest)
  {
    assert ([a] + rest)[1..] == rest;
  }

  lemma ThreeSteps(s: Sys, a: Action, b: Action, c: Action)
    requires Enabled(s, a) && Enabled(Apply(s, a), b) && Enabled(Apply(Apply(s, a), b), c)
    ensures IsRun(s, [a, b, c]) && After(s, [a, b, c]) == Apply(Apply(Apply(s, a), b), c)
  {
    StepThenRun(Apply(Apply(s, a), b), c, []);
    StepThenRun(Apply(s, a), b, [c] + []);
    StepThenRun(s, a, [b] + ([c] + []));
    assert [a] + ([b] + ([c] + [])) == [a, b, c];
  }

  // A client at rest on a live connection of its own user.
  ghost predicate AtRest(s: Sys, c: ClientId, k: ConnId) {
    && c in s.clients && s.clients[c].mode.Ready? && s.clients[c].conn == Some(k)
    && k in s.conns && s.conns[k].user == s.clients[c].user
    && s.conns[k].inbox == [] && s.conns[k].handler.Idle? && s.conns[k].outbox == []
  }

  // A row of its own that the client cannot open: a pull leaves the local vault as it was
  // and still moves the base version up to the row's.
  lemma FailedPull(s: Sys, c: ClientId, k: ConnId)
    requires AtRest(s, c, k)
    requires s.clients[c].vid in s.table
    requires s.table[s.clients[c].vid].userId == s.clients[c].user
    requires Open(s.clients[c].user, s.table[s.clients[c].vid].blob).None?
    ensures var run := [StartPull(c), Serve(k), Receive(c)];
            && IsRun(s, run)
            && c in After(s, run).clients
            && After(s, run).clients[c] == s.clients[c].(base := s.table[s.clients[c].vid].version)
            && After(s, run).table == s.table && AtRest(After(s, run), c, k)
  {
    var cl := s.clients[c];
    var row := s.table[cl.vid];
    var s1 := Apply(s, StartPull(c));
    assert s1.conns[k].inbox == [Get(cl.vid)];
    var s2 := Apply(s1, Serve(k));
    assert s2.conns[k].outbox == [Data(cl.vid, row.version, row.blob)];
    ThreeSteps(s, StartPull(c), Serve(k), Receive(c));
  }

  // A sync on top of the current version of one's own row replaces it by the local vault.
  lemma SyncOnCurrentRow(s: Sys, c: ClientId, k: ConnId, ts: nat)
    requires AtRest(s, c, k)
    requires s.clients[c].vid in s.table
    requires s.table[s.clients[c].vid].userId == s.clients[c].user
    requires s.clients[c].base == s.table[s.clients[c].vid].version
    ensures var run, cl := [StartSync(c), Serve(k), Upsert(k, ts)], s.clients[c];
            && IsRun(s, run)
            && After(s, run).table ==
                 s.table[cl.vid := VaultRow(cl.user, cl.base + 1, Sealed(cl.user, cl.entries), ts)]
  {
    var cl := s.clients[c];
    var s1 := Apply(s, StartSync(c));
    assert s1.conns[k].inbox == [PutReq(PutOf(cl, s.conns[k].issued))];
    var s2 := Apply(s1, Serve(k));
    assert s2.conns[k].handler == Checked(PutOf(cl, s.conns[k].issued), cl.base + 1);
    ThreeSteps(s, StartSync(c), Serve(k), Upsert(k, ts));
  }

  // So were there ever a row its owner cannot open, a failed pull and a sync would replace it
  // by whatever the owner holds locally. `FetchedBlobsOpen` says there never is one.
  lemma UnopenedRowIsOverwritten(s: Sys, c: ClientId, k: ConnId, ts: nat)
    requires AtRest(s, c, k)
    requires s.clients[c].vid in s.table
    requires s.table[s.clients[c].vid].userId == s.clients[c].user
    requires Open(s.clients[c].user, s.table[s.clients[c].vid].blob).None?
    ensures var pull, sync := [StartPull(c), Serve(k), Receive(c)], [StartSync(c), Serve(k), Upsert(k, ts)];
            && IsRun(s, pull) && IsRun(After(s, pull), sync)
            && var cl := s.clients[c];
               && cl.vid in After(After(s, pull), sync).table
               && After(After(s, pull), sync).table[cl.vid].blob == Sealed(cl.user, cl.entries)
  {
    FailedPull(s, c, k);
    SyncOnCurrentRow(After(s, [StartPull(c), Serve(k), Receive(c)]), c, k, ts);
  }

  // ----- PUT is an atomic compare-and-swap -----

  // The reference object: a vault is absent, or has an owner and a list of blobs, the n-th of
  // which is version n. A compare-and-swap succeeds on an absent vault with base 0 and on the
  // owner's vault with the current length as base; otherwise it changes nothing.
  datatype Register = Absent | Register(owner: UserId, log: seq<Blob>)

  function Cas(r: Register, user: UserId, base: nat, blob: Blob): (Register, bool) {
    match r
    case Absent => if base == 0 then (Register(user, [blob]), true) else (r, false)
    case Register(owner, log) =>
      if owner == user && base == |log| then (Register(owner, log + [blob]), true) else (r, false)
  }

  function BlobsOf(cs: seq<Commit>): seq<Blob> {
    seq(|cs|, i requires 0 <= i < |cs| => cs[i].blob)
  }

  function RegisterOf(s: Sys, vid: VaultId): Register {
    var cs := H(s.hist, vid);
    if cs == [] then Absent else Register(cs[0].user, BlobsOf(cs))
  }

  // The history is what the table really holds: the row carries the last blob, the number of
  // versions and the owner.
  lemma RowIsLastVersion(s: Sys, vid: VaultId)
    requires Reachable(s)
    ensures vid in s.table <==> RegisterOf(s, vid).Register?
    ensures vid in s.table ==>
              var row, r := s.table[vid], RegisterOf(s, vid);
              row.userId == r.owner && row.version == |r.log| > 0 && row.blob == r.log[|r.log|-1]
  {
    ReachableInv(s);
    assert VaultOk(s, vid);
  }

  lemma UpsertedIsCas(s: Sys, k: ConnId, ts: nat)
    requires Enabled(s, Upsert(k, ts)) && ConnOk(s.hist, k, s.conns[k]) && VaultOk(s, s.conns[k].handler.put.vid)
    ensures var s', p := Apply(s, Upsert(k, ts)), s.conns[k].handler.put;
            var (r, ok) := Cas(RegisterOf(s, p.vid), s.conns[k].user, p.base, p.blob);
            && RegisterOf(s', p.vid) == r
            && s'.conns[k].outbox == s.conns[k].outbox + [if ok then Ack(p.vid, p.base + 1) else Conflict]
            && s'.conns[k].acks == s.conns[k].acks + (if ok then [AckRecord(p.vid, p.base + 1, p.n, p.base)] else [])
  {
    var s', p := Apply(s, Upsert(k, ts)), s.conns[k].handler.put;
    RowMeans(s, p.vid);
    var cs, cs' := H(s.hist, p.vid), H(s'.hist, p.vid);
    if cs' != cs {
      assert BlobsOf(cs') == BlobsOf(cs) + [p.blob];
    }
  }

  // The moment a PUT is decided it gets the answer the atomic operation would give there, and
  // the vaults change exactly as the atomic operation changes them.
  lemma UpsertIsCas(s: Sys, k: ConnId, ts: nat, vid: VaultId)
    requires Reachable(s) && Enabled(s, Upsert(k, ts))
    ensures var s', p := Apply(s, Upsert(k, ts)), s.conns[k].handler.put;
            var (r, ok) := Cas(RegisterOf(s, p.vid), s.conns[k].user, p.base, p.blob);
            && RegisterOf(s', p.vid) == r
            && (vid != p.vid ==> RegisterOf(s', vid) == RegisterOf(s, vid))
            && s'.conns[k].outbox == s.conns[k].outbox + [if ok then Ack(p.vid, p.base + 1) else Conflict]
            && s'.conns[k].acks == s.conns[k].acks + (if ok then [AckRecord(p.vid, p.base + 1, p.n, p.base)] else [])
  {
    ReachableInv(s);
    assert ConnOk(s.hist, k, s.conns[k]);
    assert VaultOk(s, s.conns[k].handler.put.vid);
    UpsertedIsCas(s, k, ts);
  }

  // The handler's read decides a PUT only when the atomic operation would fail at that very
  // moment, and it never changes a vault.
  lemma ReadDecidesOnlyFailures(s: Sys, k: ConnId, vid: VaultId)
    requires Reachable(s) && Enabled(s, Serve(k)) && s.conns[k].inbox[0].PutReq?
    ensures var s', p := Apply(s, Serve(k)), s.conns[k].inbox[0].put;
            var (r, ok) := Cas(RegisterOf(s, p.vid), s.conns[k].user, p.base, p.blob);
            && RegisterOf(s', vid) == RegisterOf(s, vid)
            && s'.conns[k].acks == s.conns[k].acks
            && (ok <==> s'.conns[k].handler == Checked(p, p.base + 1))
            && (!ok ==> s'.conns[k].outbox == s.conns[k].outbox + [NotFound] ||
                        s'.conns[k].outbox == s.conns[k].outbox + [Conflict])
  {
    ReachableInv(s);
    assert VaultOk(s, s.conns[k].inbox[0].put.vid);
    RowMeans(s, s.conns[k].inbox[0].put.vid);
  }

  // No other action touches a vault or acknowledges anything.
  lemma OthersLeaveVaultsAlone(s: Sys, a: Action, vid: VaultId, k: ConnId)
    requires Enabled(s, a) && !a.Upsert? && k in s.conns
    requires a.Connect? ==> a.k != k
    ensures RegisterOf(Apply(s, a), vid) == RegisterOf(s, vid)
    ensures Apply(s, a).table == s.table
    ensures Apply(s, a).conns[k].acks == s.conns[k].acks
  {}

  // Committed versions are 1, 2, ..., n, each of them built on the one before it and
  // acknowledged to one PUT, with one owner throughout.
  lemma VersionsAreConsecutive(s: Sys, vid: VaultId, i: nat)
    requires Reachable(s) && i < |H(s.hist, vid)|
    ensures var cm := H(s.hist, vid)[i];
            && cm.base == i
            && cm.user == H(s.hist, vid)[0].user
            && cm.ticket.conn in s.conns
            && AckRecord(vid, i + 1, cm.ticket.n, i) in s.conns[cm.ticket.conn].acks
  {
    ReachableInv(s);
    assert VaultOk(s, vid);
    assert CommitOk(H(s.hist, vid), s.conns, vid, i);
  }

  lemma AckIsUnique(s: Sys, k1: ConnId, i1: nat, k2: ConnId, i2: nat)
    requires Reachable(s)
    requires k1 in s.conns && i1 < |s.conns[k1].acks|
    requires k2 in s.conns && i2 < |s.conns[k2].acks|
    requires s.conns[k1].acks[i1].vid == s.conns[k2].acks[i2].vid
    requires s.conns[k1].acks[i1].version == s.conns[k2].acks[i2].version
    ensures k1 == k2 && i1 == i2
    ensures s.conns[k1].acks[i1].version == s.conns[k1].acks[i1].base + 1
  {
    ReachableInv(s);
    assert ConnOk(s.hist, k1, s.conns[k1]) && ConnOk(s.hist, k2, s.conns[k2]);
    assert AckOk(s.hist, k1, s.conns[k1].acks[i1]) && AckOk(s.hist, k2, s.conns[k2].acks[i2]);
  }

  // Nothing committed is ever rewritten.
  lemma {:induction false} HistoryOnlyGrows(s: Sys, run: seq<Action>, vid: VaultId)
    requires IsRun(s, run)
    ensures H(s.hist, vid) <= H(After(s, run).hist, vid)
    decreases |run|
  {
    if run != [] {
      HistoryOnlyGrows(Apply(s, run[0]), run[1..], vid);
    }
  }

  // ----- do_sync -----

  // A call that returns False has made a conflict fetch, at least two versions were
  // committed after the one it fetched first, and none of them is one of its own PUTs.
  lemma SyncGivesUpOnlyAfterTwoOthers(s: Sys, c: ClientId)
    requires Reachable(s) && c in s.clients
    requires s.clients[c].last.Some? && s.clients[c].last.value.GaveUp?
    ensures var cl := s.clients[c];
            && cl.last.value.first.Some?
            && |H(s.hist, cl.vid)| >= cl.last.value.first.value + 2
            && forall i :: 0 <= i < |H(s.hist, cl.vid)| ==>
                 var t := H(s.hist, cl.vid)[i].ticket;
                 !(t.conn == cl.last.value.conn && cl.last.value.n0 <= t.n < cl.last.value.n0 + 3)
  {
    ReachableInv(s);
    var cl := s.clients[c];
    assert ClientOk(s.hist, s.conns, c, cl);
    assert VaultOk(s, cl.vid);
    forall i | 0 <= i < |H(s.hist, cl.vid)|
      ensures var t := H(s.hist, cl.vid)[i].ticket;
              !(t.conn == cl.last.value.conn && cl.last.value.n0 <= t.n < cl.last.value.n0 + 3)
    {
      assert CommitOk(H(s.hist, cl.vid), s.conns, cl.vid, i);
    }
  }

  // A call that returns True with a version has committed exactly its local vault as that
  // version, and every entry it started from is in there or was replaced by one no older.
  lemma SyncSavesExactlyTheLocalVault(s: Sys, c: ClientId)
    requires Reachable(s) && c in s.clients
    requires s.clients[c].last.Some? && s.clients[c].last.value.Saved?
    ensures var cl := s.clients[c];
            && 1 <= cl.last.value.version <= |H(s.hist, cl.vid)|
            && Contents(s, cl.vid, cl.last.value.version) == cl.last.value.saved
            && Advances(cl.last.value.start, cl.last.value.saved)
  {
    ReachableInv(s);
    assert ClientOk(s.hist, s.conns, c, s.clients[c]);
  }

  // The step that ends a call with True: the recorded entries are the local ones.
  lemma SyncReturnsItsLocalVault(s: Sys, c: ClientId)
    requires Enabled(s, Receive(c)) && s.clients[c].mode.Putting?
    requires s.conns[s.clients[c].conn.value].outbox[0].Ack?
    ensures var cl' := Apply(s, Receive(c)).clients[c];
            && cl'.mode == Ready
            && cl'.last == Some(Saved(cl'.base, cl'.entries, s.clients[c].mode.sync.start))
            && cl'.entries == s.clients[c].entries
  {}

  // An attempt made after a conflict fetch can only fail because somebody else committed
  // after the latest such fetch: when every later version is this very PUT, the answer is an
  // ACK.
  lemma RetryFailsOnlyToOthers(s: Sys, c: ClientId)
    requires Reachable(s) && c in s.clients && Enabled(s, Receive(c))
    requires s.clients[c].mode.Putting? && s.clients[c].mode.sync.first.Some?
    ensures var cl := s.clients[c];
            var conn := s.conns[cl.conn.value];
            conn.outbox[0].Ack? ||
            exists i :: cl.base <= i < |H(s.hist, cl.vid)| &&
                        !(H(s.hist, cl.vid)[i].ticket.conn == cl.conn.value &&
                          H(s.hist, cl.vid)[i].ticket.n + 1 == conn.issued)
  {
    ReachableInv(s);
    var cl := s.clients[c];
    var k := cl.conn.value;
    var conn := s.conns[k];
    assert ClientOk(s.hist, s.conns, c, cl);
    assert PuttingOk(s.hist, k, cl, conn, cl.mode.sync);
    if conn.outbox[0].Conflict? {
      var i := cl.base;
      VersionsAreConsecutive(s, cl.vid, i);
      var t := H(s.hist, cl.vid)[i].ticket;
      assert !(t.conn == k && t.n + 1 == conn.issued);
    }
  }

  // ----- lockstep at the level of requests and replies -----

  // At most one request of a live client is under way, a waiting client always has a request
  // queued, a PUT being decided, a reply to take or a dead handler, and the reply it takes
  // answers the request it sent last.
  lemma WaitingClientIsServed(s: Sys, c: ClientId)
    requires Reachable(s) && c in s.clients
    requires s.clients[c].conn.Some?
    requires s.clients[c].mode.Fetching? || s.clients[c].mode.Putting?
    ensures var cl := s.clients[c];
            var k := cl.conn.value;
            && k in s.conns
            && |s.conns[k].inbox| + |s.conns[k].outbox| + (if s.conns[k].handler.Checked? then 1 else 0) <= 1
            && (Enabled(s, Receive(c)) || Enabled(s, Serve(k)) || Enabled(s, Upsert(k, 0)) || s.conns[k].handler.Dead?)
            && (s.conns[k].outbox != [] ==>
                  var r := s.conns[k].outbox[0];
                  if cl.mode.Fetching? then r.NotFound? || (r.Data? && r.vid == cl.vid)
                  else r == Ack(cl.vid, cl.base + 1) || r.Conflict? || r.NotFound?)
  {
    ReachableInv(s);
    assert ClientOk(s.hist, s.conns, c, s.clients[c]);
  }
}
