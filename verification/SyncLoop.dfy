// do_sync as the loop it is (client-py/secvault.py), against a script of replies: whatever
// the server answers, in whatever interleaving, reaches the client as such a script, and a
// script that ends while the client waits is a lost connection.
module SyncLoop {
  import opened Common
  import opened Vaults
  import opened SaveProtocol

  // The reply handling of the save protocol, iterated: the final client, and the requests
  // sent so far followed by those it sends on the way.
  function Drive(cl: Client, sent: seq<Request>, replies: seq<Reply>, k: ConnId, n: nat)
    : (Client, seq<Request>)
    decreases |replies|
  {
    if replies == [] || !(cl.mode.Fetching? || cl.mode.Putting?) then (cl, sent)
    else
      var (cl', req) := OnReply(cl, replies[0], k, n);
      Drive(cl', Sent(sent, req), replies[1..], k, NextN(req, n))
  }

  function Sent(sent: seq<Request>, req: Option<Request>): seq<Request> {
    if req.Some? then sent + [req.value] else sent
  }

  function NextN(req: Option<Request>, n: nat): nat {
    if req.Some? && req.value.PutReq? then n + 1 else n
  }

  lemma DriveStep(cl: Client, sent: seq<Request>, replies: seq<Reply>, at: nat, k: ConnId, n: nat)
    requires at < |replies| && (cl.mode.Fetching? || cl.mode.Putting?)
    ensures var (cl', req) := OnReply(cl, replies[at], k, n);
            Drive(cl, sent, replies[at..], k, n) ==
            Drive(cl', Sent(sent, req), replies[at+1..], k, NextN(req, n))
  {
    assert replies[at..][1..] == replies[at+1..];
  }

  // The client as it is right after `do_sync` has sent its first PUT.
  function Started(cl: Client, n: nat): Client {
    cl.(mode := Putting(Sync(1, cl.entries, None, n)), last := None)
  }

  // The first version a call has fetched, once a conflict fetch is answered.
  function AfterFetch(sync: Sync, d: Reply): Sync {
    sync.(first := if sync.first.None? && d.Data? then Some(d.version) else sync.first)
  }

  datatype Returned = True | False | Raised

  datatype Verdict = Again | End(result: Returned)

  function ReturnOf(cl: Client): Returned {
    match cl.last
    case Some(Saved(_, _, _)) => True
    case Some(GaveUp(_, _, _)) => False
    case None => Raised
  }

  class Syncer {
    const user: UserId
    const vid: VaultId
    const conn: ConnId
    const vault: Vault
    var vaultVersion: nat
    var changes: Changes
    var issued: nat

    constructor (user: UserId, vid: VaultId, conn: ConnId, vault: Vault)
      ensures this.user == user && this.vid == vid && this.conn == conn && this.vault == vault
      ensures vaultVersion == 0 && changes == NO_CHANGES && issued == 0
    {
      this.user, this.vid, this.conn, this.vault := user, vid, conn, vault;
      vaultVersion, changes, issued := 0, NO_CHANGES, 0;
    }

    function View(mode: Mode, last: Option<Outcome>): Client
      reads this, vault
    {
      Client(user, vid, vault.entries, vaultVersion, changes, Some(conn), mode, last)
    }

    // What `fetch_vault` and the merge after a conflict do with the reply to the GET.
    method TakeFetched(d: Reply, ghost sync: Sync) returns (ok: bool)
      requires 1 <= sync.attempt <= 3
      modifies this`vaultVersion, this`changes, vault
      ensures var (cl', req) := OnReply(old(View(Fetching(Retry(sync)), None)), d, conn, issued);
              if !ok then cl' == View(Ready, None) && req.None?
              else
                var sync' := AfterFetch(sync, d);
                if sync.attempt < 3 then
                  cl' == View(Putting(sync'.(attempt := sync.attempt + 1)), None) &&
                  req == Some(PutReq(PutOf(cl', issued)))
                else cl' == View(Ready, Some(GaveUp(sync'.first, conn, sync.n0))) && req.None?
    {
      if d.Data? {
        vaultVersion := d.version;
        var theirs := Open(user, d.blob);
        if theirs.None? { return false; }
        var srv := new Vault();
        srv.entries := theirs.value;
        var conflicts := vault.MergeFrom(srv);
        changes := NO_CHANGES;
        return true;
      }
      return d.NotFound?;
    }

    // One round of the loop, from the moment its PUT is sent: the reply to the PUT and, after
    // a conflict, the fetch.
    method Attempt(replies: seq<Reply>, at: nat, sent: seq<Request>, ghost sync: Sync)
      returns (verdict: Verdict, at': nat, sent': seq<Request>)
      requires at <= |replies| && 1 <= sync.attempt <= 3
      modifies this`vaultVersion, this`changes, vault
      ensures at <= at' <= |replies|
      ensures var d := Drive(old(View(Putting(sync), None)), sent, replies[at..], conn, issued);
              match verdict
              case End(result) =>
                View(d.0.mode, d.0.last) == d.0 && sent' == d.1 && result == ReturnOf(d.0)
              case Again =>
                at' > 0 &&
                var sync' := AfterFetch(sync, replies[at'-1]);
                if sync.attempt < 3 then
                  var cl := View(Putting(sync'.(attempt := sync.attempt + 1)), None);
                  d == Drive(cl, sent' + [PutReq(PutOf(cl, issued))], replies[at'..], conn, issued + 1)
                else d == (View(Ready, Some(GaveUp(sync'.first, conn, sync.n0))), sent')
    {
      at', sent' := at, sent;
      if at' == |replies| { return End(Raised), at', sent'; }
      DriveStep(View(Putting(sync), None), sent, replies, at, conn, issued);
      var r := replies[at'];
      at' := at' + 1;
      if r.Ack? {
        vaultVersion, changes := r.version, NO_CHANGES;
        return End(True), at', sent';
      }
      if !r.Conflict? { return End(Raised), at', sent'; }
      sent' := sent' + [Get(vid)];
      if at' == |replies| { return End(Raised), at', sent'; }
      DriveStep(View(Fetching(Retry(sync)), None), sent', replies, at', conn, issued);
      var ok := TakeFetched(replies[at'], sync);
      at' := at' + 1;
      return if ok then Again else End(Raised), at', sent';
    }

    // Every way through the loop ends in the client the save protocol's reply handling ends
    // in, with the same requests sent.
    method DoSync(replies: seq<Reply>) returns (result: Returned, sent: seq<Request>)
      modifies this, vault
      ensures var cl := old(View(Ready, None));
              var n := old(issued);
              var (fin, all) := Drive(Started(cl, n), [PutReq(PutOf(cl, n))], replies, conn, n + 1);
              View(fin.mode, fin.last) == fin && sent == all && result == ReturnOf(fin)
    {
      ghost var sync := Sync(1, vault.entries, None, issued);
      ghost var total := Drive(View(Putting(sync), None), [PutReq(PutOf(View(Ready, None), issued))],
                               replies, conn, issued + 1);
      sent := [];
      assert replies[0..] == replies;
      assert sent + [PutReq(PutOf(View(Ready, None), issued))] == [PutReq(PutOf(View(Ready, None), issued))];
      var at, verdict := 0, Again;
      for attempt := 0 to 3
        invariant at <= |replies|
        invariant attempt < 3 ==>
                    var cl := View(Putting(sync), None);
                    && sync.attempt == attempt + 1
                    && total == Drive(cl, sent + [PutReq(PutOf(cl, issued))], replies[at..], conn, issued + 1)
        invariant attempt == 3 ==>
                    total == (View(Ready, total.0.last), sent) && ReturnOf(total.0) == False
      {
        sent := sent + [PutReq(Put(vid, vaultVersion, Sealed(user, vault.entries), changes, issued))];
        issued := issued + 1;
        verdict, at, sent := Attempt(replies, at, sent, sync);
        if verdict.End? { return verdict.result, sent; }
        sync := AfterFetch(sync, replies[at-1]).(attempt := sync.attempt + 1);
      }
      return False, sent;
    }
  }

  // The script a client sees is what it takes off its connection: iterating `Receive` in the
  // save protocol is `Drive`, one reply at a time.
  lemma DriveIsReceive(s: Sys, c: ClientId, sent: seq<Request>, more: seq<Reply>)
    requires Enabled(s, Receive(c))
    ensures var cl := s.clients[c];
            var k := cl.conn.value;
            var conn := s.conns[k];
            var s' := Apply(s, Receive(c));
            var req := OnReply(cl, conn.outbox[0], k, conn.issued).1;
            && k in s'.conns && c in s'.clients
            && Drive(cl, sent, [conn.outbox[0]] + more, k, conn.issued) ==
               Drive(s'.clients[c], Sent(sent, req), more, k, s'.conns[k].issued)
            && (!conn.handler.Dead? ==> s'.conns[k].inbox == Sent(conn.inbox, req))
  {
    var k := s.clients[c].conn.value;
    assert ([s.conns[k].outbox[0]] + more)[1..] == more;
  }
}
