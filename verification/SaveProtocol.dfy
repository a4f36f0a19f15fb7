// The distributed save protocol: any number of clients editing, pulling and syncing their
// vaults, any number of connections, one handler per connection, and one shared vault table.
// A handler's PUT is two steps, the read-and-compare and the conditional upsert, and any
// other step may run between them. Next to the table the state keeps the whole history of
// committed versions; no step reads it.
module SaveProtocol {
  import opened Common
  import opened Vaults
  import opened Database

  type UserId = nat
  type ClientId = nat
  type ConnId = nat
  type VaultId = Bytes

  // A stored blob: what an honest client sealed under its vault key (the key is derived from
  // the user's login and password, so it is named by the user), or bytes nobody can open.
  datatype Blob = Sealed(key: UserId, entries: seq<Entry>) | Junk(bytes: Bytes)

  function Open(key: UserId, blob: Blob): Option<seq<Entry>> {
    if blob.Sealed? && blob.key == key then Some(blob.entries) else None
  }

  // The ids a client's user removed, and those added or edited, since the local vault was
  // last brought in line with a committed version.
  datatype Changes = Changes(removed: set<string>, edited: set<string>)

  const NO_CHANGES := Changes({}, {})

  // ----- messages -----

  datatype Put = Put(vid: VaultId, base: nat, blob: Blob, changes: Changes, n: nat)

  datatype Request = Get(vid: VaultId) | PutReq(put: Put)

  datatype Reply = Data(vid: VaultId, version: nat, blob: Blob) | NotFound | Conflict
                 | Ack(vid: VaultId, version: nat)

  // ----- server side -----

  datatype Handler = Idle | Checked(put: Put, newVersion: nat) | Dead

  datatype AckRecord = AckRecord(vid: VaultId, version: nat, n: nat, base: nat)

  // One connection: the two queues, the handler, the number of PUTs sent on it, and the
  // acknowledgements its handler has sent.
  datatype Conn = Conn(client: ClientId, user: UserId, inbox: seq<Request>, handler: Handler,
                       outbox: seq<Reply>, issued: nat, acks: seq<AckRecord>)

  // A PUT is identified by its connection and its number on that connection.
  datatype Ticket = Ticket(conn: ConnId, n: nat)

  datatype Commit = Commit(user: UserId, base: nat, blob: Blob, changes: Changes, ticket: Ticket)

  type History = map<VaultId, seq<Commit>>

  function H(h: History, vid: VaultId): seq<Commit> { if vid in h then h[vid] else [] }

  // ----- client side -----

  // One do_sync call in progress: the attempt it is on, the entries it started from, the
  // version its first conflict fetch returned, and the number of its first PUT.
  datatype Sync = Sync(attempt: nat, start: seq<Entry>, first: Option<nat>, n0: nat)

  datatype Why = Login | Pull | Retry(sync: Sync)

  datatype Mode = Boot | Ready | Fetching(why: Why) | Putting(sync: Sync) | Gone

  // How the last do_sync call ended: True with a version, or False after three conflicts.
  datatype Outcome = Saved(version: nat, saved: seq<Entry>, start: seq<Entry>)
                   | GaveUp(first: Option<nat>, conn: ConnId, n0: nat)

  datatype Client = Client(user: UserId, vid: VaultId, entries: seq<Entry>, base: nat,
                           changes: Changes, conn: Option<ConnId>, mode: Mode,
                           last: Option<Outcome>)

  function NewClient(user: UserId, vid: VaultId): Client {
    Client(user, vid, [], 0, NO_CHANGES, None, Boot, None)
  }

  function PutOf(cl: Client, n: nat): Put {
    Put(cl.vid, cl.base, Sealed(cl.user, cl.entries), cl.changes, n)
  }

  // After a failed attempt: another PUT, or giving up after the third.
  function NextAttempt(cl: Client, sync: Sync, conn: ConnId, n: nat): (Client, Option<Request>) {
    if sync.attempt < 3 then
      (cl.(mode := Putting(sync.(attempt := sync.attempt + 1))), Some(PutReq(PutOf(cl, n))))
    else
      (cl.(mode := Ready, last := Some(GaveUp(sync.first, conn, sync.n0))), None)
  }

  // A VAULT_DATA answer. The version is taken over before the blob is opened.
  function OnData(cl: Client, why: Why, version: nat, blob: Blob, conn: ConnId, n: nat)
    : (Client, Option<Request>)
  {
    match Open(cl.user, blob)
    case None =>
      (cl.(base := version, mode := if why.Login? then Gone else Ready), None)
    case Some(theirs) =>
      var mine := if why.Login? then theirs else Merge(cl.entries, theirs);
      var cl' := cl.(base := version, entries := mine, changes := NO_CHANGES);
      match why
      case Retry(sync) =>
        NextAttempt(cl', sync.(first := if sync.first.None? then Some(version) else sync.first), conn, n)
      case _ => (cl'.(mode := Ready), None)
  }

  // One reply taken off the connection by a waiting client, and what it sends next. `n` is
  // the number its next PUT on this connection would carry.
  function OnReply(cl: Client, r: Reply, conn: ConnId, n: nat): (Client, Option<Request>)
    requires cl.mode.Fetching? || cl.mode.Putting?
  {
    match cl.mode
    case Fetching(why) =>
      (match r
       case Data(_, version, blob) => OnData(cl, why, version, blob, conn, n)
       case NotFound =>
         (match why
          case Retry(sync) => NextAttempt(cl, sync, conn, n)
          case _ => (cl.(mode := Ready), None))
       case _ => (cl.(mode := if why.Login? then Gone else Ready), None))
    case Putting(sync) =>
      (match r
       case Ack(_, version) =>
         (cl.(base := version, changes := NO_CHANGES, mode := Ready,
              last := Some(Saved(version, cl.entries, sync.start))), None)
       case Conflict => (cl.(mode := Fetching(Retry(sync))), Some(Get(cl.vid)))
       case _ => (cl.(mode := Ready), None))
  }

  // ----- the whole system -----

  datatype Sys = Sys(table: map<VaultId, VaultRow<Blob>>, hist: History,
                     clients: map<ClientId, Client>, conns: map<ConnId, Conn>)

  datatype Action =
    | AddEntry(c: ClientId, e: Entry)                     // REPL command add
    | EditEntry(c: ClientId, i: nat, e: Entry)            // REPL command edit
    | RemoveEntry(c: ClientId, i: nat)                    // REPL command rm
    | Connect(c: ClientId, k: ConnId)                     // login, or reconnect with the token
    | StartPull(c: ClientId)
    | StartSync(c: ClientId)
    | Receive(c: ClientId)                                // a waiting client takes a reply
    | Abort(c: ClientId)                                  // the connection fails under a client
    | Serve(k: ConnId)                                    // a handler processes a request
    | Upsert(k: ConnId, ts: nat)                          // a handler's pending upsert runs
    | Kill(k: ConnId)                                     // a handler ends

  function Send(conn: Conn, req: Request): Conn {
    conn.(inbox := if conn.handler.Dead? then conn.inbox else conn.inbox + [req],
          issued := if req.PutReq? then conn.issued + 1 else conn.issued)
  }

  function SendAll(conn: Conn, req: Option<Request>): Conn {
    if req.Some? then Send(conn, req.value) else conn
  }

  predicate Enabled(s: Sys, a: Action) {
    match a
    case AddEntry(c, _) => c in s.clients && s.clients[c].mode.Ready?
    case EditEntry(c, i, e) =>
      && c in s.clients && s.clients[c].mode.Ready?
      && i < |s.clients[c].entries| && s.clients[c].entries[i].id == e.id
    case RemoveEntry(c, i) =>
      c in s.clients && s.clients[c].mode.Ready? && i < |s.clients[c].entries|
    case Connect(c, k) =>
      c in s.clients && (s.clients[c].mode.Boot? || s.clients[c].mode.Ready?) && k !in s.conns
    case StartPull(c) => CanSend(s, c)
    case StartSync(c) => CanSend(s, c)
    case Receive(c) =>
      && c in s.clients && (s.clients[c].mode.Fetching? || s.clients[c].mode.Putting?)
      && s.clients[c].conn.Some? && s.clients[c].conn.value in s.conns
      && s.conns[s.clients[c].conn.value].outbox != []
    case Abort(c) => c in s.clients
    case Serve(k) => k in s.conns && s.conns[k].handler.Idle? && s.conns[k].inbox != []
    case Upsert(k, _) => k in s.conns && s.conns[k].handler.Checked?
    case Kill(k) => k in s.conns
  }

  predicate CanSend(s: Sys, c: ClientId) {
    && c in s.clients && s.clients[c].mode.Ready?
    && s.clients[c].conn.Some? && s.clients[c].conn.value in s.conns
  }

  // A command's effect on one client.
  function Edited(cl: Client, es: seq<Entry>, id: string): Client {
    cl.(entries := es, changes := cl.changes.(edited := cl.changes.edited + {id}))
  }

  function Removed(cl: Client, i: nat): Client
    requires i < |cl.entries|
  {
    cl.(entries := cl.entries[..i] + cl.entries[i+1..],
        changes := cl.changes.(removed := cl.changes.removed + {cl.entries[i].id}))
  }

  // AUTH_OK carries version 0 whatever the server holds.
  function Connected(cl: Client, k: ConnId): Client {
    var cl' := cl.(conn := Some(k), base := 0, changes := NO_CHANGES);
    if cl.mode.Boot? then cl'.(mode := Fetching(Login)) else cl'
  }

  function NewConn(c: ClientId, cl: Client): Conn {
    var conn := Conn(c, cl.user, [], Idle, [], 0, []);
    if cl.mode.Boot? then Send(conn, Get(cl.vid)) else conn
  }

  function Aborted(cl: Client): Client {
    cl.(conn := None,
        mode := match cl.mode
                case Boot => Gone
                case Fetching(Login) => Gone
                case Gone => Gone
                case _ => Ready)
  }

  // A handler takes one request off its queue.
  function Served(s: Sys, k: ConnId): Conn
    requires k in s.conns && s.conns[k].inbox != []
  {
    var conn := s.conns[k].(inbox := s.conns[k].inbox[1..]);
    match s.conns[k].inbox[0]
    case Get(vid) =>
      (match CheckGet(Lookup(s.table, vid), conn.user)
       case None => conn.(outbox := conn.outbox + [NotFound])
       case Some((version, blob)) => conn.(outbox := conn.outbox + [Data(vid, version, blob)]))
    case PutReq(p) =>
      (match CheckPut(Lookup(s.table, p.vid), conn.user, p.base)
       case Foreign => conn.(outbox := conn.outbox + [NotFound])
       case Stale => conn.(outbox := conn.outbox + [Conflict])
       case Proceed(newVersion) => conn.(handler := Checked(p, newVersion)))
  }

  function Upserted(s: Sys, k: ConnId, ts: nat): Sys
    requires k in s.conns && s.conns[k].handler.Checked?
  {
    var conn := s.conns[k].(handler := Idle);
    var p, v := s.conns[k].handler.put, s.conns[k].handler.newVersion;
    if UpsertHits(s.table, p.vid, conn.user, v) then
      s.(table := s.table[p.vid := VaultRow(conn.user, v, p.blob, ts)],
         hist := s.hist[p.vid := H(s.hist, p.vid) + [Commit(conn.user, p.base, p.blob, p.changes, Ticket(k, p.n))]],
         conns := s.conns[k := conn.(outbox := conn.outbox + [Ack(p.vid, v)],
                                     acks := conn.acks + [AckRecord(p.vid, v, p.n, p.base)])])
    else
      s.(conns := s.conns[k := conn.(outbox := conn.outbox + [Conflict])])
  }

  function Apply(s: Sys, a: Action): Sys
    requires Enabled(s, a)
  {
    match a
    case AddEntry(c, e) =>
      s.(clients := s.clients[c := Edited(s.clients[c], s.clients[c].entries + [e], e.id)])
    case EditEntry(c, i, e) =>
      s.(clients := s.clients[c := Edited(s.clients[c], s.clients[c].entries[i := e], e.id)])
    case RemoveEntry(c, i) =>
      s.(clients := s.clients[c := Removed(s.clients[c], i)])
    case Connect(c, k) =>
      s.(clients := s.clients[c := Connected(s.clients[c], k)],
         conns := s.conns[k := NewConn(c, s.clients[c])])
    case StartPull(c) =>
      var cl := s.clients[c];
      s.(clients := s.clients[c := cl.(mode := Fetching(Pull))],
         conns := s.conns[cl.conn.value := Send(s.conns[cl.conn.value], Get(cl.vid))])
    case StartSync(c) =>
      var cl := s.clients[c];
      var conn := s.conns[cl.conn.value];
      s.(clients := s.clients[c := cl.(mode := Putting(Sync(1, cl.entries, None, conn.issued)))],
         conns := s.conns[cl.conn.value := Send(conn, PutReq(PutOf(cl, conn.issued)))])
    case Receive(c) =>
      var cl := s.clients[c];
      var conn := s.conns[cl.conn.value];
      var (cl', req) := OnReply(cl, conn.outbox[0], cl.conn.value, conn.issued);
      s.(clients := s.clients[c := cl'],
         conns := s.conns[cl.conn.value := SendAll(conn.(outbox := conn.outbox[1..]), req)])
    case Abort(c) => s.(clients := s.clients[c := Aborted(s.clients[c])])
    case Serve(k) => s.(conns := s.conns[k := Served(s, k)])
    case Upsert(k, ts) => Upserted(s, k, ts)
    case Kill(k) => s.(conns := s.conns[k := s.conns[k].(handler := Dead, inbox := [])])
  }

  predicate Init(s: Sys) {
    && s.table == map[] && s.hist == map[] && s.conns == map[]
    && forall c :: c in s.clients ==> s.clients[c] == NewClient(s.clients[c].user, s.clients[c].vid)
  }

  // A run: actions taken one after the other, each enabled where it is taken.
  predicate IsRun(s: Sys, run: seq<Action>)
    decreases |run|
  {
    run == [] || (Enabled(s, run[0]) && IsRun(Apply(s, run[0]), run[1..]))
  }

  function After(s: Sys, run: seq<Action>): Sys
    requires IsRun(s, run)
    decreases |run|
  {
    if run == [] then s else After(Apply(s, run[0]), run[1..])
  }
}
