// Where the byte-level models and the abstract ones speak of the same code: what a handler
// does with a PUT or a GET is what the save protocol's handler does, and what the client of
// `Link` does with the replies to a GET is what the fetch loop does.
module Refinement {
  import opened Common
  import opened LittleEndian
  import opened Primitives
  import opened ByteIO
  import opened FrameCodec
  import opened Payloads
  import opened Fragments
  import opened Database
  import opened ServerSession
  import Link
  import SaveProtocol
  import SvpClient

  // ----- the server -----

  // The table of the save protocol with its blobs as bytes.
  function Bytewise(table: map<Bytes, VaultRow<SaveProtocol.Blob>>, seal: SaveProtocol.Blob -> Bytes)
    : map<Bytes, VaultRow<Bytes>>
  {
    map id | id in table :: VaultRow(table[id].userId, table[id].version, seal(table[id].blob), table[id].ts)
  }

  // The one frame that answers a PUT, or tells that there is no vault.
  predicate Says(f: Sent, r: SaveProtocol.Reply) {
    match r
    case Ack(vid, version) => f.msgType == VAULT_ACK && f.payload == AckPayload(vid, version)
    case NotFound => f.msgType == ERROR && f.payload == [ERR_NOT_FOUND]
    case Conflict => f.msgType == ERROR && f.payload == [ERR_CONFLICT]
    case Data(_, _, _) => false
  }

  function MessageOf(put: SaveProtocol.Put, seal: SaveProtocol.Blob -> Bytes): Bytes {
    PutPayload(PutFields(put.vid, put.base, seal(put.blob)))
  }

  ghost predicate Fits(put: SaveProtocol.Put, seal: SaveProtocol.Blob -> Bytes) {
    Puttable(PutFields(put.vid, put.base, seal(put.blob)))
  }

  // A PUT that the read already decides: the byte-level handler gives the abstract answer and
  // stores nothing.
  lemma PutRefusedAlike(s: SaveProtocol.Sys, k: nat, session: Session, w: World, seal: SaveProtocol.Blob -> Bytes)
    requires SaveProtocol.Enabled(s, SaveProtocol.Serve(k)) && s.conns[k].inbox[0].PutReq?
    requires Fits(s.conns[k].inbox[0].put, seal) && w.vaults == Bytewise(s.table, seal)
    requires !SaveProtocol.Served(s, k).handler.Checked?
    ensures var o := OnMessage(session, s.conns[k].user, MessageOf(s.conns[k].inbox[0].put, seal), w);
            var outbox := SaveProtocol.Served(s, k).outbox;
            o.effect == Nothing && |o.sent| == 1 && outbox != [] && Says(o.sent[0], outbox[|outbox| - 1])
  {
    var put := s.conns[k].inbox[0].put;
    PutExact(MessageOf(put, seal), PutFields(put.vid, put.base, seal(put.blob)));
  }

  lemma BytewiseSet(table: map<Bytes, VaultRow<SaveProtocol.Blob>>, id: Bytes, row: VaultRow<SaveProtocol.Blob>,
                    seal: SaveProtocol.Blob -> Bytes)
    ensures Bytewise(table[id := row], seal) ==
            Bytewise(table, seal)[id := VaultRow(row.userId, row.version, seal(row.blob), row.ts)]
  {}

  // What the handler does once the read has let a PUT through.
  lemma PutProceeds(session: Session, user: nat, put: PutFields, w: World)
    requires Puttable(put) && CheckPut(Lookup(w.vaults, put.vaultId), user, put.base) == Proceed(put.base + 1)
    ensures var o := OnMessage(session, user, PutPayload(put), w);
            && |o.sent| == 1
            && if UpsertHits(w.vaultsAtUpsert, put.vaultId, user, put.base + 1) then
                 && o.effect == Stored(put.vaultId, VaultRow(user, put.base + 1, put.blob, w.nowMs))
                 && o.sent[0].msgType == VAULT_ACK && o.sent[0].payload == AckPayload(put.vaultId, put.base + 1)
               else o.effect == Nothing && o.sent[0].msgType == ERROR && o.sent[0].payload == [ERR_CONFLICT]
  {
    PutExact(PutPayload(put), put);
  }

  // What the save protocol's upsert does to the table and says.
  lemma UpsertedBytewise(s: SaveProtocol.Sys, k: nat, ts: nat, seal: SaveProtocol.Blob -> Bytes)
    requires k in s.conns && s.conns[k].handler.Checked?
    ensures var put, version, user := s.conns[k].handler.put, s.conns[k].handler.newVersion, s.conns[k].user;
            var done, table := SaveProtocol.Upserted(s, k, ts), Bytewise(s.table, seal);
            && done.conns[k].outbox != []
            && var r := done.conns[k].outbox[|done.conns[k].outbox| - 1];
            if UpsertHits(table, put.vid, user, version) then
              && r == SaveProtocol.Ack(put.vid, version)
              && Bytewise(done.table, seal) == table[put.vid := VaultRow(user, version, seal(put.blob), ts)]
            else r == SaveProtocol.Conflict && Bytewise(done.table, seal) == table
  {
    var put := s.conns[k].handler.put;
    BytewiseSet(s.table, put.vid, VaultRow(s.conns[k].user, s.conns[k].handler.newVersion, put.blob, ts), seal);
  }

  // A PUT that the read lets through: whatever others did to the table before the upsert, the
  // byte-level handler gives the answer of the abstract upsert and changes the table as it does.
  lemma PutDecidedAlike(s: SaveProtocol.Sys, later: SaveProtocol.Sys, k: nat, session: Session, w: World,
                        seal: SaveProtocol.Blob -> Bytes)
    requires SaveProtocol.Enabled(s, SaveProtocol.Serve(k)) && s.conns[k].inbox[0].PutReq?
    requires Fits(s.conns[k].inbox[0].put, seal) && w.vaults == Bytewise(s.table, seal)
    requires SaveProtocol.Served(s, k).handler.Checked?
    requires k in later.conns && later.conns[k].user == s.conns[k].user
    requires later.conns[k].handler == SaveProtocol.Served(s, k).handler
    requires w.vaultsAtUpsert == Bytewise(later.table, seal)
    ensures var o := OnMessage(session, s.conns[k].user, MessageOf(s.conns[k].inbox[0].put, seal), w);
            var done := SaveProtocol.Upserted(later, k, w.nowMs);
            var outbox := done.conns[k].outbox;
            && |o.sent| == 1 && outbox != [] && Says(o.sent[0], outbox[|outbox| - 1])
            && Bytewise(done.table, seal) ==
                 (if o.effect.Stored? then w.vaultsAtUpsert[o.effect.vaultId := o.effect.vault] else w.vaultsAtUpsert)
  {
    var put, user := s.conns[k].inbox[0].put, s.conns[k].user;
    var fields := PutFields(put.vid, put.base, seal(put.blob));
    ReadAlike(s, put, user, seal);
    PutProceeds(session, user, fields, w);
    UpsertedBytewise(later, k, w.nowMs, seal);
  }

  // The read decides the same on both tables.
  lemma ReadAlike(s: SaveProtocol.Sys, put: SaveProtocol.Put, user: nat, seal: SaveProtocol.Blob -> Bytes)
    ensures CheckPut(Lookup(Bytewise(s.table, seal), put.vid), user, put.base) ==
            CheckPut(Lookup(s.table, put.vid), user, put.base)
  {}

  // A GET: NOT_FOUND for NOT_FOUND, and for a vault the frames of its version and sealed blob.
  lemma GetAnsweredAlike(s: SaveProtocol.Sys, k: nat, session: Session, f: Frame, known: nat, w: World,
                         seal: SaveProtocol.Blob -> Bytes)
    requires SaveProtocol.Enabled(s, SaveProtocol.Serve(k)) && s.conns[k].inbox[0].Get?
    requires |s.conns[k].inbox[0].vid| == ID_LEN && known < Shl8(1, 8)
    requires f.payload == GetPayload(s.conns[k].inbox[0].vid, known) && w.vaults == Bytewise(s.table, seal)
    ensures var o := OnGet(session, s.conns[k].user, f, w);
            var outbox := SaveProtocol.Served(s, k).outbox;
            && outbox != [] && o.effect == Nothing
            && match outbox[|outbox| - 1]
               case Data(vid, version, blob) =>
                 o.sent == FramesOf(VAULT_DATA, DataPayload(vid, version, seal(blob)), session.outSeq, ActiveKey(session))
               case r => |o.sent| == 1 && Says(o.sent[0], r)
  {
    GetParses(s.conns[k].inbox[0].vid, known);
  }

  // ----- the client -----

  // The client of `Link` takes replies as long as it waits for vault data.
  function AfterReplies(p: Crypto, t: TextCodec, c: Link.Peer, replies: seq<SvpClient.Rx>, how: Link.Credentials)
    : Link.Peer
    decreases |replies|
  {
    if replies == [] || !c.stage.AwaitData? then c
    else
      var f := ClientFrame(1, replies[0].code, replies[0].flags, 0, replies[0].payload);
      AfterReplies(p, t, Link.ClientOnReply(p, t, c, f, how).0, replies[1..], how)
  }

  predicate NoPings(replies: seq<SvpClient.Rx>) {
    forall i :: 0 <= i < |replies| ==> replies[i].code != Code(PING)
  }

  // Where a fetch ends that has the payload gathered so far.
  predicate EndsAs(c: Link.Peer, gathered: Option<Bytes>) {
    match gathered
    case None => c.stage.Broken? || c.stage.AwaitData?
    case Some(payload) =>
      match ParseData(payload)
      case Err(_) => c.stage.Broken?
      case Ok((version, blob)) => c.stage == Link.Ready(Link.Fetched(version, blob))
  }

  lemma {:induction false} CollectAgrees(p: Crypto, t: TextCodec, c: Link.Peer, payload: Bytes,
                                         replies: seq<SvpClient.Rx>, how: Link.Credentials)
    requires c.stage == Link.AwaitData(Some(payload)) && NoPings(replies)
    ensures EndsAs(AfterReplies(p, t, c, replies, how),
                   match SvpClient.Collect(t, payload, replies) case None => None case Some((all, _)) => Some(all))
    decreases |replies|
  {
    if replies != [] {
      var f := ClientFrame(1, replies[0].code, replies[0].flags, 0, replies[0].payload);
      var c' := Link.ClientOnReply(p, t, c, f, how).0;
      if c'.stage.AwaitData? {
        CollectAgrees(p, t, c', payload + f.payload, replies[1..], how);
      }
    }
  }

  // The two models of the fetch loop end alike on every list of replies.
  lemma FetchAgrees(p: Crypto, t: TextCodec, c: Link.Peer, replies: seq<SvpClient.Rx>, how: Link.Credentials)
    requires c.stage == Link.AwaitData(None) && NoPings(replies)
    ensures var end := AfterReplies(p, t, c, replies, how).stage;
            match SvpClient.Fetch(t, replies)
            case Vault(version, blob) => end == Link.Ready(Link.Fetched(version, blob))
            case NoVault => end == Link.Ready(Link.Missing)
            case Raised => end.Broken? || end.AwaitData?
  {
    if replies != [] {
      var f := ClientFrame(1, replies[0].code, replies[0].flags, 0, replies[0].payload);
      var c' := Link.ClientOnReply(p, t, c, f, how).0;
      if c'.stage.AwaitData? {
        assert [] + f.payload == f.payload;
        CollectAgrees(p, t, c', f.payload, replies[1..], how);
      } else {
        assert [] + f.payload == f.payload;
      }
    }
  }
}
