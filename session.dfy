/**
 * One pull session with a discovered peer (onPeerFound in server/cmd/main.go):
 * read the local checkpoint, ask the peer for its change stream since that
 * checkpoint, and replay each newline-terminated record through SyncRecord
 * until the stream ends or a replay fails.
 *
 * The HTTP round trip is a parameter (fetch): the body it yields, or None when
 * building or sending the request fails. The identifiers and transaction
 * outcomes of the successive SyncRecord calls are parameters too (env).
 */
module Session {
  import opened Base
  import opened Decimal
  import opened Ids
  import opened Models
  import opened Wire
  import opened Storage
  import opened Discovery

  /** GET http://<addr>/sync-stream with the since query parameter. */
  datatype StreamRequest = StreamRequest(url: string, since: string)

  /** The error onPeerFound returns; nil is None. */
  datatype SessionError =
    | CheckpointFailed(cause: StoreError)
    | RequestFailed
    /** io.EOF from the body reader, returned as the session's error. */
    | EndOfStream
    | SyncFailed(cause: StoreError)

  /** What the k-th SyncRecord call of a session uses: its log-entry id and its transaction outcome. */
  datatype ReplayEnv = ReplayEnv(entryIds: nat -> ID, faults: nat -> TxFault)

  /** The request for a peer: its sync-stream URL, and the checkpoint in decimal, which the peer parses back. */
  function RequestFor(peer: Peer, checkpoint: Int64): (r: StreamRequest)
    ensures r.url == "http://" + peer.addr + "/sync-stream"
    ensures ParseInt64(r.since) == Some(checkpoint)
  {
    ParseFormat(checkpoint);
    StreamRequest("http://" + peer.addr + "/sync-stream", Format(checkpoint))
  }

  /**
   * The read loop from position pos, k records already replayed. A read that
   * reports io.EOF ends the session with that error (a partial last line is
   * dropped); an empty read after any other error ends it with nil; otherwise
   * the bytes read are decoded (a decoding failure is only logged, so the
   * zero or partly filled record is replayed) and passed to SyncRecord, whose
   * failure ends the session.
   */
  function Replay(db: Db, exec: (Table, string) -> Option<Table>, json: Json, b: Body, pos: nat, k: nat, env: ReplayEnv)
    : (r: (Db, Option<SessionError>))
    requires pos <= |b.data|
    ensures db.log <= r.0.log
    ensures r.1 == None ==> b.end == Broken
    ensures r.1 == Some(EndOfStream) ==> b.end == AtEof
    ensures r.1.None? || r.1 == Some(EndOfStream) || r.1.value.SyncFailed?
    decreases |b.data| - pos
  {
    var rd := ReadBytes(b, pos);
    if rd.err == Some(AtEof) then (db, Some(EndOfStream))
    else if |rd.line| == 0 then
      assert rd.err.Some? && rd.err.value == b.end && b.end != AtEof;
      assert b.end == Broken;
      (db, None)
    else
      var msg := json.decode(rd.line).value;
      var (db', err) := Transact(db, exec, msg.sqlQuery, msg.timestamp, env.entryIds(k), env.faults(k));
      if err.Some? then (db', Some(SyncFailed(err.value)))
      else Replay(db', exec, json, b, rd.next, k + 1, env)
  }

  /** The checkpoint a session asks from when reading it does not fail outright: 0 after a failed row iteration. */
  function SessionCheckpoint(log: seq<LogEntry>, fault: CheckpointFault): (cp: Int64)
    ensures fault == IterationFault ==> cp == 0
    ensures fault != IterationFault ==> cp == Checkpoint(log)
  {
    if fault == IterationFault then 0 else Checkpoint(log)
  }

  /** A whole session against the database db, given how reading the checkpoint goes and what the peer serves. */
  function SessionResult(
    db: Db, exec: (Table, string) -> Option<Table>, json: Json, peer: Peer,
    fault: CheckpointFault, fetch: StreamRequest -> Option<Body>, env: ReplayEnv)
    : (r: (Db, Option<SessionError>))
    ensures fault == QueryFault ==> r == (db, Some(CheckpointFailed(QueryFailed)))
    ensures fault != QueryFault && fetch(RequestFor(peer, SessionCheckpoint(db.log, fault))).None? ==> r == (db, Some(RequestFailed))
    ensures fault != QueryFault && fetch(RequestFor(peer, SessionCheckpoint(db.log, fault))).Some? ==>
      var b := fetch(RequestFor(peer, SessionCheckpoint(db.log, fault))).value;
      && db.log <= r.0.log
      && (r.1 == None ==> b.end == Broken)
      && (r.1 == Some(EndOfStream) ==> b.end == AtEof)
  {
    if fault == QueryFault then (db, Some(CheckpointFailed(QueryFailed)))
    else
      match fetch(RequestFor(peer, SessionCheckpoint(db.log, fault)))
      case None => (db, Some(RequestFailed))
      case Some(b) => Replay(db, exec, json, b, 0, 0, env)
  }

  /** onPeerFound, against the local store. */
  method OnPeerFound(
    store: Store, peer: Peer, json: Json,
    fault: CheckpointFault, fetch: StreamRequest -> Option<Body>, env: ReplayEnv)
    returns (r: Option<SessionError>)
    requires store.Valid()
    modifies store
    ensures store.Valid()
    ensures (store.State(), r) == SessionResult(old(store.State()), store.engine.exec, json, peer, fault, fetch, env)
  {
    var checkpoint := store.LastCheckpointAt(fault);
    if checkpoint.Err? {
      return Some(CheckpointFailed(checkpoint.error));
    }
    assert checkpoint.value == SessionCheckpoint(old(store.State()).log, fault);
    var body := fetch(RequestFor(peer, checkpoint.value));
    if body.None? {
      return Some(RequestFailed);
    }
    var b := body.value;
    assert SessionResult(old(store.State()), store.engine.exec, json, peer, fault, fetch, env)
      == Replay(old(store.State()), store.engine.exec, json, b, 0, 0, env);
    var pos, k := 0, 0;
    while true
      invariant pos <= |b.data| && store.Valid()
      invariant Replay(store.State(), store.engine.exec, json, b, pos, k, env)
        == Replay(old(store.State()), store.engine.exec, json, b, 0, 0, env)
      decreases |b.data| - pos
    {
      var rd := ReadBytes(b, pos);
      if rd.err == Some(AtEof) {
        return Some(EndOfStream);
      }
      if |rd.line| == 0 {
        break;
      }
      var msg := json.decode(rd.line).value;
      var err := store.SyncRecord(msg.timestamp, msg.sqlQuery, env.entryIds(k), env.faults(k));
      if err.Some? {
        return Some(SyncFailed(err.value));
      }
      pos, k := rd.next, k + 1;
    }
    r := None;
  }
}
