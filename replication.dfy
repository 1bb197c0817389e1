/**
 * What the pieces add up to when two nodes sync: the stream one node serves
 * for a checkpoint, read and replayed by the other, appends the served
 * entries to the reader's log with their original timestamps, and a second
 * session against an unchanged peer replays nothing.
 */
module Replication {
  import opened Base
  import opened Decimal
  import opened Models
  import opened Wire
  import opened Storage
  import opened Discovery
  import opened Session
  import opened Handlers

  /** The (timestamp, query) pair of every entry, in log order. */
  function Records(log: seq<LogEntry>): (r: seq<ActivityLog>)
    ensures |r| == |log| && forall i :: 0 <= i < |log| ==> r[i] == ActivityLog(log[i].timestamp, log[i].query)
  {
    seq(|log|, i requires 0 <= i < |log| => Record(log[i]))
  }

  /** The body a peer serves for a request when nothing fails on its side: its change stream since the parsed checkpoint. */
  function Served(peerEngine: Engine, peerLog: seq<LogEntry>, json: Json, req: StreamRequest): (r: Option<Body>)
    ensures r.Some? <==> ParseInt64(req.since).Some?
    ensures r.Some? ==>
      && r.value.end == AtEof
      && r.value.data == StreamText(Lines(peerEngine.selectSince(peerLog, ParseInt64(req.since).value), json))
  {
    match ParseSince(Some(req.since))
    case Ok(since) =>
      TextOfFrames(Lines(peerEngine.selectSince(peerLog, since), json));
      Some(Body(Text(Frames(Lines(peerEngine.selectSince(peerLog, since), json))), AtEof))
    case Err(_) => None
  }

  /** SyncRecord for each row in turn, the first of them as call k of the session, stopping at the first failure. */
  function ApplyAll(db: Db, exec: (Table, string) -> Option<Table>, rows: seq<ActivityLog>, env: ReplayEnv, k: nat)
    : (r: (Db, Option<StoreError>))
    ensures db.log <= r.0.log
    decreases |rows|
  {
    if rows == [] then (db, None)
    else
      var (d, e) := Transact(db, exec, rows[0].sqlQuery, rows[0].timestamp, env.entryIds(k), env.faults(k));
      if e.Some? then (d, e) else ApplyAll(d, exec, rows[1..], env, k + 1)
  }

  /** The log entries replaying rows adds when every call succeeds: the rows' own timestamps and statements. */
  function Replayed(rows: seq<ActivityLog>, env: ReplayEnv, k: nat): (r: seq<LogEntry>)
    ensures |r| == |rows| && Records(r) == rows
  {
    seq(|rows|, i requires 0 <= i < |rows| => LogEntry(env.entryIds(k + i), rows[i].timestamp, rows[i].sqlQuery))
  }

  /** The table after executing the statements one after another, or None when one of them fails. */
  function ExecAll(exec: (Table, string) -> Option<Table>, t: Table, rows: seq<ActivityLog>): Option<Table>
    decreases |rows|
  {
    if rows == [] then Some(t)
    else
      match exec(t, rows[0].sqlQuery)
      case None => None
      case Some(t') => ExecAll(exec, t', rows[1..])
  }

  /** Calls k .. k+n-1 hit no transaction fault and use distinct entry ids not yet in the log. */
  ghost predicate CleanCalls(env: ReplayEnv, k: nat, n: nat, log: seq<LogEntry>) {
    && (forall i :: k <= i < k + n ==> env.faults(i) == NoFault)
    && (forall i :: k <= i < k + n ==> env.entryIds(i) !in EntryIds(log))
    && (forall i, j :: k <= i < j < k + n ==> env.entryIds(i) != env.entryIds(j))
  }

  lemma EntryIdsSnoc(log: seq<LogEntry>, e: LogEntry)
    ensures EntryIds(log + [e]) == EntryIds(log) + {e.id}
  {
    var l := log + [e];
    assert forall i :: 0 <= i < |log| ==> l[i] == log[i];
    assert l[|log|] == e;
  }

  /**
   * How a session ends once every whole line has been replayed and only an
   * unterminated tail is left (the k-th call being next): at a clean end the
   * tail is dropped and io.EOF returned; after a transport error a non-empty
   * tail is still decoded and replayed, and the session returns nil unless
   * that replay fails.
   */
  function TailEnd(db: Db, exec: (Table, string) -> Option<Table>, json: Json, tail: string, end: StreamEnd, k: nat, env: ReplayEnv)
    : (r: (Db, Option<SessionError>))
    ensures end == AtEof ==> r == (db, Some(EndOfStream))
    ensures end == Broken && tail == "" ==> r == (db, None)
  {
    if end == AtEof then (db, Some(EndOfStream))
    else if tail == "" then (db, None)
    else
      var msg := json.decode(tail).value;
      var (d, e) := Transact(db, exec, msg.sqlQuery, msg.timestamp, env.entryIds(k), env.faults(k));
      if e.Some? then (d, Some(SyncFailed(e.value))) else (d, None)
  }

  /** The read loop once no newline is left. */
  lemma ReplayTail(db: Db, exec: (Table, string) -> Option<Table>, json: Json, b: Body, pos: nat, k: nat, env: ReplayEnv)
    requires pos <= |b.data| && '\n' !in b.data[pos..]
    ensures Replay(db, exec, json, b, pos, k, env) == TailEnd(db, exec, json, b.data[pos..], b.end, k, env)
  {
    ReadBytesLast(b, pos);
    if b.end == Broken && pos < |b.data| {
      ReadBytesAtEnd(b);
      var msg := json.decode(b.data[pos..]).value;
      var (d, e) := Transact(db, exec, msg.sqlQuery, msg.timestamp, env.entryIds(k), env.faults(k));
      if e.None? {
        assert Replay(d, exec, json, b, |b.data|, k + 1, env) == (d, None);
      }
    }
  }

  /** The session's end after replaying the whole lines with result a, with the tail still to read as call k. */
  function StreamOutcome(a: (Db, Option<StoreError>), exec: (Table, string) -> Option<Table>, json: Json, tail: string, end: StreamEnd, k: nat, env: ReplayEnv)
    : (Db, Option<SessionError>)
  {
    if a.1.Some? then (a.0, Some(SyncFailed(a.1.value))) else TailEnd(a.0, exec, json, tail, end, k, env)
  }

  /**
   * Reading a stream of records, possibly cut short inside one more record,
   * replays each whole record in order through SyncRecord and then ends as
   * TailEnd says.
   */
  lemma {:induction false} ReplayStream(
    db: Db, exec: (Table, string) -> Option<Table>, json: Json, b: Body, pos: nat, k: nat, env: ReplayEnv,
    rows: seq<ActivityLog>, tail: string)
    requires Lawful(json) && '\n' !in tail
    requires pos <= |b.data| && b.data[pos..] == StreamText(Lines(rows, json)) + tail
    ensures Replay(db, exec, json, b, pos, k, env) == StreamOutcome(ApplyAll(db, exec, rows, env, k), exec, json, tail, b.end, k + |rows|, env)
    decreases |rows|, 1
  {
    if rows == [] {
      assert b.data[pos..] == tail;
      ReplayTail(db, exec, json, b, pos, k, env);
    } else {
      ReplayFirstLine(db, exec, json, b, pos, k, env, rows, tail);
    }
  }

  /** The inductive step: the first record is read whole, decoded back and replayed. */
  lemma {:induction false} ReplayFirstLine(
    db: Db, exec: (Table, string) -> Option<Table>, json: Json, b: Body, pos: nat, k: nat, env: ReplayEnv,
    rows: seq<ActivityLog>, tail: string)
    requires Lawful(json) && '\n' !in tail && rows != []
    requires pos <= |b.data| && b.data[pos..] == StreamText(Lines(rows, json)) + tail
    ensures Replay(db, exec, json, b, pos, k, env) == StreamOutcome(ApplyAll(db, exec, rows, env, k), exec, json, tail, b.end, k + |rows|, env)
    decreases |rows|, 0
  {
    var next := pos + |Lines(rows, json)[0]| + 1;
    ReplayFirstRecord(db, exec, json, b, pos, k, env, rows, tail, next);
    ApplyAllCons(db, exec, rows, env, k);
    var t := Transact(db, exec, rows[0].sqlQuery, rows[0].timestamp, env.entryIds(k), env.faults(k));
    if t.1.None? {
      ReplayStream(t.0, exec, json, b, next, k + 1, env, rows[1..], tail);
      assert k + |rows| == k + 1 + |rows[1..]|;
    }
  }

  /** The first turn of the read loop over a stream of records: it reads the first record whole and replays exactly it. */
  lemma ReplayFirstRecord(
    db: Db, exec: (Table, string) -> Option<Table>, json: Json, b: Body, pos: nat, k: nat, env: ReplayEnv,
    rows: seq<ActivityLog>, tail: string, next: nat)
    requires Lawful(json) && rows != []
    requires pos <= |b.data| && b.data[pos..] == StreamText(Lines(rows, json)) + tail
    requires next == pos + |Lines(rows, json)[0]| + 1
    ensures next <= |b.data| && b.data[next..] == StreamText(Lines(rows[1..], json)) + tail
    ensures Transact(db, exec, rows[0].sqlQuery, rows[0].timestamp, env.entryIds(k), env.faults(k)).1.Some? ==>
      Replay(db, exec, json, b, pos, k, env) == (
        Transact(db, exec, rows[0].sqlQuery, rows[0].timestamp, env.entryIds(k), env.faults(k)).0,
        Some(SyncFailed(Transact(db, exec, rows[0].sqlQuery, rows[0].timestamp, env.entryIds(k), env.faults(k)).1.value)))
    ensures Transact(db, exec, rows[0].sqlQuery, rows[0].timestamp, env.entryIds(k), env.faults(k)).1.None? ==>
      Replay(db, exec, json, b, pos, k, env)
        == Replay(Transact(db, exec, rows[0].sqlQuery, rows[0].timestamp, env.entryIds(k), env.faults(k)).0, exec, json, b, next, k + 1, env)
  {
    var lines := Lines(rows, json);
    var line := lines[0] + "\n";
    assert json.decode(line).value == rows[0] && '\n' !in lines[0] by {
      FirstLineDecodes(rows, json);
    }
    assert ReadBytes(b, pos) == ReadResult(line, None, next) && b.data[next..] == StreamText(lines[1..]) + tail by {
      ReadBytesLine(b, pos, lines, tail);
    }
    assert Lines(rows[1..], json) == lines[1..];
    ReplayStep(db, exec, json, b, pos, k, env, line, next, rows[0]);
  }

  /** SyncRecord for the first row, then for the rest unless it failed. */
  lemma ApplyAllCons(db: Db, exec: (Table, string) -> Option<Table>, rows: seq<ActivityLog>, env: ReplayEnv, k: nat)
    requires rows != []
    ensures Transact(db, exec, rows[0].sqlQuery, rows[0].timestamp, env.entryIds(k), env.faults(k)).1.Some? ==>
      ApplyAll(db, exec, rows, env, k) == Transact(db, exec, rows[0].sqlQuery, rows[0].timestamp, env.entryIds(k), env.faults(k))
    ensures Transact(db, exec, rows[0].sqlQuery, rows[0].timestamp, env.entryIds(k), env.faults(k)).1.None? ==>
      ApplyAll(db, exec, rows, env, k)
        == ApplyAll(Transact(db, exec, rows[0].sqlQuery, rows[0].timestamp, env.entryIds(k), env.faults(k)).0, exec, rows[1..], env, k + 1)
  {
  }

  /** A streamed record's text holds no newline and decodes, newline and all, back to the record. */
  lemma FirstLineDecodes(rows: seq<ActivityLog>, json: Json)
    requires Lawful(json) && rows != []
    ensures '\n' !in Lines(rows, json)[0] && json.decode(Lines(rows, json)[0] + "\n") == Decoded(rows[0], true)
  {
    assert json.marshal(rows[0]).Some?;
  }

  /** One turn of the read loop on a newline-terminated line that decodes to msg (the zero or partial record if decoding fails). */
  lemma ReplayStep(
    db: Db, exec: (Table, string) -> Option<Table>, json: Json, b: Body, pos: nat, k: nat, env: ReplayEnv,
    line: string, next: nat, msg: ActivityLog)
    requires pos <= |b.data| && ReadBytes(b, pos) == ReadResult(line, None, next) && json.decode(line).value == msg
    ensures var t := Transact(db, exec, msg.sqlQuery, msg.timestamp, env.entryIds(k), env.faults(k));
      Replay(db, exec, json, b, pos, k, env)
        == if t.1.Some? then (t.0, Some(SyncFailed(t.1.value))) else Replay(t.0, exec, json, b, next, k + 1, env)
  {
  }

  /** With every call clean, replaying appends the rows to the log, in order, with their original timestamps. */
  lemma {:induction false} ApplyAllClean(db: Db, exec: (Table, string) -> Option<Table>, rows: seq<ActivityLog>, env: ReplayEnv, k: nat)
    requires ExecAll(exec, db.table, rows).Some? && CleanCalls(env, k, |rows|, db.log)
    ensures ApplyAll(db, exec, rows, env, k).1 == None
    ensures ApplyAll(db, exec, rows, env, k).0 == Db(ExecAll(exec, db.table, rows).value, db.log + Replayed(rows, env, k))
    decreases |rows|
  {
    if rows != [] {
      var d := Db(exec(db.table, rows[0].sqlQuery).value, db.log + [LogEntry(env.entryIds(k), rows[0].timestamp, rows[0].sqlQuery)]);
      CleanStep(db, exec, rows, env, k);
      ApplyAllClean(d, exec, rows[1..], env, k + 1);
    }
  }

  /** One clean call: it commits, and the rest of the replay starts from its result under the same conditions. */
  lemma {:induction false} CleanStep(db: Db, exec: (Table, string) -> Option<Table>, rows: seq<ActivityLog>, env: ReplayEnv, k: nat)
    requires rows != [] && ExecAll(exec, db.table, rows).Some? && CleanCalls(env, k, |rows|, db.log)
    ensures exec(db.table, rows[0].sqlQuery).Some?
    ensures var d := Db(exec(db.table, rows[0].sqlQuery).value, db.log + [LogEntry(env.entryIds(k), rows[0].timestamp, rows[0].sqlQuery)]);
      && ExecAll(exec, d.table, rows[1..]) == ExecAll(exec, db.table, rows)
      && CleanCalls(env, k + 1, |rows| - 1, d.log)
      && ApplyAll(db, exec, rows, env, k) == ApplyAll(d, exec, rows[1..], env, k + 1)
      && d.log + Replayed(rows[1..], env, k + 1) == db.log + Replayed(rows, env, k)
  {
    var first := LogEntry(env.entryIds(k), rows[0].timestamp, rows[0].sqlQuery);
    ExecAllCons(exec, db.table, rows);
    CleanCallsFirst(env, k, |rows|, db.log);
    ApplyAllStep(db, exec, rows, env, k);
    CleanCallsStep(env, k, |rows|, db.log, first);
    ReplayedAfter(db.log, rows, env, k);
  }

  /*
   * ExecAllCons, CleanCallsFirst, ApplyAllStep and ReplayedAfter each unfold
   * one definition; they are separate lemmas so that each unfolding happens in
   * a small context rather than inside CleanStep.
   */

  lemma ExecAllCons(exec: (Table, string) -> Option<Table>, t: Table, rows: seq<ActivityLog>)
    requires rows != [] && ExecAll(exec, t, rows).Some?
    ensures exec(t, rows[0].sqlQuery).Some?
    ensures ExecAll(exec, exec(t, rows[0].sqlQuery).value, rows[1..]) == ExecAll(exec, t, rows)
  {
  }

  lemma CleanCallsFirst(env: ReplayEnv, k: nat, n: nat, log: seq<LogEntry>)
    requires n > 0 && CleanCalls(env, k, n, log)
    ensures env.faults(k) == NoFault && env.entryIds(k) !in EntryIds(log)
  {
  }

  lemma ReplayedAfter(log: seq<LogEntry>, rows: seq<ActivityLog>, env: ReplayEnv, k: nat)
    requires rows != []
    ensures log + [LogEntry(env.entryIds(k), rows[0].timestamp, rows[0].sqlQuery)] + Replayed(rows[1..], env, k + 1)
      == log + Replayed(rows, env, k)
  {
    var r, t := Replayed(rows, env, k), Replayed(rows[1..], env, k + 1);
    assert r[1..] == t by {
      forall i | 0 <= i < |t| ensures r[1..][i] == t[i] {
        assert k + 1 + i == k + (i + 1);
      }
    }
    assert r == [r[0]] + r[1..];
  }

  /** The first call of a clean replay commits, and the rest continues from there. */
  lemma ApplyAllStep(db: Db, exec: (Table, string) -> Option<Table>, rows: seq<ActivityLog>, env: ReplayEnv, k: nat)
    requires rows != [] && exec(db.table, rows[0].sqlQuery).Some?
    requires env.faults(k) == NoFault && env.entryIds(k) !in EntryIds(db.log)
    ensures ApplyAll(db, exec, rows, env, k) == ApplyAll(
      Db(exec(db.table, rows[0].sqlQuery).value, db.log + [LogEntry(env.entryIds(k), rows[0].timestamp, rows[0].sqlQuery)]),
      exec, rows[1..], env, k + 1)
  {
  }

  lemma CleanCallsStep(env: ReplayEnv, k: nat, n: nat, log: seq<LogEntry>, first: LogEntry)
    requires n > 0 && CleanCalls(env, k, n, log) && first.id == env.entryIds(k)
    ensures CleanCalls(env, k + 1, n - 1, log + [first])
  {
    EntryIdsSnoc(log, first);
    forall i | k + 1 <= i < k + n ensures env.entryIds(i) !in EntryIds(log + [first]) {
      assert env.entryIds(k) != env.entryIds(i);
    }
  }

  /** An entry is in the change stream for since exactly when it is in the log with a later timestamp. */
  lemma {:induction false} SinceMembership(log: seq<LogEntry>, since: Int64, x: ActivityLog)
    ensures x in Since(log, since) <==> x in Records(log) && x.timestamp > since
  {
    if log != [] {
      var init := log[..|log| - 1];
      var last := log[|log| - 1];
      SinceMembership(init, since, x);
      assert Records(log) == Records(init) + [Record(last)];
    }
  }

  /** Replaying the stream served since the checkpoint never lowers the checkpoint. */
  lemma CheckpointGrows(log: seq<LogEntry>, peerLog: seq<LogEntry>, added: seq<LogEntry>)
    requires IsSinceResult(Records(added), peerLog, Checkpoint(log))
    ensures Checkpoint(log) <= Checkpoint(log + added)
  {
    var l := log + added;
    if log != [] {
      var i :| 0 <= i < |log| && log[i].timestamp == Checkpoint(log);
      assert l[i] == log[i];
    } else if added != [] {
      var x := Records(added)[0];
      assert x in multiset(Since(peerLog, Checkpoint(log)));
      assert l[0] == added[0];
    }
  }

  /** Every entry the peer served is at or below the checkpoint once the stream has been appended. */
  lemma ServedIsCovered(log: seq<LogEntry>, peerLog: seq<LogEntry>, added: seq<LogEntry>, x: ActivityLog)
    requires IsSinceResult(Records(added), peerLog, Checkpoint(log))
    requires x in Since(peerLog, Checkpoint(log))
    ensures x.timestamp <= Checkpoint(log + added)
  {
    assert x in multiset(Records(added));
    var j :| 0 <= j < |added| && Records(added)[j] == x;
    assert (log + added)[|log| + j] == added[j];
  }

  /** Nothing comes after a timestamp no entry exceeds. */
  lemma {:induction false} SinceEmpty(log: seq<LogEntry>, since: Int64)
    requires forall i :: 0 <= i < |log| ==> log[i].timestamp <= since
    ensures Since(log, since) == []
  {
    if log != [] {
      SinceEmpty(log[..|log| - 1], since);
    }
  }

  /**
   * Once the stream served since a node's checkpoint has been appended to its
   * log, the same peer, unchanged, has nothing left to serve it.
   */
  lemma NextSessionEmpty(log: seq<LogEntry>, peerLog: seq<LogEntry>, added: seq<LogEntry>)
    requires IsSinceResult(Records(added), peerLog, Checkpoint(log))
    ensures Since(peerLog, Checkpoint(log + added)) == []
  {
    var cp, cp' := Checkpoint(log), Checkpoint(log + added);
    CheckpointGrows(log, peerLog, added);
    forall i | 0 <= i < |peerLog| ensures peerLog[i].timestamp <= cp' {
      if peerLog[i].timestamp > cp {
        var x := Record(peerLog[i]);
        assert x == Records(peerLog)[i];
        SinceMembership(peerLog, cp, x);
        ServedIsCovered(log, peerLog, added, x);
      }
    }
    SinceEmpty(peerLog, cp');
  }

  /**
   * A full session against a peer serving its change stream: it ends with
   * io.EOF, and when every replayed statement executes and every SyncRecord
   * commits, the local log has gained exactly the peer's entries after the
   * local checkpoint, ascending by timestamp, with their original timestamps
   * and statements; a second session then fetches nothing.
   */
  lemma FullSession(
    db: Db, exec: (Table, string) -> Option<Table>, json: Json, peer: Peer, fetch: StreamRequest -> Option<Body>,
    env: ReplayEnv, peerEngine: Engine, peerLog: seq<LogEntry>)
    requires Lawful(json) && EngineLawful(peerEngine)
    requires fetch(RequestFor(peer, Checkpoint(db.log))) == Served(peerEngine, peerLog, json, RequestFor(peer, Checkpoint(db.log)))
    requires var rows := peerEngine.selectSince(peerLog, Checkpoint(db.log));
      ExecAll(exec, db.table, rows).Some? && CleanCalls(env, 0, |rows|, db.log)
    ensures var rows := peerEngine.selectSince(peerLog, Checkpoint(db.log));
      var (d, e) := SessionResult(db, exec, json, peer, NoCheckpointFault, fetch, env);
      && e == Some(EndOfStream)
      && d.table == ExecAll(exec, db.table, rows).value
      && d.log == db.log + Replayed(rows, env, 0)
      && SortedByTime(Records(d.log[|db.log|..]))
      && multiset(Records(d.log[|db.log|..])) == multiset(Since(peerLog, Checkpoint(db.log)))
      && Since(peerLog, Checkpoint(d.log)) == []
  {
    var cp := Checkpoint(db.log);
    assert SessionCheckpoint(db.log, NoCheckpointFault) == cp;
    var req := RequestFor(peer, cp);
    var rows := peerEngine.selectSince(peerLog, cp);
    assert ParseSince(Some(req.since)) == Ok(cp);
    var b := Body(Text(Frames(Lines(rows, json))), AtEof);
    assert SessionResult(db, exec, json, peer, NoCheckpointFault, fetch, env) == Replay(db, exec, json, b, 0, 0, env);
    TextOfFrames(Lines(rows, json));
    assert b.data[0..] == StreamText(Lines(rows, json)) + "";
    ReplayStream(db, exec, json, b, 0, 0, env, rows, "");
    ApplyAllClean(db, exec, rows, env, 0);
    var added := Replayed(rows, env, 0);
    assert (db.log + added)[|db.log|..] == added;
    NextSessionEmpty(db.log, peerLog, added);
  }

  /**
   * A session whose checkpoint read loses a row iteration error asks the peer
   * from timestamp 0: when every statement executes and every SyncRecord
   * commits, it appends again every peer entry with a positive timestamp,
   * including those the local log already holds.
   */
  lemma IterationFaultRefetches(
    db: Db, exec: (Table, string) -> Option<Table>, json: Json, peer: Peer, fetch: StreamRequest -> Option<Body>,
    env: ReplayEnv, peerEngine: Engine, peerLog: seq<LogEntry>)
    requires Lawful(json) && EngineLawful(peerEngine)
    requires fetch(RequestFor(peer, 0)) == Served(peerEngine, peerLog, json, RequestFor(peer, 0))
    requires var rows := peerEngine.selectSince(peerLog, 0);
      ExecAll(exec, db.table, rows).Some? && CleanCalls(env, 0, |rows|, db.log)
    ensures var rows := peerEngine.selectSince(peerLog, 0);
      var (d, e) := SessionResult(db, exec, json, peer, IterationFault, fetch, env);
      && e == Some(EndOfStream)
      && d.log == db.log + Replayed(rows, env, 0)
      && multiset(Records(d.log[|db.log|..])) == multiset(Since(peerLog, 0))
  {
    var req := RequestFor(peer, 0);
    var rows := peerEngine.selectSince(peerLog, 0);
    assert ParseSince(Some(req.since)) == Ok(0);
    var b := Body(Text(Frames(Lines(rows, json))), AtEof);
    assert SessionResult(db, exec, json, peer, IterationFault, fetch, env) == Replay(db, exec, json, b, 0, 0, env);
    TextOfFrames(Lines(rows, json));
    assert b.data[0..] == StreamText(Lines(rows, json)) + "";
    ReplayStream(db, exec, json, b, 0, 0, env, rows, "");
    ApplyAllClean(db, exec, rows, env, 0);
    var added := Replayed(rows, env, 0);
    assert (db.log + added)[|db.log|..] == added;
  }
}
