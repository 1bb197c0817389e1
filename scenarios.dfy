/**
 * Concrete situations derived from the general model:
 * the checkpoint of a small log, the change stream of another, and a
 * credential created on one node reaching a second node through one session.
 */
module Scenarios {
  import opened Base
  import opened Ids
  import opened Models
  import opened Wire
  import opened Storage
  import opened Discovery
  import opened Session
  import opened Replication

  /** An empty log has checkpoint 0; one with timestamps 5, 9 and 3 has checkpoint 9. */
  lemma CheckpointExample(a: ID, b: ID, c: ID, q: string)
    ensures Checkpoint([]) == 0
    ensures Checkpoint([LogEntry(a, 5, q), LogEntry(b, 9, q), LogEntry(c, 3, q)]) == 9
  {
    var log := [LogEntry(a, 5, q), LogEntry(b, 9, q), LogEntry(c, 3, q)];
    assert log[..2][..1] == [LogEntry(a, 5, q)];
    assert log[..2] == [LogEntry(a, 5, q), LogEntry(b, 9, q)];
    assert MaxTimestamp(log[..2][..1]) == 5;
    assert MaxTimestamp(log[..2]) == 9;
  }

  /** Over timestamps 3, 5, 9 and 12, every valid answer for since = 5 is exactly the entries at 9 and 12, in that order. */
  lemma ChangeStreamExample(ids: seq<ID>, q: seq<string>, rows: seq<ActivityLog>)
    requires |ids| == 4 && |q| == 4
    requires IsSinceResult(rows, [LogEntry(ids[0], 3, q[0]), LogEntry(ids[1], 5, q[1]), LogEntry(ids[2], 9, q[2]), LogEntry(ids[3], 12, q[3])], 5)
    ensures rows == [ActivityLog(9, q[2]), ActivityLog(12, q[3])]
  {
    var log := [LogEntry(ids[0], 3, q[0]), LogEntry(ids[1], 5, q[1]), LogEntry(ids[2], 9, q[2]), LogEntry(ids[3], 12, q[3])];
    var r9, r12 := ActivityLog(9, q[2]), ActivityLog(12, q[3]);
    assert log[..3][..2][..1] == [log[0]];
    assert log[..3][..2] == [log[0], log[1]];
    assert log[..3] == [log[0], log[1], log[2]];
    assert Since(log[..3][..2][..1], 5) == [];
    assert Since(log[..3][..2], 5) == [];
    assert Since(log[..3], 5) == [r9];
    assert Since(log, 5) == [r9, r12];
    assert multiset(rows) == multiset{r9, r12};
    assert |rows| == 2;
    assert r9 in multiset(rows) && r12 in multiset(rows);
    var i :| 0 <= i < 2 && rows[i] == r9;
    var j :| 0 <= j < 2 && rows[j] == r12;
  }

  /** Node A's side: creating the credential on an empty database adds its row and one log entry at its creation time. */
  lemma CreateOnEmpty(
    exec: (Table, string) -> Option<Table>, render: Credential -> Option<string>,
    cred: Credential, newId: ID, entryId: ID)
    requires InsertsRow(exec, render) && PlainCredential(WithId(cred, newId))
    requires CreateStep(Db(map[], []), exec, render, cred, newId, entryId, NoFault).1.Ok?
    ensures var c := WithId(cred, newId);
      var a := CreateStep(Db(map[], []), exec, render, cred, newId, entryId, NoFault).0;
      && render(c).Some?
      && a.table == map[c.id := RowOf(c)] == exec(map[], render(c).value).value
      && a.log == [LogEntry(entryId, cred.meta.createdAt, render(c).value)]
  {
  }

  /** A log of one entry at time 100 yields exactly that record to a checkpoint of 0. */
  lemma OneRowServed(peerEngine: Engine, id: ID, q: string)
    requires EngineLawful(peerEngine)
    ensures peerEngine.selectSince([LogEntry(id, 100, q)], 0) == [ActivityLog(100, q)]
  {
    var log := [LogEntry(id, 100, q)];
    var r := ActivityLog(100, q);
    var rows := peerEngine.selectSince(log, 0);
    assert log[..0] == [];
    assert Since(log, 0) == [r];
    assert multiset(rows) == multiset{r};
    assert |rows| == 1 && r in multiset(rows);
  }

  /**
   * Node B's side: an empty node pulling from a peer whose log holds one entry
   * at time 100 replays exactly that entry and ends at io.EOF, after which
   * nothing is left to fetch.
   */
  lemma PullOneEntry(
    exec: (Table, string) -> Option<Table>, json: Json, peer: Peer, peerEngine: Engine,
    fetch: StreamRequest -> Option<Body>, env: ReplayEnv, id: ID, query: string)
    requires Wire.Lawful(json) && EngineLawful(peerEngine)
    requires exec(map[], query).Some? && env.faults(0) == NoFault
    requires fetch(RequestFor(peer, 0)) == Served(peerEngine, [LogEntry(id, 100, query)], json, RequestFor(peer, 0))
    ensures SessionResult(Db(map[], []), exec, json, peer, NoCheckpointFault, fetch, env)
      == (Db(exec(map[], query).value, [LogEntry(env.entryIds(0), 100, query)]), Some(EndOfStream))
    ensures Since([LogEntry(id, 100, query)], 100) == []
  {
    var rows := peerEngine.selectSince([LogEntry(id, 100, query)], 0);
    assert rows == [ActivityLog(100, query)] by {
      OneRowServed(peerEngine, id, query);
    }
    var r := SessionResult(Db(map[], []), exec, json, peer, NoCheckpointFault, fetch, env);
    assert r.1 == Some(EndOfStream) && r.0.table == exec(map[], query).value && r.0.log == Replayed(rows, env, 0) by {
      OneEntrySession(exec, json, peer, peerEngine, fetch, env, id, query, rows);
    }
    assert Replayed(rows, env, 0) == [LogEntry(env.entryIds(0), 100, query)];
    assert r == (Db(r.0.table, r.0.log), r.1);
    assert Since([LogEntry(id, 100, query)], 100) == [] by {
      var log := [LogEntry(id, 100, query)];
      assert log[..|log| - 1] == [];
    }
  }

  /** The session part of PullOneEntry, once the peer's answer is known to be the one row. */
  lemma OneEntrySession(
    exec: (Table, string) -> Option<Table>, json: Json, peer: Peer, peerEngine: Engine,
    fetch: StreamRequest -> Option<Body>, env: ReplayEnv, id: ID, query: string, rows: seq<ActivityLog>)
    requires Wire.Lawful(json) && EngineLawful(peerEngine)
    requires exec(map[], query).Some? && env.faults(0) == NoFault
    requires fetch(RequestFor(peer, 0)) == Served(peerEngine, [LogEntry(id, 100, query)], json, RequestFor(peer, 0))
    requires rows == peerEngine.selectSince([LogEntry(id, 100, query)], 0) == [ActivityLog(100, query)]
    ensures var r := SessionResult(Db(map[], []), exec, json, peer, NoCheckpointFault, fetch, env);
      r.1 == Some(EndOfStream) && r.0.table == exec(map[], query).value && r.0.log == Replayed(rows, env, 0)
  {
    var empty := Db(map[], []);
    assert ExecAll(exec, map[], rows) == exec(map[], query);
    assert Checkpoint(empty.log) == 0;
    assert CleanCalls(env, 0, |rows|, empty.log) by {
      assert |rows| == 1 && EntryIds(empty.log) == {};
    }
    FullSession(empty, exec, json, peer, fetch, env, peerEngine, [LogEntry(id, 100, query)]);
  }


  /**
   * Node A creates a plain credential (no single quote in its text, at most one
   * extra) at time 100 on an empty database; node B, empty as well and so at checkpoint 0, runs
   * one session against A. B ends
   * with io.EOF holding the same credential table as A and one log entry at
   * time 100 with A's statement, and a further session would fetch nothing.
   */
  lemma TwoNodeScenario(
    exec: (Table, string) -> Option<Table>, render: Credential -> Option<string>, json: Json,
    cred: Credential, newId: ID, entryId: ID, peer: Peer, peerEngine: Engine,
    fetch: StreamRequest -> Option<Body>, env: ReplayEnv)
    requires Wire.Lawful(json) && EngineLawful(peerEngine) && InsertsRow(exec, render) && PlainCredential(WithId(cred, newId))
    requires cred.meta.createdAt == 100 && env.faults(0) == NoFault
    requires CreateStep(Db(map[], []), exec, render, cred, newId, entryId, NoFault).1.Ok?
    requires var a := CreateStep(Db(map[], []), exec, render, cred, newId, entryId, NoFault).0;
      fetch(RequestFor(peer, 0)) == Served(peerEngine, a.log, json, RequestFor(peer, 0))
    ensures var a := CreateStep(Db(map[], []), exec, render, cred, newId, entryId, NoFault).0;
      var (b, e) := SessionResult(Db(map[], []), exec, json, peer, NoCheckpointFault, fetch, env);
      && e == Some(EndOfStream)
      && b.table == a.table == map[WithId(cred, newId).id := RowOf(WithId(cred, newId))]
      && b.log == [LogEntry(env.entryIds(0), 100, a.log[0].query)]
      && Since(a.log, Checkpoint(b.log)) == []
  {
    CreateOnEmpty(exec, render, cred, newId, entryId);
    var query := render(WithId(cred, newId)).value;
    PullOneEntry(exec, json, peer, peerEngine, fetch, env, entryId, query);
    assert Checkpoint([LogEntry(env.entryIds(0), 100, query)]) == 100;
  }
}
