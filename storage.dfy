/**
 * The storage engine (server/internal/store/internal/sqlite/store.go): a
 * credential table and an append-only activity log held in one database.
 * Every mutating statement runs in a transaction that also appends a log
 * entry carrying the statement text, so a row change and its log entry
 * become visible together or not at all.
 *
 * The SQL engine is a collaborator: it executes statement text against the
 * credential table (possibly failing) and answers the "entries after a
 * timestamp, ascending" query, whose law is stated below.
 */
module Storage {
  import opened Base
  import opened Ids
  import opened Models
  import opened Wire

  /** The credstore columns an insert fills; namespace and deleted_at are not among them. */
  datatype Row = Row(
    username: string,
    password: string,
    hosts: seq<string>,
    extras: map<string, string>,
    tags: seq<string>,
    createdBy: string,
    createdAt: Int64,
    updatedAt: Int64)

  /** The row an insert of c writes: every field but namespace and deletedAt. */
  function RowOf(c: Credential): (r: Row)
    ensures r.username == c.username && r.password == c.password
    ensures r.hosts == c.hosts && r.extras == c.extra && r.tags == c.tags
    ensures r.createdBy == c.meta.createdBy && r.createdAt == c.meta.createdAt && r.updatedAt == c.meta.updatedAt
  {
    Row(c.username, c.password, c.hosts, c.extra, c.tags, c.meta.createdBy, c.meta.createdAt, c.meta.updatedAt)
  }

  /** The insert does not store namespace or deletedAt: credentials differing only there give the same row. */
  lemma RowOmitsNamespace(c: Credential, namespace: string, deletedAt: Int64)
    ensures RowOf(c.(namespace := namespace, meta := c.meta.(deletedAt := deletedAt))) == RowOf(c)
  {
  }

  /** The credstore table, keyed by its primary key id. */
  type Table = map<ID, Row>

  /** A row of activity_log. */
  datatype LogEntry = LogEntry(id: ID, timestamp: Int64, query: string)

  /** The whole database: both tables. */
  datatype Db = Db(table: Table, log: seq<LogEntry>)

  /**
   * The SQL engine. exec runs statement text against the credential table
   * (None: the statement failed); selectSince answers
   *   SELECT timestamp, sql_query FROM activity_log WHERE timestamp > ? ORDER BY timestamp ASC.
   */
  datatype Engine = Engine(
    exec: (Table, string) -> Option<Table>,
    selectSince: (seq<LogEntry>, Int64) -> seq<ActivityLog>)

  /** How reading the checkpoint fails: in the query (prepare, query or scan), in the row iteration, or not at all. */
  datatype CheckpointFault = NoCheckpointFault | QueryFault | IterationFault

  /** The step of a transaction at which the database reports a failure, if any. */
  datatype TxFault = NoFault | BeginFault | LogInsertFault | CommitFault

  datatype StoreError =
    | RenderFailed
    | BeginFailed
    | ExecFailed
    | LogInsertFailed
    | CommitFailed
    | QueryFailed
    | ScanFailed
    | MarshalFailed

  function EntryIds(log: seq<LogEntry>): set<ID> {
    set i | 0 <= i < |log| :: log[i].id
  }

  /** activity_log.id is a primary key. */
  predicate DistinctIds(log: seq<LogEntry>) {
    forall i, j :: 0 <= i < j < |log| ==> log[i].id != log[j].id
  }

  // ----- the checkpoint -----

  /** The largest timestamp in a non-empty log. */
  function MaxTimestamp(log: seq<LogEntry>): (t: Int64)
    requires log != []
    ensures forall i :: 0 <= i < |log| ==> log[i].timestamp <= t
    ensures exists i :: 0 <= i < |log| && log[i].timestamp == t
  {
    if |log| == 1 then log[0].timestamp
    else
      var m := MaxTimestamp(log[..|log| - 1]);
      var last := log[|log| - 1].timestamp;
      if m < last then last else m
  }

  /**
   * What SELECT timestamp FROM activity_log ORDER BY timestamp DESC LIMIT 1
   * yields: the largest timestamp, or 0 when the log is empty. A log whose
   * timestamps are all negative has a negative checkpoint.
   */
  function Checkpoint(log: seq<LogEntry>): (cp: Int64)
    ensures log == [] ==> cp == 0
    ensures log != [] ==> (exists i :: 0 <= i < |log| && log[i].timestamp == cp)
    ensures forall i :: 0 <= i < |log| ==> log[i].timestamp <= cp
  {
    if log == [] then 0 else MaxTimestamp(log)
  }

  // ----- the change-stream query -----

  function Record(e: LogEntry): ActivityLog {
    ActivityLog(e.timestamp, e.query)
  }

  /** The (timestamp, query) pairs of the entries after since, in log order. */
  function Since(log: seq<LogEntry>, since: Int64): (r: seq<ActivityLog>)
    ensures forall x :: x in r ==> x.timestamp > since
    ensures |r| <= |log|
  {
    if log == [] then []
    else
      var last := log[|log| - 1];
      Since(log[..|log| - 1], since) + (if last.timestamp > since then [Record(last)] else [])
  }

  predicate SortedByTime(rows: seq<ActivityLog>) {
    forall i, j :: 0 <= i < j < |rows| ==> rows[i].timestamp <= rows[j].timestamp
  }

  /**
   * What the change-stream query may return: exactly the entries after since,
   * in non-decreasing timestamp order. Entries with equal timestamps may come
   * in any order, as SQL leaves it open.
   */
  ghost predicate IsSinceResult(rows: seq<ActivityLog>, log: seq<LogEntry>, since: Int64) {
    SortedByTime(rows) && multiset(rows) == multiset(Since(log, since))
  }

  ghost predicate EngineLawful(e: Engine) {
    forall log, since :: IsSinceResult(e.selectSince(log, since), log, since)
  }

  function InsertByTime(x: ActivityLog, s: seq<ActivityLog>): (r: seq<ActivityLog>)
    ensures multiset(r) == multiset(s) + multiset{x}
  {
    if s == [] then [x]
    else if x.timestamp <= s[0].timestamp then [x] + s
    else
      assert s == [s[0]] + s[1..];
      [s[0]] + InsertByTime(x, s[1..])
  }

  lemma {:induction false} InsertByTimeSorted(x: ActivityLog, s: seq<ActivityLog>)
    requires SortedByTime(s)
    ensures SortedByTime(InsertByTime(x, s))
  {
    if s != [] && x.timestamp > s[0].timestamp {
      InsertByTimeSorted(x, s[1..]);
      var tail := InsertByTime(x, s[1..]);
      forall y | y in tail ensures s[0].timestamp <= y.timestamp {
        assert y in multiset(tail);
        assert y == x || y in multiset(s[1..]);
      }
      ConsSorted(s[0], tail);
    }
  }

  lemma ConsSorted(h: ActivityLog, t: seq<ActivityLog>)
    requires SortedByTime(t) && forall y :: y in t ==> h.timestamp <= y.timestamp
    ensures SortedByTime([h] + t)
  {
    assert forall j :: 0 <= j < |t| ==> t[j] in t;
  }

  /** A reference order for the query: insertion sort on timestamps. */
  function SortByTime(s: seq<ActivityLog>): (r: seq<ActivityLog>)
    ensures multiset(r) == multiset(s)
  {
    if s == [] then []
    else
      assert s == [s[0]] + s[1..];
      InsertByTime(s[0], SortByTime(s[1..]))
  }

  lemma {:induction false} SortByTimeSorted(s: seq<ActivityLog>)
    ensures SortedByTime(SortByTime(s))
  {
    if s != [] {
      SortByTimeSorted(s[1..]);
      InsertByTimeSorted(s[0], SortByTime(s[1..]));
    }
  }

  /** The query's meaning can be met: sorting the filtered log is a valid answer. */
  lemma ReferenceEngineLawful(exec: (Table, string) -> Option<Table>)
    ensures EngineLawful(Engine(exec, (log: seq<LogEntry>, since: Int64) => SortByTime(Since(log, since))))
  {
    forall log, since ensures IsSinceResult(SortByTime(Since(log, since)), log, since) {
      SortByTimeSorted(Since(log, since));
    }
  }

  // ----- transactions, as transitions of the whole database -----

  /** The identifier Create uses: the caller's, or a freshly generated one when it is empty. */
  function WithId(cred: Credential, newId: ID): (c: Credential)
    ensures cred.id == "" ==> c == cred.(id := newId)
    ensures cred.id != "" ==> c == cred
  {
    if cred.id == "" then cred.(id := newId) else cred
  }

  /**
   * No text the insert statement wraps in single quotes contains one: neither
   * squote nor flatten escapes, so only for such a credential does the
   * statement say what it appears to.
   */
  predicate QuoteFree(c: Credential) {
    && '\'' !in c.id && '\'' !in c.username && '\'' !in c.password && '\'' !in c.meta.createdBy
    && (forall h :: h in c.hosts ==> '\'' !in h)
    && (forall t :: t in c.tags ==> '\'' !in t)
    && (forall k :: k in c.extra ==> '\'' !in k && '\'' !in c.extra[k])
  }

  /**
   * A credential whose rendered insert statement says what it appears to: it
   * is quote-free, and it has at most one extra. The map case of flatten puts
   * no separator between entries, so with two or more extras the value of one
   * entry and the key of the next run together into one SQL string literal.
   */
  predicate PlainCredential(c: Credential) {
    QuoteFree(c) && |c.extra| <= 1
  }

  /**
   * The law tying the rendered insert statement to the engine, for a plain
   * credential: when executing it succeeds, the credential's id was
   * not yet a key and exactly its row was added.
   */
  ghost predicate InsertsRow(exec: (Table, string) -> Option<Table>, render: Credential -> Option<string>) {
    forall t, c, q :: PlainCredential(c) && render(c) == Some(q) && exec(t, q).Some? ==>
      c.id !in t && exec(t, q).value == t[c.id := RowOf(c)]
  }

  /** The primary key: under the insert law, a plain credential's insert fails when its id is already taken. */
  lemma InsertsRowKeyTaken(exec: (Table, string) -> Option<Table>, render: Credential -> Option<string>, t: Table, c: Credential)
    requires InsertsRow(exec, render) && PlainCredential(c) && render(c).Some? && c.id in t
    ensures exec(t, render(c).value).None?
  {
  }

  /**
   * One transaction: begin, execute q, insert the log entry (entryId, ts, q),
   * commit. A failure at any step rolls back, leaving the database as it was.
   */
  function Transact(db: Db, exec: (Table, string) -> Option<Table>, q: string, ts: Int64, entryId: ID, fault: TxFault)
    : (r: (Db, Option<StoreError>))
    ensures r.1.None? <==> fault == NoFault && exec(db.table, q).Some? && entryId !in EntryIds(db.log)
    ensures r.1.None? ==> r.0 == Db(exec(db.table, q).value, db.log + [LogEntry(entryId, ts, q)])
    ensures r.1.Some? ==> r.0 == db
  {
    if fault == BeginFault then (db, Some(BeginFailed))
    else
      match exec(db.table, q)
      case None => (db, Some(ExecFailed))
      case Some(t) =>
        if fault == LogInsertFault || entryId in EntryIds(db.log) then (db, Some(LogInsertFailed))
        else if fault == CommitFault then (db, Some(CommitFailed))
        else
          assert fault == NoFault;
          (Db(t, db.log + [LogEntry(entryId, ts, q)]), None)
  }
  /**
   * A failed transaction names the step that failed: begin, the statement,
   * the log insert (a faulting insert or an entry ID already present) or the
   * commit, checked in that order.
   */
  lemma TransactFailures(db: Db, exec: (Table, string) -> Option<Table>, q: string, ts: Int64, entryId: ID, fault: TxFault)
    ensures var e := Transact(db, exec, q, ts, entryId, fault).1;
      && (e == Some(BeginFailed) <==> fault == BeginFault)
      && (e == Some(ExecFailed) <==> fault != BeginFault && exec(db.table, q).None?)
      && (e == Some(LogInsertFailed) <==>
            fault != BeginFault && exec(db.table, q).Some? && (fault == LogInsertFault || entryId in EntryIds(db.log)))
      && (e == Some(CommitFailed) <==>
            fault == CommitFault && exec(db.table, q).Some? && entryId !in EntryIds(db.log))
  {
  }


  /**
   * Create: keep the caller's id or assign newId, render the insert statement,
   * and run it in a transaction whose log entry is stamped with the
   * credential's creation time.
   */
  function CreateStep(
    db: Db, exec: (Table, string) -> Option<Table>, render: Credential -> Option<string>,
    cred: Credential, newId: ID, entryId: ID, fault: TxFault)
    : (r: (Db, Result<ID, StoreError>))
    ensures var c := WithId(cred, newId);
      && (render(c).None? ==> r == (db, Err(RenderFailed)))
      && (r.1.Ok? ==>
            && render(c).Some?
            && r.1.value == c.id
            && r.0.log == db.log + [LogEntry(entryId, cred.meta.createdAt, render(c).value)]
            && exec(db.table, render(c).value).Some?
            && r.0.table == exec(db.table, render(c).value).value)
      && (r.1.Err? ==> r.0 == db)
      && (render(c).Some? ==>
            (r.1.Ok? <==> fault == NoFault && exec(db.table, render(c).value).Some? && entryId !in EntryIds(db.log)))
      && (render(c).Some? && r.1.Err? ==>
            Some(r.1.error) == Transact(db, exec, render(c).value, cred.meta.createdAt, entryId, fault).1)
      && (r.1.Ok? && PlainCredential(c) && InsertsRow(exec, render) ==> c.id !in db.table && r.0.table == db.table[c.id := RowOf(c)])
  {
    var c := WithId(cred, newId);
    match render(c)
    case None => (db, Err(RenderFailed))
    case Some(q) =>
      var (db', err) := Transact(db, exec, q, c.meta.createdAt, entryId, fault);
      if err.Some? then (db', Err(err.value)) else (db', Ok(c.id))
  }

  /** The (timestamp, query) text of each row, as the change stream marshals it. */
  function Lines(rows: seq<ActivityLog>, json: Json): (r: seq<string>)
    ensures |r| == |rows|
    ensures forall i :: 0 <= i < |rows| && json.marshal(rows[i]).Some? ==> r[i] == json.marshal(rows[i]).value
  {
    seq(|rows|, i requires 0 <= i < |rows| => match json.marshal(rows[i]) case Some(s) => s case None => "")
  }

  /** Streaming row i after rows[..i] appends its frame. */
  lemma StreamedOneMore(events: seq<WriterEvent>, rows: seq<ActivityLog>, json: Json, i: nat)
    requires i < |rows| && json.marshal(rows[i]).Some?
    ensures events + Frames(Lines(rows[..i], json)) + Frame(json.marshal(rows[i]).value)
      == events + Frames(Lines(rows[..i + 1], json))
  {
    var x := json.marshal(rows[i]).value;
    assert Lines(rows[..i + 1], json) == Lines(rows[..i], json) + [x];
    FramesSnoc(Lines(rows[..i], json), x);
  }

  /** The index of the first row whose scan or marshal fails, from i on; |rows| when none does. */
  function FirstFailure(rows: seq<ActivityLog>, json: Json, scanFails: nat -> bool, i: nat): (k: nat)
    requires i <= |rows|
    ensures i <= k <= |rows|
    ensures forall j :: i <= j < k ==> !scanFails(j) && json.marshal(rows[j]).Some?
    ensures k < |rows| ==> scanFails(k) || json.marshal(rows[k]).None?
    decreases |rows| - i
  {
    if i == |rows| then i
    else if scanFails(i) || json.marshal(rows[i]).None? then i
    else FirstFailure(rows, json, scanFails, i + 1)
  }

  class Store {
    var table: Table
    var log: seq<LogEntry>
    const engine: Engine
    /** SQLPrepare(credential_create, ·): the rendered insert statement (text/template is not modelled). */
    const render: Credential -> Option<string>

    ghost predicate Valid()
      reads this
    {
      DistinctIds(log) && EngineLawful(engine)
    }

    function State(): Db
      reads this
    {
      Db(table, log)
    }

    /** A store over an opened database with the given contents. */
    constructor (engine: Engine, render: Credential -> Option<string>, table: Table, log: seq<LogEntry>)
      requires DistinctIds(log) && EngineLawful(engine)
      ensures Valid()
      ensures this.engine == engine && this.render == render && this.table == table && this.log == log
    {
      this.engine := engine;
      this.render := render;
      this.table := table;
      this.log := log;
    }

    /** Run q and log it under (entryId, ts) in one transaction. */
    method Run(q: string, ts: Int64, entryId: ID, fault: TxFault) returns (err: Option<StoreError>)
      requires Valid()
      modifies this
      ensures Valid()
      ensures (State(), err) == Transact(old(State()), engine.exec, q, ts, entryId, fault)
      ensures old(log) <= log
    {
      if fault == BeginFault {
        return Some(BeginFailed);
      }
      // The transaction works on its own copy of both tables until it commits;
      // returning before the commit is the rollback.
      var txTable, txLog := table, log;
      var executed := engine.exec(txTable, q);
      if executed.None? {
        return Some(ExecFailed);
      }
      txTable := executed.value;
      if fault == LogInsertFault || entryId in EntryIds(txLog) {
        return Some(LogInsertFailed);
      }
      txLog := txLog + [LogEntry(entryId, ts, q)];
      if fault == CommitFault {
        return Some(CommitFailed);
      }
      assert forall i :: 0 <= i < |log| ==> log[i].id in EntryIds(log);
      table, log := txTable, txLog;
      err := None;
    }

    /** Create: insert a credential and its log entry atomically; returns the id used. */
    method Create(cred: Credential, newId: ID, entryId: ID, fault: TxFault) returns (r: Result<ID, StoreError>)
      requires Valid()
      modifies this
      ensures Valid()
      ensures (State(), r) == CreateStep(old(State()), engine.exec, render, cred, newId, entryId, fault)
      ensures old(log) <= log
    {
      var c := cred;
      if c.id == "" {
        c := c.(id := newId);
      }
      var q := render(c);
      if q.None? {
        return Err(RenderFailed);
      }
      var err := Run(q.value, c.meta.createdAt, entryId, fault);
      if err.Some? {
        return Err(err.value);
      }
      r := Ok(c.id);
    }

    /** SyncRecord: replay a captured statement, logging it with its original timestamp. */
    method SyncRecord(ts: Int64, q: string, entryId: ID, fault: TxFault) returns (err: Option<StoreError>)
      requires Valid()
      modifies this
      ensures Valid()
      ensures (State(), err) == Transact(old(State()), engine.exec, q, ts, entryId, fault)
      ensures old(log) <= log
    {
      err := Run(q, ts, entryId, fault);
    }

    /**
     * LastCheckpointAt: the checkpoint of the log. A failed prepare, query or
     * scan is an error; a failed row iteration makes rows.Next report no row,
     * and as rows.Err is not checked, it reads as an empty log: checkpoint 0.
     */
    method LastCheckpointAt(fault: CheckpointFault) returns (r: Result<Int64, StoreError>)
      ensures fault == QueryFault <==> r == Err(QueryFailed)
      ensures fault == NoCheckpointFault ==> r == Ok(Checkpoint(log))
      ensures fault == IterationFault ==> r == Ok(0)
    {
      if fault == QueryFault {
        return Err(QueryFailed);
      }
      if fault == IterationFault || log == [] {
        r := Ok(0);
      } else {
        r := Ok(MaxTimestamp(log));
      }
    }

    /**
     * ChangeStream: write every entry after since, ascending by timestamp, as
     * its JSON text followed by a newline, flushing after each. The first scan
     * or marshal failure ends the stream with that error; what has been written
     * stays written.
     */
    method ChangeStream(since: Int64, json: Json, queryFails: bool, scanFails: nat -> bool, w: Sink)
      returns (err: Option<StoreError>)
      requires Valid()
      modifies w
      ensures queryFails ==> err == Some(QueryFailed) && w.events == old(w.events)
      ensures !queryFails ==>
        var rows := engine.selectSince(log, since);
        var k := FirstFailure(rows, json, scanFails, 0);
        && IsSinceResult(rows, log, since)
        && w.events == old(w.events) + Frames(Lines(rows[..k], json))
        && err == (if k == |rows| then None else if scanFails(k) then Some(ScanFailed) else Some(MarshalFailed))
    {
      if queryFails {
        return Some(QueryFailed);
      }
      var rows := engine.selectSince(log, since);
      var i := 0;
      while i < |rows|
        invariant 0 <= i <= |rows|
        invariant FirstFailure(rows, json, scanFails, i) == FirstFailure(rows, json, scanFails, 0)
        invariant w.events == old(w.events) + Frames(Lines(rows[..i], json))
      {
        if scanFails(i) {
          return Some(ScanFailed);
        }
        var b := json.marshal(rows[i]);
        if b.None? {
          return Some(MarshalFailed);
        }
        ghost var before := w.events;
        w.Write(b.value);
        w.Write("\n");
        w.Flush();
        assert w.events == before + Frame(b.value);
        StreamedOneMore(old(w.events), rows, json, i);
        i := i + 1;
      }
      assert rows[..i] == rows;
      err := None;
    }
  }
}
