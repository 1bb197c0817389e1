/**
 * The two HTTP handlers of the replication core (httpServer in
 * server/cmd/main.go): POST /cred stamps the parsed credential with this
 * node's instance name and the current time before storing it, and
 * GET /sync-stream parses its since parameter as a base-10 int64 and serves
 * the change stream from there.
 *
 * Request parsing by the router is a parameter: the decoded body (None when
 * it does not parse) and the since query value (None when it is missing).
 * The two clock readings of the /cred handler are parameters as well.
 */
module Handlers {
  import opened Base
  import opened Decimal
  import opened Ids
  import opened Models
  import opened Wire
  import opened Storage

  datatype HandlerError =
    | BadBody
    | CreateFailed(cause: StoreError)
    | MissingSince
    | BadSince
    | StreamFailed(cause: StoreError)

  /**
   * The metadata /cred sets on an incoming credential: created by this
   * instance, created and updated at the two clock readings (time.Now() is
   * read once for each). Everything the client sent besides is kept.
   */
  function Stamp(cred: Credential, instance: string, createdAt: Int64, updatedAt: Int64): (c: Credential)
    ensures c.meta.createdBy == instance && c.meta.createdAt == createdAt && c.meta.updatedAt == updatedAt
    ensures c.meta.deletedAt == cred.meta.deletedAt
    ensures c.id == cred.id && c.username == cred.username && c.password == cred.password
    ensures c.hosts == cred.hosts && c.extra == cred.extra && c.tags == cred.tags && c.namespace == cred.namespace
  {
    cred.(meta := cred.meta.(createdBy := instance, createdAt := createdAt, updatedAt := updatedAt))
  }

  /** POST /cred. */
  method PostCred(
    store: Store, body: Option<Credential>, instance: string, createdAt: Int64, updatedAt: Int64,
    newId: ID, entryId: ID, fault: TxFault)
    returns (r: Result<ID, HandlerError>)
    requires store.Valid()
    modifies store
    ensures store.Valid()
    ensures body.None? ==> r == Err(BadBody) && store.State() == old(store.State())
    ensures body.Some? ==>
      var (db, res) := CreateStep(old(store.State()), store.engine.exec, store.render,
        Stamp(body.value, instance, createdAt, updatedAt), newId, entryId, fault);
      && store.State() == db
      && r == (if res.Ok? then Ok(res.value) else Err(CreateFailed(res.error)))
    ensures r.Ok? ==> |store.log| == |old(store.log)| + 1 && store.log[|old(store.log)|].timestamp == createdAt
  {
    if body.None? {
      return Err(BadBody);
    }
    var cred := body.value;
    cred := cred.(meta := cred.meta.(createdBy := instance));
    cred := cred.(meta := cred.meta.(createdAt := createdAt));
    cred := cred.(meta := cred.meta.(updatedAt := updatedAt));
    var id := store.Create(cred, newId, entryId, fault);
    if id.Err? {
      return Err(CreateFailed(id.error));
    }
    r := Ok(id.value);
  }

  /** The since parameter: required, and a base-10 int64 as strconv.ParseInt reads it. */
  function ParseSince(q: Option<string>): (r: Result<Int64, HandlerError>)
    ensures q.None? ==> r == Err(MissingSince)
    ensures q.Some? && ParseInt64(q.value).None? ==> r == Err(BadSince)
    ensures r.Ok? <==> q.Some? && ParseInt64(q.value).Some?
    ensures r.Ok? ==> ParseInt64(q.value) == Some(r.value)
  {
    match q
    case None => Err(MissingSince)
    case Some(s) =>
      match ParseInt64(s)
      case None => Err(BadSince)
      case Some(n) => Ok(n)
  }

  /** Whatever checkpoint a client sends, written in decimal, is the one the handler streams from. */
  lemma ParseSinceFormat(checkpoint: Int64)
    ensures ParseSince(Some(Format(checkpoint))) == Ok(checkpoint)
  {
    ParseFormat(checkpoint);
  }

  /** GET /sync-stream. */
  method GetSyncStream(store: Store, since: Option<string>, json: Json, queryFails: bool, scanFails: nat -> bool, w: Sink)
    returns (err: Option<HandlerError>)
    requires store.Valid()
    modifies w
    ensures ParseSince(since).Err? ==> err == Some(ParseSince(since).error) && w.events == old(w.events)
    ensures ParseSince(since).Ok? && queryFails ==> err == Some(StreamFailed(QueryFailed)) && w.events == old(w.events)
    ensures ParseSince(since).Ok? && !queryFails ==>
      var rows := store.engine.selectSince(store.log, ParseSince(since).value);
      var k := FirstFailure(rows, json, scanFails, 0);
      && IsSinceResult(rows, store.log, ParseSince(since).value)
      && w.events == old(w.events) + Frames(Lines(rows[..k], json))
      && err == (if k == |rows| then None else if scanFails(k) then Some(StreamFailed(ScanFailed)) else Some(StreamFailed(MarshalFailed)))
  {
    if since.None? {
      return Some(MissingSince);
    }
    var n := ParseInt64(since.value);
    if n.None? {
      return Some(BadSince);
    }
    var e := store.ChangeStream(n.value, json, queryFails, scanFails, w);
    if e.Some? {
      return Some(StreamFailed(e.value));
    }
    err := None;
  }
}
