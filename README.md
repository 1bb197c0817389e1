# nxtpass replication core, modelled in Dafny

nxtpass is a peer-to-peer password store. Each node keeps its credentials in a
local SQLite database. Every insert is also recorded in an `activity_log` table
as `(id, timestamp, sql_query)`. Nodes find each other over mDNS. On finding a
peer, a node reads its own checkpoint, which is the largest logged timestamp.
It then pulls the peer's log entries after that checkpoint as a stream of
newline-delimited JSON records, and replays each record through `SyncRecord`.
`SyncRecord` executes the statement and logs it under its original timestamp,
in one transaction.

This project models that core:

- **Storage** (`store.go`): the class `Store` holds the credential table and the
  activity log. `Create`, `SyncRecord`, `LastCheckpointAt` and `ChangeStream`
  are methods on it, each proved against a pure transition function:
  - `Transact` and `CreateStep` for the transactions;
  - `Checkpoint` for the checkpoint;
  - `Since`, `Lines` and `Frames` for the change stream.

  The SQL engine is a collaborator with a stated law: the change-stream query
  returns exactly the entries after `since`, in non-decreasing timestamp order.
  An insertion sort is proved to satisfy that law, so the law can be met.
- **Templates** (`templates.go`): the loops of `flattenNumber` and of the
  `[]string` and `map[string]string` cases of `flatten`. Each is a method with
  loop invariants, proved equal to a pure description. The lemmas cover:
  - length;
  - quoting;
  - decodability of the number lists;
  - the absence of escaping.
- **Ids** (`ulid.go`): `New`, `NewWithPrefix` and `ParseID` over an abstract
  KSUID codec whose law is "print then parse gives the KSUID back".
- **Discovery** (`watchForPeers`): the dedup rule on discovered instances. The
  set of instances with a running session is the class `PeerSet`.
- **Session** (`onPeerFound`): the read/replay loop, as the method `OnPeerFound`,
  proved against the function `Replay`.
- **Handlers**: `POST /cred`, which stamps the metadata, and `GET /sync-stream`,
  which parses `since`.
- **Replication**: lemmas about whole sessions. Reading a served stream replays
  every record in order. A clean session appends exactly the peer's entries
  after the local checkpoint. After that, a second session has nothing left
  to fetch.
- **Scenarios**: worked instances. They include a credential created on node A
  reaching node B through one session.

The model makes these choices:

- The database is a value `Db(table, log)`.
- Statement execution is a function parameter `exec`, so the SQL text is not
  interpreted.
- Transaction failures are a `TxFault` parameter: begin, log insert or commit.
  How reading the checkpoint fails is a `CheckpointFault` parameter: in the
  query, in the row iteration, or not at all.
- The marshalled JSON text is a `Json` codec. Its law: marshalling succeeds,
  the text contains no raw newline, and decoding the text plus `"\n"` gives the
  record back.
- A response body is its bytes plus how it ends: `AtEof` for a clean end,
  `Broken` for a transport error.
- Clock readings, fresh identifiers and HTTP round trips are parameters.

### Behaviour of the code worth knowing

- `ParseID` on fewer than 27 characters panics: the slice
  `v[len(v)-27:]` at `ulid.go:17` is out of range. It returns no parse error.
  The model gives this its own outcome, `SliceOutOfRange`.
- `onPeerFound` returns `io.EOF` as its error when the stream ends cleanly
  (`main.go:114-118`, `Session.SessionError.EndOfStream`). It returns `nil`
  only when a transport error leaves an empty read (`main.go:120-122`).
- A record that fails to unmarshal does not abort the session: the failure at
  `main.go:126-129` is only logged. The zero or partly filled record is still
  passed to `SyncRecord` at `main.go:131`.
- After a transport error, an unterminated partial last line is still decoded
  and replayed, because `ReadBytes` returns the data together with the error
  and only an empty read stops the loop (`Replication.TailEnd`). At a clean end
  it is dropped.
- Neither `squote` nor `flatten` escapes a single quote
  (`templates.go:33-35`, `Templates.FlattenStringsNotInjective`). A credential
  with a `'` in a text field renders a statement that does not say what it
  appears to.
- The map case of `flatten` writes no `,` between entries
  (`templates.go:55-59`, `Templates.FlattenMapMergesEntries`), so the closing
  quote of one value meets the opening quote of the next key as `''`, which
  SQLite reads as a quote inside one literal. With two extras `json_object`
  receives three arguments, an odd count, and the insert fails. With three extras
  it receives four and stores `{"k1":"v1'k2","v2'k3":"v3"}`. Only credentials
  with at most one extra are stored as they appear.
- `LastCheckpointAt` does not check `rows.Err()` (`store.go:160-169`): an error
  while iterating the result rows reads as checkpoint 0, so the session asks
  the peer for its whole log again (`Replication.IterationFaultRefetches`).

## Model

| member | source | states |
|---|---|---|
| Decimal.Format | server/cmd/main.go:101 | `fmt.Sprint` of an int64: non-empty, a leading `-` exactly for negative values, digits after it |
| Decimal.ParseInt64 | server/cmd/main.go:226 | `strconv.ParseInt(s, 10, 64)`: accepts exactly an optional sign followed by one or more digits whose value lies in the int64 range; the result is that value |
| Decimal.LeadingZeros | server/cmd/main.go:226 | leading zero digits do not change a decimal value |
| Decimal.ParseNonCanonical | server/cmd/main.go:226 | a `+` sign, leading zeros and `-0` are accepted: `+5` and `007` read as 5 and 7, `-0` as 0 |
| Decimal.ParseFormat | server/cmd/main.go:101 | the checkpoint a client prints is parsed back by the server to the same int64 |
| Decimal.FormatInjective | server/cmd/main.go:101 | distinct int64 checkpoints print differently |
| Ids.New | server/internal/ulid/ulid.go:30-32 | a new ID is the canonical 27-character text of a KSUID and parses back to it |
| Ids.NormalPrefix | server/internal/ulid/ulid.go:35-37 | the prefix is kept when it starts with `-`, otherwise `-` is appended |
| Ids.NewWithPrefix | server/internal/ulid/ulid.go:34-39 | the ID is the normalised prefix followed by the KSUID's canonical 27-character text, which parses back |
| Ids.ParseID | server/internal/ulid/ulid.go:16-24 | short input is the panic outcome, exactly; an invalid 27-character tail is an error, exactly; on success the result is the prefix plus the canonical KSUID text |
| Ids.ParseNew | server/internal/ulid/ulid.go:16-32 | `ParseID(New())` returns its input unchanged |
| Ids.ParseNewWithPrefix | server/internal/ulid/ulid.go:16-39 | `ParseID(NewWithPrefix(p))` returns its input unchanged |
| Ids.NormalPrefixMisplacesDelimiter | server/internal/ulid/ulid.go:35-37 | as written, prefix `-a` gets no `-` before the KSUID, and normalising `a` twice gives `a--` |
| Ids.SeparatedPrefixIsNormal | server/internal/ulid/ulid.go:35-37 | the corrected rule keeps exactly the prefixes ending in `-`, appends one otherwise, and is idempotent |
| Ids.NewWithSeparatedPrefix | server/internal/ulid/ulid.go:34-39 | with the corrected rule, the character before the KSUID is always `-` and the KSUID parses back |
| Ids.ParseNewWithSeparatedPrefix | server/internal/ulid/ulid.go:16-39 | the corrected generator still round-trips through `ParseID` |
| Templates.FlattenStrings | server/internal/store/internal/sqlite/templates.go:29-41 | the loop's output is the elements, each single-quoted, joined by `,` with no trailing comma |
| Templates.FlattenStringsLength | server/internal/store/internal/sqlite/templates.go:31-40 | output length is the elements' lengths plus two quotes each plus one comma between neighbours |
| Templates.FlattenStringsEnds | server/internal/store/internal/sqlite/templates.go:33-38 | for a non-empty list the output starts and ends with a quote |
| Templates.FlattenStringsNotInjective | server/internal/store/internal/sqlite/templates.go:33-35 | no escaping: `["a','b"]` and `["a","b"]` flatten to the same text |
| Templates.FlattenNumbers | server/internal/store/internal/sqlite/templates.go:11-21 | the loop's output is each number in decimal, joined by `,` with no trailing comma |
| Templates.SplitJoin | server/internal/store/internal/sqlite/templates.go:13-18 | when no part contains a comma, splitting their comma join on `,` gives the parts back |
| Templates.FlattenNumbersDecodes | server/internal/store/internal/sqlite/templates.go:11-21 | splitting the output on `,` and parsing each piece gives back the int64 inputs |
| Templates.FlattenMap | server/internal/store/internal/sqlite/templates.go:52-61 | the loop's output is `'k','v'` for every entry in the range order, with no separator between entries |
| Templates.FlattenMapLength | server/internal/store/internal/sqlite/templates.go:55-59 | output length is the keys' and values' lengths plus five characters per entry, whatever the iteration order |
| Templates.FlattenSingleton | server/internal/store/internal/sqlite/templates.go:55-59 | a one-entry map flattens to exactly `'k','v'` |
| Templates.FlattenMapMergesEntries | server/internal/store/internal/sqlite/templates.go:55-59 | as written, a two-entry map splits on `,` into three pieces, the middle one `'v1''k2'` |
| Templates.KeyValues | server/internal/store/internal/sqlite/templates.go:55-59 | the keys and values interleaved in iteration order: key then value for each entry |
| Templates.FlattenMapSeparated | server/internal/store/internal/sqlite/templates.go:55-59 | with the corrected separator, the loop's output is `'k','v'` for every entry in range order, joined by `,` |
| Templates.JoinPairs | server/internal/store/internal/sqlite/templates.go:55-59 | joining the entries with `,` is joining the quoted keys and values, interleaved |
| Templates.FlattenMapSeparatedSplits | server/internal/store/internal/sqlite/templates.go:55-59 | with the corrected separator, the output splits on `,` into two quoted pieces per entry, key then value, in iteration order |
| Wire.Frames | server/internal/store/internal/sqlite/store.go:203-205 | each streamed record is three writer events: its text, a newline, a flush |
| Wire.TextOfFrames | server/internal/store/internal/sqlite/store.go:203-205 | the bytes on the wire are each record's text followed by a newline |
| Wire.Sink.Write | server/internal/store/internal/sqlite/store.go:203-204 | a write appends its data to the writer's output |
| Wire.Sink.Flush | server/internal/store/internal/sqlite/store.go:205 | a flush appends a flush event |
| Wire.ReadBytes | server/cmd/main.go:113 | `ReadBytes('\n')`: the bytes up to and including the next newline with no error, or the rest of the data with the body's end condition |
| Wire.ReadBytesLine | server/cmd/main.go:113 | on a stream of whole lines, one read yields the first line with its newline, and the rest of the stream follows |
| Wire.ReadBytesLast | server/cmd/main.go:113-118 | with no newline left, a read yields the remaining bytes and the end condition |
| Wire.ReadBytesAtEnd | server/cmd/main.go:113-122 | at the end of the data a read yields nothing and the end condition |
| Storage.MaxTimestamp | server/internal/store/internal/sqlite/store.go:140-144 | the largest timestamp of a non-empty log: it bounds every entry and is attained |
| Storage.Checkpoint | server/internal/store/internal/sqlite/store.go:146-170 | 0 for an empty log, otherwise an attained upper bound of the timestamps |
| Storage.Since | server/internal/store/internal/sqlite/store.go:172-176 | every record in the change stream is later than `since`, and there are no more of them than log entries |
| Storage.InsertByTimeSorted | server/internal/store/internal/sqlite/store.go:175 | inserting by timestamp keeps a list in ascending timestamp order |
| Storage.SortByTimeSorted | server/internal/store/internal/sqlite/store.go:175 | the reference sort orders by ascending timestamp |
| Storage.ReferenceEngineLawful | server/internal/store/internal/sqlite/store.go:172-176 | sorting the filtered log is a valid answer to the change-stream query, so the query's law can be met |
| Storage.WithId | server/internal/store/internal/sqlite/store.go:94-96 | an empty ID is replaced by the generated one, and any other is kept |
| Storage.Transact | server/internal/store/internal/sqlite/store.go:211-232 | success holds exactly when no step faults, the statement executes, and the entry ID is new; then the table is the executed one and the log gains `(id, ts, q)`; any failure leaves the database unchanged |
| Storage.TransactFailures | server/internal/store/internal/sqlite/store.go:211-232 | the error names the failed step, each exactly: `BeginFailed` when begin faults; `ExecFailed` when the statement does not execute; `LogInsertFailed` when the log insert faults or the entry ID is taken; `CommitFailed` when only the commit faults |
| Storage.CreateStep | server/internal/store/internal/sqlite/store.go:93-128 | a render failure is an error with no change; a rendered statement succeeds exactly when no step faults, it executes and the entry ID is new, and otherwise fails with the transaction's error and no change; on success the log gains one entry at the credential's creation time with the rendered statement, and for a plain credential (quote-free, at most one extra) under the insert law the table gains exactly its row under a new key |
| Storage.RowOf | server/internal/store/internal/sqlite/store.go:72-84 | the row stored under the credential's id holds its username, password, hosts, extras, tags, createdBy, createdAt and updatedAt |
| Storage.RowOmitsNamespace | server/internal/store/internal/sqlite/store.go:72-84 | the insert stores neither `namespace` nor `deleted_at`: credentials differing only there give the same row |
| Storage.InsertsRowKeyTaken | server/internal/store/internal/sqlite/store.go:25-27 | under the insert law that ties the rendered statement to the engine (`InsertsRow`), a plain credential's insert fails when its id is already a key |
| Storage.Lines | server/internal/store/internal/sqlite/store.go:198 | one JSON text per row, in order |
| Storage.FirstFailure | server/internal/store/internal/sqlite/store.go:190-201 | the first row whose scan or marshal fails; all rows before it scan and marshal |
| Storage.Store.Run | server/internal/store/internal/sqlite/store.go:105-124 | the new state and error are the transaction's, and the log only grows |
| Storage.Store.Create | server/internal/store/internal/sqlite/store.go:93-128 | the new state and result are `CreateStep`'s, and the log only grows |
| Storage.Store.SyncRecord | server/internal/store/internal/sqlite/store.go:211-233 | the new state and error are the transaction's at the record's own timestamp |
| Storage.Store.LastCheckpointAt | server/internal/store/internal/sqlite/store.go:146-170 | a failed prepare, query or scan is an error, exactly; a failed row iteration reads as checkpoint 0; otherwise the result is the log's checkpoint |
| Storage.Store.ChangeStream | server/internal/store/internal/sqlite/store.go:178-209 | the rows are a valid query answer; the writer gains the frames of every row before the first failure; the error names that failure, or is nil |
| Discovery.PeerAddr | server/cmd/main.go:164 | `"%s:%d"`: the host name, a colon, then the port's decimal text (a `-` allowed first, for a negative port), only digits after that first character |
| Discovery.PeerAddrPort | server/cmd/main.go:164 | the text after the host name's colon reads back as the port |
| Discovery.PeerFor | server/cmd/main.go:162-166 | the peer is the entry's instance at its `host:port`, stamped with the time it was found |
| Discovery.Admitted | server/cmd/main.go:154-175 | a browse cycle starts at most one session per discovered entry |
| Discovery.AdmittedFresh | server/cmd/main.go:155-161 | no session is started for this node itself or for an instance that already has one |
| Discovery.AdmittedDistinct | server/cmd/main.go:159-167 | one cycle never starts two sessions for the same instance |
| Discovery.AdmittedFromEntries | server/cmd/main.go:162-166 | every session is for a discovered entry, at its `host:port` address |
| Discovery.AdmittedCovers | server/cmd/main.go:159-167 | after the cycle, every discovered instance other than this node has a session running |
| Discovery.PeerSet.AtMostOneSession | server/cmd/main.go:161-173 | at most one session runs per instance, and one runs exactly when the instance is in the set |
| Discovery.PeerSet.Discovered | server/cmd/main.go:155-168 | self and running instances are ignored; any other instance is added and its session starts |
| Discovery.PeerSet.SessionFinished | server/cmd/main.go:169-174 | a finished session, failed or not, removes its instance |
| Discovery.PeerSet.Browse | server/cmd/main.go:153-176 | the sessions started are `Admitted`'s, and the set gains exactly their instances |
| Session.RequestFor | server/cmd/main.go:95-102 | the request goes to `http://<addr>/sync-stream`, and its `since` parses back to the checkpoint |
| Session.Replay | server/cmd/main.go:112-137 | the log only grows; nil only after a transport error; `io.EOF` only at a clean end; otherwise a failed `SyncRecord` |
| Session.SessionCheckpoint | server/internal/store/internal/sqlite/store.go:160-169 | the checkpoint a session asks from: 0 after a failed row iteration, otherwise the log's checkpoint |
| Session.SessionResult | server/cmd/main.go:82-138 | a checkpoint query failure or a request failure returns that error and changes nothing; otherwise the request is for `SessionCheckpoint`, the log only grows, and nil or `io.EOF` matches how the body ended |
| Session.OnPeerFound | server/cmd/main.go:82-138 | the new store state and the error are exactly `SessionResult`'s |
| Handlers.Stamp | server/cmd/main.go:212-214 | `createdBy`, `createdAt` and `updatedAt` are set, and every other field is kept |
| Handlers.PostCred | server/cmd/main.go:206-222 | an unparsable body is an error and changes nothing; otherwise the store does `CreateStep` on the stamped credential, and success logs one entry at the creation time |
| Handlers.ParseSince | server/cmd/main.go:224-229 | a missing parameter and an unparsable value are distinct errors; on success the value is the parsed int64 |
| Handlers.ParseSinceFormat | server/cmd/main.go:224-229 | a checkpoint printed in decimal is accepted as exactly that checkpoint |
| Handlers.GetSyncStream | server/cmd/main.go:224-235 | parse errors write nothing; otherwise the response is the change stream from the parsed `since` |
| Replication.Served | server/cmd/main.go:224-235 | a peer serves a body exactly when `since` parses; the body ends cleanly and its bytes are each record of its change stream from that value followed by a newline |
| Replication.Records | server/internal/store/internal/sqlite/store.go:173 | the `(timestamp, sql_query)` pair of every log entry, in order |
| Replication.ApplyAll | server/cmd/main.go:131-134 | replaying rows one by one through `SyncRecord` only grows the log |
| Replication.Replayed | server/internal/store/internal/sqlite/store.go:222 | the entries logged by a clean replay carry exactly the rows' timestamps and statements |
| Replication.TailEnd | server/cmd/main.go:113-134 | a clean end returns `io.EOF` and drops the tail; a broken stream with no tail returns nil |
| Replication.ReplayTail | server/cmd/main.go:113-134 | with no newline left, the read loop ends as `TailEnd` says |
| Replication.ReplayStream | server/cmd/main.go:112-135 | reading a stream of records replays each whole record in order, stops at the first failed `SyncRecord`, and then ends as `TailEnd` says |
| Replication.ReplayFirstRecord | server/cmd/main.go:113-134 | the first loop turn reads the first record whole, decodes it back, and replays exactly it |
| Replication.ReplayStep | server/cmd/main.go:113-134 | one loop turn on a whole line replays its decoded record, whether or not decoding succeeded |
| Replication.ApplyAllClean | server/internal/store/internal/sqlite/store.go:211-232 | when every statement executes and no call faults, replay commits every row and appends them in order with their original timestamps |
| Replication.SinceMembership | server/internal/store/internal/sqlite/store.go:172-176 | a record is in the change stream exactly when it is in the log with a later timestamp |
| Replication.CheckpointGrows | server/internal/store/internal/sqlite/store.go:140-170 | appending the stream served since the checkpoint never lowers the checkpoint |
| Replication.ServedIsCovered | server/internal/store/internal/sqlite/store.go:140-176 | after appending, every served entry is at or below the new checkpoint |
| Replication.SinceEmpty | server/internal/store/internal/sqlite/store.go:174 | nothing comes after a timestamp that no entry exceeds |
| Replication.NextSessionEmpty | server/cmd/main.go:88-102 | after a clean session with an unchanged peer, the next request is served nothing |
| Replication.FullSession | server/cmd/main.go:82-138 | a clean session against a lawful peer ends with `io.EOF`; the table is the statements executed in order; the new log entries hold exactly the peer's entries after the checkpoint, ascending; the next session is empty |
| Replication.IterationFaultRefetches | server/internal/store/internal/sqlite/store.go:160-169 | when the checkpoint read loses a row iteration error, a clean session appends again every peer entry with a positive timestamp, already held or not |
| Scenarios.CheckpointExample | server/internal/store/internal/sqlite/store.go:140-170 | an empty log has checkpoint 0; timestamps 5, 9 and 3 give 9 |
| Scenarios.ChangeStreamExample | server/internal/store/internal/sqlite/store.go:172-176 | over timestamps 3, 5, 9 and 12 with `since` = 5, every valid answer is exactly the entries at 9 and 12, in that order |
| Scenarios.CreateOnEmpty | server/internal/store/internal/sqlite/store.go:93-128 | creating a plain credential (quote-free, at most one extra) on an empty database adds just its row and one log entry at its creation time |
| Scenarios.PullOneEntry | server/cmd/main.go:82-138 | an empty node pulling one entry at time 100 replays exactly it and ends with `io.EOF` |
| Scenarios.TwoNodeScenario | server/cmd/main.go:82-138 | a plain credential (quote-free, at most one extra) created on node A at time 100 reaches an empty node B in one session; B ends with A's table and one log entry at 100 holding A's statement; then nothing is left to fetch |

## Left out

- `ID.String` (ulid.go:26-28) is the identity, because `ID` is a plain string here.
- The `store.Store` interface (api.go) is not modelled as an interface. The class `Storage.Store` stands for its SQLite implementation.
- `Connect` and the schema statements are not modelled. The tables are the `Db` value, and the `activity_log` primary key is the `DistinctIds` invariant.
- `Delete` and `List` panic as unimplemented and are left out.
- Storage.Store.Create: when `BeginTx` fails, the code calls `Rollback` on a nil transaction, which panics in Go. The model returns `BeginFailed`.
- Storage.Store.SyncRecord: the error that is dropped from a failed `BeginTx` is not modelled; only `BeginFailed` is returned.
- Errors are constructors such as `ExecFailed`, not Go messages or `errors.Join` chains.
- `text/template` and `sprig` are not modelled. The rendered insert statement is the parameter `render`, and its law with the engine is `InsertsRow`.
- The `flatten` default case (`%#v`) is not modelled.
- The float cases of `flattenNumber` are not modelled, because floating-point formatting is out of scope. The `[]int`, `[]int32` and `[]int64` cases are all `Templates.FlattenNumbers` over unbounded integers.
- The KSUID library's base62 coding, clock and randomness are not modelled. The generated KSUID is a parameter of the codec.
- `time.Now()` readings are parameters: `createdAt`, `updatedAt`, and `now` of a browse cycle. Discovery.PeerSet.Browse uses one `now` per cycle, though the code reads the clock for each peer.
- Fresh log-entry IDs are parameters: `entryId`, and `ReplayEnv.entryIds` for a session.
- zeroconf registration and the resolver are not modelled. A browse cycle is a sequence of entries; the resolver's channel and the 5-second cycle timer are not modelled.
- The `sync.Map` and its concurrent goroutines are not modelled. `PeerSet` is the set operated on one event at a time, so a race between `Load` and `Store` is not captured.
- The 5-second request context is not modelled. A timeout shows up only as a failed or broken body.
- HTTP is not modelled. The round trip is the parameter `fetch`. The client does not check the status code, so an error response body would be read like any other.
- The ivy router and `RequiredQueryParams` are not modelled. `Handlers.ParseSince` gets the query value as `Option<string>`, and an empty but present value reaches `strconv.ParseInt`.
- `c.JSON`, `ParseBodyInto` and URL query encoding are not modelled. The body arrives already parsed or as `None`, and the decimal checkpoint needs no escaping.
- The `http.Flusher` type assertion and the ignored `Write` errors are not modelled. The writer is the event log `Wire.Sink`.
- Logging (`slog`, `fastlog`) is not modelled.
- Ids.ParseID: Dafny strings count characters, where Go's `len` and slices count bytes, so the 27-character boundary matches Go only for ASCII text; a non-ASCII string of at least 27 bytes but fewer than 27 characters is the panic outcome here and a KSUID parse error in Go.
- Templates.FlattenStringsLength: lengths count characters, not bytes, and agree with Go's byte counts only for ASCII text; the same holds for Templates.FlattenMapLength.
- Storage.CreateStep: the row the table gains is promised only for a plain credential (`PlainCredential`): no single quote in its id, username, password, hosts, tags, extras or createdBy (`QuoteFree`), and at most one extra. Nothing is escaped, so other credentials render statements whose effect is whatever the text means to SQLite, including further injected SQL. With two or more extras the map literals run together (see "Behaviour of the code worth knowing"). The model does not interpret SQL.
- Decimal.ParseInt64: syntax and range errors are both `None`, not the two kinds of error `strconv` reports.
- Storage.Store.LastCheckpointAt: a prepare, query or scan failure is the single outcome `QueryFailed`; a failed row iteration is `IterationFault`, and the result is then `Ok(0)` as in the code.
- Storage.Store.ChangeStream: `rows.Err()` after the loop is unchecked in the code, so an iteration error ends the stream like a normal end. The model's rows are the full query answer.
- Session.Replay: what `json.Unmarshal` leaves in a record on failure is the codec's `decode` result, so the zero or partial record is whatever the codec says.

## Findings

| source | as written | input that shows it | evidently intended | confidence | as-written member | corrected member |
|---|---|---|---|---|---|---|
| server/internal/ulid/ulid.go:35-37 | `-` is appended unless the prefix *starts* with `-` (`strings.HasPrefix`) | prefix `-a` gives `-a<ksuid>` with no delimiter; prefix `a-` gives `a--<ksuid>` | append `-` unless the prefix already *ends* with it, so exactly one delimiter separates prefix and KSUID | medium, not executed | Ids.NormalPrefixMisplacesDelimiter | Ids.SeparatedPrefixIsNormal |
| server/internal/store/internal/sqlite/templates.go:55-59 | no `,` is written between map entries | extras `{k1: v1, k2: v2}` give `'k1','v1''k2','v2'`: three arguments to `json_object`, with v1 and k2 in one literal | `,` between entries, giving `'k1','v1','k2','v2'` | high, not executed | Templates.FlattenMapMergesEntries | Templates.FlattenMapSeparatedSplits |
