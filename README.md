# mdns answering engine, modelled in Dafny

mdns is an authoritative DNS responder that answers from a Designate-style
MySQL zone store. This project models its answering engine in two generations:

- **the `mdns` package**:
  - `db.go`, the record materializer `BuildDnsRRs` and the driver's read
    operations `GetFullAxfrRRs`, `getZone`, `getRawAxfrRRs` and `GetQueryRRs`;
  - `mdns_handle.go`, the dispatcher `ServeDNS`, the reply builders
    `prep_reply` and `handle_error`, the query path `handle_query`, and the
    zone-transfer streamer `handle_axfr`. The streamer cuts the answer into
    envelopes of at most 100 records and writes one reply per envelope.
- **the legacy server `main.go`**: `Handle`, `respond`, `handle_axfr`,
  `handle_query`, `handle_error`, `do_axfr`, `get_rrs`, `get_rrs_axfr` and
  `build_dns_rrs`.

The two generations differ in four observable ways. The model states the
first three; the fourth is listed under "Left out":

1. **IXFR**:
   - the package refuses an IXFR question without consulting storage;
   - legacy looks it up as an ordinary record type named "IXFR".
2. **A zone without an SOA row**:
   - the package's materializer reports an error;
   - legacy frames the transfer with a nil record at each end and reports no
     error.
3. **Chunking**:
   - the package streams a transfer in envelopes of 100 records;
   - legacy sends the whole transfer in one message.
4. **Transfer order**:
   - the package lists a zone's rows by recordset creation time;
   - legacy lists them by recordset id. This changes the order of the
     transfer body and which SOA row counts as the last one.

Modules, one per file:

| file | module | models |
|---|---|---|
| `dns.dfy` | `Dns` | the message fields the engine uses, with the opcode, RCODE and type numbers of section 4.1.1 and sections 3.2.2-3.2.3 of RFC 1035 |
| `transport.dfy` | `Transport` | the response writer: a log of write attempts and an optional attempt from which every write fails |
| `storage_port.dfy` | `StoragePort` | the `Storage` driver interface: two fetches plus a log of the calls made |
| `rows.dfy` | `Rows` | record rows, the TTL fallback, the `name ttl IN type data` line, and the row-sequence functions both materializers are specified with |
| `db.dfy` | `Db` | `BuildDnsRRs`, and the driver over an abstract zone table and record table |
| `handler.dfy` | `Handler` | `mdns_handle.go` |
| `legacy.dfy` | `Legacy` | `main.go` |

What the model takes as given:

- The record parser `dns.NewRR` is a parameter: any partial function from
  lines to records.
- The zone store is a value that is either a pair of tables or unreachable.
- The package's `Storage` port is a class whose fetch results are fixed
  functions of their arguments.

Notes on the code as written:

- `mdns_handle.go` calls `get_axfr_rrs` and `get_rrs` on the driver, but the
  `Storage` interface in `db.go` declares `GetFullAxfrRRs` and
  `GetQueryRRs`. The port here offers those two.
- `handle_error` in `mdns_handle.go` rebuilds its reply with `prep_reply`, so
  any answer records are dropped.
- `handle_error` in `main.go` sets the RCODE and, unlike the package's,
  does not put the question back. A legacy reply gets its question only
  from `respond` (main.go:76-78).

## Model

| member | source | states |
|---|---|---|
| Dns.TypeToString | mdns_handle.go:155 | the type mnemonic; exactly type 255 gives "ANY" and exactly type 6 gives "SOA" |
| Transport.Writer.WriteMsg | mdns_handle.go:127 | every call appends its message to the log; the result reports whether that attempt reached the peer |
| StoragePort.Storage.GetFullAxfrRRs | db.go:21 | returns the store's answer for the zone name and logs the call |
| StoragePort.Storage.GetQueryRRs | db.go:24 | returns the store's answer for the name and type and logs the call |
| Rows.EffectiveTtl | db.go:190-195 | a row's own TTL when it is valid, otherwise the zone's TTL |
| Rows.LineShape | db.go:197 | the line is the owner name, the decimal TTL, "IN", the type mnemonic and the data, separated by single spaces |
| Rows.DecimalRoundTrip | db.go:197 | the `%d` rendering of a TTL reads back as the same integer, negative values included |
| Rows.LineDeterminesTtl | db.go:197 | two lines rendered from one row are equal only when their TTLs are |
| Rows.FirstUnparsed | db.go:197-202 | every row before the returned index parses, and the row at that index, if any, does not |
| Rows.KeptQuery | db.go:205-206 | outside a transfer every row's record is kept, in row order |
| Rows.KeptAxfr | db.go:205-209 | in a transfer exactly the non-SOA rows' records are kept, in row order |
| Rows.LastSoaNone | db.go:207-209 | no SOA value is held exactly when no row is an SOA row |
| Rows.LastSoaAt | db.go:207-209 | the SOA value held is the record of the last SOA row; later SOA rows overwrite earlier ones |
| Rows.NonSoaMembers | db.go:205-206 | the non-SOA rows are exactly the rows whose type is not SOA |
| Rows.NonSoaOneSoa | db.go:205-209 | with exactly one SOA row, the kept rows are all the others, in order |
| Db.BuildDnsRRs | db.go:183-221 | returns exactly what `Materialize` describes: the records in row order, SOA rows withheld and the last SOA record placed first and last in a transfer, the missing-SOA error, or the body built so far plus the parse error of the first rejected line |
| Db.MaterializeRejected | db.go:197-202 | when every row before index k parses and row k does not, the result is the body built from the rows before k with the parse error of row k's line |
| Db.MaterializeAccepted | db.go:204-220 | when every row parses: the kept records outside a transfer; in a transfer, the missing-SOA error without an SOA row, otherwise the kept records framed by the SOA record |
| Db.MaterializeQuery | db.go:205-206 | outside a transfer: no error, one record per row in row order, each parsed from its row's line with the fallback TTL |
| Db.MaterializeAxfrFramed | db.go:205-218 | in a transfer with SOA rows: the last SOA record at both ends, and the non-SOA records in row order between them |
| Db.MaterializeAxfrOneSoa | db.go:205-218 | in a transfer with one SOA among n rows: n + 1 records, the SOA record first and last, the other rows' records in order between |
| Db.MaterializeAxfrNoSoa | db.go:213-215 | in a transfer without SOA rows: the missing-SOA error with the body built so far, which is empty for no rows |
| Db.MaterializeAxfrNeedsSoa | db.go:213-215 | a transfer without an SOA row always fails |
| Db.MaterializeStopsAtFirstRejected | db.go:197-202 | the first rejected line ends the work: the body built from the rows before it is returned with that line's error, and later rows never affect the result |
| Db.ZoneIndex | db.go:81-96 | the first zone row that has the name, belongs to the server's pool and is not deleted; no earlier row qualifies |
| Db.GetZone | db.go:81-96 | an unreachable store is an error; on a reachable store a zone is found exactly when a live zone row of the pool has that name, it is the first such row, and otherwise the error is zone not found |
| Db.QueryRowsSelect | db.go:137-147 | every query row is the row of a table entry that is live, has that owner name and, unless the type is "ANY", that type; every such entry's row is a query row |
| Db.ZoneRowsSelect | db.go:98-106 | every transfer row is the row of a live table entry of that zone; every such entry's row is a transfer row |
| Db.SelectQueryRows | db.go:157-165 | the scan loop collects exactly the query rows, in store order |
| Db.SelectZoneRows | db.go:114-122 | the scan loop collects exactly the zone's live rows, in store order |
| Db.GetQueryRRs | db.go:137-181 | an unreachable store is an error; otherwise the matching rows are materialized with the fallback zone |
| Db.GetRawAxfrRRs | db.go:98-135 | an unreachable store is an error; otherwise the zone's live rows are materialized for a transfer |
| Db.GetFullAxfrRRs | db.go:69-79 | the zone lookup comes first; any error comes back with no records |
| Db.QueryRRsUseFallbackTtl | db.go:172-174 | query answers use TTL 3600 for every row without its own TTL, whatever zone the row belongs to |
| Db.FullAxfrZoneLookupFirst | db.go:69-73 | a failed zone lookup is returned with no records, whatever the record table holds |
| Db.FullAxfrFraming | db.go:69-79 | a failed transfer fetch carries no records; a successful one has at least two records and starts and ends with the same one |
| Handler.PrepReply | mdns_handle.go:65-79 | a NOERROR, authoritative response echoing the request's id, opcode and question, with an empty answer |
| Handler.HandleError | mdns_handle.go:81-101 | "REFUSED" gives REFUSED and every other string, "SERVFAIL" included, gives SERVFAIL; the question is kept, the reply is authoritative, and the rest is as `prep_reply` makes it |
| Handler.QueryOutcome | mdns_handle.go:158-170 | a storage error is "SERVFAIL", no rows is "REFUSED", otherwise no error and the rows appended to the answer in order |
| Handler.HandleQuery | mdns_handle.go:150-171 | the query outcome for the question's name and type mnemonic, after exactly one storage query |
| Handler.EnvelopesFlatten | mdns_handle.go:135-143 | the envelopes, concatenated in order, are the answer exactly |
| Handler.EnvelopesShape | mdns_handle.go:135-143 | ceil(n / 100) envelopes, none for an empty answer; each holds 1 to 100 records, and all but the last exactly 100 |
| Handler.EnvelopeAt | mdns_handle.go:135-143 | envelope j is the contiguous slice of the answer starting at record 100 * j |
| Handler.EnvelopesFrom | mdns_handle.go:137-142 | the slice the loop cuts at an offset is the first envelope of what remains |
| Handler.Envelopes251 | mdns_handle.go:135-143 | 251 records are sent as envelopes of 100, 100 and 51 |
| Handler.AttemptCount | mdns_handle.go:124-131 | writes continue up to and including the first failing one |
| Handler.AxfrReplies | mdns_handle.go:124-131 | the replies written are, in order, prep_reply with exactly one envelope as the answer, until the first failed write |
| Handler.AxfrRepliesStep | mdns_handle.go:124-131 | one more envelope is written exactly when every earlier write succeeded |
| Handler.AnswersOfEnvelopeReplies | mdns_handle.go:124-131 | when no write fails, the written answers concatenate to the envelopes' contents |
| Handler.ConsumeEnvelope | mdns_handle.go:124-131 | one step of the consumer: while every earlier write has succeeded it writes prep_reply carrying the envelope, and a failed write stops every later one |
| Handler.HandleAxfr | mdns_handle.go:113-148 | one storage fetch; on an error nothing is written and the error is returned; otherwise the envelope replies are written in order until a write fails, and no error is returned even then |
| Handler.ServeDNS | mdns_handle.go:31-63 | the storage calls and messages written are those of the dispatch table `ServeCalls` and `ServeReplies` |
| Handler.ServeRepliesEcho | mdns_handle.go:31-63 | every reply written echoes the question and is authoritative |
| Handler.ServeRefusesOtherOpcodes | mdns_handle.go:57-62 | an opcode other than QUERY gives exactly one REFUSED reply with no answer, and no storage call |
| Handler.ServeRefusesIxfr | mdns_handle.go:47-48 | an IXFR query gives exactly one REFUSED reply, and no storage call |
| Handler.ServeQuery | mdns_handle.go:49-55 | an ordinary query gives one reply: SERVFAIL on a storage error, REFUSED for no rows, otherwise NOERROR with exactly the rows as its answer; storage is queried once, by name and mnemonic |
| Handler.ServeAxfrStorageFailure | mdns_handle.go:39-43 | a failed transfer fetch gives no envelope and one SERVFAIL reply |
| Handler.ServeAxfrSuccess | mdns_handle.go:39-46 | a successful transfer writes only envelope replies, stops after the first failed write, and, when no write fails, writes one reply per envelope whose answers concatenate to the fetched records |
| Handler.AxfrOfTwoHundredFiftyRows | mdns_handle.go:135-143 | 250 rows with one SOA row materialize to 251 records, sent as 100, 100 and 51, with the SOA record first and last |
| Legacy.Slots | main.go:287 | one slot per record, and slot i holds record i: the records in order, none nil |
| Legacy.SlotsOf | main.go:287 | a slot sequence holding exactly the records, in order and none nil, is their slots |
| Legacy.BuildDnsRRs | main.go:284-319 | returns exactly what `LegacyMaterialize` describes: like the package's materializer, but a transfer is always framed by the SOA slot, nil when there is no SOA row, and never fails for a missing SOA |
| Legacy.LegacyMaterializeRejected | main.go:298-303 | the first rejected row decides the result: the slots built before it with that row's parse error |
| Legacy.LegacyMaterializeAccepted | main.go:305-318 | when every row parses: the kept records outside a transfer; in a transfer, the kept records between two copies of the SOA slot, nil or not |
| Legacy.LegacyAxfrFramed | main.go:313-317 | a transfer body is the non-SOA row count plus 2 long, starts and ends with the last SOA record, which is nil exactly when no row is an SOA row, and holds the non-SOA records in order between |
| Legacy.LegacyMatchesCurrent | main.go:284-319 | the legacy and the package materializers agree on TTLs, lines, order and errors; they differ only for a transfer without an SOA row, where legacy frames with nil slots and reports no error |
| Legacy.MatchesRejected | main.go:298-303 | on a parse error the legacy materializer returns the package materializer's body, as slots, and its error |
| Legacy.MatchesAccepted | main.go:305-318 | when every row parses the two materializers agree except for a transfer without an SOA row, where legacy frames with nil slots and no error |
| Legacy.GetRrs | main.go:238-282 | an unreachable store is an error; otherwise the matching rows are materialized with the fallback zone |
| Legacy.QueryRRsOutcome | main.go:238-282 | an unreachable store or a rejected row is an error; otherwise one slot per matching row, in order, none nil |
| Legacy.GetRrsAxfr | main.go:199-236 | an unreachable store is an error; otherwise the zone's live rows are materialized for a transfer |
| Legacy.DoAxfr | main.go:170-180 | the zone lookup comes first; any error comes back with no records |
| Legacy.AxfrRRsFramed | main.go:199-236 | a found zone whose rows all parse transfers without error as its non-SOA rows plus two equal framing slots, nil exactly when it has no SOA row |
| Legacy.HandleError | main.go:124-135 | "REFUSED" gives REFUSED, everything else ("SERVAIL" included) SERVFAIL; the question stays taken out, and nothing else changes |
| Legacy.AxfrReply | main.go:87-99 | a fetch error gives SERVFAIL; otherwise all records are appended to the one message |
| Legacy.QueryReply | main.go:101-122 | a fetch error gives SERVFAIL, no rows REFUSED, otherwise the records appended in order |
| Legacy.HandleAxfr | main.go:87-99 | the transfer reply for the fetched records |
| Legacy.HandleQuery | main.go:101-122 | the query reply for the records of the question's name and type mnemonic |
| Legacy.Finish | main.go:73-83 | the question and opcode are the request's and the reply is authoritative; nothing else changes |
| Legacy.Respond | main.go:73-85 | exactly one message, the finished one, is written |
| Legacy.Handle | main.go:48-71 | exactly one message is written: `HandleReply` for the request |
| Legacy.HandleReplyEcho | main.go:73-85 | every reply is an authoritative response echoing the request's id, opcode and question |
| Legacy.HandleRefusesOtherOpcodes | main.go:65-68 | an opcode other than QUERY gives REFUSED with an empty answer, whatever the store holds |
| Legacy.HandleIxfrAsQuery | main.go:57-63 | for every store, IXFR takes the query path with type "IXFR": SERVFAIL when the store is unreachable, REFUSED with an empty answer when no row has that type |
| Legacy.NoRowsOfType | main.go:243-248 | no row has the requested type, so the query selects no row |
| Legacy.HandleQueryOutcome | main.go:101-122 | any question type but AXFR: SERVFAIL when the store is unreachable or a row does not parse, REFUSED for no rows, otherwise NOERROR with one record per matching row in order |
| Legacy.HandleAxfrOneMessage | main.go:87-99 | a transfer is one reply: SERVFAIL with an empty answer on a fetch error, otherwise NOERROR with the whole record list, unchunked |

## Left out

- Network I/O, listeners, configuration, logging, signal handling and
  `debug_request` are outside the model. The writer and the store are
  parameters.
- The goroutine and channel in `mdns_handle.go`'s `handle_axfr` are modelled
  sequentially: the producer visits every envelope, and a reply is written
  only while the receiver is alive. A sender blocked on the channel after
  the receiver has returned is a concurrency effect and is not modelled.
- SQL is replaced by an abstract store:
  - the connection code `Open` and `init_db` is not modelled;
  - the query strings are not modelled. The `WHERE` clauses become predicates
    over rows;
  - `ORDER BY` is not modelled. Both generations take rows in the one order
    the store lists them. So the model does not capture that the package
    orders a transfer by recordset creation time (db.go:105) and legacy by
    recordset id (main.go:206), nor the different body order and "last SOA
    row" that can follow;
  - names are compared exactly. MySQL compares `zones.name = ?` and
    `recordsets.name = ?` (db.go:86, db.go:143) under the column's
    collation, which is usually case-insensitive;
  - `created_at` is not modelled;
  - the failure paths of `Queryx`, `StructScan` and `rows.Err()` are folded
    into one "store unreachable" error.
- The wire codec is outside the model:
  - `dns.NewRR` is an arbitrary partial function. Its "no record and no
    error" result for a blank or comment-only line is not modelled;
  - `SetReply` is taken to copy the id, opcode and question, mark the reply
    as a response, and start with NOERROR and an empty answer;
  - `SetRcode` is taken to set the status code and take the question out, as
    the comment at main.go:74-75 says. Both generations put the question
    back (mdns_handle.go:72-73 and 94-95, main.go:76-78), and the echo
    lemmas rest on those steps. main.go:79 also puts the opcode back and the
    package's `prep_reply` does not, so the package's opcode echo rests
    only on `SetReply` copying the opcode;
  - `TypeToString` holds only the common types;
  - packing a message, including one that carries a nil record, is not
    modelled.
- A request has exactly one question. The source indexes `Question[0]`
  and would panic on an empty question section; that panic is not modelled.
- `NewDefaultMdnsHandler` and its replaceable function fields are wired to
  the defaults only.
- Go's error values are reduced to four kinds: store error, zone not
  found, unparsable line, and missing SOA record.
