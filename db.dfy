/**
 * db.go: the record materializer `BuildDnsRRs` and the MySQL driver's read
 * operations, over an abstract table of zone rows and record rows.
 */
module Db {
  import opened Dns
  import opened Rows
  import opened StoragePort

  // ---------------------------------------------------------------------
  // Record materializer

  /**
   * What BuildDnsRRs returns. The first row the codec rejects stops the
   * work: the body built so far comes back with the error. Otherwise,
   * outside a transfer, every row's record in row order; in a transfer,
   * the non-SOA records framed by the last SOA record, or MissingSoa when
   * there is no SOA row.
   */
  function Materialize(rows: seq<Row>, zone: Zone, axfr: bool, parse: Parser): Fetched<RR> {
    var k := FirstUnparsed(rows, zone, parse);
    if k < |rows| then
      Fetched(Kept(rows[..k], zone, axfr, parse), Some(ParseError(RecordLine(rows[k], zone))))
    else
      assert rows[..k] == rows;
      if !axfr then Fetched(Kept(rows, zone, false, parse), None)
      else match LastSoa(rows, zone, parse)
        case None => Fetched(Kept(rows, zone, true, parse), Some(MissingSoa))
        case Some(soa) => Fetched([soa] + Kept(rows, zone, true, parse) + [soa], None)
  }

  /** The first rejected row decides the result. */
  lemma MaterializeRejected(rows: seq<Row>, zone: Zone, axfr: bool, parse: Parser, k: nat)
    requires k < |rows| && AllParse(rows[..k], zone, parse) && Parsed(rows[k], zone, parse).None?
    ensures Materialize(rows, zone, axfr, parse) ==
      Fetched(Kept(rows[..k], zone, axfr, parse), Some(ParseError(RecordLine(rows[k], zone))))
  {
    FirstUnparsedAt(rows, zone, parse, k);
  }

  /** When every row parses, the result is the kept records, framed by the SOA record in a transfer. */
  lemma MaterializeAccepted(rows: seq<Row>, zone: Zone, axfr: bool, parse: Parser)
    requires AllParse(rows, zone, parse)
    ensures Materialize(rows, zone, axfr, parse) ==
      if !axfr then Fetched(Kept(rows, zone, false, parse), None)
      else match LastSoa(rows, zone, parse)
        case None => Fetched(Kept(rows, zone, true, parse), Some(MissingSoa))
        case Some(soa) => Fetched([soa] + Kept(rows, zone, true, parse) + [soa], None)
  {
    FirstUnparsedAt(rows, zone, parse, |rows|);
  }

  /** BuildDnsRRs: renders each row, parses it, and frames a transfer with its SOA. */
  method BuildDnsRRs(rows: seq<Row>, zone: Zone, axfr: bool, parse: Parser)
    returns (dnsRRs: seq<RR>, err: Option<Error>)
    ensures Fetched(dnsRRs, err) == Materialize(rows, zone, axfr, parse)
  {
    dnsRRs := [];
    var soaRecord: Option<RR> := None;
    var i := 0;
    while i < |rows|
      invariant 0 <= i <= |rows|
      invariant AllParse(rows[..i], zone, parse)
      invariant dnsRRs == Kept(rows[..i], zone, axfr, parse)
      invariant soaRecord == if axfr then LastSoa(rows[..i], zone, parse) else None
    {
      var rr := rows[i];
      var record := RenderRecord(rr, zone);
      var dnsRR := parse(record);
      if dnsRR.None? {
        MaterializeRejected(rows, zone, axfr, parse, i);
        return dnsRRs, Some(ParseError(record));
      }
      PrefixStep(rows, zone, axfr, parse, i);
      if rr.rrtype != "SOA" || !axfr {
        dnsRRs := dnsRRs + [dnsRR.value];
      } else {
        soaRecord := dnsRR;
      }
      i := i + 1;
    }
    assert rows[..i] == rows;
    MaterializeAccepted(rows, zone, axfr, parse);
    if axfr {
      if soaRecord.None? {
        return dnsRRs, Some(MissingSoa);
      }
      dnsRRs := dnsRRs + [soaRecord.value];
      dnsRRs := [soaRecord.value] + dnsRRs;
    }
    err := None;
  }

  /** Outside a transfer: one record per row, in row order, each parsed from its row's line. */
  lemma MaterializeQuery(rows: seq<Row>, zone: Zone, parse: Parser)
    requires AllParse(rows, zone, parse)
    ensures Materialize(rows, zone, false, parse).err == None
    ensures Materialize(rows, zone, false, parse).rrs == Records(rows, zone, parse)
    ensures forall i :: 0 <= i < |rows| ==>
      Some(Materialize(rows, zone, false, parse).rrs[i]) ==
        parse(Line(rows[i], if rows[i].ttl.valid then rows[i].ttl.int64 else zone.ttl))
  {
    FirstUnparsedAt(rows, zone, parse, |rows|);
    assert rows[..|rows|] == rows;
    KeptQuery(rows, zone, parse);
  }

  /**
   * A transfer with at least one SOA row: the record of the last SOA row is
   * placed first and last, and in between are the non-SOA records in row
   * order; earlier SOA rows are dropped.
   */
  lemma MaterializeAxfrFramed(rows: seq<Row>, zone: Zone, parse: Parser, s: nat)
    requires AllParse(rows, zone, parse)
    requires s < |rows| && IsSoa(rows[s])
    requires forall j :: s < j < |rows| ==> !IsSoa(rows[j])
    ensures AllParse(NonSoa(rows), zone, parse)
    ensures var out := Materialize(rows, zone, true, parse);
      && out.err == None
      && |out.rrs| == |NonSoa(rows)| + 2
      && Some(out.rrs[0]) == Parsed(rows[s], zone, parse)
      && out.rrs[|out.rrs| - 1] == out.rrs[0]
      && out.rrs[1..|out.rrs| - 1] == Records(NonSoa(rows), zone, parse)
  {
    FirstUnparsedAt(rows, zone, parse, |rows|);
    assert rows[..|rows|] == rows;
    LastSoaAt(rows, zone, parse, s);
    KeptAxfr(rows, zone, parse);
    var out := Materialize(rows, zone, true, parse);
    var body := Kept(rows, zone, true, parse);
    assert out.rrs == [out.rrs[0]] + body + [out.rrs[0]];
    assert out.rrs[1..|out.rrs| - 1] == body;
  }

  /**
   * A transfer with exactly one SOA row among n rows: n + 1 records, the SOA
   * record at both ends and the other rows' records in order between them.
   */
  lemma MaterializeAxfrOneSoa(rows: seq<Row>, zone: Zone, parse: Parser, s: nat)
    requires AllParse(rows, zone, parse)
    requires s < |rows| && IsSoa(rows[s])
    requires forall j :: 0 <= j < |rows| && j != s ==> !IsSoa(rows[j])
    ensures AllParse(rows[..s] + rows[s + 1..], zone, parse)
    ensures var out := Materialize(rows, zone, true, parse);
      && out.err == None
      && |out.rrs| == |rows| + 1
      && Some(out.rrs[0]) == Parsed(rows[s], zone, parse)
      && out.rrs[|rows|] == out.rrs[0]
      && out.rrs[1..|rows|] == Records(rows[..s] + rows[s + 1..], zone, parse)
  {
    MaterializeAxfrFramed(rows, zone, parse, s);
    NonSoaOneSoa(rows, s);
  }

  /** A transfer with no SOA row fails with MissingSoa; for no rows at all the body is empty. */
  lemma MaterializeAxfrNoSoa(rows: seq<Row>, zone: Zone, parse: Parser)
    requires AllParse(rows, zone, parse)
    requires forall j :: 0 <= j < |rows| ==> !IsSoa(rows[j])
    ensures Materialize(rows, zone, true, parse).err == Some(MissingSoa)
    ensures Materialize(rows, zone, true, parse).rrs == Records(rows, zone, parse)
    ensures rows == [] ==> Materialize(rows, zone, true, parse).rrs == []
  {
    FirstUnparsedAt(rows, zone, parse, |rows|);
    assert rows[..|rows|] == rows;
    LastSoaNone(rows, zone, parse);
    KeptAxfr(rows, zone, parse);
    NonSoaNoSoa(rows);
  }

  /** A transfer without an SOA row never succeeds, whatever the codec does. */
  lemma MaterializeAxfrNeedsSoa(rows: seq<Row>, zone: Zone, parse: Parser)
    requires forall j :: 0 <= j < |rows| ==> !IsSoa(rows[j])
    ensures Materialize(rows, zone, true, parse).err.Some?
  {
    var k := FirstUnparsed(rows, zone, parse);
    if k == |rows| {
      assert rows[..k] == rows;
      MaterializeAxfrNoSoa(rows, zone, parse);
    }
  }

  /**
   * The first row the codec rejects (at index k) ends the materialization:
   * the error names its line, the records built before it come back, and
   * the rows after it are never looked at.
   */
  lemma MaterializeStopsAtFirstRejected(rows: seq<Row>, zone: Zone, axfr: bool, parse: Parser, k: nat, later: seq<Row>)
    requires k < |rows| && AllParse(rows[..k], zone, parse)
    requires Parsed(rows[k], zone, parse).None?
    ensures Materialize(rows, zone, axfr, parse) ==
      Fetched(Kept(rows[..k], zone, axfr, parse), Some(ParseError(RecordLine(rows[k], zone))))
    ensures Materialize(rows[..k + 1] + later, zone, axfr, parse) == Materialize(rows, zone, axfr, parse)
  {
    FirstUnparsedAt(rows, zone, parse, k);
    var other := rows[..k + 1] + later;
    assert other[..k] == rows[..k];
    assert other[k] == rows[k];
    FirstUnparsedAt(other, zone, parse, k);
  }

  // ---------------------------------------------------------------------
  // The zone store and the driver's read operations

  /** A row of the zones table. */
  datatype ZoneEntry = ZoneEntry(id: string, name: string, ttl: Int64, poolId: string, deleted: string)

  /** A records row joined with its recordset: the owning zone and the row the driver scans. */
  datatype RecordEntry = RecordEntry(zoneId: string, row: Row)

  /**
   * The store: its tables (each listed in the order the store returns rows),
   * or a store that fails every query.
   */
  datatype Database = Connected(zones: seq<ZoneEntry>, records: seq<RecordEntry>) | Unreachable

  /** The server's pool of zones. */
  const PoolId := "794ccc2cd75144feb57f8894c9f5c842"

  /** The zone used to materialize query answers, whatever zone a row belongs to. */
  const FallbackZone := Zone("notarealzone", 3600)

  predicate ZoneMatch(e: ZoneEntry, zonename: string) {
    e.name == zonename && e.poolId == PoolId && e.deleted == "0"
  }

  /** The index of the first live zone row with that name, or |zones|. */
  function ZoneIndex(zones: seq<ZoneEntry>, zonename: string): (k: nat)
    ensures k <= |zones|
    ensures k < |zones| ==> ZoneMatch(zones[k], zonename)
    ensures forall j :: 0 <= j < k ==> !ZoneMatch(zones[j], zonename)
  {
    if zones == [] then 0
    else if ZoneMatch(zones[0], zonename) then 0
    else 1 + ZoneIndex(zones[1..], zonename)
  }

  datatype ZoneLookup = Found(zone: Zone) | LookupFailed(error: Error)

  /** getZone: the first live zone of the pool with that name. */
  function GetZone(db: Database, zonename: string): (r: ZoneLookup)
    ensures db.Unreachable? ==> r == LookupFailed(StoreError)
    ensures db.Connected? ==> (r.Found? <==> exists e :: e in db.zones && ZoneMatch(e, zonename))
    ensures db.Connected? && r.Found? ==>
      exists k :: 0 <= k < |db.zones| && ZoneMatch(db.zones[k], zonename)
        && r.zone == Zone(db.zones[k].id, db.zones[k].ttl)
        && forall j :: 0 <= j < k ==> !ZoneMatch(db.zones[j], zonename)
    ensures db.Connected? && r.LookupFailed? ==> r.error == ZoneNotFound(zonename)
  {
    if db.Unreachable? then LookupFailed(StoreError)
    else
      var k := ZoneIndex(db.zones, zonename);
      if k < |db.zones| then Found(Zone(db.zones[k].id, db.zones[k].ttl))
      else LookupFailed(ZoneNotFound(zonename))
  }

  /** The WHERE clause of GetQueryRRs. */
  predicate QueryMatch(e: RecordEntry, rrName: string, rrType: string) {
    e.row.action != "DELETE" && e.row.name == rrName && (rrType == "ANY" || e.row.rrtype == rrType)
  }

  /** The WHERE clause of getRawAxfrRRs. */
  predicate ZoneRowMatch(e: RecordEntry, zone: Zone) {
    e.row.action != "DELETE" && e.zoneId == zone.id
  }

  function QueryRows(records: seq<RecordEntry>, rrName: string, rrType: string): seq<Row> {
    if records == [] then []
    else
      var init := QueryRows(records[..|records| - 1], rrName, rrType);
      var last := records[|records| - 1];
      if QueryMatch(last, rrName, rrType) then init + [last.row] else init
  }

  function ZoneRows(records: seq<RecordEntry>, zone: Zone): seq<Row> {
    if records == [] then []
    else
      var init := ZoneRows(records[..|records| - 1], zone);
      var last := records[|records| - 1];
      if ZoneRowMatch(last, zone) then init + [last.row] else init
  }

  /**
   * The query rows are exactly the live rows with the requested name and,
   * unless the type is "ANY", the requested type.
   */
  lemma {:induction false} QueryRowsSelect(records: seq<RecordEntry>, rrName: string, rrType: string)
    ensures forall r :: r in QueryRows(records, rrName, rrType) ==>
      r.action != "DELETE" && r.name == rrName && (rrType == "ANY" || r.rrtype == rrType)
    ensures forall r :: r in QueryRows(records, rrName, rrType) ==>
      exists i :: 0 <= i < |records| && QueryMatch(records[i], rrName, rrType) && records[i].row == r
    ensures forall i :: 0 <= i < |records| && QueryMatch(records[i], rrName, rrType) ==>
      records[i].row in QueryRows(records, rrName, rrType)
  {
    if records != [] {
      var init := records[..|records| - 1];
      QueryRowsSelect(init, rrName, rrType);
      assert forall i :: 0 <= i < |init| ==> init[i] == records[i];
    }
  }

  /** The zone's transfer rows are exactly its live rows. */
  lemma {:induction false} ZoneRowsSelect(records: seq<RecordEntry>, zone: Zone)
    ensures forall r :: r in ZoneRows(records, zone) ==> r.action != "DELETE"
    ensures forall r :: r in ZoneRows(records, zone) ==>
      exists i :: 0 <= i < |records| && ZoneRowMatch(records[i], zone) && records[i].row == r
    ensures forall i :: 0 <= i < |records| && ZoneRowMatch(records[i], zone) ==>
      records[i].row in ZoneRows(records, zone)
  {
    if records != [] {
      var init := records[..|records| - 1];
      ZoneRowsSelect(init, zone);
      assert forall i :: 0 <= i < |init| ==> init[i] == records[i];
    }
  }

  /** What GetQueryRRs returns. */
  function QueryRRs(db: Database, rrName: string, rrType: string, parse: Parser): Fetched<RR> {
    if db.Unreachable? then Fetched([], Some(StoreError))
    else Materialize(QueryRows(db.records, rrName, rrType), FallbackZone, false, parse)
  }

  /** What getRawAxfrRRs returns. */
  function RawAxfrRRs(db: Database, zone: Zone, parse: Parser): Fetched<RR> {
    if db.Unreachable? then Fetched([], Some(StoreError))
    else Materialize(ZoneRows(db.records, zone), zone, true, parse)
  }

  /** What GetFullAxfrRRs returns: on any error, no records at all. */
  function FullAxfrRRs(db: Database, zonename: string, parse: Parser): Fetched<RR> {
    match GetZone(db, zonename)
    case LookupFailed(e) => Fetched([], Some(e))
    case Found(zone) =>
      var raw := RawAxfrRRs(db, zone, parse);
      if raw.err.Some? then Fetched([], raw.err) else raw
  }

  /** The `rows.Next()` scan of GetQueryRRs: the matching rows, in store order. */
  method SelectQueryRows(records: seq<RecordEntry>, rrName: string, rrType: string) returns (rows: seq<Row>)
    ensures rows == QueryRows(records, rrName, rrType)
  {
    rows := [];
    var i := 0;
    while i < |records|
      invariant 0 <= i <= |records|
      invariant rows == QueryRows(records[..i], rrName, rrType)
    {
      assert records[..i + 1][..i] == records[..i];
      if QueryMatch(records[i], rrName, rrType) {
        rows := rows + [records[i].row];
      }
      i := i + 1;
    }
    assert records[..i] == records;
  }

  /** The `rows.Next()` scan of getRawAxfrRRs: the zone's live rows, in store order. */
  method SelectZoneRows(records: seq<RecordEntry>, zone: Zone) returns (rows: seq<Row>)
    ensures rows == ZoneRows(records, zone)
  {
    rows := [];
    var i := 0;
    while i < |records|
      invariant 0 <= i <= |records|
      invariant rows == ZoneRows(records[..i], zone)
    {
      assert records[..i + 1][..i] == records[..i];
      if ZoneRowMatch(records[i], zone) {
        rows := rows + [records[i].row];
      }
      i := i + 1;
    }
    assert records[..i] == records;
  }

  /** GetQueryRRs: scans the rows matching name and type and materializes them with the fallback zone. */
  method GetQueryRRs(db: Database, rrName: string, rrType: string, parse: Parser)
    returns (dnsRRs: seq<RR>, err: Option<Error>)
    ensures Fetched(dnsRRs, err) == QueryRRs(db, rrName, rrType, parse)
  {
    if db.Unreachable? {
      return [], Some(StoreError);
    }
    var rrs := SelectQueryRows(db.records, rrName, rrType);
    dnsRRs, err := BuildDnsRRs(rrs, FallbackZone, false, parse);
  }

  /** getRawAxfrRRs: scans the zone's live rows and materializes them for a transfer. */
  method GetRawAxfrRRs(db: Database, zone: Zone, parse: Parser)
    returns (dnsRRs: seq<RR>, err: Option<Error>)
    ensures Fetched(dnsRRs, err) == RawAxfrRRs(db, zone, parse)
  {
    if db.Unreachable? {
      return [], Some(StoreError);
    }
    var rrs := SelectZoneRows(db.records, zone);
    dnsRRs, err := BuildDnsRRs(rrs, zone, true, parse);
  }

  /** GetFullAxfrRRs: looks the zone up, then fetches and materializes its rows. */
  method GetFullAxfrRRs(db: Database, zonename: string, parse: Parser)
    returns (dnsRRs: seq<RR>, err: Option<Error>)
    ensures Fetched(dnsRRs, err) == FullAxfrRRs(db, zonename, parse)
  {
    var lookup := GetZone(db, zonename);
    if lookup.LookupFailed? {
      return [], Some(lookup.error);
    }
    dnsRRs, err := GetRawAxfrRRs(db, lookup.zone, parse);
    if err.Some? {
      dnsRRs := [];
    }
  }

  /**
   * Query answers use TTL 3600 for every row without its own TTL, whatever
   * zone the row belongs to; the answer is one record per matching row, in
   * order.
   */
  lemma QueryRRsUseFallbackTtl(zones: seq<ZoneEntry>, records: seq<RecordEntry>, rrName: string, rrType: string, parse: Parser)
    requires AllParse(QueryRows(records, rrName, rrType), FallbackZone, parse)
    ensures var rows := QueryRows(records, rrName, rrType);
      var out := QueryRRs(Connected(zones, records), rrName, rrType, parse);
      && out.err == None
      && |out.rrs| == |rows|
      && forall i :: 0 <= i < |rows| ==>
           Some(out.rrs[i]) == parse(Line(rows[i], if rows[i].ttl.valid then rows[i].ttl.int64 else 3600))
  {
    MaterializeQuery(QueryRows(records, rrName, rrType), FallbackZone, parse);
  }

  /**
   * When the zone lookup fails, GetFullAxfrRRs returns that error and no
   * records, without looking at any record row.
   */
  lemma FullAxfrZoneLookupFirst(db: Database, zonename: string, parse: Parser, records: seq<RecordEntry>)
    requires GetZone(db, zonename).LookupFailed?
    ensures FullAxfrRRs(db, zonename, parse) == Fetched([], Some(GetZone(db, zonename).error))
    ensures db.Connected? ==>
      FullAxfrRRs(Connected(db.zones, records), zonename, parse) == FullAxfrRRs(db, zonename, parse)
  {
  }

  /**
   * A successful transfer fetch has at least two records and starts and
   * ends with the same one, the zone's SOA record; a failed one carries no
   * records.
   */
  lemma FullAxfrFraming(zones: seq<ZoneEntry>, records: seq<RecordEntry>, zonename: string, parse: Parser)
    ensures FullAxfrRRs(Connected(zones, records), zonename, parse).err.Some? ==>
      FullAxfrRRs(Connected(zones, records), zonename, parse).rrs == []
    ensures var out := FullAxfrRRs(Connected(zones, records), zonename, parse);
      out.err.None? ==> |out.rrs| >= 2 && out.rrs[0] == out.rrs[|out.rrs| - 1]
  {
    var db := Connected(zones, records);
    var lookup := GetZone(db, zonename);
    if lookup.Found? {
      var rows := ZoneRows(records, lookup.zone);
      var k := FirstUnparsed(rows, lookup.zone, parse);
      if k == |rows| {
        assert rows[..k] == rows;
        var soa := LastSoa(rows, lookup.zone, parse);
        if soa.Some? {
          var body := Kept(rows, lookup.zone, true, parse);
          assert Materialize(rows, lookup.zone, true, parse).rrs == [soa.value] + body + [soa.value];
        }
      }
    }
  }
}
