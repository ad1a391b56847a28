/**
 * main.go: the earlier single-file server. It answers from the same zone
 * store, but its materializer frames a transfer with whatever SOA value it
 * last saw (nil when the zone has no SOA row, with no error), it sends a
 * whole transfer as one message, and it does not refuse IXFR: an IXFR
 * question goes down the ordinary query path with the type name "IXFR".
 */
module Legacy {
  import opened Dns
  import opened Rows
  import opened StoragePort
  import opened Transport
  import Db

  /** The answer slots of a legacy message: a nil record is `None`. Slot i holds record i, so no slot is nil. */
  function Slots(rrs: seq<RR>): (s: seq<Option<RR>>)
    ensures |s| == |rrs|
    ensures forall i :: 0 <= i < |rrs| ==> s[i] == Some(rrs[i])
  {
    if rrs == [] then []
    else
      var init := rrs[..|rrs| - 1];
      assert forall i :: 0 <= i < |init| ==> init[i] == rrs[i];
      Slots(init) + [Some(rrs[|rrs| - 1])]
  }

  /** A slot sequence holding exactly the records, in order, is their Slots. */
  lemma {:induction false} SlotsOf(s: seq<Option<RR>>, rrs: seq<RR>)
    requires |s| == |rrs| && forall j :: 0 <= j < |rrs| ==> s[j] == Some(rrs[j])
    ensures s == Slots(rrs)
  {
    assert forall j :: 0 <= j < |rrs| ==> s[j] == Slots(rrs)[j];
  }

  lemma SlotsSnoc(a: seq<RR>, x: RR)
    ensures Slots(a + [x]) == Slots(a) + [Some(x)]
  {
    assert (a + [x])[..|a|] == a;
  }

  lemma {:induction false} SlotsAppend(a: seq<RR>, b: seq<RR>)
    ensures Slots(a + b) == Slots(a) + Slots(b)
    decreases |b|
  {
    if b != [] {
      var init := b[..|b| - 1];
      var x := b[|b| - 1];
      assert b == init + [x];
      assert a + b == (a + init) + [x];
      SlotsAppend(a, init);
      SlotsSnoc(a + init, x);
      SlotsSnoc(init, x);
    } else {
      assert a + b == a;
    }
  }

  // ---------------------------------------------------------------------
  // build_dns_rrs

  /**
   * What build_dns_rrs returns. The first row the codec rejects stops the
   * work and the body built so far comes back with the error. Otherwise,
   * outside a transfer, every row's record in row order; in a transfer,
   * the non-SOA records framed by the last SOA record, or by a nil record
   * when there is no SOA row, and no error either way.
   */
  function LegacyMaterialize(rows: seq<Row>, zone: Zone, axfr: bool, parse: Parser): Fetched<Option<RR>> {
    var k := FirstUnparsed(rows, zone, parse);
    if k < |rows| then
      Fetched(Slots(Kept(rows[..k], zone, axfr, parse)), Some(ParseError(RecordLine(rows[k], zone))))
    else
      assert rows[..k] == rows;
      if !axfr then Fetched(Slots(Kept(rows, zone, false, parse)), None)
      else
        var soa := LastSoa(rows, zone, parse);
        Fetched([soa] + Slots(Kept(rows, zone, true, parse)) + [soa], None)
  }

  /** The first rejected row decides the legacy result. */
  lemma LegacyMaterializeRejected(rows: seq<Row>, zone: Zone, axfr: bool, parse: Parser, k: nat)
    requires k < |rows| && AllParse(rows[..k], zone, parse) && Parsed(rows[k], zone, parse).None?
    ensures LegacyMaterialize(rows, zone, axfr, parse) ==
      Fetched(Slots(Kept(rows[..k], zone, axfr, parse)), Some(ParseError(RecordLine(rows[k], zone))))
  {
    FirstUnparsedAt(rows, zone, parse, k);
  }

  /** When every row parses, the legacy result is the kept records, framed in a transfer. */
  lemma LegacyMaterializeAccepted(rows: seq<Row>, zone: Zone, axfr: bool, parse: Parser)
    requires AllParse(rows, zone, parse)
    ensures LegacyMaterialize(rows, zone, axfr, parse) ==
      if !axfr then Fetched(Slots(Kept(rows, zone, false, parse)), None)
      else Fetched([LastSoa(rows, zone, parse)] + Slots(Kept(rows, zone, true, parse)) + [LastSoa(rows, zone, parse)], None)
  {
    FirstUnparsedAt(rows, zone, parse, |rows|);
  }

  /** build_dns_rrs: renders each row, parses it, and frames a transfer with the SOA value. */
  method BuildDnsRRs(rows: seq<Row>, zone: Zone, axfr: bool, parse: Parser)
    returns (dnsrrs: seq<Option<RR>>, err: Option<Error>)
    ensures Fetched(dnsrrs, err) == LegacyMaterialize(rows, zone, axfr, parse)
  {
    dnsrrs := [];
    ghost var kept: seq<RR> := [];
    var soarecord: Option<RR> := None;
    var i := 0;
    while i < |rows|
      invariant 0 <= i <= |rows|
      invariant AllParse(rows[..i], zone, parse)
      invariant kept == Kept(rows[..i], zone, axfr, parse)
      invariant dnsrrs == Slots(kept)
      invariant soarecord.Some? ==> axfr
      invariant soarecord == if axfr then LastSoa(rows[..i], zone, parse) else None
    {
      var rr := rows[i];
      var record := RenderRecord(rr, zone);
      var dnsrr := parse(record);
      if dnsrr.None? {
        LegacyMaterializeRejected(rows, zone, axfr, parse, i);
        return dnsrrs, Some(ParseError(record));
      }
      PrefixStep(rows, zone, axfr, parse, i);
      if rr.rrtype != "SOA" || !axfr {
        SlotsSnoc(kept, dnsrr.value);
        kept := kept + [dnsrr.value];
        dnsrrs := dnsrrs + [dnsrr];
      } else {
        soarecord := dnsrr;
      }
      i := i + 1;
    }
    assert rows[..i] == rows;
    LegacyMaterializeAccepted(rows, zone, axfr, parse);
    if axfr {
      dnsrrs := dnsrrs + [soarecord];
      dnsrrs := [soarecord] + dnsrrs;
    }
    err := None;
  }

  /**
   * A transfer body is always two records longer than the zone's non-SOA
   * rows and starts and ends with the same slot: the last SOA record, or
   * nil exactly when the zone has no SOA row.
   */
  lemma LegacyAxfrFramed(rows: seq<Row>, zone: Zone, parse: Parser)
    requires AllParse(rows, zone, parse)
    ensures AllParse(NonSoa(rows), zone, parse)
    ensures var out := LegacyMaterialize(rows, zone, true, parse);
      && out.err == None
      && |out.rrs| == |NonSoa(rows)| + 2
      && out.rrs[0] == out.rrs[|out.rrs| - 1] == LastSoa(rows, zone, parse)
      && (out.rrs[0].None? <==> forall i :: 0 <= i < |rows| ==> !IsSoa(rows[i]))
      && out.rrs[1..|out.rrs| - 1] == Slots(Records(NonSoa(rows), zone, parse))
  {
    FirstUnparsedAt(rows, zone, parse, |rows|);
    assert rows[..|rows|] == rows;
    KeptAxfr(rows, zone, parse);
    LastSoaNone(rows, zone, parse);
    var out := LegacyMaterialize(rows, zone, true, parse);
    assert out.rrs[1..|out.rrs| - 1] == Slots(Kept(rows, zone, true, parse));
  }

  /**
   * The legacy and the current materializer agree on every input except a
   * transfer of a zone without an SOA row: there the current one reports
   * MissingSoa, the legacy one returns the records framed by two nil slots
   * and no error.
   */
  lemma LegacyMatchesCurrent(rows: seq<Row>, zone: Zone, axfr: bool, parse: Parser)
    ensures var cur := Db.Materialize(rows, zone, axfr, parse);
      cur.err != Some(MissingSoa) ==> LegacyMaterialize(rows, zone, axfr, parse) == Fetched(Slots(cur.rrs), cur.err)
    ensures var cur := Db.Materialize(rows, zone, axfr, parse);
      cur.err == Some(MissingSoa) ==>
        LegacyMaterialize(rows, zone, axfr, parse) == Fetched([None] + Slots(cur.rrs) + [None], None)
  {
    var k := FirstUnparsed(rows, zone, parse);
    if k < |rows| {
      MatchesRejected(rows, zone, axfr, parse, k);
    } else {
      assert rows[..k] == rows;
      MatchesAccepted(rows, zone, axfr, parse);
    }
  }

  /** The two materializations agree on a parse error: same records before it, same error. */
  lemma MatchesRejected(rows: seq<Row>, zone: Zone, axfr: bool, parse: Parser, k: nat)
    requires k < |rows| && AllParse(rows[..k], zone, parse) && Parsed(rows[k], zone, parse).None?
    ensures LegacyMaterialize(rows, zone, axfr, parse) == Fetched(Slots(Db.Materialize(rows, zone, axfr, parse).rrs), Db.Materialize(rows, zone, axfr, parse).err)
  {
    Db.MaterializeRejected(rows, zone, axfr, parse, k);
    LegacyMaterializeRejected(rows, zone, axfr, parse, k);
  }

  /** The two materializations agree when every row parses; only a missing SOA differs. */
  lemma MatchesAccepted(rows: seq<Row>, zone: Zone, axfr: bool, parse: Parser)
    requires AllParse(rows, zone, parse)
    ensures var cur := Db.Materialize(rows, zone, axfr, parse);
      cur.err != Some(MissingSoa) ==> LegacyMaterialize(rows, zone, axfr, parse) == Fetched(Slots(cur.rrs), cur.err)
    ensures var cur := Db.Materialize(rows, zone, axfr, parse);
      cur.err == Some(MissingSoa) ==>
        LegacyMaterialize(rows, zone, axfr, parse) == Fetched([None] + Slots(cur.rrs) + [None], None)
  {
    Db.MaterializeAccepted(rows, zone, axfr, parse);
    LegacyMaterializeAccepted(rows, zone, axfr, parse);
    if axfr && LastSoa(rows, zone, parse).Some? {
      SlotsFramed(LastSoa(rows, zone, parse).value, Kept(rows, zone, true, parse));
    }
  }

  /** A transfer framed by a present SOA has no nil slot at either end. */
  lemma SlotsFramed(soa: RR, kept: seq<RR>)
    ensures Slots([soa] + kept + [soa]) == [Some(soa)] + Slots(kept) + [Some(soa)]
  {
    SlotsAppend([soa], kept);
    SlotsSnoc([soa] + kept, soa);
    SlotsSnoc([], soa);
  }

  // ---------------------------------------------------------------------
  // The database functions

  /** What get_rrs returns: the query rows materialized with the fallback zone. */
  function QueryRRs(db: Db.Database, rrname: string, rrtype: string, parse: Parser): Fetched<Option<RR>> {
    if db.Unreachable? then Fetched([], Some(StoreError))
    else LegacyMaterialize(Db.QueryRows(db.records, rrname, rrtype), Db.FallbackZone, false, parse)
  }

  /** What get_rrs_axfr returns: the zone's live rows materialized for a transfer. */
  function ZoneAxfrRRs(db: Db.Database, zone: Zone, parse: Parser): Fetched<Option<RR>> {
    if db.Unreachable? then Fetched([], Some(StoreError))
    else LegacyMaterialize(Db.ZoneRows(db.records, zone), zone, true, parse)
  }

  /** What do_axfr returns: on any error, no records at all. */
  function AxfrRRs(db: Db.Database, zonename: string, parse: Parser): Fetched<Option<RR>> {
    match Db.GetZone(db, zonename)
    case LookupFailed(e) => Fetched([], Some(e))
    case Found(zone) =>
      var raw := ZoneAxfrRRs(db, zone, parse);
      if raw.err.Some? then Fetched([], raw.err) else raw
  }

  /** get_rrs: scans the rows matching name and type and materializes them. */
  method GetRrs(db: Db.Database, rrname: string, rrtype: string, parse: Parser)
    returns (dnsrrs: seq<Option<RR>>, err: Option<Error>)
    ensures Fetched(dnsrrs, err) == QueryRRs(db, rrname, rrtype, parse)
  {
    if db.Unreachable? {
      return [], Some(StoreError);
    }
    var rrs := Db.SelectQueryRows(db.records, rrname, rrtype);
    dnsrrs, err := BuildDnsRRs(rrs, Db.FallbackZone, false, parse);
  }

  /** get_rrs_axfr: scans the zone's live rows and materializes them for a transfer. */
  method GetRrsAxfr(db: Db.Database, zone: Zone, parse: Parser)
    returns (dnsrrs: seq<Option<RR>>, err: Option<Error>)
    ensures Fetched(dnsrrs, err) == ZoneAxfrRRs(db, zone, parse)
  {
    if db.Unreachable? {
      return [], Some(StoreError);
    }
    var rrs := Db.SelectZoneRows(db.records, zone);
    dnsrrs, err := BuildDnsRRs(rrs, zone, true, parse);
  }

  /** do_axfr: looks the zone up, then fetches and materializes its rows. */
  method DoAxfr(db: Db.Database, zonename: string, parse: Parser)
    returns (rrs: seq<Option<RR>>, err: Option<Error>)
    ensures Fetched(rrs, err) == AxfrRRs(db, zonename, parse)
  {
    var lookup := Db.GetZone(db, zonename);
    if lookup.LookupFailed? {
      return [], Some(lookup.error);
    }
    rrs, err := GetRrsAxfr(db, lookup.zone, parse);
    if err.Some? {
      rrs := [];
    }
  }

  /**
   * A zone with an SOA row transfers as one SOA record at each end around
   * its non-SOA records; a zone without one transfers with a nil record at
   * each end, and the fetch reports no error.
   */
  lemma AxfrRRsFramed(zones: seq<Db.ZoneEntry>, records: seq<Db.RecordEntry>, zonename: string, parse: Parser)
    requires Db.GetZone(Db.Connected(zones, records), zonename).Found?
    requires var zone := Db.GetZone(Db.Connected(zones, records), zonename).zone;
      AllParse(Db.ZoneRows(records, zone), zone, parse)
    ensures var zone := Db.GetZone(Db.Connected(zones, records), zonename).zone;
      var rows := Db.ZoneRows(records, zone);
      var out := AxfrRRs(Db.Connected(zones, records), zonename, parse);
      && out.err == None
      && |out.rrs| == |NonSoa(rows)| + 2
      && out.rrs[0] == out.rrs[|out.rrs| - 1]
      && (out.rrs[0].None? <==> forall i :: 0 <= i < |rows| ==> !IsSoa(rows[i]))
  {
    var zone := Db.GetZone(Db.Connected(zones, records), zonename).zone;
    LegacyAxfrFramed(Db.ZoneRows(records, zone), zone, parse);
  }

  // ---------------------------------------------------------------------
  // DNS handling

  /**
   * handle_error: sets the status code named by `op` ("SERVAIL" falls to
   * SERVFAIL). Unlike the package's handle_error it does not put the
   * question back, so the reply leaves here without one, and only respond
   * restores it.
   */
  function HandleError(message: Msg<Option<RR>>, op: string): (reply: Msg<Option<RR>>)
    ensures reply.rcode == (if op == "REFUSED" then RcodeRefused else RcodeServerFailure)
    ensures reply.question == NoQuestion
    ensures reply == message.(rcode := reply.rcode, question := NoQuestion)
  {
    if op == "REFUSED" then SetRcode(message, RcodeRefused)
    else if op == "SERVFAIL" then SetRcode(message, RcodeServerFailure)
    else SetRcode(message, RcodeServerFailure)
  }

  /** What handle_axfr makes of the fetch: SERVFAIL on an error, otherwise the records appended. */
  function AxfrReply(message: Msg<Option<RR>>, fetched: Fetched<Option<RR>>): (reply: Msg<Option<RR>>)
    ensures fetched.err.Some? ==> reply == message.(rcode := RcodeServerFailure, question := NoQuestion)
    ensures fetched.err.None? ==> reply == message.(answer := message.answer + fetched.rrs)
  {
    if fetched.err.Some? then HandleError(message, "SERVAIL")
    else message.(answer := message.answer + fetched.rrs)
  }

  /** What handle_query makes of the fetch: SERVFAIL on an error, REFUSED for no rows, otherwise the records appended. */
  function QueryReply(message: Msg<Option<RR>>, fetched: Fetched<Option<RR>>): (reply: Msg<Option<RR>>)
    ensures fetched.err.Some? ==> reply == message.(rcode := RcodeServerFailure, question := NoQuestion)
    ensures fetched.err.None? && fetched.rrs == [] ==> reply == message.(rcode := RcodeRefused, question := NoQuestion)
    ensures fetched.err.None? && fetched.rrs != [] ==> reply == message.(answer := message.answer + fetched.rrs)
  {
    if fetched.err.Some? then HandleError(message, "SERVAIL")
    else if |fetched.rrs| == 0 then HandleError(message, "REFUSED")
    else message.(answer := message.answer + fetched.rrs)
  }

  /** handle_axfr: the whole transfer goes into the one reply. */
  method HandleAxfr(question: Question, message: Msg<Option<RR>>, db: Db.Database, parse: Parser)
    returns (reply: Msg<Option<RR>>)
    ensures reply == AxfrReply(message, AxfrRRs(db, question.name, parse))
  {
    var zonename := question.name;
    var rrs, err := DoAxfr(db, zonename, parse);
    if err.Some? {
      return HandleError(message, "SERVAIL");
    }
    reply := message.(answer := message.answer + rrs);
  }

  /** handle_query: asks the store for the question's name and type mnemonic. */
  method HandleQuery(question: Question, message: Msg<Option<RR>>, db: Db.Database, parse: Parser)
    returns (reply: Msg<Option<RR>>)
    ensures reply == QueryReply(message, QueryRRs(db, question.name, TypeToString(question.qtype), parse))
  {
    var name := question.name;
    var rrtype := TypeToString(question.qtype);
    var rrs, err := GetRrs(db, name, rrtype, parse);
    if err.Some? {
      return HandleError(message, "SERVAIL");
    }
    if |rrs| == 0 {
      return HandleError(message, "REFUSED");
    }
    reply := message.(answer := message.answer + rrs);
  }

  /** What respond sends: the question and opcode put back, the authoritative bit set. */
  function Finish(message: Msg<Option<RR>>, request: Msg<RR>): (reply: Msg<Option<RR>>)
    ensures reply.question == request.question && reply.opcode == request.opcode && reply.authoritative
    ensures reply.(question := message.question, opcode := message.opcode, authoritative := message.authoritative) == message
  {
    message.(question := request.question, opcode := request.opcode, authoritative := true)
  }

  /** respond: finishes the message and writes it. */
  method Respond(message: Msg<Option<RR>>, request: Msg<RR>, w: Writer<Option<RR>>)
    modifies w
    ensures w.log == old(w.log) + [Finish(message, request)]
  {
    var m := message.(question := request.question);
    m := m.(opcode := request.opcode);
    m := m.(authoritative := true);
    var _ := w.WriteMsg(m);
  }

  /** The one message Handle writes for `request`. */
  function HandleReply(request: Msg<RR>, db: Db.Database, parse: Parser): Msg<Option<RR>> {
    var question := request.question;
    var message := SetRcode(SetReply<Option<RR>>(request), RcodeSuccess);
    var message :=
      if request.opcode == OpcodeQuery then
        if question.qtype == TypeAXFR then AxfrReply(message, AxfrRRs(db, question.name, parse))
        else QueryReply(message, QueryRRs(db, question.name, TypeToString(question.qtype), parse))
      else HandleError(message, "REFUSED");
    Finish(message, request)
  }

  /** Handle: builds the reply for the request's opcode and question type and writes exactly one message. */
  method Handle(w: Writer<Option<RR>>, request: Msg<RR>, db: Db.Database, parse: Parser)
    modifies w
    ensures w.log == old(w.log) + [HandleReply(request, db, parse)]
  {
    var question := request.question;
    var message := SetReply<Option<RR>>(request);
    message := SetRcode(message, RcodeSuccess);
    if request.opcode == OpcodeQuery {
      if question.qtype == TypeAXFR {
        message := HandleAxfr(question, message, db, parse);
      } else {
        message := HandleQuery(question, message, db, parse);
      }
    } else {
      message := HandleError(message, "REFUSED");
    }
    Respond(message, request, w);
  }

  // ---------------------------------------------------------------------
  // Properties of the legacy handler

  /**
   * Every reply is an authoritative response that echoes the request's id,
   * opcode and question.
   */
  lemma HandleReplyEcho(request: Msg<RR>, db: Db.Database, parse: Parser)
    ensures var reply := HandleReply(request, db, parse);
      && reply.response && reply.authoritative
      && reply.id == request.id && reply.opcode == request.opcode && reply.question == request.question
  {
  }

  /** An opcode other than QUERY: REFUSED with an empty answer, whatever the store holds. */
  lemma HandleRefusesOtherOpcodes(request: Msg<RR>, db: Db.Database, other: Db.Database, parse: Parser)
    requires request.opcode != OpcodeQuery
    ensures HandleReply(request, db, parse).rcode == RcodeRefused
    ensures HandleReply(request, db, parse).answer == []
    ensures HandleReply(request, db, parse) == HandleReply(request, other, parse)
  {
  }

  /**
   * IXFR is not refused up front: for every store it takes the query path,
   * looked up by owner name as a record type named "IXFR". So an
   * unreachable store gives SERVFAIL, and a store with no row of that type
   * gives REFUSED with an empty answer.
   */
  lemma HandleIxfrAsQuery(request: Msg<RR>, db: Db.Database, parse: Parser)
    requires request.opcode == OpcodeQuery && request.question.qtype == TypeIXFR
    ensures HandleReply(request, db, parse) ==
      Finish(QueryReply(SetRcode(SetReply<Option<RR>>(request), RcodeSuccess),
                        QueryRRs(db, request.question.name, "IXFR", parse)), request)
    ensures db.Unreachable? ==> HandleReply(request, db, parse).rcode == RcodeServerFailure
    ensures db.Connected? && (forall i :: 0 <= i < |db.records| ==> db.records[i].row.rrtype != "IXFR") ==>
      HandleReply(request, db, parse).rcode == RcodeRefused && HandleReply(request, db, parse).answer == []
  {
    if db.Connected? && forall i :: 0 <= i < |db.records| ==> db.records[i].row.rrtype != "IXFR" {
      NoRowsOfType(db.records, request.question.name, "IXFR");
      FirstUnparsedAt([], Db.FallbackZone, parse, 0);
    }
  }

  lemma {:induction false} NoRowsOfType(records: seq<Db.RecordEntry>, rrname: string, rrtype: string)
    requires rrtype != "ANY"
    requires forall i :: 0 <= i < |records| ==> records[i].row.rrtype != rrtype
    ensures Db.QueryRows(records, rrname, rrtype) == []
  {
    if records != [] {
      var init := records[..|records| - 1];
      assert forall i :: 0 <= i < |init| ==> init[i] == records[i];
      NoRowsOfType(init, rrname, rrtype);
    }
  }

  /**
   * An ordinary query (any type but AXFR, IXFR included): SERVFAIL when the
   * store is unreachable or a row does not parse, REFUSED for no rows,
   * otherwise NOERROR with one record per matching row, in order.
   */
  lemma HandleQueryOutcome(request: Msg<RR>, db: Db.Database, parse: Parser)
    requires request.opcode == OpcodeQuery && request.question.qtype != TypeAXFR
    ensures var reply := HandleReply(request, db, parse);
      var rrtype := TypeToString(request.question.qtype);
      && (db.Unreachable? ==> reply.rcode == RcodeServerFailure && reply.answer == [])
      && (db.Connected? ==>
            var rows := Db.QueryRows(db.records, request.question.name, rrtype);
            if !AllParse(rows, Db.FallbackZone, parse) then
              reply.rcode == RcodeServerFailure && reply.answer == []
            else if rows == [] then
              reply.rcode == RcodeRefused && reply.answer == []
            else
              reply.rcode == RcodeSuccess && reply.answer == Slots(Records(rows, Db.FallbackZone, parse)))
  {
    QueryRRsOutcome(db, request.question.name, TypeToString(request.question.qtype), parse);
  }

  /** What get_rrs returns: a store error, a parse error, or one record per matching row in order. */
  lemma QueryRRsOutcome(db: Db.Database, rrname: string, rrtype: string, parse: Parser)
    ensures var fetched := QueryRRs(db, rrname, rrtype, parse);
      && (db.Unreachable? ==> fetched.err.Some?)
      && (db.Connected? ==>
            var rows := Db.QueryRows(db.records, rrname, rrtype);
            if AllParse(rows, Db.FallbackZone, parse) then fetched == Fetched(Slots(Records(rows, Db.FallbackZone, parse)), None)
            else fetched.err.Some?)
  {
    if db.Connected? {
      var rows := Db.QueryRows(db.records, rrname, rrtype);
      if AllParse(rows, Db.FallbackZone, parse) {
        LegacyMaterializeAccepted(rows, Db.FallbackZone, false, parse);
        KeptQuery(rows, Db.FallbackZone, parse);
      } else {
        LegacyMaterializeRejected(rows, Db.FallbackZone, false, parse, FirstUnparsed(rows, Db.FallbackZone, parse));
      }
    }
  }

  /**
   * A transfer: exactly the one reply; on a fetch error SERVFAIL with an
   * empty answer, otherwise NOERROR with the whole fetched record list as
   * its answer, however long.
   */
  lemma HandleAxfrOneMessage(request: Msg<RR>, db: Db.Database, parse: Parser)
    requires request.opcode == OpcodeQuery && request.question.qtype == TypeAXFR
    ensures var reply := HandleReply(request, db, parse);
      var fetched := AxfrRRs(db, request.question.name, parse);
      && (fetched.err.Some? ==> reply.rcode == RcodeServerFailure && reply.answer == [])
      && (fetched.err.None? ==> reply.rcode == RcodeSuccess && reply.answer == fetched.rrs)
  {
  }
}
