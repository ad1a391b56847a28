/**
 * Storage rows and the per-row part of record materialization shared by
 * both generations of the server (db.go `BuildDnsRRs`, main.go
 * `build_dns_rrs`): TTL fallback, rendering of the `name ttl IN type data`
 * line handed to the codec, and the row-sequence functions that the
 * materializers' specifications are built from.
 */
module Rows {
  import opened Dns

  type Int64 = x: int | -0x8000_0000_0000_0000 <= x < 0x8000_0000_0000_0000

  /** A nullable integer column (Go's sql.NullInt64). */
  datatype NullInt64 = NullInt64(int64: Int64, valid: bool)

  datatype Zone = Zone(id: string, ttl: Int64)

  /** One joined recordsets/records row. */
  datatype Row = Row(id: string, rrtype: string, ttl: NullInt64, name: string, data: string, action: string)

  /** The codec's record parser: a partial function on presentation lines. */
  type Parser = string -> Option<RR>

  predicate IsSoa(row: Row) {
    row.rrtype == "SOA"
  }

  /** The TTL a row is rendered with: its own when present, else the zone's. */
  function EffectiveTtl(row: Row, zone: Zone): (ttl: Int64)
    ensures row.ttl.valid ==> ttl == row.ttl.int64
    ensures !row.ttl.valid ==> ttl == zone.ttl
  {
    if row.ttl.valid then row.ttl.int64 else zone.ttl
  }

  // ---------------------------------------------------------------------
  // Decimal rendering of an int64, as Go's %d verb writes it

  predicate IsDigit(c: char) {
    '0' <= c <= '9'
  }

  function DigitChar(d: nat): (c: char)
    requires d < 10
    ensures IsDigit(c) && (c as int) - ('0' as int) == d
  {
    "0123456789"[d]
  }

  function DigitValue(c: char): nat {
    if IsDigit(c) then (c as int) - ('0' as int) else 0
  }

  /** The digits of `n`, most significant first, without leading zeros. */
  function NatDigits(n: nat): (s: string)
    ensures |s| >= 1
    ensures forall i :: 0 <= i < |s| ==> IsDigit(s[i])
  {
    if n < 10 then [DigitChar(n)] else NatDigits(n / 10) + [DigitChar(n % 10)]
  }

  /** The value of a digit string (most significant first). */
  function DigitsValue(s: string): nat {
    if s == [] then 0 else DigitsValue(s[..|s| - 1]) * 10 + DigitValue(s[|s| - 1])
  }

  function Decimal(n: int): string {
    if n < 0 then "-" + NatDigits(-n) else NatDigits(n)
  }

  /** Reads back what Decimal writes. */
  function DecimalValue(s: string): int {
    if |s| > 0 && s[0] == '-' then -(DigitsValue(s[1..]) as int) else DigitsValue(s)
  }

  lemma {:induction false} NatDigitsRoundTrip(n: nat)
    ensures DigitsValue(NatDigits(n)) == n
  {
    if n >= 10 {
      NatDigitsRoundTrip(n / 10);
      var s := NatDigits(n / 10) + [DigitChar(n % 10)];
      assert s[..|s| - 1] == NatDigits(n / 10);
    }
  }

  lemma DecimalRoundTrip(n: int)
    ensures DecimalValue(Decimal(n)) == n
  {
    if n < 0 {
      NatDigitsRoundTrip(-n);
      assert ("-" + NatDigits(-n))[1..] == NatDigits(-n);
    } else {
      NatDigitsRoundTrip(n);
      assert IsDigit(NatDigits(n)[0]);
    }
  }

  // ---------------------------------------------------------------------
  // The record line handed to the parser

  /** Fields joined by single spaces, as a Go format string with one space between verbs writes them. */
  function Join(fields: seq<string>): string
    decreases |fields|
  {
    if fields == [] then ""
    else if |fields| == 1 then fields[0]
    else fields[0] + " " + Join(fields[1..])
  }

  /** `name ttl IN type data`, the line the codec parses for a row. */
  function Line(row: Row, ttl: int): string {
    Join([row.name, Decimal(ttl), "IN", row.rrtype, row.data])
  }

  /** The line spelled out: name, the decimal TTL, "IN", type and data, separated by single spaces. */
  lemma LineShape(row: Row, ttl: int)
    ensures Line(row, ttl) == row.name + " " + Decimal(ttl) + " IN " + row.rrtype + " " + row.data
  {
    var fs := [row.name, Decimal(ttl), "IN", row.rrtype, row.data];
    assert fs[1..][1..][1..][1..] == [row.data];
    assert Join(fs[1..][1..][1..]) == row.rrtype + " " + row.data;
    assert Join(fs[1..][1..]) == "IN" + " " + (row.rrtype + " " + row.data);
    assert Join(fs[1..]) == Decimal(ttl) + " " + ("IN" + " " + (row.rrtype + " " + row.data));
  }

  /** The rendered line determines the TTL: different TTLs give different lines. */
  lemma LineDeterminesTtl(row: Row, t1: int, t2: int)
    requires Line(row, t1) == Line(row, t2)
    ensures t1 == t2
  {
    var p := row.name + " ";
    var rest := " IN " + row.rrtype + " " + row.data;
    var d1, d2 := Decimal(t1), Decimal(t2);
    LineShape(row, t1);
    LineShape(row, t2);
    assert Line(row, t1) == p + d1 + rest;
    assert Line(row, t2) == p + d2 + rest;
    assert |d1| == |d2|;
    assert d1 == (p + d1 + rest)[|p|..|p| + |d1|];
    assert d2 == (p + d2 + rest)[|p|..|p| + |d2|];
    DecimalRoundTrip(t1);
    DecimalRoundTrip(t2);
  }

  /** The line rendered for `row` in `zone`, after TTL fallback. */
  function RecordLine(row: Row, zone: Zone): string {
    Line(row, EffectiveTtl(row, zone))
  }

  /**
   * The rendering step of both materializing loops: the row's own TTL when
   * present, else the zone's, formatted into the row's record line.
   */
  method RenderRecord(row: Row, zone: Zone) returns (record: string)
    ensures record == RecordLine(row, zone)
  {
    var ttl: Int64;
    if row.ttl.valid {
      ttl := row.ttl.int64;
    } else {
      ttl := zone.ttl;
    }
    record := Line(row, ttl);
  }

  function Parsed(row: Row, zone: Zone, parse: Parser): Option<RR> {
    parse(RecordLine(row, zone))
  }

  predicate AllParse(rows: seq<Row>, zone: Zone, parse: Parser) {
    forall i {:trigger Parsed(rows[i], zone, parse)} :: 0 <= i < |rows| ==> Parsed(rows[i], zone, parse).Some?
  }

  // ---------------------------------------------------------------------
  // Row-sequence functions the materializers are specified with

  /** The index of the first row the codec rejects, or |rows| if there is none. */
  function FirstUnparsed(rows: seq<Row>, zone: Zone, parse: Parser): (k: nat)
    ensures k <= |rows|
    ensures AllParse(rows[..k], zone, parse)
    ensures k < |rows| ==> Parsed(rows[k], zone, parse).None?
  {
    if rows == [] then 0
    else if Parsed(rows[0], zone, parse).None? then 0
    else
      var k := 1 + FirstUnparsed(rows[1..], zone, parse);
      assert forall i :: 1 <= i < k ==> rows[..k][i] == rows[1..][..k - 1][i - 1];
      k
  }

  /** FirstUnparsed is the unique index with no rejected row before it and a rejected row at it. */
  lemma {:induction false} FirstUnparsedAt(rows: seq<Row>, zone: Zone, parse: Parser, k: nat)
    requires k <= |rows| && AllParse(rows[..k], zone, parse)
    requires k < |rows| ==> Parsed(rows[k], zone, parse).None?
    ensures FirstUnparsed(rows, zone, parse) == k
  {
    if k > 0 {
      assert rows[..k][0] == rows[0];
      assert rows[1..][..k - 1] == rows[..k][1..];
      FirstUnparsedAt(rows[1..], zone, parse, k - 1);
    }
  }

  /** The records of every row, in order. */
  function Records(rows: seq<Row>, zone: Zone, parse: Parser): (rrs: seq<RR>)
    requires AllParse(rows, zone, parse)
    ensures |rrs| == |rows|
    ensures forall i :: 0 <= i < |rows| ==> Some(rrs[i]) == Parsed(rows[i], zone, parse)
  {
    seq(|rows|, i requires 0 <= i < |rows| => Parsed(rows[i], zone, parse).value)
  }

  /** The rows that are not SOA rows, in their original order. */
  function NonSoa(rows: seq<Row>): (r: seq<Row>)
    ensures |r| <= |rows|
  {
    if rows == [] then []
    else if IsSoa(rows[|rows| - 1]) then NonSoa(rows[..|rows| - 1])
    else NonSoa(rows[..|rows| - 1]) + [rows[|rows| - 1]]
  }

  /**
   * The records the materializing loop appends to its body: every row when
   * not transferring, only the non-SOA rows when transferring.
   */
  function Kept(rows: seq<Row>, zone: Zone, axfr: bool, parse: Parser): seq<RR>
    requires AllParse(rows, zone, parse)
  {
    if rows == [] then []
    else
      var init := rows[..|rows| - 1];
      assert forall i :: 0 <= i < |init| ==> init[i] == rows[i];
      var last := rows[|rows| - 1];
      if !IsSoa(last) || !axfr then Kept(init, zone, axfr, parse) + [Parsed(last, zone, parse).value]
      else Kept(init, zone, axfr, parse)
  }

  /** The record of the last SOA row, if any: later SOA rows overwrite earlier ones. */
  function LastSoa(rows: seq<Row>, zone: Zone, parse: Parser): Option<RR>
    requires AllParse(rows, zone, parse)
  {
    if rows == [] then None
    else
      var init := rows[..|rows| - 1];
      assert forall i :: 0 <= i < |init| ==> init[i] == rows[i];
      if IsSoa(rows[|rows| - 1]) then Parsed(rows[|rows| - 1], zone, parse)
      else LastSoa(init, zone, parse)
  }

  lemma AllParsePrefix(rows: seq<Row>, zone: Zone, parse: Parser, k: nat)
    requires AllParse(rows, zone, parse) && k <= |rows|
    ensures AllParse(rows[..k], zone, parse)
  {
    assert forall i :: 0 <= i < k ==> rows[..k][i] == rows[i];
  }

  /** One more row of a prefix: how Kept and LastSoa grow, as the materializing loops use it. */
  lemma PrefixStep(rows: seq<Row>, zone: Zone, axfr: bool, parse: Parser, i: nat)
    requires i < |rows| && AllParse(rows[..i], zone, parse) && Parsed(rows[i], zone, parse).Some?
    ensures AllParse(rows[..i + 1], zone, parse)
    ensures Kept(rows[..i + 1], zone, axfr, parse) ==
      if !IsSoa(rows[i]) || !axfr then Kept(rows[..i], zone, axfr, parse) + [Parsed(rows[i], zone, parse).value]
      else Kept(rows[..i], zone, axfr, parse)
    ensures LastSoa(rows[..i + 1], zone, parse) ==
      if IsSoa(rows[i]) then Parsed(rows[i], zone, parse) else LastSoa(rows[..i], zone, parse)
  {
    var p := rows[..i + 1];
    assert p[..i] == rows[..i];
    assert forall j :: 0 <= j < i ==> p[j] == rows[..i][j];
  }

  /** NonSoa keeps exactly the non-SOA rows: each of its rows is a non-SOA row of the input. */
  lemma {:induction false} NonSoaMembers(rows: seq<Row>)
    ensures forall r :: r in NonSoa(rows) ==> r in rows && !IsSoa(r)
    ensures forall i :: 0 <= i < |rows| && !IsSoa(rows[i]) ==> rows[i] in NonSoa(rows)
  {
    if rows != [] {
      var init := rows[..|rows| - 1];
      NonSoaMembers(init);
      assert forall r :: r in init ==> r in rows;
      assert forall i :: 0 <= i < |init| ==> init[i] == rows[i];
    }
  }

  lemma AllParseNonSoa(rows: seq<Row>, zone: Zone, parse: Parser)
    requires AllParse(rows, zone, parse)
    ensures AllParse(NonSoa(rows), zone, parse)
  {
    NonSoaMembers(rows);
    forall i | 0 <= i < |NonSoa(rows)|
      ensures Parsed(NonSoa(rows)[i], zone, parse).Some?
    {
      assert NonSoa(rows)[i] in rows;
    }
  }

  /** Outside a transfer the body is one record per row, in row order. */
  lemma {:induction false} KeptQuery(rows: seq<Row>, zone: Zone, parse: Parser)
    requires AllParse(rows, zone, parse)
    ensures Kept(rows, zone, false, parse) == Records(rows, zone, parse)
  {
    if rows != [] {
      var init := rows[..|rows| - 1];
      AllParsePrefix(rows, zone, parse, |rows| - 1);
      KeptQuery(init, zone, parse);
    }
  }

  /** In a transfer the body is the records of the non-SOA rows, in row order. */
  lemma {:induction false} KeptAxfr(rows: seq<Row>, zone: Zone, parse: Parser)
    requires AllParse(rows, zone, parse)
    ensures AllParse(NonSoa(rows), zone, parse)
    ensures Kept(rows, zone, true, parse) == Records(NonSoa(rows), zone, parse)
  {
    AllParseNonSoa(rows, zone, parse);
    if rows != [] {
      var init := rows[..|rows| - 1];
      AllParsePrefix(rows, zone, parse, |rows| - 1);
      KeptAxfr(init, zone, parse);
      AllParseNonSoa(init, zone, parse);
    }
  }

  /** LastSoa is absent exactly when there is no SOA row. */
  lemma {:induction false} LastSoaNone(rows: seq<Row>, zone: Zone, parse: Parser)
    requires AllParse(rows, zone, parse)
    ensures LastSoa(rows, zone, parse).None? <==> forall i :: 0 <= i < |rows| ==> !IsSoa(rows[i])
  {
    if rows != [] {
      var init := rows[..|rows| - 1];
      AllParsePrefix(rows, zone, parse, |rows| - 1);
      LastSoaNone(init, zone, parse);
      assert forall i :: 0 <= i < |init| ==> init[i] == rows[i];
    }
  }

  /** LastSoa is the record of the SOA row that has no SOA row after it. */
  lemma {:induction false} LastSoaAt(rows: seq<Row>, zone: Zone, parse: Parser, s: nat)
    requires AllParse(rows, zone, parse)
    requires s < |rows| && IsSoa(rows[s])
    requires forall j :: s < j < |rows| ==> !IsSoa(rows[j])
    ensures LastSoa(rows, zone, parse) == Parsed(rows[s], zone, parse)
  {
    if s < |rows| - 1 {
      var init := rows[..|rows| - 1];
      AllParsePrefix(rows, zone, parse, |rows| - 1);
      assert forall j :: 0 <= j < |init| ==> init[j] == rows[j];
      LastSoaAt(init, zone, parse, s);
    }
  }

  /** With no SOA row, NonSoa keeps every row. */
  lemma {:induction false} NonSoaNoSoa(rows: seq<Row>)
    requires forall i :: 0 <= i < |rows| ==> !IsSoa(rows[i])
    ensures NonSoa(rows) == rows
  {
    if rows != [] {
      var init, last := rows[..|rows| - 1], rows[|rows| - 1];
      forall j | 0 <= j < |init|
        ensures !IsSoa(init[j])
      {
        assert init[j] == rows[j];
      }
      NonSoaNoSoa(init);
      assert !IsSoa(last);
      assert init + [last] == rows;
    }
  }

  /** NonSoa distributes over concatenation. */
  lemma {:induction false} NonSoaAppend(a: seq<Row>, b: seq<Row>)
    ensures NonSoa(a + b) == NonSoa(a) + NonSoa(b)
  {
    if b != [] {
      var b' := b[..|b| - 1];
      assert (a + b)[..|a + b| - 1] == a + b';
      NonSoaAppend(a, b');
    } else {
      assert a + b == a;
    }
  }

  /** With exactly one SOA row, at index s, NonSoa removes just that row. */
  lemma {:induction false} NonSoaOneSoa(rows: seq<Row>, s: nat)
    requires s < |rows| && IsSoa(rows[s])
    requires forall i :: 0 <= i < |rows| && i != s ==> !IsSoa(rows[i])
    ensures NonSoa(rows) == rows[..s] + rows[s + 1..]
  {
    var before, after := rows[..s], rows[s + 1..];
    var soa := [rows[s]];
    assert rows == before + soa + after;
    assert forall j :: 0 <= j < |before| ==> !IsSoa(before[j]);
    assert forall j :: 0 <= j < |after| ==> after[j] == rows[s + 1 + j];
    NonSoaNoSoa(before);
    NonSoaNoSoa(after);
    assert NonSoa(soa) == [] by {
      assert soa[..0] == [];
    }
    NonSoaAppend(before + soa, after);
    NonSoaAppend(before, soa);
    assert before + [] == before;
  }
}
