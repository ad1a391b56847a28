/**
 * The part of the DNS wire codec the answering engine touches: the header
 * fields it reads or sets, the question it echoes, the answer section it
 * fills, and the numeric codes of section 4.1.1 of RFC 1035 (opcodes and
 * RCODEs) and section 3.2.2/3.2.3 (types). Parsing and serialising messages
 * on the wire is not part of this model.
 */
module Dns {

  datatype Option<+T> = None | Some(value: T)

  type uint16 = x: int | 0 <= x < 0x1_0000

  // Opcodes (RFC 1035 section 4.1.1)
  const OpcodeQuery: nat := 0

  // RCODEs (RFC 1035 section 4.1.1)
  const RcodeSuccess: nat := 0
  const RcodeServerFailure: nat := 2
  const RcodeRefused: nat := 5

  // Query types (RFC 1035 sections 3.2.2 and 3.2.3; IXFR from RFC 1995, AAAA from RFC 3596, SRV from RFC 2782)
  const TypeA: uint16 := 1
  const TypeNS: uint16 := 2
  const TypeCNAME: uint16 := 5
  const TypeSOA: uint16 := 6
  const TypePTR: uint16 := 12
  const TypeMX: uint16 := 15
  const TypeTXT: uint16 := 16
  const TypeAAAA: uint16 := 28
  const TypeSRV: uint16 := 33
  const TypeIXFR: uint16 := 251
  const TypeAXFR: uint16 := 252
  const TypeANY: uint16 := 255

  /**
   * The codec's table from type numbers to mnemonics, restricted to the
   * common types. A number missing from the table yields the empty string,
   * which is what indexing a Go map with a missing key gives.
   */
  function TypeToString(t: uint16): (s: string)
    ensures t == TypeANY <==> s == "ANY"
    ensures t == TypeSOA <==> s == "SOA"
  {
    if t == TypeA then "A"
    else if t == TypeNS then "NS"
    else if t == TypeCNAME then "CNAME"
    else if t == TypeSOA then "SOA"
    else if t == TypePTR then "PTR"
    else if t == TypeMX then "MX"
    else if t == TypeTXT then "TXT"
    else if t == TypeAAAA then "AAAA"
    else if t == TypeSRV then "SRV"
    else if t == TypeIXFR then "IXFR"
    else if t == TypeAXFR then "AXFR"
    else if t == TypeANY then "ANY"
    else ""
  }

  datatype Question = Question(name: string, qtype: uint16, qclass: uint16)

  /** A parsed resource record, as the codec returns it. */
  datatype RR = RR(name: string, rrtype: uint16, rrclass: uint16, ttl: int, rdata: string)

  /**
   * A message: the header fields the engine uses, its (single) question and
   * the answer section. The answer's element type is a parameter because the
   * legacy server can put a nil record into it.
   */
  datatype Msg<A> = Msg(
    id: uint16,
    response: bool,
    opcode: nat,
    authoritative: bool,
    rcode: nat,
    question: Question,
    answer: seq<A>)

  /** The codec's SetReply on a fresh message: a response to `request`. */
  function SetReply<A>(request: Msg<RR>): (reply: Msg<A>)
    ensures reply.response && reply.id == request.id && reply.opcode == request.opcode
    ensures reply.question == request.question && reply.rcode == RcodeSuccess
    ensures !reply.authoritative && reply.answer == []
  {
    Msg(request.id, true, request.opcode, false, RcodeSuccess, request.question, [])
  }

  /** What is left in the question slot once the codec has taken the question out. */
  const NoQuestion := Question("", 0, 0)

  /**
   * The codec's SetRcode, as the server's authors describe it: the status
   * code is set and the question is taken out; every other field is kept.
   */
  function SetRcode<A>(m: Msg<A>, rcode: nat): (r: Msg<A>)
    ensures r.rcode == rcode && r.question == NoQuestion
    ensures r.(rcode := m.rcode, question := m.question) == m
  {
    m.(rcode := rcode, question := NoQuestion)
  }
}
