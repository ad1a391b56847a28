/**
 * mdns_handle.go: the request dispatcher `ServeDNS`, the reply builders
 * `prep_reply` and `handle_error`, the query path `handle_query`, and the
 * zone-transfer streamer `handle_axfr`, which cuts the answer into
 * envelopes of at most 100 records and writes one reply per envelope.
 */
module Handler {
  import opened Dns
  import opened StoragePort
  import opened Transport
  import Rows
  import Db

  // ---------------------------------------------------------------------
  // Reply builders

  /** prep_reply: a NOERROR, authoritative response echoing the request's question. */
  function PrepReply(request: Msg<RR>): (reply: Msg<RR>)
    ensures reply.rcode == RcodeSuccess && reply.authoritative
    ensures reply.question == request.question
    ensures reply.response && reply.id == request.id && reply.opcode == request.opcode
    ensures reply.answer == []
  {
    var message := SetRcode(SetReply<RR>(request), RcodeSuccess);
    message.(question := request.question, authoritative := true)
  }

  /**
   * handle_error: the reply for a failure named by `op`. "REFUSED" gives
   * REFUSED; "SERVFAIL" and every other string give SERVFAIL.
   */
  function HandleError(request: Msg<RR>, op: string): (reply: Msg<RR>)
    ensures reply.rcode == (if op == "REFUSED" then RcodeRefused else RcodeServerFailure)
    ensures reply.question == request.question && reply.authoritative && reply.answer == []
    ensures reply == PrepReply(request).(rcode := reply.rcode)
  {
    var question := request.question;
    var message := PrepReply(request);
    var message :=
      if op == "REFUSED" then SetRcode(message, RcodeRefused)
      else if op == "SERVFAIL" then SetRcode(message, RcodeServerFailure)
      else SetRcode(message, RcodeServerFailure);
    message.(question := question, authoritative := true)
  }

  /**
   * What handle_query makes of the storage outcome: a storage error is
   * "SERVFAIL", no rows is "REFUSED", otherwise the rows are appended to
   * the answer of `message`, in order.
   */
  function QueryOutcome(message: Msg<RR>, fetched: Fetched<RR>): (r: (Msg<RR>, Option<string>))
    ensures r.1.None? <==> fetched.err.None? && fetched.rrs != []
    ensures r.1 == Some("SERVFAIL") <==> fetched.err.Some?
    ensures r.1 == Some("REFUSED") <==> fetched.err.None? && fetched.rrs == []
    ensures r.0 == if r.1.None? then message.(answer := message.answer + fetched.rrs) else message
  {
    if fetched.err.Some? then (message, Some("SERVFAIL"))
    else if |fetched.rrs| == 0 then (message, Some("REFUSED"))
    else (message.(answer := message.answer + fetched.rrs), None)
  }

  /** handle_query: asks storage for the question's name and type mnemonic. */
  method HandleQuery(question: Question, message: Msg<RR>, storage: Storage<RR>)
    returns (reply: Msg<RR>, err: Option<string>)
    modifies storage
    ensures (reply, err) == QueryOutcome(message, storage.fetchQuery(question.name, TypeToString(question.qtype)))
    ensures storage.calls == old(storage.calls) + [QueryCall(question.name, TypeToString(question.qtype))]
  {
    var name := question.name;
    var rrtype := TypeToString(question.qtype);
    var fetched := storage.GetQueryRRs(name, rrtype);
    if fetched.err.Some? {
      return message, Some("SERVFAIL");
    }
    if |fetched.rrs| == 0 {
      return message, Some("REFUSED");
    }
    reply := message.(answer := message.answer + fetched.rrs);
    err := None;
  }

  // ---------------------------------------------------------------------
  // Envelopes

  const EnvelopeSize: nat := 100

  function Min(a: nat, b: nat): nat {
    if a < b then a else b
  }

  /** The answer cut into contiguous envelopes of EnvelopeSize records, the last one possibly shorter. */
  function Envelopes(rrs: seq<RR>): seq<seq<RR>>
    decreases |rrs|
  {
    if rrs == [] then []
    else if |rrs| <= EnvelopeSize then [rrs]
    else [rrs[..EnvelopeSize]] + Envelopes(rrs[EnvelopeSize..])
  }

  function Flatten(envs: seq<seq<RR>>): seq<RR> {
    if envs == [] then [] else envs[0] + Flatten(envs[1..])
  }

  /** Concatenated in order, the envelopes give back the answer exactly. */
  lemma {:induction false} EnvelopesFlatten(rrs: seq<RR>)
    ensures Flatten(Envelopes(rrs)) == rrs
    decreases |rrs|
  {
    if |rrs| > EnvelopeSize {
      EnvelopesFlatten(rrs[EnvelopeSize..]);
      var envs := Envelopes(rrs);
      assert envs[1..] == Envelopes(rrs[EnvelopeSize..]);
      assert rrs[..EnvelopeSize] + rrs[EnvelopeSize..] == rrs;
    } else if rrs != [] {
      assert Envelopes(rrs)[1..] == [];
    }
  }

  /**
   * Every envelope holds between 1 and 100 records, every envelope but the
   * last exactly 100, and there are ceil(n / 100) of them (none for an
   * empty answer).
   */
  lemma {:induction false} EnvelopesShape(rrs: seq<RR>)
    ensures |Envelopes(rrs)| == (|rrs| + EnvelopeSize - 1) / EnvelopeSize
    ensures forall i :: 0 <= i < |Envelopes(rrs)| ==> 1 <= |Envelopes(rrs)[i]| <= EnvelopeSize
    ensures forall i :: 0 <= i < |Envelopes(rrs)| - 1 ==> |Envelopes(rrs)[i]| == EnvelopeSize
    decreases |rrs|
  {
    if |rrs| > EnvelopeSize {
      var rest := rrs[EnvelopeSize..];
      EnvelopesShape(rest);
      var envs := Envelopes(rrs);
      assert envs == [rrs[..EnvelopeSize]] + Envelopes(rest);
      assert forall i :: 1 <= i < |envs| ==> envs[i] == Envelopes(rest)[i - 1];
    }
  }

  /** Envelope j is the slice of the answer starting at record 100 * j. */
  lemma {:induction false} EnvelopeAt(rrs: seq<RR>, j: nat)
    requires j < |Envelopes(rrs)|
    ensures EnvelopeSize * j < |rrs|
    ensures Envelopes(rrs)[j] ==
      rrs[EnvelopeSize * j..if EnvelopeSize * j + EnvelopeSize <= |rrs| then EnvelopeSize * j + EnvelopeSize else |rrs|]
    decreases |rrs|
  {
    if j > 0 {
      var rest := rrs[EnvelopeSize..];
      EnvelopeAt(rest, j - 1);
      assert Envelopes(rrs)[j] == Envelopes(rest)[j - 1];
    }
  }

  /** The envelope the streaming loop cuts at offset `from`, and what remains after it. */
  lemma EnvelopesFrom(rrs: seq<RR>, from: nat, toSend: nat)
    requires from < |rrs| && toSend == Min(EnvelopeSize, |rrs| - from)
    ensures Envelopes(rrs[from..]) == [rrs[from..from + toSend]] + Envelopes(rrs[from + toSend..])
  {
    var rest := rrs[from..];
    if |rest| <= EnvelopeSize {
      assert rrs[from..from + toSend] == rest;
      assert rrs[from + toSend..] == [];
    } else {
      assert rest[..EnvelopeSize] == rrs[from..from + toSend];
      assert rest[EnvelopeSize..] == rrs[from + toSend..];
    }
  }

  /** A transfer of 250 rows plus the repeated SOA (251 records) is sent as 100, 100 and 51 records. */
  lemma Envelopes251(rrs: seq<RR>)
    requires |rrs| == 251
    ensures |Envelopes(rrs)| == 3
    ensures |Envelopes(rrs)[0]| == 100 && |Envelopes(rrs)[1]| == 100 && |Envelopes(rrs)[2]| == 51
  {
    var r1 := rrs[EnvelopeSize..];
    var r2 := r1[EnvelopeSize..];
    assert Envelopes(r2) == [r2];
    assert Envelopes(r1) == [r1[..EnvelopeSize]] + [r2];
  }

  // ---------------------------------------------------------------------
  // The streamer

  /**
   * How many of n envelope replies are written, starting at write attempt
   * `start`: every one until the first write that fails, that one included.
   */
  function AttemptCount(n: nat, start: nat, failAt: Option<nat>): (k: nat)
    ensures k <= n
    ensures forall j :: start <= j < start + k - 1 ==> Accepts(failAt, j)
    ensures k < n ==> 1 <= k && !Accepts(failAt, start + k - 1)
    ensures (forall j :: start <= j < start + n ==> Accepts(failAt, j)) ==> k == n
  {
    match failAt
    case None => n
    case Some(f) =>
      if f < start then
        assert n > 0 ==> !Accepts(failAt, start);
        Min(n, 1)
      else
        assert f - start < n ==> !Accepts(failAt, f);
        Min(n, f - start + 1)
  }

  /** The reply carrying one envelope: prep_reply with exactly that chunk as its answer. */
  function EnvelopeReply(request: Msg<RR>, envelope: seq<RR>): Msg<RR> {
    PrepReply(request).(answer := envelope)
  }

  /** The replies written for the envelopes `envs`, starting at write attempt `start`. */
  function AxfrReplies(request: Msg<RR>, envs: seq<seq<RR>>, start: nat, failAt: Option<nat>): (replies: seq<Msg<RR>>)
    ensures |replies| == AttemptCount(|envs|, start, failAt)
    ensures forall i :: 0 <= i < |replies| ==> replies[i] == EnvelopeReply(request, envs[i])
  {
    seq(AttemptCount(|envs|, start, failAt), i requires 0 <= i < AttemptCount(|envs|, start, failAt) =>
      EnvelopeReply(request, envs[i]))
  }

  /** One more envelope: it is written exactly when every earlier write succeeded. */
  lemma AxfrRepliesStep(request: Msg<RR>, sent: seq<seq<RR>>, envelope: seq<RR>, start: nat, failAt: Option<nat>)
    ensures AxfrReplies(request, sent + [envelope], start, failAt) ==
      if sent == [] || Accepts(failAt, start + |sent| - 1)
      then AxfrReplies(request, sent, start, failAt) + [EnvelopeReply(request, envelope)]
      else AxfrReplies(request, sent, start, failAt)
  {
    var n := |sent|;
    var before := AxfrReplies(request, sent, start, failAt);
    var after := AxfrReplies(request, sent + [envelope], start, failAt);
    if n == 0 || Accepts(failAt, start + n - 1) {
      assert AttemptCount(n, start, failAt) == n;
      assert |after| == n + 1 by {
        if failAt.Some? && failAt.value < start { assert n == 0; }
      }
      assert after == before + [EnvelopeReply(request, envelope)];
    } else {
      assert after == before;
    }
  }

  /** The answers of a list of replies, concatenated. */
  function Answers(replies: seq<Msg<RR>>): seq<RR> {
    if replies == [] then [] else replies[0].answer + Answers(replies[1..])
  }

  lemma {:induction false} AnswersOfEnvelopeReplies(request: Msg<RR>, envs: seq<seq<RR>>, start: nat, failAt: Option<nat>)
    requires AttemptCount(|envs|, start, failAt) == |envs|
    ensures Answers(AxfrReplies(request, envs, start, failAt)) == Flatten(envs)
    decreases |envs|
  {
    if envs != [] {
      var replies := AxfrReplies(request, envs, start, failAt);
      var tail := AxfrReplies(request, envs[1..], start + 1, None);
      assert AttemptCount(|envs[1..]|, start + 1, None) == |envs| - 1;
      AnswersOfEnvelopeReplies(request, envs[1..], start + 1, None);
      assert replies[1..] == tail;
    }
  }

  /**
   * One turn of the consumer goroutine in handle_axfr. While it is still
   * running (`alive`), it writes a prep_reply whose answer is the envelope
   * and stops at the first failed write; once stopped, it takes nothing
   * more. `sent` are the envelopes handed over before, and `log0` + the
   * replies for them is what the writer holds.
   */
  method ConsumeEnvelope(w: Writer<RR>, request: Msg<RR>, envelope: seq<RR>, alive: bool,
                         ghost sent: seq<seq<RR>>, ghost start: nat, ghost log0: seq<Msg<RR>>)
    returns (stillAlive: bool)
    requires |log0| == start
    requires w.log == log0 + AxfrReplies(request, sent, start, w.failAt)
    requires alive == (sent == [] || Accepts(w.failAt, start + |sent| - 1))
    modifies w
    ensures w.log == log0 + AxfrReplies(request, sent + [envelope], start, w.failAt)
    ensures stillAlive == Accepts(w.failAt, start + |sent|)
  {
    AxfrRepliesStep(request, sent, envelope, start, w.failAt);
    stillAlive := alive;
    if alive {
      var message := PrepReply(request);
      message := message.(answer := message.answer + envelope);
      assert message == EnvelopeReply(request, envelope);
      var ok := w.WriteMsg(message);
      if !ok {
        stillAlive := false;
      }
    }
  }

  /**
   * handle_axfr: fetches the zone's records and writes one reply per
   * envelope, in order. After a write fails nothing more is written. The
   * result is the storage error, if any; a write failure is not reported.
   */
  method HandleAxfr(w: Writer<RR>, request: Msg<RR>, storage: Storage<RR>) returns (err: Option<Error>)
    modifies w, storage
    ensures storage.calls == old(storage.calls) + [AxfrCall(request.question.name)]
    ensures err == storage.fetchAxfr(request.question.name).err
    ensures w.log == old(w.log) +
      if err.Some? then []
      else AxfrReplies(request, Envelopes(storage.fetchAxfr(request.question.name).rrs), |old(w.log)|, w.failAt)
  {
    var zonename := request.question.name;
    var fetched := storage.GetFullAxfrRRs(zonename);
    if fetched.err.Some? {
      return fetched.err;
    }
    var rrs := fetched.rrs;
    ghost var log0 := w.log;
    ghost var start := |w.log|;
    ghost var sent: seq<seq<RR>> := [];
    var receiving := true;
    var rrsSent := 0;
    while rrsSent < |rrs|
      invariant 0 <= rrsSent <= |rrs|
      invariant Envelopes(rrs) == sent + Envelopes(rrs[rrsSent..])
      invariant w.log == log0 + AxfrReplies(request, sent, start, w.failAt)
      invariant receiving == (sent == [] || Accepts(w.failAt, start + |sent| - 1))
      invariant storage.calls == old(storage.calls) + [AxfrCall(zonename)]
    {
      var rrsToSend := EnvelopeSize;
      if rrsSent + rrsToSend > |rrs| {
        rrsToSend := |rrs| - rrsSent;
      }
      var envelope := rrs[rrsSent..rrsSent + rrsToSend];
      EnvelopesFrom(rrs, rrsSent, rrsToSend);
      receiving := ConsumeEnvelope(w, request, envelope, receiving, sent, start, log0);
      ConcatAssoc(sent, envelope, Envelopes(rrs[rrsSent + rrsToSend..]));
      sent := sent + [envelope];
      rrsSent := rrsSent + rrsToSend;
    }
    assert rrs[rrsSent..] == [];
    err := None;
  }

  lemma ConcatAssoc<T>(a: seq<T>, x: T, b: seq<T>)
    ensures a + ([x] + b) == (a + [x]) + b
  {
  }

  // ---------------------------------------------------------------------
  // The dispatcher

  /** The messages ServeDNS writes, given what storage returns and where the writer breaks. */
  function ServeReplies(request: Msg<RR>, fetchAxfr: string -> Fetched<RR>, fetchQuery: (string, string) -> Fetched<RR>,
                        start: nat, failAt: Option<nat>): seq<Msg<RR>>
  {
    var q := request.question;
    if request.opcode != OpcodeQuery then [HandleError(request, "REFUSED")]
    else if q.qtype == TypeAXFR then
      var fetched := fetchAxfr(q.name);
      if fetched.err.Some? then [HandleError(request, "SERVFAIL")]
      else AxfrReplies(request, Envelopes(fetched.rrs), start, failAt)
    else if q.qtype == TypeIXFR then [HandleError(request, "REFUSED")]
    else
      var outcome := QueryOutcome(PrepReply(request), fetchQuery(q.name, TypeToString(q.qtype)));
      if outcome.1.Some? then [HandleError(request, outcome.1.value)] else [outcome.0]
  }

  /** The storage operations ServeDNS invokes. */
  function ServeCalls(request: Msg<RR>): seq<Call> {
    var q := request.question;
    if request.opcode != OpcodeQuery then []
    else if q.qtype == TypeAXFR then [AxfrCall(q.name)]
    else if q.qtype == TypeIXFR then []
    else [QueryCall(q.name, TypeToString(q.qtype))]
  }

  /** ServeDNS: classifies the request, runs the transfer or query path, and writes the reply. */
  method ServeDNS(w: Writer<RR>, request: Msg<RR>, storage: Storage<RR>)
    modifies w, storage
    ensures storage.calls == old(storage.calls) + ServeCalls(request)
    ensures w.log == old(w.log) + ServeReplies(request, storage.fetchAxfr, storage.fetchQuery, |old(w.log)|, w.failAt)
  {
    var message: Msg<RR>;
    if request.opcode == OpcodeQuery {
      if request.question.qtype == TypeAXFR {
        var err := HandleAxfr(w, request, storage);
        if err.Some? {
          message := HandleError(request, "SERVFAIL");
        } else {
          return;
        }
      } else if request.question.qtype == TypeIXFR {
        message := HandleError(request, "REFUSED");
      } else {
        message := PrepReply(request);
        var err;
        message, err := HandleQuery(request.question, message, storage);
        if err.Some? {
          message := HandleError(request, err.value);
        }
      }
    } else {
      message := HandleError(request, "REFUSED");
    }
    var _ := w.WriteMsg(message);
  }

  // ---------------------------------------------------------------------
  // Properties of the dispatcher

  /** Every reply echoes the request's question and is authoritative. */
  lemma ServeRepliesEcho(request: Msg<RR>, fetchAxfr: string -> Fetched<RR>, fetchQuery: (string, string) -> Fetched<RR>,
                         start: nat, failAt: Option<nat>)
    ensures forall m :: m in ServeReplies(request, fetchAxfr, fetchQuery, start, failAt) ==>
      m.question == request.question && m.authoritative
  {
  }

  /** An opcode other than QUERY: exactly one REFUSED reply, and storage is not consulted. */
  lemma ServeRefusesOtherOpcodes(request: Msg<RR>, fetchAxfr: string -> Fetched<RR>, fetchQuery: (string, string) -> Fetched<RR>,
                                 start: nat, failAt: Option<nat>)
    requires request.opcode != OpcodeQuery
    ensures var replies := ServeReplies(request, fetchAxfr, fetchQuery, start, failAt);
      |replies| == 1 && replies[0].rcode == RcodeRefused && replies[0].answer == []
    ensures ServeCalls(request) == []
  {
  }

  /** An IXFR query: exactly one REFUSED reply, and storage is not consulted. */
  lemma ServeRefusesIxfr(request: Msg<RR>, fetchAxfr: string -> Fetched<RR>, fetchQuery: (string, string) -> Fetched<RR>,
                         start: nat, failAt: Option<nat>)
    requires request.opcode == OpcodeQuery && request.question.qtype == TypeIXFR
    ensures var replies := ServeReplies(request, fetchAxfr, fetchQuery, start, failAt);
      |replies| == 1 && replies[0].rcode == RcodeRefused
    ensures ServeCalls(request) == []
  {
  }

  /**
   * An ordinary query: one reply; SERVFAIL on a storage error, REFUSED for
   * no rows, otherwise NOERROR with exactly the rows as its answer.
   */
  lemma ServeQuery(request: Msg<RR>, fetchAxfr: string -> Fetched<RR>, fetchQuery: (string, string) -> Fetched<RR>,
                   start: nat, failAt: Option<nat>)
    requires request.opcode == OpcodeQuery
    requires request.question.qtype != TypeAXFR && request.question.qtype != TypeIXFR
    ensures var fetched := fetchQuery(request.question.name, TypeToString(request.question.qtype));
      var replies := ServeReplies(request, fetchAxfr, fetchQuery, start, failAt);
      && |replies| == 1
      && replies[0].rcode == (if fetched.err.Some? then RcodeServerFailure
                              else if fetched.rrs == [] then RcodeRefused
                              else RcodeSuccess)
      && replies[0].answer == (if fetched.err.Some? then [] else fetched.rrs)
    ensures ServeCalls(request) == [QueryCall(request.question.name, TypeToString(request.question.qtype))]
  {
  }

  /** A transfer whose storage fetch fails: no envelope, one SERVFAIL reply. */
  lemma ServeAxfrStorageFailure(request: Msg<RR>, fetchAxfr: string -> Fetched<RR>, fetchQuery: (string, string) -> Fetched<RR>,
                                start: nat, failAt: Option<nat>)
    requires request.opcode == OpcodeQuery && request.question.qtype == TypeAXFR
    requires fetchAxfr(request.question.name).err.Some?
    ensures var replies := ServeReplies(request, fetchAxfr, fetchQuery, start, failAt);
      |replies| == 1 && replies[0].rcode == RcodeServerFailure && replies[0].answer == []
  {
  }

  /**
   * A successful transfer: only envelope replies are written, each NOERROR;
   * when no write fails there is one per envelope and their answers,
   * concatenated, are the fetched records exactly; a failing write is the
   * last one attempted.
   */
  lemma ServeAxfrSuccess(request: Msg<RR>, fetchAxfr: string -> Fetched<RR>, fetchQuery: (string, string) -> Fetched<RR>,
                         start: nat, failAt: Option<nat>)
    requires request.opcode == OpcodeQuery && request.question.qtype == TypeAXFR
    requires fetchAxfr(request.question.name).err.None?
    ensures var rrs := fetchAxfr(request.question.name).rrs;
      var replies := ServeReplies(request, fetchAxfr, fetchQuery, start, failAt);
      && |replies| <= |Envelopes(rrs)|
      && (forall i :: 0 <= i < |replies| ==> replies[i] == EnvelopeReply(request, Envelopes(rrs)[i]))
      && (forall j :: start <= j < start + |replies| - 1 ==> Accepts(failAt, j))
      && (|replies| < |Envelopes(rrs)| ==> !Accepts(failAt, start + |replies| - 1))
    ensures var rrs := fetchAxfr(request.question.name).rrs;
      var replies := ServeReplies(request, fetchAxfr, fetchQuery, start, failAt);
      (forall j :: start <= j < start + |Envelopes(rrs)| ==> Accepts(failAt, j)) ==>
        |replies| == |Envelopes(rrs)| && Answers(replies) == rrs
  {
    var rrs := fetchAxfr(request.question.name).rrs;
    var envs := Envelopes(rrs);
    if forall j :: start <= j < start + |envs| ==> Accepts(failAt, j) {
      AnswersOfEnvelopeReplies(request, envs, start, failAt);
      EnvelopesFlatten(rrs);
    }
  }

  /**
   * The zone-transfer scenario end to end: 250 rows with one SOA row
   * materialize to 251 records, sent as envelopes of 100, 100 and 51,
   * the first and last record being the SOA record.
   */
  lemma AxfrOfTwoHundredFiftyRows(rows: seq<Rows.Row>, zone: Rows.Zone, parse: Rows.Parser, s: nat)
    requires |rows| == 250 && Rows.AllParse(rows, zone, parse)
    requires s < |rows| && Rows.IsSoa(rows[s])
    requires forall j :: 0 <= j < |rows| && j != s ==> !Rows.IsSoa(rows[j])
    ensures var out := Db.Materialize(rows, zone, true, parse);
      && out.err == None
      && |out.rrs| == 251
      && var envs := Envelopes(out.rrs);
      && |envs| == 3 && |envs[0]| == 100 && |envs[1]| == 100 && |envs[2]| == 51
      && Some(envs[0][0]) == Rows.Parsed(rows[s], zone, parse)
      && envs[2][50] == envs[0][0]
  {
    Db.MaterializeAxfrOneSoa(rows, zone, parse, s);
    var rrs := Db.Materialize(rows, zone, true, parse).rrs;
    Envelopes251(rrs);
    EnvelopeAt(rrs, 0);
    EnvelopeAt(rrs, 2);
  }
}
