/**
 * The storage port: the two read operations the dispatcher needs from the
 * zone store (db.go, the `Storage` driver interface), and the call log the
 * model keeps so that "storage is never consulted" can be stated.
 */
module StoragePort {
  import opened Dns

  /** Failures the store and the materializer report. */
  datatype Error =
    | StoreError                      // the database could not be queried
    | ZoneNotFound(zonename: string)  // no live zone row with that name
    | ParseError(line: string)        // the codec rejected a rendered record line
    | MissingSoa                      // an AXFR record set without an SOA row

  /** What a driver call returns: Go hands back both a slice and an error. */
  datatype Fetched<A> = Fetched(rrs: seq<A>, err: Option<Error>)

  datatype Call = AxfrCall(zonename: string) | QueryCall(name: string, rrtype: string)

  class Storage<A> {
    const fetchAxfr: string -> Fetched<A>
    const fetchQuery: (string, string) -> Fetched<A>
    var calls: seq<Call>

    constructor (fetchAxfr: string -> Fetched<A>, fetchQuery: (string, string) -> Fetched<A>)
      ensures this.fetchAxfr == fetchAxfr && this.fetchQuery == fetchQuery && calls == []
    {
      this.fetchAxfr := fetchAxfr;
      this.fetchQuery := fetchQuery;
      calls := [];
    }

    /** The whole record set of a zone, for a transfer. */
    method GetFullAxfrRRs(zonename: string) returns (out: Fetched<A>)
      modifies this
      ensures out == fetchAxfr(zonename)
      ensures calls == old(calls) + [AxfrCall(zonename)]
    {
      out := fetchAxfr(zonename);
      calls := calls + [AxfrCall(zonename)];
    }

    /** The records with a given owner name and type ("ANY" matches every type). */
    method GetQueryRRs(name: string, rrtype: string) returns (out: Fetched<A>)
      modifies this
      ensures out == fetchQuery(name, rrtype)
      ensures calls == old(calls) + [QueryCall(name, rrtype)]
    {
      out := fetchQuery(name, rrtype);
      calls := calls + [QueryCall(name, rrtype)];
    }
  }
}
