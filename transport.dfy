/**
 * The response writer the server hands to the dispatcher. It is modelled
 * as the log of every message passed to WriteMsg together with an optional
 * failure point: once the connection breaks at attempt number `failAt`,
 * that attempt and every later one report an error.
 */
module Transport {
  import opened Dns

  /** Whether write attempt number `attempt` (counting from 0) succeeds. */
  predicate Accepts(failAt: Option<nat>, attempt: nat) {
    failAt.None? || attempt < failAt.value
  }

  class Writer<A> {
    var log: seq<Msg<A>>
    const failAt: Option<nat>

    constructor (failAt: Option<nat>)
      ensures log == [] && this.failAt == failAt
    {
      log := [];
      this.failAt := failAt;
    }

    /** WriteMsg: records the attempt; `ok` is false when the connection is broken. */
    method WriteMsg(m: Msg<A>) returns (ok: bool)
      modifies this
      ensures log == old(log) + [m]
      ensures ok == Accepts(failAt, |old(log)|)
    {
      ok := Accepts(failAt, |log|);
      log := log + [m];
    }
  }
}
