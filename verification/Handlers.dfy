/**
 * The custom-handler chain consulted before the file fallback (the loop
 * in the request callback of lib/antinode.js).
 */
module Handlers {
  import opened Wrappers
  import opened Http

  /**
   * A custom handler: an optional `test` and a `handle`, each seen through
   * the truth of what it returns for a request.
   */
  datatype Handler = Handler(test: Option<Request -> bool>, handle: Request -> bool)

  /** `handle` is called: there is no `test`, or `test` answered yes. */
  predicate Invokes(h: Handler, req: Request)
  {
    h.test.None? || h.test.value(req)
  }

  /**
   * The handler takes the request: `test` answered yes (whatever `handle`
   * then returns), or there is no `test` and `handle` answered yes.
   */
  predicate Claims(h: Handler, req: Request)
  {
    (h.test.Some? && h.test.value(req)) || (h.test.None? && h.handle(req))
  }

  /** The calls made while consulting handler number `i`. */
  function Consultation(h: Handler, req: Request, i: nat): (events: seq<Event>)
  {
    (if h.test.Some? then [Tested(i)] else []) + (if Invokes(h, req) then [Invoked(i)] else [])
  }

  /** Consulting one handler calls `test` if it has one, and `handle` if that allows. */
  lemma {:induction false} ConsultationCalls(h: Handler, req: Request, i: nat)
    ensures Tested(i) in Consultation(h, req, i) <==> h.test.Some?
    ensures Invoked(i) in Consultation(h, req, i) <==> Invokes(h, req)
    ensures forall e :: e in Consultation(h, req, i) ==> e == Tested(i) || e == Invoked(i)
  {
  }

  /** The calls made while consulting the first `n` handlers, in order. */
  function Consulted(handlers: seq<Handler>, req: Request, n: nat): seq<Event>
    requires n <= |handlers|
  {
    if n == 0 then [] else Consulted(handlers, req, n - 1) + Consultation(handlers[n - 1], req, n - 1)
  }

  /**
   * Consulting the first `n` handlers calls `test` exactly on those among
   * them that have one, and `handle` exactly on those whose `test` is
   * missing or answered yes; nothing else is called.
   */
  lemma {:induction false} ConsultedCalls(handlers: seq<Handler>, req: Request, n: nat, j: nat)
    requires n <= |handlers|
    ensures Tested(j) in Consulted(handlers, req, n) <==> j < n && handlers[j].test.Some?
    ensures Invoked(j) in Consulted(handlers, req, n) <==> j < n && Invokes(handlers[j], req)
  {
    if n > 0 {
      ConsultedCalls(handlers, req, n - 1, j);
      ConsultationCalls(handlers[n - 1], req, n - 1);
    }
  }

  /** Only `Tested` and `Invoked` calls, on handlers below `n`. */
  lemma {:induction false} ConsultedOnlyHandlerCalls(handlers: seq<Handler>, req: Request, n: nat)
    requires n <= |handlers|
    ensures forall e :: e in Consulted(handlers, req, n) ==> (e.Tested? || e.Invoked?) && e.handler < n
  {
    if n > 0 {
      ConsultedOnlyHandlerCalls(handlers, req, n - 1);
      ConsultationCalls(handlers[n - 1], req, n - 1);
    }
  }

  /** Handlers are consulted in list order: the handler numbers never go down. */
  lemma {:induction false} ConsultedInOrder(handlers: seq<Handler>, req: Request, n: nat)
    requires n <= |handlers|
    ensures forall a :: 0 <= a < |Consulted(handlers, req, n)| ==>
      Consulted(handlers, req, n)[a].Tested? || Consulted(handlers, req, n)[a].Invoked?
    ensures forall a, b :: 0 <= a < b < |Consulted(handlers, req, n)| ==>
      Consulted(handlers, req, n)[a].handler <= Consulted(handlers, req, n)[b].handler
  {
    if n > 0 {
      var before := Consulted(handlers, req, n - 1);
      var last := Consultation(handlers[n - 1], req, n - 1);
      var all := before + last;
      ConsultedInOrder(handlers, req, n - 1);
      ConsultedOnlyHandlerCalls(handlers, req, n - 1);
      ConsultationCalls(handlers[n - 1], req, n - 1);
      forall a | 0 <= a < |all| ensures all[a].Tested? || all[a].Invoked?
        ensures a < |before| ==> all[a].handler < n - 1
        ensures a >= |before| ==> all[a].handler == n - 1
      {
        if a < |before| {
          assert all[a] == before[a] && before[a] in before;
        } else {
          assert all[a] == last[a - |before|] && last[a - |before|] in last;
        }
      }
      forall a, b | 0 <= a < b < |all| ensures all[a].handler <= all[b].handler {
        if b < |before| {
          assert all[a] == before[a] && all[b] == before[b];
        }
      }
    }
  }

  /**
   * Consult the handlers in order until one claims the request. Returns the
   * claiming handler's number, or `None` when the file fallback is to run,
   * and the calls made.
   */
  method Dispatch(handlers: seq<Handler>, req: Request) returns (claimedBy: Option<nat>, events: seq<Event>)
    ensures claimedBy.Some? ==> claimedBy.value < |handlers| && Claims(handlers[claimedBy.value], req)
    ensures forall j :: 0 <= j < |handlers| && (claimedBy.None? || j < claimedBy.value) ==> !Claims(handlers[j], req)
    ensures events == Consulted(handlers, req, if claimedBy.Some? then claimedBy.value + 1 else |handlers|)
  {
    events := [];
    var i := 0;
    while i < |handlers|
      invariant i <= |handlers|
      invariant forall j :: 0 <= j < i ==> !Claims(handlers[j], req)
      invariant events == Consulted(handlers, req, i)
    {
      var h := handlers[i];
      var calls := [];
      var result := false;
      var tried := true;
      if h.test.Some? {
        calls := calls + [Tested(i)];
        result := h.test.value(req);
        tried := result;
      }
      if tried {
        calls := calls + [Invoked(i)];
        result := h.handle(req) || result;
      }
      assert calls == Consultation(h, req, i);
      assert result <==> Claims(h, req);
      events := events + calls;
      if result {
        return Some(i), events;
      }
      i := i + 1;
    }
    return None, events;
  }
}
