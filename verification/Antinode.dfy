/**
 * The request callback of `createServer`: let the custom handlers have the
 * first go at a request and, when none claims it, serve the file its URL
 * names from the selected virtual host; with the settings the server runs
 * under.
 */
module Antinode {
  import opened Wrappers
  import opened Resolution
  import opened Http
  import opened Handlers
  import opened Transfer
  import opened FileServing

  /** The settings a running server reads. */
  datatype Settings = Settings(timeoutMilliseconds: nat, hosts: map<string, Vhost>, port: nat,
                               defaultHost: Vhost, customHandlers: seq<Handler>)

  /** The settings a caller passes to `start`; `None` marks a key that is absent. */
  datatype Overrides = Overrides(timeoutMilliseconds: Option<nat>, hosts: Option<map<string, Vhost>>,
                                 port: Option<nat>, defaultHost: Option<Vhost>,
                                 customHandlers: Option<seq<Handler>>)

  /**
   * The settings `start` runs under. Each key the caller gives is used as
   * given, even a zero; every other key falls back to its default (30
   * seconds, no virtual hosts, port 8080, the current directory, no custom
   * handlers), and no settings at all means all defaults.
   */
  function Effective(custom: Option<Overrides>): (s: Settings)
    ensures custom.None? ==>
      s.timeoutMilliseconds == 30000 && s.hosts == map[] && s.port == 8080 &&
      s.defaultHost == Vhost("./") && s.customHandlers == []
    ensures custom.Some? && custom.value.port.Some? ==> s.port == custom.value.port.value
    ensures custom.Some? && custom.value.port.None? ==> s.port == 8080
    ensures custom.Some? && custom.value.hosts.Some? ==> s.hosts == custom.value.hosts.value
    ensures custom.Some? && custom.value.hosts.None? ==> s.hosts == map[]
    ensures custom.Some? && custom.value.defaultHost.Some? ==> s.defaultHost == custom.value.defaultHost.value
    ensures custom.Some? && custom.value.defaultHost.None? ==> s.defaultHost == Vhost("./")
    ensures custom.Some? && custom.value.timeoutMilliseconds.Some? ==>
      s.timeoutMilliseconds == custom.value.timeoutMilliseconds.value
    ensures custom.Some? && custom.value.timeoutMilliseconds.None? ==> s.timeoutMilliseconds == 30000
    ensures custom.Some? && custom.value.customHandlers.Some? ==> s.customHandlers == custom.value.customHandlers.value
    ensures custom.Some? && custom.value.customHandlers.None? ==> s.customHandlers == []
  {
    var c := custom.GetOr(Overrides(None, None, None, None, None));
    Settings(c.timeoutMilliseconds.GetOr(1000 * 30), c.hosts.GetOr(map[]), c.port.GetOr(8080),
             c.defaultHost.GetOr(Vhost("./")), c.customHandlers.GetOr([]))
  }

  /** The local path an unclaimed request is served from. */
  function ServedPath(settings: Settings, req: Request): Path
  {
    LocalFilePath(settings.hosts, settings.defaultHost, req.pathname, req.host)
  }

  /** The status line a decision leads to. */
  function StatusOf(d: Decision): nat
  {
    match d
    case NotFoundFile => 404
    case NotModifiedFile => 304
    case StreamFile(_, _, _) => 200
  }

  predicate IsHead(e: Event) { e.WriteHead? }
  predicate IsEnd(e: Event) { e == End }
  predicate IsClose(e: Event) { e == Close }
  predicate IsOpen(e: Event) { e.Opened? }

  /** How many heads, ends, closes and opens a run of events holds. */
  datatype Counts = Counts(heads: int, ends: int, closes: int, opens: int)

  /** The counts of heads, ends, closes and opens in a run of events. */
  function Tally(events: seq<Event>): Counts
  {
    Counts(Count(events, IsHead), Count(events, IsEnd), Count(events, IsClose), Count(events, IsOpen))
  }

  lemma {:induction false} TallyAppend(a: seq<Event>, b: seq<Event>)
    ensures Tally(a + b).heads == Tally(a).heads + Tally(b).heads && Tally(a + b).ends == Tally(a).ends + Tally(b).ends
    ensures Tally(a + b).closes == Tally(a).closes + Tally(b).closes && Tally(a + b).opens == Tally(a).opens + Tally(b).opens
  {
    CountAppend(a, b, IsHead);
    CountAppend(a, b, IsEnd);
    CountAppend(a, b, IsClose);
    CountAppend(a, b, IsOpen);
  }

  /** The properties the events of an unclaimed request have, given the file decision. */
  predicate Finalized(events: seq<Event>, d: Decision, done: bool)
  {
    && Tally(events).heads == 1
    && (exists i :: 0 <= i < |events| && events[i].WriteHead? && events[i].status == StatusOf(d))
    && Tally(events).ends == (if done then 1 else 0)
    && Tally(events).closes == (if done && d.StreamFile? then 1 else 0)
    && Tally(events).opens == (if d.StreamFile? then 1 else 0)
    && (Close in events ==> |events| >= 2 && events[|events| - 2..] == [End, Close])
  }

  /**
   * The events of one request. `claimedBy` is the handler that took it, if
   * any; `used` is how many `sendfile` outcomes the transfer took; `done` says whether the response was ended, which a transfer still
   * waiting for `sendfile` has not. The pipeline writes nothing for a
   * claimed request; otherwise it writes exactly one head, with the status
   * the file decision gives, ends the response at most once, closes a
   * descriptor only after opening it, and closes it last, right after
   * ending the response.
   */
  method HandleRequest(settings: Settings, req: Request, fs: FileSystem, now: int, nodeVersion: string,
                       contentType: Path -> string, outcomes: seq<SendResult>)
    returns (events: seq<Event>, claimedBy: Option<nat>, used: nat, done: bool)
    ensures claimedBy.Some? ==>
      && claimedBy.value < |settings.customHandlers|
      && Claims(settings.customHandlers[claimedBy.value], req)
      && events == Consulted(settings.customHandlers, req, claimedBy.value + 1)
      && Tally(events) == Counts(0, 0, 0, 0)
    ensures forall j :: 0 <= j < |settings.customHandlers| && (claimedBy.None? || j < claimedBy.value) ==>
      !Claims(settings.customHandlers[j], req)
    ensures claimedBy.None? ==>
      var consulted := Consulted(settings.customHandlers, req, |settings.customHandlers|);
      && |consulted| <= |events| && events[..|consulted|] == consulted
      && Finalized(events, Decide(fs, ServedPath(settings, req), req.ifModifiedSince, now), done)
      && Serves(fs, ServedPath(settings, req), req, now, nodeVersion, contentType, outcomes,
                events[|consulted|..], used, done)
    ensures claimedBy.None? && !Decide(fs, ServedPath(settings, req), req.ifModifiedSince, now).StreamFile? ==> done
  {
    var consulted;
    claimedBy, consulted := Dispatch(settings.customHandlers, req);
    ConsultedOnlyHandlerCalls(settings.customHandlers, req,
      if claimedBy.Some? then claimedBy.value + 1 else |settings.customHandlers|);
    NoResponseEvents(consulted);
    if claimedBy.Some? {
      return consulted, claimedBy, 0, false;
    }
    var served;
    served, used, done := TryStream(fs, ServedPath(settings, req), req, now, nodeVersion, contentType, outcomes);
    var d := Decide(fs, ServedPath(settings, req), req.ifModifiedSince, now);
    ServedTally(fs, ServedPath(settings, req), req, now, nodeVersion, contentType, outcomes, served, used, done);
    events := consulted + served;
    FinalizedAfterHandlers(consulted, served, d, done);
    assert events[|consulted|..] == served;
  }

  /** Handler calls write nothing to the response. */
  lemma {:induction false} NoResponseEvents(consulted: seq<Event>)
    requires forall e :: e in consulted ==> e.Tested? || e.Invoked?
    ensures Tally(consulted) == Counts(0, 0, 0, 0) && Close !in consulted
  {
    assert forall i :: 0 <= i < |consulted| ==> consulted[i] in consulted;
    TallyZero(consulted);
  }

  /** A run with no head, end, close or open tallies to nothing. */
  lemma {:induction false} TallyZero(events: seq<Event>)
    requires forall i :: 0 <= i < |events| ==>
      !IsHead(events[i]) && !IsEnd(events[i]) && !IsClose(events[i]) && !IsOpen(events[i])
    ensures Tally(events) == Counts(0, 0, 0, 0)
  {
    CountZero(events, IsHead);
    CountZero(events, IsEnd);
    CountZero(events, IsClose);
    CountZero(events, IsOpen);
  }

  /** Handler calls in front of the served events change none of their properties. */
  lemma {:induction false} FinalizedAfterHandlers(consulted: seq<Event>, served: seq<Event>, d: Decision, done: bool)
    requires Tally(consulted) == Counts(0, 0, 0, 0) && Close !in consulted
    requires Finalized(served, d, done)
    ensures |consulted| <= |consulted + served| && (consulted + served)[..|consulted|] == consulted
    ensures Finalized(consulted + served, d, done)
  {
    var events := consulted + served;
    TallyAppend(consulted, served);
    assert events[..|consulted|] == consulted;
    var h :| 0 <= h < |served| && served[h].WriteHead? && served[h].status == StatusOf(d);
    assert events[|consulted| + h] == served[h];
    if Close in events {
      assert Close in served;
      assert events[|events| - 2..] == served[|served| - 2..];
    }
  }

  /** What the file pipeline's events add up to, for each decision. */
  lemma {:induction false} ServedTally(fs: FileSystem, p: Path, req: Request, now: int, nodeVersion: string,
                    contentType: Path -> string, outcomes: seq<SendResult>,
                    served: seq<Event>, used: nat, done: bool)
    requires Serves(fs, p, req, now, nodeVersion, contentType, outcomes, served, used, done)
    ensures Finalized(served, Decide(fs, p, req.ifModifiedSince, now), done)
  {
    var d := Decide(fs, p, req.ifModifiedSince, now);
    match d
    case NotFoundFile =>
      TallyOfThree(served[0], served[1], served[2]);
      assert served == [served[0], served[1], served[2]];
      assert served[0].WriteHead? && served[0].status == 404;
    case NotModifiedFile =>
      TallyOfTwo(served[0], served[1]);
      assert served == [served[0], served[1]];
      assert served[0].WriteHead? && served[0].status == 304;
    case StreamFile(file, size, mtime) =>
      StreamedTally(nodeVersion, now, file, size, contentType(file), mtime, outcomes, served, used, done);
  }

  /** The events of a streamed file: one head of status 200, one open, and the completion if it ran. */
  lemma {:induction false} StreamedTally(nodeVersion: string, now: int, file: Path, size: nat, contentType: string, mtime: int,
                      outcomes: seq<SendResult>, served: seq<Event>, used: nat, done: bool)
    requires used <= |outcomes| && (done ==> used > 0)
    requires served == StreamHead(nodeVersion, now, file, size, contentType, mtime)
      + Calls(size, outcomes[..used]) + (if done then Completion(outcomes[used - 1]) else [])
    ensures Finalized(served, StreamFile(file, size, mtime), done)
  {
    var head := StreamHead(nodeVersion, now, file, size, contentType, mtime);
    var calls := Calls(size, outcomes[..used]);
    var tail := if done then Completion(outcomes[used - 1]) else [];
    CallsAreSendFiles(size, outcomes[..used]);
    NoResponseInCalls(calls);
    StreamHeadTally(head);
    if done {
      CompletionTally(outcomes[used - 1]);
    }
    PartsTally(head, calls, tail, StreamFile(file, size, mtime), done);
  }

  /** Putting a stream's head, its `sendfile` calls and its completion together. */
  lemma {:induction false} PartsTally(head: seq<Event>, calls: seq<Event>, tail: seq<Event>, d: Decision, done: bool)
    requires |head| >= 2 && head[1].WriteHead? && head[1].status == StatusOf(d) && d.StreamFile?
    requires Tally(head) == Counts(1, 0, 0, 1) && Close !in head
    requires Tally(calls) == Counts(0, 0, 0, 0) && Close !in calls
    requires done ==> Tally(tail) == Counts(0, 1, 1, 0) && |tail| >= 2 && tail[|tail| - 2..] == [End, Close]
    requires !done ==> tail == []
    ensures Finalized(head + calls + tail, d, done)
  {
    var served := head + calls + tail;
    TallyAppend(head, calls);
    TallyAppend(head + calls, tail);
    assert served[1] == head[1];
    if !done {
      assert tail == [] && Tally(tail) == Counts(0, 0, 0, 0);
    }
    if Close in served {
      assert Close !in head + calls;
      assert served[|served| - 2..] == tail[|tail| - 2..];
    }
  }

  lemma {:induction false} NoResponseInCalls(calls: seq<Event>)
    requires forall i :: 0 <= i < |calls| ==> calls[i].SendFile?
    ensures Tally(calls) == Counts(0, 0, 0, 0) && Close !in calls
  {
    TallyZero(calls);
  }

  lemma {:induction false} StreamHeadTally(head: seq<Event>)
    requires |head| == 3 && head[0].Opened? && head[1].WriteHead? && head[2] == Flush
    ensures Tally(head) == Counts(1, 0, 0, 1) && Close !in head
  {
    TallyOfThree(head[0], head[1], head[2]);
    assert head == [head[0], head[1], head[2]];
  }

  lemma {:induction false} CompletionTally(last: SendResult)
    ensures Tally(Completion(last)) == Counts(0, 1, 1, 0)
  {
    if last.Failed? {
      assert Completion(last) == [SendFailed(last.message), End, Close];
      TallyOfThree(SendFailed(last.message), End, Close);
    } else {
      assert Completion(last) == [End, Close];
      TallyOfTwo(End, Close);
    }
  }

  function TallyOf(e: Event): Counts
  {
    Counts(if IsHead(e) then 1 else 0, if IsEnd(e) then 1 else 0, if IsClose(e) then 1 else 0, if IsOpen(e) then 1 else 0)
  }

  lemma {:induction false} TallyOfTwo(a: Event, b: Event)
    ensures Tally([a, b]) == Counts(TallyOf(a).heads + TallyOf(b).heads, TallyOf(a).ends + TallyOf(b).ends,
                              TallyOf(a).closes + TallyOf(b).closes, TallyOf(a).opens + TallyOf(b).opens)
  {
    assert [a, b] == [a] + [b];
    TallyAppend([a], [b]);
  }

  lemma {:induction false} TallyOfThree(a: Event, b: Event, c: Event)
    ensures Tally([a, b, c]) == Counts(TallyOf(a).heads + TallyOf(b).heads + TallyOf(c).heads, TallyOf(a).ends + TallyOf(b).ends + TallyOf(c).ends,
                                 TallyOf(a).closes + TallyOf(b).closes + TallyOf(c).closes, TallyOf(a).opens + TallyOf(b).opens + TallyOf(c).opens)
  {
    assert [a, b, c] == [a, b] + [c];
    TallyOfTwo(a, b);
    TallyAppend([a, b], [c]);
  }
}
