/**
 * The transfer loop of `stream_file`: `send_chunk` asks `sendfile` for the
 * whole remaining range, advances by what was written and asks again until
 * nothing remains or the transfer is abandoned, then runs the completion
 * callback, which ends the response and closes the descriptor.
 */
module Transfer {
  import opened Http

  /** What one `sendfile` call reports. */
  datatype SendResult =
    | Sent(bytes: nat)          // this many bytes were written
    | WouldBlock                // EAGAIN: nothing was written, the call is repeated
    | BadDescriptor             // EBADF: the connection is gone
    | Failed(message: string)   // any other error

  /** The outcome abandons the transfer. */
  predicate Abandons(o: SendResult)
  {
    o.BadDescriptor? || o.Failed?
  }

  /** The bytes an outcome moves the offset by. */
  function Bytes(o: SendResult): nat
  {
    if o.Sent? then o.bytes else 0
  }

  /** The bytes written over a run of outcomes. */
  function Written(outcomes: seq<SendResult>): nat
  {
    if outcomes == [] then 0 else Written(outcomes[..|outcomes| - 1]) + Bytes(outcomes[|outcomes| - 1])
  }

  /** One more outcome adds its own bytes and no others. */
  lemma {:induction false} WrittenStep(outcomes: seq<SendResult>, k: nat)
    requires k < |outcomes|
    ensures Written(outcomes[..k + 1]) == Written(outcomes[..k]) + Bytes(outcomes[k])
  {
    assert outcomes[..k + 1][..k] == outcomes[..k];
  }

  /**
   * The `sendfile` calls made for a file of `size` bytes when the calls so
   * far reported `outcomes`: each asks for everything not yet written,
   * starting where the writes so far ended.
   */
  function Calls(size: nat, outcomes: seq<SendResult>): (calls: seq<Event>)
    ensures |calls| == |outcomes|
  {
    if outcomes == [] then []
    else
      var init := outcomes[..|outcomes| - 1];
      Calls(size, init) + [SendFile(Written(init), size - Written(init))]
  }

  /** Call number `k` asks for everything after the bytes the first `k` calls wrote. */
  lemma {:induction false} CallsAt(size: nat, outcomes: seq<SendResult>, k: nat)
    requires k < |outcomes|
    ensures Calls(size, outcomes)[k] == SendFile(Written(outcomes[..k]), size - Written(outcomes[..k]))
  {
    var init := outcomes[..|outcomes| - 1];
    if k < |init| {
      CallsAt(size, init, k);
      assert init[..k] == outcomes[..k];
    }
  }

  /** The transfer loop makes `sendfile` calls and nothing else until it completes. */
  lemma {:induction false} CallsAreSendFiles(size: nat, outcomes: seq<SendResult>)
    ensures forall i :: 0 <= i < |Calls(size, outcomes)| ==> Calls(size, outcomes)[i].SendFile?
  {
    if outcomes != [] {
      CallsAreSendFiles(size, outcomes[..|outcomes| - 1]);
    }
  }

  /** One more outcome adds the call it answered. */
  lemma {:induction false} CallsStep(size: nat, outcomes: seq<SendResult>, k: nat)
    requires k < |outcomes|
    ensures Calls(size, outcomes[..k + 1]) ==
      Calls(size, outcomes[..k]) + [SendFile(Written(outcomes[..k]), size - Written(outcomes[..k]))]
  {
    assert outcomes[..k + 1][..k] == outcomes[..k];
  }

  /** A would-block outcome repeats the same call: same offset, same count. */
  lemma {:induction false} WouldBlockRetriesSameRange(size: nat, outcomes: seq<SendResult>, k: nat)
    requires k + 1 < |outcomes| && outcomes[k] == WouldBlock
    ensures Calls(size, outcomes)[k + 1] == Calls(size, outcomes)[k]
  {
    CallsAt(size, outcomes, k);
    CallsAt(size, outcomes, k + 1);
    WrittenStep(outcomes, k);
  }

  /** A write of `n` bytes moves the next call's offset up and its count down by `n`. */
  lemma {:induction false} SentAdvancesOffset(size: nat, outcomes: seq<SendResult>, k: nat)
    requires k + 1 < |outcomes| && outcomes[k].Sent?
    ensures Calls(size, outcomes)[k].SendFile? && Calls(size, outcomes)[k + 1].SendFile?
    ensures Calls(size, outcomes)[k + 1].offset == Calls(size, outcomes)[k].offset + outcomes[k].bytes
    ensures Calls(size, outcomes)[k + 1].count == Calls(size, outcomes)[k].count - outcomes[k].bytes
  {
    CallsAt(size, outcomes, k);
    CallsAt(size, outcomes, k + 1);
    WrittenStep(outcomes, k);
  }

  /** Every outcome before the `n`-th left bytes to write and did not abandon the transfer. */
  predicate KeptGoing(size: nat, outcomes: seq<SendResult>, n: nat)
    requires n <= |outcomes|
  {
    forall k :: 0 <= k && k + 1 < n ==> !Abandons(outcomes[k]) && Written(outcomes[..k + 1]) < size
  }

  /** None of the first `n` calls wrote more than it asked for, as `sendfile` never does. */
  predicate WithinRange(size: nat, outcomes: seq<SendResult>, n: nat)
    requires n <= |outcomes|
  {
    forall k :: 0 <= k < n && outcomes[k].Sent? ==> outcomes[k].bytes <= size - Written(outcomes[..k])
  }

  /** The run of outcomes that kept the transfer going grows by one that did too. */
  lemma {:induction false} KeptGoingStep(size: nat, outcomes: seq<SendResult>, n: nat)
    requires n < |outcomes| && KeptGoing(size, outcomes, n)
    requires n > 0 ==> !Abandons(outcomes[n - 1]) && Written(outcomes[..n]) < size
    ensures KeptGoing(size, outcomes, n + 1)
  {
  }

  /** Within range for `n + 1` calls is within range for the first `n`. */
  lemma {:induction false} WithinRangeShrinks(size: nat, outcomes: seq<SendResult>, n: nat)
    requires n < |outcomes| && WithinRange(size, outcomes, n + 1)
    ensures WithinRange(size, outcomes, n)
    ensures outcomes[n].Sent? ==> outcomes[n].bytes <= size - Written(outcomes[..n])
  {
  }

  /** Outcomes that each wrote nothing write nothing together. */
  lemma {:induction false} NothingWritten(outcomes: seq<SendResult>)
    requires forall i :: 0 <= i < |outcomes| ==> outcomes[i] == Sent(0)
    ensures Written(outcomes) == 0
  {
    if outcomes != [] {
      NothingWritten(outcomes[..|outcomes| - 1]);
    }
  }

  /**
   * A file that has shrunk, so that every `sendfile` call writes 0 bytes,
   * never ends the transfer: no outcome abandons it and the whole size is
   * still left after each call, and every call asks for the same range.
   */
  lemma {:induction false} ZeroWritesNeverFinish(size: nat, outcomes: seq<SendResult>)
    requires size > 0
    requires forall i :: 0 <= i < |outcomes| ==> outcomes[i] == Sent(0)
    ensures forall k :: 0 <= k < |outcomes| ==> !Abandons(outcomes[k])
    ensures forall n :: 0 <= n <= |outcomes| ==> size - Written(outcomes[..n]) == size
    ensures forall k :: 0 <= k < |outcomes| ==> Calls(size, outcomes)[k] == SendFile(0, size)
  {
    forall n | 0 <= n <= |outcomes|
      ensures size - Written(outcomes[..n]) == size
    {
      assert forall i :: 0 <= i < n ==> outcomes[..n][i] == outcomes[i];
      NothingWritten(outcomes[..n]);
    }
    forall k | 0 <= k < |outcomes|
      ensures Calls(size, outcomes)[k] == SendFile(0, size)
    {
      CallsAt(size, outcomes, k);
    }
  }

  /** The completion callback: the error log of an unexpected failure, then `finish`, then `close`. */
  function Completion(last: SendResult): (events: seq<Event>)
    ensures |events| >= 2 && events[|events| - 2..] == [End, Close]
    ensures End !in events[..|events| - 2] && Close !in events[..|events| - 2]
    ensures |events| == 3 <==> last.Failed?
    ensures last.Failed? ==> events[0] == SendFailed(last.message)
  {
    (if last.Failed? then [SendFailed(last.message)] else []) + [End, Close]
  }

  /**
   * `send_chunk(0, size, callback)` driven by the outcomes `sendfile`
   * reports. Returns the final offset and remaining count, how many
   * outcomes were used, whether the completion callback ran, and the calls
   * made. When the outcomes run out before the transfer ends, the transfer
   * is still waiting for `sendfile`.
   */
  method SendChunks(size: nat, outcomes: seq<SendResult>)
    returns (offset: int, remaining: int, used: nat, done: bool, events: seq<Event>)
    ensures used <= |outcomes| && (|outcomes| > 0 ==> used > 0)
    ensures offset == Written(outcomes[..used]) && offset + remaining == size
    ensures KeptGoing(size, outcomes, used)
    ensures done <==> used > 0 && (Abandons(outcomes[used - 1]) || remaining < 1)
    ensures !done ==> used == |outcomes|
    ensures done ==> events == Calls(size, outcomes[..used]) + Completion(outcomes[used - 1])
    ensures !done ==> events == Calls(size, outcomes[..used])
    ensures WithinRange(size, outcomes, used) ==> remaining >= 0
  {
    offset, remaining, used, done := 0, size, 0, false;
    var calls := [];
    while !done && used < |outcomes|
      invariant used <= |outcomes|
      invariant offset == Written(outcomes[..used]) && offset + remaining == size
      invariant KeptGoing(size, outcomes, used)
      invariant done <==> used > 0 && (Abandons(outcomes[used - 1]) || remaining < 1)
      invariant calls == Calls(size, outcomes[..used])
      invariant WithinRange(size, outcomes, used) ==> remaining >= 0
      decreases |outcomes| - used
    {
      var result := outcomes[used];
      CallsStep(size, outcomes, used);
      WrittenStep(outcomes, used);
      KeptGoingStep(size, outcomes, used);
      if WithinRange(size, outcomes, used + 1) {
        WithinRangeShrinks(size, outcomes, used);
      }
      calls := calls + [SendFile(offset, remaining)];
      used := used + 1;
      if Abandons(result) {
        // EBADF ends silently; any other error is logged first
        done := true;
      } else {
        // EAGAIN counts as zero bytes written
        remaining := remaining - Bytes(result);
        offset := offset + Bytes(result);
        done := remaining < 1;
      }
    }
    // the completion callback runs after the call whose outcome ended the transfer
    if done {
      events := calls + Completion(outcomes[used - 1]);
    } else {
      events := calls;
    }
  }
}
