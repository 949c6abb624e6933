/** The interruptible pause of the graphite worker (graphite_wait in
    src/graphite_worker.c): the send interval is slept in chunks of at most
    the poll interval, and the worker's stopping word is read before every
    chunk so that a shutdown never waits for more than one chunk. */
module GraphiteWait {
  import opened Util

  /** The chunks slept for `remains` milliseconds while the stopping word
      stays clear: full poll intervals, then the remainder if any. */
  function Plan(remains: nat, poll: nat): seq<nat>
    requires poll > 0
    decreases remains
  {
    if remains == 0 then []
    else if remains < poll then [remains]
    else [poll] + Plan(remains - poll, poll)
  }

  function Sum(s: seq<nat>): nat
  {
    if s == [] then 0 else s[0] + Sum(s[1..])
  }

  /** Left alone, the chunks add up to exactly the interval. */
  lemma {:induction false} PlanSum(remains: nat, poll: nat)
    requires poll > 0
    ensures Sum(Plan(remains, poll)) == remains
    decreases remains
  {
    if remains >= poll {
      var rest := Plan(remains - poll, poll);
      assert ([poll] + rest)[1..] == rest;
      PlanSum(remains - poll, poll);
    }
  }

  /** Every chunk is positive and no longer than the poll interval; all but
      the last one are exactly the poll interval. */
  lemma {:induction false} PlanChunks(remains: nat, poll: nat)
    requires poll > 0
    ensures forall i :: 0 <= i < |Plan(remains, poll)| ==> 0 < Plan(remains, poll)[i] <= poll
    ensures forall i :: 0 <= i < |Plan(remains, poll)| - 1 ==> Plan(remains, poll)[i] == poll
    decreases remains
  {
    if remains >= poll {
      PlanChunks(remains - poll, poll);
    }
  }

  /** There are ceil(remains / poll) chunks. */
  lemma {:induction false} PlanLength(remains: nat, poll: nat)
    requires poll > 0
    ensures |Plan(remains, poll)| == (remains + poll - 1) / poll
    decreases remains
  {
    if remains == 0 {
      assert (poll - 1) / poll == 0;
    } else if remains < poll {
      assert poll <= remains + poll - 1 < 2 * poll;
      DivIsOne(remains + poll - 1, poll);
    } else {
      PlanLength(remains - poll, poll);
      DivStep(remains - 1, poll);
    }
  }

  lemma DivIsOne(x: nat, p: nat)
    requires p > 0 && p <= x < 2 * p
    ensures x / p == 1
  {
  }

  lemma DivStep(x: nat, p: nat)
    requires p > 0
    ensures (x + p) / p == x / p + 1
  {
    var q := x / p;
    assert x == q * p + x % p;
    assert x + p == (q + 1) * p + x % p;
    DivUnique(x + p, p, q + 1, x % p);
  }

  /** Division by a positive divisor has a unique quotient. */
  lemma DivUnique(x: int, p: int, q: int, r: int)
    requires p > 0 && 0 <= r < p && x == q * p + r
    ensures x / p == q
  {
    var q', r' := x / p, x % p;
    assert (q - q') * p == r' - r;
    if q > q' {
      MulAtLeast(q - q', p);
    } else if q < q' {
      MulAtLeast(q' - q, p);
    }
  }

  lemma MulAtLeast(a: int, p: int)
    requires a >= 1 && p > 0
    ensures a * p >= p
  {
  }

  /** graphite_wait. `stopRead(k)` is the value the k-th test of the loop
      reads from the worker's stopping word, which other threads may set at
      any time; `send` and `poll` are graphite.send_interval_millisec and
      graphite.sleep_poll_interval_millisec. The result lists the lengths
      passed to worker_wait_millisec, in order. */
  method Wait(send: u32, poll: u32, stopRead: nat -> bv32) returns (chunks: seq<nat>)
    requires poll > 0
    ensures chunks <= Plan(send, poll)
    ensures forall k :: 0 <= k < |chunks| ==> stopRead(k) == 0
    ensures chunks == Plan(send, poll) || stopRead(|chunks|) != 0
  {
    var remains: u32 := send;
    chunks := [];
    while stopRead(|chunks|) == 0 && remains > 0
      invariant chunks + Plan(remains, poll) == Plan(send, poll)
      invariant forall k :: 0 <= k < |chunks| ==> stopRead(k) == 0
      decreases remains
    {
      if remains < poll {
        chunks := chunks + [remains];
        remains := 0;
      } else {
        chunks := chunks + [poll];
        remains := remains - poll;
      }
    }
  }

  /** With the stopping word clear throughout, the pause sleeps exactly the
      send interval, in ceil(send / poll) chunks of at most `poll`. */
  lemma WaitUndisturbed(send: u32, poll: u32, chunks: seq<nat>)
    requires poll > 0
    requires chunks == Plan(send, poll)
    ensures Sum(chunks) == send
    ensures |chunks| == (send + poll - 1) / poll
    ensures forall i :: 0 <= i < |chunks| ==> 0 < chunks[i] <= poll
  {
    PlanSum(send, poll);
    PlanLength(send, poll);
    PlanChunks(send, poll);
  }
}
