/** The graphite worker's own life cycle (src/graphite_worker.c): the claim
    its destroy makes on the stopping word, and the build, connect, send and
    wait loop of its thread, with the flush and the death report after it. */
module GraphiteWorker {
  import opened Util
  import opened Control

  /** WORKER_STOPPING from worker_util.h, which is not part of this model. */
  const WORKER_STOPPING: bv32 := 1

  /** The graphite worker's shared state that destroy touches. */
  class Worker {
    /** base.stopping, the word the thread and graphite_wait poll. */
    var stopping: bv32
    /** How many times the thread was joined and the worker released. */
    var cleanups: nat

    constructor ()
      ensures stopping == 0 && cleanups == 0
    {
      stopping := 0;
      cleanups := 0;
    }

    /** graphite_worker_destroy: the OR both sets the bit and claims the
        worker; only the caller that found the bit clear joins the thread
        and frees the worker. */
    method Destroy() returns (claimed: bool)
      modifies this
      ensures stopping == SetBits(old(stopping), WORKER_STOPPING)
      ensures claimed <==> old(stopping) & WORKER_STOPPING == 0
      ensures cleanups == if claimed then old(cleanups) + 1 else old(cleanups)
    {
      var was := stopping;
      stopping := stopping | WORKER_STOPPING;
      if was & WORKER_STOPPING != 0 {
        return false;
      }
      cleanups := cleanups + 1;
      claimed := true;
    }
  }

  /** Two destroys of one worker, as worker_pool_reload_static and
      worker_pool_destroy_static may race to do: the bit ends up set, the
      second call is a no-op and cleanup runs at most once. */
  method DestroyTwice(w: Worker) returns (first: bool, second: bool)
    modifies w
    ensures first <==> old(w.stopping) & WORKER_STOPPING == 0
    ensures !second
    ensures w.stopping & WORKER_STOPPING == WORKER_STOPPING
    ensures w.cleanups == if first then old(w.cleanups) + 1 else old(w.cleanups)
  {
    first := w.Destroy();
    second := w.Destroy();
  }

  // ---------------------------------------------------------------------
  // The thread's loop

  /** What the world answers during one run of the thread. Round k of the
      loop is the one entered after the k-th test of the stopping word. */
  datatype Env = Env(
    stopAt: nat,            // the first loop test that reads the stopping word as set
    buildOk: nat -> bool,   // graphite_build's result in round k
    openOk: nat -> bool,    // whether open_output_socket_eventually gives a socket in round k
    sendOk: nat -> bool,    // whether graphite_send wrote the whole buffer in round k
    flushBuildOk: bool,     // graphite_build's result for the flush
    flushSendOk: bool,      // graphite_send's result for the flush
    controlAtFlush: bv32,   // the control word read before the flush
    controlAtEnd: bv32)     // the control word read before the death check

  /** What one round did: whether the build succeeded, the result of an
      attempt to open a socket (None: no attempt), the result of the send
      (None: no send), whether the socket was closed, whether it waited. */
  datatype Round = Round(built: bool, connect: Option<bool>, sent: Option<bool>, closed: bool, waited: bool)

  /** What happened after the loop: the flush build and send (None: not
      tried), whether the socket was closed, whether death was reported. */
  datatype Finish = Finish(flushBuilt: Option<bool>, flushSent: Option<bool>, closed: bool, died: bool)

  /** The states in which the thread is expected to stop. */
  const EXPECTED_STOP: bv32 := RELAY_STOPPING | RELAY_RELOADING

  /** Round k of the loop, entered with the socket `open` or not. */
  function RoundSpec(env: Env, k: nat, open: bool): (r: Round)
    ensures r.connect.Some? <==> r.built && !open
    ensures r.sent.Some? ==> open || r.connect == Some(true)
    ensures r.closed <==> r.sent == Some(false)
    ensures r.waited <==> r.sent == Some(true)
    ensures r.built && (open || r.connect == Some(true)) ==> r.sent.Some?
  {
    if !env.buildOk(k) then Round(false, None, None, false, false)
    else if !open && !env.openOk(k) then Round(true, Some(false), None, false, false)
    else
      var connect := if open then None else Some(true);
      if env.sendOk(k) then Round(true, connect, Some(true), false, true)
      else Round(true, connect, Some(false), true, false)
  }

  /** The loop goes on after a round unless the build or the open failed. */
  predicate Continues(r: Round)
  {
    r.built && r.connect != Some(false)
  }

  /** Whether there is a socket after a round entered with `open`. */
  function OpenAfter(r: Round, open: bool): bool
  {
    if r.closed || r.connect == Some(false) then false
    else open || r.connect == Some(true)
  }

  /** Whether there is a socket when round k starts. */
  function OpenBefore(rounds: seq<Round>, k: nat): bool
    requires k <= |rounds|
  {
    if k == 0 then false else OpenAfter(rounds[k - 1], OpenBefore(rounds, k - 1))
  }

  /** Every round is what the loop does given the socket state it starts in. */
  ghost predicate Faithful(env: Env, rounds: seq<Round>)
  {
    forall k :: 0 <= k < |rounds| ==> rounds[k] == RoundSpec(env, k, OpenBefore(rounds, k))
  }

  /** control_is_one_of(RELAY_STOPPING | RELAY_RELOADING). */
  predicate ExpectedStop(control: bv32)
  {
    IsOneOf(control, EXPECTED_STOP)
  }

  /** What the thread does after the loop with the socket `open` or not. */
  function FinishSpec(env: Env, open: bool): (f: Finish)
    ensures f.closed <==> open
    ensures f.flushBuilt.Some? <==> open && ExpectedStop(env.controlAtFlush)
    ensures f.flushSent.Some? <==> f.flushBuilt == Some(true)
    ensures f.died <==> !ExpectedStop(env.controlAtEnd)
  {
    var flush := open && ExpectedStop(env.controlAtFlush);
    var died := !ExpectedStop(env.controlAtEnd);
    Finish(if flush then Some(env.flushBuildOk) else None,
           if flush && env.flushBuildOk then Some(env.flushSendOk) else None,
           open,
           died)
  }

  lemma FinishSpecByFlags(env: Env, open: bool, expectFlush: bool, expectEnd: bool)
    requires expectFlush == ExpectedStop(env.controlAtFlush)
    requires expectEnd == ExpectedStop(env.controlAtEnd)
    ensures FinishSpec(env, open)
            == Finish(if open && expectFlush then Some(env.flushBuildOk) else None,
                      if open && expectFlush && env.flushBuildOk then Some(env.flushSendOk) else None,
                      open, !expectEnd)
  {
  }

  lemma {:induction false} OpenBeforeSnoc(rounds: seq<Round>, r: Round, k: nat)
    requires k <= |rounds|
    ensures OpenBefore(rounds + [r], k) == OpenBefore(rounds, k)
  {
    if k > 0 {
      assert (rounds + [r])[k - 1] == rounds[k - 1];
      OpenBeforeSnoc(rounds, r, k - 1);
    }
  }

  /** Adding the next round keeps the run faithful. */
  lemma FaithfulSnoc(env: Env, rounds: seq<Round>, r: Round)
    requires Faithful(env, rounds)
    requires r == RoundSpec(env, |rounds|, OpenBefore(rounds, |rounds|))
    ensures Faithful(env, rounds + [r])
    ensures OpenBefore(rounds + [r], |rounds| + 1) == OpenAfter(r, OpenBefore(rounds, |rounds|))
  {
    var longer := rounds + [r];
    forall k | 0 <= k < |longer|
      ensures longer[k] == RoundSpec(env, k, OpenBefore(longer, k))
    {
      OpenBeforeSnoc(rounds, r, k);
      if k < |rounds| {
        assert longer[k] == rounds[k];
      }
    }
    OpenBeforeSnoc(rounds, r, |rounds|);
    assert longer[|rounds|] == r;
  }

  /** graphite_worker_thread. `rounds` records the loop and `finish` what
      came after it. */
  method WorkerThread(env: Env) returns (rounds: seq<Round>, finish: Finish)
    ensures |rounds| <= env.stopAt
    ensures Faithful(env, rounds)
    ensures forall k :: 0 <= k < |rounds| - 1 ==> Continues(rounds[k])
    ensures |rounds| == env.stopAt || (|rounds| > 0 && !Continues(rounds[|rounds| - 1]))
    ensures finish == FinishSpec(env, OpenBefore(rounds, |rounds|))
  {
    var open := false;   // sck != NULL
    rounds := [];
    while |rounds| < env.stopAt
      invariant |rounds| <= env.stopAt
      invariant open == OpenBefore(rounds, |rounds|)
      invariant Faithful(env, rounds)
      invariant forall k :: 0 <= k < |rounds| ==> Continues(rounds[k])
    {
      var r, next := RunRound(env, |rounds|, open);
      FaithfulSnoc(env, rounds, r);
      rounds := rounds + [r];
      open := next;
      if !Continues(r) {
        break;
      }
    }
    finish := AfterLoop(env, open);
  }

  /** One pass of graphite_worker_thread's loop body: build, open a socket
      when there is none, send, and close the socket after a failed send.
      `next` tells whether there is a socket afterwards. */
  method RunRound(env: Env, k: nat, open: bool) returns (r: Round, next: bool)
    ensures r == RoundSpec(env, k, open)
    ensures next == OpenAfter(r, open)
  {
    next := open;
    if !env.buildOk(k) {
      return Round(false, None, None, false, false), next;
    }
    var connect: Option<bool> := None;
    if !open {
      next := env.openOk(k);
      connect := Some(next);
    }
    if !next {
      r := Round(true, connect, None, false, false);
    } else if env.sendOk(k) {
      r := Round(true, connect, Some(true), false, true);
    } else {
      r := Round(true, connect, Some(false), true, false);
      next := false;
    }
  }

  /** The part of graphite_worker_thread after its loop: with a socket and
      an expected stop, one more build and send flush the buffer; the socket
      is closed; an unexpected exit is reported as death. */
  method AfterLoop(env: Env, open: bool) returns (finish: Finish)
    ensures finish == FinishSpec(env, open)
  {
    var expectFlush := ExpectedStop(env.controlAtFlush);
    var expectEnd := ExpectedStop(env.controlAtEnd);
    FinishSpecByFlags(env, open, expectFlush, expectEnd);
    var flushBuilt: Option<bool> := None;
    var flushSent: Option<bool> := None;
    var closed := false;
    if open {
      if expectFlush {
        flushBuilt := Some(env.flushBuildOk);
        if env.flushBuildOk {
          flushSent := Some(env.flushSendOk);
        }
      }
      closed := true;
    }
    finish := Finish(flushBuilt, flushSent, closed, !expectEnd);
  }

  /** After a failed send the socket is gone: the next round, if its build
      succeeds, opens a new one. After a successful send the next round
      reuses the socket. */
  lemma ReconnectLazily(env: Env, rounds: seq<Round>, k: nat)
    requires Faithful(env, rounds)
    requires k + 1 < |rounds|
    ensures rounds[k].sent == Some(false) && rounds[k + 1].built ==> rounds[k + 1].connect.Some?
    ensures rounds[k].sent == Some(true) ==> rounds[k + 1].connect.None?
  {
    assert rounds[k] == RoundSpec(env, k, OpenBefore(rounds, k));
    assert rounds[k + 1] == RoundSpec(env, k + 1, OpenBefore(rounds, k + 1));
  }

  /** Every send goes over an open socket, and a socket is only connected when
      there is none. */
  lemma SocketDiscipline(env: Env, rounds: seq<Round>, k: nat)
    requires Faithful(env, rounds)
    requires k < |rounds|
    ensures rounds[k].sent.Some? ==> OpenBefore(rounds, k) || rounds[k].connect == Some(true)
    ensures rounds[k].connect.Some? ==> !OpenBefore(rounds, k)
  {
    assert rounds[k] == RoundSpec(env, k, OpenBefore(rounds, k));
  }
}
