/** The text the graphite worker sends (src/graphite_worker.c): the
    namespace root, twenty lines per socket worker, six blob lines and the
    size-bucket lines, all appended to fixed-size buffers. */
module GraphiteLines {
  import opened Util

  /** FORMAT_BUFFER_SIZE; the blobs and buckets format arrays and the root
      buffer have the same 256 bytes. */
  const FORMAT_BUFFER_SIZE: nat := 256

  /** Whether fixed_buffer_vcatf manages to append `len` bytes to a buffer of
      `size` bytes that already holds `used`. The fixed buffer's own code is
      not part of this model, so this is a parameter. */
  type Fits = (nat, nat, nat) -> bool

  /** The rule a buffer that keeps room for a terminating NUL follows; used
      only to state what the oracle-free reading of a result is. */
  ghost predicate RoomRule(fits: Fits)
  {
    forall size: nat, used: nat, len: nat :: fits(size, used, len) <==> used + len < size
  }

  /** A fixed_buffer_t: `data` is the text held (its length is `used`). */
  class FixedBuffer {
    var data: string
    const size: nat

    constructor (size: nat)
      ensures data == [] && this.size == size
    {
      data := [];
      this.size := size;
    }

    /** fixed_buffer_reset. */
    method Reset()
      modifies this
      ensures data == []
    {
      data := [];
    }

    /** fixed_buffer_vcatf, given the formatted text: on success the text is
        appended, on failure the buffer is left as it was. */
    method Vcatf(text: string, fits: Fits) returns (ok: bool)
      modifies this
      ensures ok == fits(size, |old(data)|, |text|)
      ensures data == Put(size, old(data), text, fits)
    {
      ok := fits(size, |data|, |text|);
      if ok {
        data := data + text;
      }
    }
  }

  /** The buffer text after one append whose result is ignored. */
  function Put(size: nat, data: string, text: string, fits: Fits): string
  {
    if fits(size, |data|, |text|) then data + text else data
  }

  /** The buffer text after appending each of `lines`, ignoring failures. */
  function PutAll(size: nat, data: string, lines: seq<string>, fits: Fits): string
  {
    if lines == [] then data
    else Put(size, PutAll(size, data, lines[..|lines| - 1], fits), lines[|lines| - 1], fits)
  }

  /** How many of `lines` are appended, one after another, before the first
      that does not fit. */
  function Appended(size: nat, used: nat, lines: seq<string>, fits: Fits): (k: nat)
    ensures k <= |lines|
    decreases |lines|
  {
    if lines == [] || !fits(size, used, |lines[0]|) then 0
    else 1 + Appended(size, used + |lines[0]|, lines[1..], fits)
  }

  lemma {:induction false} FlattenCons(line: string, rest: seq<string>)
    ensures Flatten([line] + rest) == line + Flatten(rest)
  {
    FlattenAppend([line], rest);
    assert [line][..0] == [];
  }

  /** Under the room rule the appends stop early exactly when the whole
      text does not fit below the end of the buffer. */
  lemma {:induction false} AppendedUnderRoomRule(size: nat, used: nat, lines: seq<string>, fits: Fits)
    requires RoomRule(fits)
    ensures Appended(size, used, lines, fits) == |lines| <==> lines == [] || used + |Flatten(lines)| < size
    decreases |lines|
  {
    if lines != [] {
      assert lines == [lines[0]] + lines[1..];
      FlattenCons(lines[0], lines[1..]);
      AppendedUnderRoomRule(size, used + |lines[0]|, lines[1..], fits);
      assert fits(size, used, |lines[0]|) <==> used + |lines[0]| < size;
    }
  }

  // ---------------------------------------------------------------------
  // Namespace root

  /** The part of the graphite configuration the root uses. */
  datatype RootConfig = RootConfig(pathRoot: string, addPorts: bool)

  /** graphite_worker_setup_root. `config`, `listener` (the listener's
      arg_clean) and `hostname` are None for a NULL config, a NULL listener
      and a failing gethostname; `output` is the worker's output socket
      arg_clean and `reverseDotwise` the helper of that name. */
  function SetupRoot(config: Option<RootConfig>, listener: Option<string>, hostname: Option<string>,
                     output: string, reverseDotwise: string -> string, fits: Fits): (r: Option<string>)
    ensures r.Some? ==> config.Some? && listener.Some? && hostname.Some?
    ensures r.Some? ==> r.value == config.value.pathRoot + "." + reverseDotwise(hostname.value)
                                   + (if config.value.addPorts then "." + listener.value + "." + output else "")
    ensures RoomRule(fits) && config.Some? && listener.Some? && hostname.Some? ==>
              (r.Some? <==> |config.value.pathRoot + "." + reverseDotwise(hostname.value)
                              + (if config.value.addPorts then "." + listener.value + "." + output else "")|
                            < FORMAT_BUFFER_SIZE)
  {
    if config.None? || listener.None? || hostname.None? then None
    else
      var head := config.value.pathRoot + "." + reverseDotwise(hostname.value);
      if !fits(FORMAT_BUFFER_SIZE, 0, |head|) then None
      else if !config.value.addPorts then Some(head)
      else
        var tail := "." + listener.value + "." + output;
        if fits(FORMAT_BUFFER_SIZE, |head|, |tail|) then Some(head + tail) else None
  }

  // ---------------------------------------------------------------------
  // Metric lines

  /** A metric line: `<prefix>.<name> <value> <epoch>` and a newline. */
  function MetricLine(prefix: string, name: string, value: int, epoch: nat): string
  {
    prefix + "." + name + " " + Dec(value) + " " + Dec(epoch) + "\n"
  }

  /** The text snprintf writes for a format whose fixed middle is `middle`
      (the part between the root and the epoch, conversions left as text). */
  function FormatText(root: string, middle: string, epoch: nat): string
  {
    root + middle + Dec(epoch) + "\n"
  }

  /** A format fits when snprintf wrote fewer than 256 bytes. */
  predicate FormatFits(root: string, middle: string, epoch: nat)
  {
    |FormatText(root, middle, epoch)| < FORMAT_BUFFER_SIZE
  }

  const STATS_MIDDLE: string := ".%s %ld "
  const BLOBS_MIDDLE: string := ".blobs.%s %ld "
  const BUCKETS_MIDDLE: string := ".buckets.log2_%d %ld "

  /** The twenty per-worker metrics, in the order they are written. */
  const WORKER_METRICS: seq<string> := [
    "received.count", "received.loadavg_1", "received.loadavg_5", "received.loadavg_15",
    "sent.count", "sent.loadavg_1", "sent.loadavg_5", "sent.loadavg_15",
    "partial.count",
    "spilled.count", "spilled.loadavg_1", "spilled.loadavg_5", "spilled.loadavg_15",
    "dropped.count", "dropped.loadavg_1", "dropped.loadavg_5", "dropped.loadavg_15",
    "error.count", "disk.count", "disk_error.count"]

  /** The six blob metrics, in the order they are written. */
  const BLOB_NAMES: seq<string> := [
    "active_count", "active.bytes", "active_refcnt.bytes",
    "total.count", "total.bytes", "total_refcnt.bytes"]

  /** One worker's lines; `values[i]` is the long printed for metric i. */
  function WorkerLines(root: string, epoch: nat, values: seq<int>): seq<string>
    requires |values| == |WORKER_METRICS|
  {
    seq(|WORKER_METRICS|, i requires 0 <= i < |WORKER_METRICS| => MetricLine(root, WORKER_METRICS[i], values[i], epoch))
  }

  /** The lines of several workers, one worker after another. */
  function AllLines(root: string, epoch: nat, workers: seq<seq<int>>): seq<string>
    requires forall j :: 0 <= j < |workers| ==> |workers[j]| == |WORKER_METRICS|
  {
    if workers == [] then []
    else AllLines(root, epoch, workers[..|workers| - 1]) + WorkerLines(root, epoch, workers[|workers| - 1])
  }

  function BlobLines(root: string, epoch: nat, blobs: seq<int>): seq<string>
    requires |blobs| == |BLOB_NAMES|
  {
    seq(|BLOB_NAMES|, i requires 0 <= i < |BLOB_NAMES| => MetricLine(root + ".blobs", BLOB_NAMES[i], blobs[i], epoch))
  }

  function BucketLine(root: string, i: nat, count: int, epoch: nat): string
  {
    MetricLine(root + ".buckets", "log2_" + Dec(i), count, epoch)
  }

  /** Appends `lines` in order and stops at the first that fails; `all`
      tells whether every line was appended. */
  method AppendUntilFailure(buffer: FixedBuffer, lines: seq<string>, fits: Fits) returns (all: bool)
    modifies buffer
    ensures buffer.data == old(buffer.data) + Flatten(lines[..Appended(buffer.size, |old(buffer.data)|, lines, fits)])
    ensures all <==> Appended(buffer.size, |old(buffer.data)|, lines, fits) == |lines|
    ensures all ==> buffer.data == old(buffer.data) + Flatten(lines)
  {
    ghost var start := buffer.data;
    for i := 0 to |lines|
      invariant buffer.data == start + Flatten(lines[..i])
      invariant Appended(buffer.size, |start|, lines, fits) == i + Appended(buffer.size, |buffer.data|, lines[i..], fits)
    {
      assert lines[i..][0] == lines[i] && lines[i..][1..] == lines[i + 1..];
      var wrote := buffer.Vcatf(lines[i], fits);
      if !wrote {
        return false;
      }
      assert lines[..i + 1][..i] == lines[..i];
      AppendAssoc(start, Flatten(lines[..i]), lines[i]);
    }
    TakeAll(lines);
    all := true;
  }

  /** The buffer text after appending one group of lines until the first
      that fails, from text `data`; nothing is appended when the group's
      format did not fit (`formatOk` false). */
  function GroupStep(size: nat, data: string, formatOk: bool, lines: seq<string>, fits: Fits): string
  {
    if !formatOk then data
    else data + Flatten(lines[..Appended(size, |data|, lines, fits)])
  }

  /** A group succeeds when its format fit, all its lines went in and the
      buffer is not full afterwards. */
  predicate GroupOk(size: nat, data: string, formatOk: bool, lines: seq<string>, fits: Fits)
  {
    && formatOk
    && Appended(size, |data|, lines, fits) == |lines|
    && |GroupStep(size, data, formatOk, lines, fits)| < size
  }

  /** graphite_build_worker. The stats format is made first; then the
      twenty lines are appended in order, stopping at the first that fails;
      the worker succeeds when all were appended and the buffer is not
      full. */
  method BuildWorker(buffer: FixedBuffer, root: string, epoch: nat, values: seq<int>, fits: Fits)
    returns (ok: bool)
    requires |values| == |WORKER_METRICS|
    modifies buffer
    ensures !FormatFits(root, STATS_MIDDLE, epoch) ==> buffer.data == old(buffer.data)
    ensures FormatFits(root, STATS_MIDDLE, epoch) ==>
              buffer.data == old(buffer.data)
                + Flatten(WorkerLines(root, epoch, values)[..Appended(buffer.size, |old(buffer.data)|, WorkerLines(root, epoch, values), fits)])
    ensures ok <==> FormatFits(root, STATS_MIDDLE, epoch)
                    && Appended(buffer.size, |old(buffer.data)|, WorkerLines(root, epoch, values), fits) == |WORKER_METRICS|
                    && |buffer.data| < buffer.size
    ensures ok ==> buffer.data == old(buffer.data) + Flatten(WorkerLines(root, epoch, values))
    ensures buffer.data == GroupStep(buffer.size, old(buffer.data), FormatFits(root, STATS_MIDDLE, epoch), WorkerLines(root, epoch, values), fits)
    ensures ok == GroupOk(buffer.size, old(buffer.data), FormatFits(root, STATS_MIDDLE, epoch), WorkerLines(root, epoch, values), fits)
  {
    if !FormatFits(root, STATS_MIDDLE, epoch) {
      return false;
    }
    var all := AppendUntilFailure(buffer, WorkerLines(root, epoch, values), fits);
    ok := all && |buffer.data| < buffer.size;
  }

  /** The text of one more worker's lines. */
  lemma AllLinesSnoc(start: string, root: string, epoch: nat, workers: seq<seq<int>>, built: nat)
    requires forall j :: 0 <= j < |workers| ==> |workers[j]| == |WORKER_METRICS|
    requires built < |workers|
    ensures start + Flatten(AllLines(root, epoch, workers[..built + 1]))
            == (start + Flatten(AllLines(root, epoch, workers[..built]))) + Flatten(WorkerLines(root, epoch, workers[built]))
  {
    assert workers[..built + 1][..built] == workers[..built];
    FlattenAppend(AllLines(root, epoch, workers[..built]), WorkerLines(root, epoch, workers[built]));
    AppendAssoc(start, Flatten(AllLines(root, epoch, workers[..built])), Flatten(WorkerLines(root, epoch, workers[built])));
  }

  /** The worker loop of graphite_build as a function of the buffer text
      `data` before it: each group of lines is appended in turn until one
      fails. The result is how many succeeded and the buffer text after. */
  function GroupsPhase(size: nat, data: string, formatOk: bool, groups: seq<seq<string>>, fits: Fits): (nat, string)
    decreases |groups|
  {
    if groups == [] then (0, data)
    else
      var next := GroupStep(size, data, formatOk, groups[0], fits);
      if !GroupOk(size, data, formatOk, groups[0], fits) then (0, next)
      else PhaseAfter(1, GroupsPhase(size, next, formatOk, groups[1..], fits))
  }

  /** The phase never counts more successes than there are groups, and
      the text it leaves starts with the text it was given. */
  lemma {:induction false} PhaseBounds(size: nat, data: string, formatOk: bool, groups: seq<seq<string>>, fits: Fits)
    ensures GroupsPhase(size, data, formatOk, groups, fits).0 <= |groups|
    ensures data <= GroupsPhase(size, data, formatOk, groups, fits).1
    decreases |groups|
  {
    if groups != [] {
      var next := GroupStep(size, data, formatOk, groups[0], fits);
      if GroupOk(size, data, formatOk, groups[0], fits) {
        PhaseBounds(size, next, formatOk, groups[1..], fits);
        assert data <= next;
      }
    }
  }

  /** Each worker's lines, as one group per worker. */
  function WorkerGroups(root: string, epoch: nat, workers: seq<seq<int>>): (r: seq<seq<string>>)
    requires forall j :: 0 <= j < |workers| ==> |workers[j]| == |WORKER_METRICS|
    ensures |r| == |workers|
    ensures forall j :: 0 <= j < |workers| ==> r[j] == WorkerLines(root, epoch, workers[j])
  {
    seq(|workers|, j requires 0 <= j < |workers| => WorkerLines(root, epoch, workers[j]))
  }

  /** The loop over the socket workers in graphite_build: a worker that
      fails is reported and ends the loop, and the buffer keeps whatever
      was appended. `built` counts the workers that succeeded. */
  method BuildWorkers(buffer: FixedBuffer, root: string, epoch: nat, workers: seq<seq<int>>, fits: Fits)
    returns (built: nat)
    requires forall j :: 0 <= j < |workers| ==> |workers[j]| == |WORKER_METRICS|
    modifies buffer
    ensures built <= |workers|
    ensures old(buffer.data) + Flatten(AllLines(root, epoch, workers[..built])) <= buffer.data
    ensures built == |workers| ==> buffer.data == old(buffer.data) + Flatten(AllLines(root, epoch, workers))
    ensures built < |workers| ==>
              var mid := old(buffer.data) + Flatten(AllLines(root, epoch, workers[..built]));
              !FormatFits(root, STATS_MIDDLE, epoch)
              || Appended(buffer.size, |mid|, WorkerLines(root, epoch, workers[built]), fits) < |WORKER_METRICS|
              || |buffer.data| >= buffer.size
    ensures built < |workers| ==>
              var mid := old(buffer.data) + Flatten(AllLines(root, epoch, workers[..built]));
              buffer.data == GroupStep(buffer.size, mid, FormatFits(root, STATS_MIDDLE, epoch), WorkerLines(root, epoch, workers[built]), fits)
    ensures (built, buffer.data)
            == GroupsPhase(buffer.size, old(buffer.data), FormatFits(root, STATS_MIDDLE, epoch), WorkerGroups(root, epoch, workers), fits)
  {
    ghost var start := buffer.data;
    ghost var formatOk := FormatFits(root, STATS_MIDDLE, epoch);
    ghost var groups := WorkerGroups(root, epoch, workers);
    built := 0;
    while built < |workers|
      invariant built <= |workers|
      invariant buffer.data == start + Flatten(AllLines(root, epoch, workers[..built]))
      invariant GroupsPhase(buffer.size, start, formatOk, groups, fits)
                == PhaseAfter(built, GroupsPhase(buffer.size, buffer.data, formatOk, groups[built..], fits))
    {
      ghost var mid := buffer.data;
      var ok := WorkerTurn(buffer, root, epoch, workers, built, fits, start, groups);
      if !ok {
        StoppedAt(buffer.size, mid, buffer.data, root, epoch, workers[built], fits);
        return;
      }
      built := built + 1;
    }
    WorkersText(start, buffer.data, root, epoch, workers);
    PhaseDone(buffer.size, start, buffer.data, formatOk, groups, fits);
  }

  /** When every worker succeeded, the text is all the workers' lines. */
  lemma WorkersText(start: string, data: string, root: string, epoch: nat, workers: seq<seq<int>>)
    requires forall j :: 0 <= j < |workers| ==> |workers[j]| == |WORKER_METRICS|
    requires data == start + Flatten(AllLines(root, epoch, workers[..|workers|]))
    ensures data == start + Flatten(AllLines(root, epoch, workers))
    ensures start + Flatten(AllLines(root, epoch, workers[..|workers|])) <= data
  {
    TakeAll(workers);
  }

  /** With no group left, the phase's result is the count so far and the
      text as it stands. */
  lemma PhaseDone(size: nat, start: string, data: string, formatOk: bool, groups: seq<seq<string>>, fits: Fits)
    requires GroupsPhase(size, start, formatOk, groups, fits)
             == PhaseAfter(|groups|, GroupsPhase(size, data, formatOk, groups[|groups|..], fits))
    ensures (|groups|, data) == GroupsPhase(size, start, formatOk, groups, fits)
  {
    assert groups[|groups|..] == [];
  }

  /** Where the worker loop stops: the failing worker's appends kept the
      text before them, and it failed for one of the three reasons. */
  lemma StoppedAt(size: nat, mid: string, data: string, root: string, epoch: nat, values: seq<int>, fits: Fits)
    requires |values| == |WORKER_METRICS|
    requires data == GroupStep(size, mid, FormatFits(root, STATS_MIDDLE, epoch), WorkerLines(root, epoch, values), fits)
    requires !GroupOk(size, mid, FormatFits(root, STATS_MIDDLE, epoch), WorkerLines(root, epoch, values), fits)
    ensures mid <= data
    ensures !FormatFits(root, STATS_MIDDLE, epoch)
            || Appended(size, |mid|, WorkerLines(root, epoch, values), fits) < |WORKER_METRICS|
            || |data| >= size
  {
    assert |WorkerLines(root, epoch, values)| == |WORKER_METRICS|;
  }

  /** One pass of the worker loop's body: worker `built` is built, and the
      loop's two invariants are carried to the next worker when it succeeds. */
  method WorkerTurn(buffer: FixedBuffer, root: string, epoch: nat, workers: seq<seq<int>>, built: nat, fits: Fits,
                    ghost start: string, ghost groups: seq<seq<string>>)
    returns (ok: bool)
    requires forall j :: 0 <= j < |workers| ==> |workers[j]| == |WORKER_METRICS|
    requires built < |workers|
    requires groups == WorkerGroups(root, epoch, workers)
    requires buffer.data == start + Flatten(AllLines(root, epoch, workers[..built]))
    requires GroupsPhase(buffer.size, start, FormatFits(root, STATS_MIDDLE, epoch), groups, fits)
             == PhaseAfter(built, GroupsPhase(buffer.size, buffer.data, FormatFits(root, STATS_MIDDLE, epoch), groups[built..], fits))
    modifies buffer
    ensures buffer.data
            == GroupStep(buffer.size, old(buffer.data), FormatFits(root, STATS_MIDDLE, epoch), WorkerLines(root, epoch, workers[built]), fits)
    ensures ok == GroupOk(buffer.size, old(buffer.data), FormatFits(root, STATS_MIDDLE, epoch), WorkerLines(root, epoch, workers[built]), fits)
    ensures !ok ==> GroupsPhase(buffer.size, start, FormatFits(root, STATS_MIDDLE, epoch), groups, fits) == (built, buffer.data)
    ensures ok ==> buffer.data == start + Flatten(AllLines(root, epoch, workers[..built + 1]))
    ensures ok ==> GroupsPhase(buffer.size, start, FormatFits(root, STATS_MIDDLE, epoch), groups, fits)
                   == PhaseAfter(built + 1, GroupsPhase(buffer.size, buffer.data, FormatFits(root, STATS_MIDDLE, epoch), groups[built + 1..], fits))
  {
    PhaseAdvance(buffer.size, start, buffer.data, FormatFits(root, STATS_MIDDLE, epoch), groups, built, fits);
    ok := BuildWorker(buffer, root, epoch, workers[built], fits);
    if ok {
      AllLinesSnoc(start, root, epoch, workers, built);
    }
  }

  /** One turn of the worker loop in terms of GroupsPhase: if the phase
      from `start` is the phase from `data` over the remaining groups,
      shifted by `built`, then after group `built` either the phase has
      ended there or the same holds one group further on. */
  lemma PhaseAdvance(size: nat, start: string, data: string, formatOk: bool, groups: seq<seq<string>>, built: nat, fits: Fits)
    requires built < |groups|
    requires GroupsPhase(size, start, formatOk, groups, fits)
             == PhaseAfter(built, GroupsPhase(size, data, formatOk, groups[built..], fits))
    ensures var next := GroupStep(size, data, formatOk, groups[built], fits);
            if GroupOk(size, data, formatOk, groups[built], fits)
            then GroupsPhase(size, start, formatOk, groups, fits)
                 == PhaseAfter(built + 1, GroupsPhase(size, next, formatOk, groups[built + 1..], fits))
            else GroupsPhase(size, start, formatOk, groups, fits) == (built, next)
  {
    assert groups[built..][0] == groups[built] && groups[built..][1..] == groups[built + 1..];
  }

  /** A phase result seen from `built` workers further back. */
  function PhaseAfter(built: nat, r: (nat, string)): (nat, string)
  {
    (built + r.0, r.1)
  }

  // ---------------------------------------------------------------------
  // Size buckets

  /** `b >> k` on a signed word: an arithmetic shift, which is floor
      division by two at each step (Dafny's `/` by a positive divisor). */
  function Shift(b: int, k: nat): int
    decreases k
  {
    if k == 0 then b else Shift(b / 2, k - 1)
  }

  /** The indices the bucket loop emits from index `i` on, with `b` the
      shifted word the loop test sees there. */
  function BucketIndices(b: int, sizes: seq<int>, i: nat): seq<nat>
    decreases |sizes| - i
  {
    if b == 0 || i >= |sizes| then []
    else (if sizes[i] > 0 then [i] else []) + BucketIndices(b / 2, sizes, i + 1)
  }

  lemma {:induction false} ShiftZero(k: nat)
    ensures Shift(0, k) == 0
  {
    if k > 0 {
      ShiftZero(k - 1);
    }
  }

  /** A negative word never shifts down to zero. */
  lemma {:induction false} ShiftNegative(b: int, k: nat)
    requires b < 0
    ensures Shift(b, k) < 0
    decreases k
  {
    if k > 0 {
      ShiftNegative(b / 2, k - 1);
    }
  }

  /** The emitted indices are exactly those below the array length whose
      count is positive and at which the shifted word is still nonzero. */
  lemma {:induction false} BucketIndicesMeaning(b: int, sizes: seq<int>, i: nat, k: nat)
    ensures k in BucketIndices(b, sizes, i) <==> i <= k < |sizes| && sizes[k] > 0 && Shift(b, k - i) != 0
    decreases |sizes| - i
  {
    if b == 0 {
      if i <= k {
        ShiftZero(k - i);
      }
    } else if i < |sizes| {
      var head: seq<nat> := if sizes[i] > 0 then [i] else [];
      var rest := BucketIndices(b / 2, sizes, i + 1);
      assert BucketIndices(b, sizes, i) == head + rest;
      assert k in head + rest <==> k in head || k in rest;
      BucketIndicesMeaning(b / 2, sizes, i + 1, k);
      if i < k {
        assert Shift(b, k - i) == Shift(b / 2, k - (i + 1));
      }
    }
  }

  /** The emitted indices ascend strictly and start at `i` or later. */
  lemma {:induction false} BucketIndicesAscend(b: int, sizes: seq<int>, i: nat)
    ensures forall x :: 0 <= x < |BucketIndices(b, sizes, i)| ==> i <= BucketIndices(b, sizes, i)[x]
    ensures forall x, y :: 0 <= x < y < |BucketIndices(b, sizes, i)| ==>
              BucketIndices(b, sizes, i)[x] < BucketIndices(b, sizes, i)[y]
    decreases |sizes| - i
  {
    if b != 0 && i < |sizes| {
      BucketIndicesAscend(b / 2, sizes, i + 1);
    }
  }

  /** A word that is zero emits nothing; with the top bit set every
      positive count is emitted. */
  lemma BucketExtremes(sizes: seq<int>, b: int, k: nat)
    ensures BucketIndices(0, sizes, 0) == []
    ensures b < 0 ==> (k in BucketIndices(b, sizes, 0) <==> k < |sizes| && sizes[k] > 0)
  {
    if b < 0 {
      BucketIndicesMeaning(b, sizes, 0, k);
      ShiftNegative(b, k);
    }
  }

  /** The count of bucket `i` (zero past the end of the array). */
  function Count(sizes: seq<int>, i: nat): int
  {
    if i < |sizes| then sizes[i] else 0
  }

  /** The buffer text after the bucket lines for `indices` were appended,
      ignoring failures. */
  function PutBuckets(size: nat, data: string, root: string, epoch: nat, indices: seq<nat>,
                      sizes: seq<int>, fits: Fits): string
  {
    if indices == [] then data
    else
      var last := indices[|indices| - 1];
      Put(size, PutBuckets(size, data, root, epoch, indices[..|indices| - 1], sizes, fits),
          BucketLine(root, last, Count(sizes, last), epoch), fits)
  }

  lemma PutBucketsSnoc(size: nat, data: string, root: string, epoch: nat, indices: seq<nat>, i: nat,
                       sizes: seq<int>, fits: Fits)
    requires i < |sizes|
    ensures PutBuckets(size, data, root, epoch, indices + [i], sizes, fits)
            == Put(size, PutBuckets(size, data, root, epoch, indices, sizes, fits),
                   BucketLine(root, i, sizes[i], epoch), fits)
  {
    DropLastAppend(indices, [i]);
    AppendEmpty(indices);
  }

  /** Appending one more line to an ignored-failure run. */
  lemma PutAllSnoc(size: nat, data: string, lines: seq<string>, line: string, fits: Fits)
    ensures PutAll(size, data, lines + [line], fits) == Put(size, PutAll(size, data, lines, fits), line, fits)
  {
    DropLastAppend(lines, [line]);
    AppendEmpty(lines);
  }

  /** One step of the bucket loop, on the indices still to come. */
  lemma AdvanceBuckets(emitted: seq<nat>, b: int, sizes: seq<int>, i: nat)
    requires b != 0 && i < |sizes|
    ensures emitted + BucketIndices(b, sizes, i)
            == (emitted + (if sizes[i] > 0 then [i] else [])) + BucketIndices(b / 2, sizes, i + 1)
  {
    AppendAssoc(emitted, if sizes[i] > 0 then [i] else [], BucketIndices(b / 2, sizes, i + 1));
    AppendEmpty(emitted);
  }

  /** One bucket line appended, its failure ignored. */
  method EmitBucket(buffer: FixedBuffer, root: string, epoch: nat, i: nat, sizes: seq<int>, fits: Fits,
                    ghost start: string, ghost emitted: seq<nat>)
    requires i < |sizes|
    requires buffer.data == PutBuckets(buffer.size, start, root, epoch, emitted, sizes, fits)
    modifies buffer
    ensures buffer.data == PutBuckets(buffer.size, start, root, epoch, emitted + [i], sizes, fits)
  {
    var wrote := buffer.Vcatf(BucketLine(root, i, sizes[i], epoch), fits);
    PutBucketsSnoc(buffer.size, start, root, epoch, emitted, i, sizes, fits);
  }

  /** The bucket loop of graphite_build: walk the counts upward while the
      shifted word is nonzero, appending a line for each positive count
      (an append that fails is ignored). */
  method BucketLoop(buffer: FixedBuffer, root: string, epoch: nat, buckets: int, sizes: seq<int>, fits: Fits)
    returns (emitted: seq<nat>)
    modifies buffer
    ensures emitted == BucketIndices(buckets, sizes, 0)
    ensures buffer.data == PutBuckets(buffer.size, old(buffer.data), root, epoch, emitted, sizes, fits)
  {
    ghost var d0 := buffer.data;
    ghost var all := BucketIndices(buckets, sizes, 0);
    var b := buckets;
    var i: nat := 0;
    emitted := [];
    while b != 0 && i < |sizes|
      invariant i <= |sizes|
      invariant emitted + BucketIndices(b, sizes, i) == all
      invariant buffer.data == PutBuckets(buffer.size, d0, root, epoch, emitted, sizes, fits)
      decreases |sizes| - i
    {
      var count := sizes[i];
      AdvanceBuckets(emitted, b, sizes, i);
      if count > 0 {
        EmitBucket(buffer, root, epoch, i, sizes, fits, d0, emitted);
        emitted := emitted + [i];
      } else {
        AppendEmpty(emitted);
      }
      assert emitted + BucketIndices(b / 2, sizes, i + 1) == all;
      i := i + 1;
      b := b / 2;
    }
    assert BucketIndices(b, sizes, i) == [];
    AppendEmpty(emitted);
  }

  // ---------------------------------------------------------------------
  // The whole cycle's text

  /** A run of fixed_buffer_vcatf calls whose results are ignored. */
  method PutLines(buffer: FixedBuffer, lines: seq<string>, fits: Fits)
    modifies buffer
    ensures buffer.data == PutAll(buffer.size, old(buffer.data), lines, fits)
  {
    ghost var d0 := buffer.data;
    for j := 0 to |lines|
      invariant buffer.data == PutAll(buffer.size, d0, lines[..j], fits)
    {
      var _ := buffer.Vcatf(lines[j], fits);
      assert lines[..j + 1] == lines[..j] + [lines[j]];
      PutAllSnoc(buffer.size, d0, lines[..j], lines[j], fits);
    }
    TakeAll(lines);
  }

  /** Under the room rule a run of ignored-failure appends whose whole text
      fits below the end of the buffer appends all of it. */
  lemma {:induction false} PutAllUnderRoomRule(size: nat, data: string, lines: seq<string>, fits: Fits)
    requires RoomRule(fits)
    requires |data| + |Flatten(lines)| < size
    ensures PutAll(size, data, lines, fits) == data + Flatten(lines)
    decreases |lines|
  {
    if lines == [] {
      AppendEmpty(data);
    } else {
      var init := lines[..|lines| - 1];
      var last := lines[|lines| - 1];
      PutAllUnderRoomRule(size, data, init, fits);
      assert fits(size, |data + Flatten(init)|, |last|);
      AppendAssoc(data, Flatten(init), last);
    }
  }

  /** graphite_build's result and buffer text, from an empty buffer: the
      workers' phase, then the blob lines when their format fits, then the
      bucket lines when there are buckets and their format fits. */
  function BuildSpec(size: nat, root: string, epoch: nat, workers: seq<seq<int>>, blobs: seq<int>,
                     buckets: int, sizes: seq<int>, fits: Fits): (nat, bool, string)
    requires forall j :: 0 <= j < |workers| ==> |workers[j]| == |WORKER_METRICS|
    requires |blobs| == |BLOB_NAMES|
  {
    var phase := GroupsPhase(size, [], FormatFits(root, STATS_MIDDLE, epoch), WorkerGroups(root, epoch, workers), fits);
    if !FormatFits(root, BLOBS_MIDDLE, epoch) then (phase.0, false, phase.1)
    else
      var afterBlobs := PutAll(size, phase.1, BlobLines(root, epoch, blobs), fits);
      if buckets == 0 then (phase.0, true, afterBlobs)
      else if !FormatFits(root, BUCKETS_MIDDLE, epoch) then (phase.0, false, afterBlobs)
      else (phase.0, true, PutBuckets(size, afterBlobs, root, epoch, BucketIndices(buckets, sizes, 0), sizes, fits))
  }

  /** graphite_build without its allocator and OS sections. The buffer is
      reset and the workers' lines written; a failing worker does not fail
      the build. The build fails only when the blobs format, or (for a
      nonzero bucket word) the buckets format, does not fit. `workers[j]`
      are worker j's values, `blobs` the six blob counters, `buckets` the
      OR-ed bucket word and `sizes` the per-bucket counts. */
  method Build(buffer: FixedBuffer, root: string, epoch: nat, workers: seq<seq<int>>, blobs: seq<int>,
               buckets: int, sizes: seq<int>, fits: Fits)
    returns (ok: bool, built: nat)
    requires forall j :: 0 <= j < |workers| ==> |workers[j]| == |WORKER_METRICS|
    requires |blobs| == |BLOB_NAMES|
    modifies buffer
    ensures (built, ok, buffer.data) == BuildSpec(buffer.size, root, epoch, workers, blobs, buckets, sizes, fits)
    ensures ok <==> FormatFits(root, BLOBS_MIDDLE, epoch) && (buckets == 0 || FormatFits(root, BUCKETS_MIDDLE, epoch))
    ensures built <= |workers|
    ensures var afterWorkers := GroupsPhase(buffer.size, [], FormatFits(root, STATS_MIDDLE, epoch), WorkerGroups(root, epoch, workers), fits).1;
            && Flatten(AllLines(root, epoch, workers[..built])) <= afterWorkers
            && (built == |workers| ==> afterWorkers == Flatten(AllLines(root, epoch, workers)))
            && (built < |workers| ==>
                  afterWorkers == GroupStep(buffer.size, Flatten(AllLines(root, epoch, workers[..built])),
                                            FormatFits(root, STATS_MIDDLE, epoch), WorkerLines(root, epoch, workers[built]), fits))
            && (!FormatFits(root, BLOBS_MIDDLE, epoch) ==> buffer.data == afterWorkers)
  {
    buffer.Reset();
    built := BuildWorkers(buffer, root, epoch, workers, fits);
    assert [] + Flatten(AllLines(root, epoch, workers[..built])) == Flatten(AllLines(root, epoch, workers[..built]));
    if !FormatFits(root, BLOBS_MIDDLE, epoch) {
      return false, built;
    }
    PutLines(buffer, BlobLines(root, epoch, blobs), fits);
    if buckets != 0 {
      if !FormatFits(root, BUCKETS_MIDDLE, epoch) {
        return false, built;
      }
      var _ := BucketLoop(buffer, root, epoch, buckets, sizes, fits);
    }
    ok := true;
  }
}
