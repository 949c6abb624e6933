/** Field validators and the whole-snapshot check `config_valid`
    (src/config.c:73-193). */
module ConfigValidate {
  import opened Util
  import opened ConfigTypes

  // ---------------------------------------------------------------------
  // Numeric ranges

  /** Milliseconds passed to usleep(): 1 ms up to one second's worth. */
  predicate IsValidMillisec(ms: u32)
  {
    ms > 0 && ms <= 1000000
  }

  predicate IsValidMicrosec(us: u32)
  {
    us > 0 && us <= 1000000
  }

  predicate IsValidSec(sec: u32)
  {
    sec > 0 && sec <= 60
  }

  /** A multiple of 4096 of at least 1 MiB. The source tests the low twelve
      bits with `size & 4095` and compares with `1 << 20`; MaskIsRemainder
      shows that the mask test is the remainder test used here. */
  predicate IsValidBufferSize(size: u32)
  {
    size % 4096 == 0 && size >= 1048576
  }

  lemma MaskIsRemainder(b: bv32)
    ensures (b & 4095 == 0) <==> (b % 4096 == 0)
    ensures 1 << 20 == 1048576 as bv32
  {
  }

  lemma NumericBoundaries()
    ensures !IsValidSec(0) && IsValidSec(1) && IsValidSec(60) && !IsValidSec(61)
    ensures !IsValidMillisec(0) && IsValidMillisec(1) && IsValidMillisec(1000000) && !IsValidMillisec(1000001)
    ensures !IsValidMicrosec(0) && IsValidMicrosec(1000000) && !IsValidMicrosec(1000001)
    ensures !IsValidBufferSize(1048575) && IsValidBufferSize(1048576)
    ensures !IsValidBufferSize(1052671) && IsValidBufferSize(1052672) && !IsValidBufferSize(1052680)
  {
  }

  // ---------------------------------------------------------------------
  // The graphite namespace root

  predicate IsWordChar(c: char) { IsAlnum(c) || c == '_' }

  /** Position `i` of `s` is a word character, or a dot followed by a letter
      or digit. */
  predicate CharOk(s: string, i: nat)
    requires i < |s|
  {
    IsWordChar(s[i]) || (s[i] == '.' && i + 1 < |s| && IsAlnum(s[i + 1]))
  }

  /** The accepted shape, stated declaratively:
      [A-Za-z0-9_]+ ('.' [A-Za-z0-9] [A-Za-z0-9_]*)* */
  ghost predicate DottedName(s: string)
  {
    |s| > 0 && IsWordChar(s[0]) && forall i :: 0 <= i < |s| ==> CharOk(s, i)
  }

  /** The inner `while`: the end of the word starting at `p`. */
  function SkipWord(s: string, p: nat): (q: nat)
    requires p <= |s|
    ensures p <= q <= |s|
    ensures forall k :: p <= k < q ==> IsWordChar(s[k])
    ensures q < |s| ==> !IsWordChar(s[q])
    decreases |s| - p
  {
    if p < |s| && IsWordChar(s[p]) then SkipWord(s, p + 1) else p
  }

  /** The `for` loop of is_valid_graphite_target, entered at its condition
      with the scan at position `p`; the result is what the function returns. */
  function ScanTarget(s: string, p: nat): bool
    requires p <= |s|
    decreases |s| - p
  {
    if p == |s| || !IsWordChar(s[p]) then p == |s|
    else
      var q := SkipWord(s, p);
      if q == |s| then true
      else if s[q] == '.' && q + 1 < |s| && IsAlnum(s[q + 1]) then ScanTarget(s, q + 1)
      else false
  }

  lemma {:induction false} ScanTargetMeaning(s: string, p: nat)
    requires p <= |s|
    ensures ScanTarget(s, p) <==>
      (p == |s| || (IsWordChar(s[p]) && forall i :: p <= i < |s| ==> CharOk(s, i)))
    decreases |s| - p
  {
    if p < |s| && IsWordChar(s[p]) {
      var q := SkipWord(s, p);
      assert forall i :: p <= i < q ==> CharOk(s, i);
      if q < |s| {
        if s[q] == '.' && q + 1 < |s| && IsAlnum(s[q + 1]) {
          ScanTargetMeaning(s, q + 1);
        } else {
          assert !CharOk(s, q);
        }
      }
    }
  }

  /** is_valid_graphite_target: accepts exactly the dotted names. */
  function IsValidGraphiteTarget(path: string): (r: bool)
    ensures r <==> DottedName(path)
  {
    ScanTargetMeaning(path, 0);
    |path| > 0 && ScanTarget(path, 0)
  }

  /** is_valid_graphite_target as the source runs it: the outer `for` over
      words, the inner `while` over a word's characters, a `continue` past a
      dot followed by a letter or digit, and a refusal at any other stop. */
  method ScanGraphiteTarget(path: string) returns (ok: bool)
    ensures ok == IsValidGraphiteTarget(path)
    ensures ok <==> DottedName(path)
  {
    if |path| == 0 {
      return false;
    }
    var p := 0;
    while p < |path| && IsWordChar(path[p])
      invariant p <= |path|
      invariant ScanTarget(path, p) == ScanTarget(path, 0)
      decreases |path| - p
    {
      ghost var start := p;
      while p < |path| && IsWordChar(path[p])
        invariant start <= p <= |path|
        invariant SkipWord(path, p) == SkipWord(path, start)
        decreases |path| - p
      {
        p := p + 1;
      }
      if p == |path| {
        break;
      }
      if path[p] == '.' && p + 1 < |path| && IsAlnum(path[p + 1]) {
        p := p + 1;
        continue;
      }
      return false;
    }
    ok := p == |path|;
  }

  /** Single words and dotted names with digits and underscores are
      accepted; the empty name and a leading dot are refused. */
  lemma TargetExamples()
    ensures IsValidGraphiteTarget("a") && IsValidGraphiteTarget("a_1.b9")
    ensures !IsValidGraphiteTarget("") && !IsValidGraphiteTarget(".a")
  {
    assert CharOk("a_1.b9", 3);
  }

  /** Dots that end the name, come twice, or start a word with `_`, and
      characters outside the word set, are refused. */
  lemma TargetCounterexamples()
    ensures !IsValidGraphiteTarget("a.") && !IsValidGraphiteTarget("a..b")
    ensures !IsValidGraphiteTarget("a._b") && !IsValidGraphiteTarget("a-b")
  {
    assert !CharOk("a.", 1);
    assert !CharOk("a..b", 1);
    assert !CharOk("a._b", 1);
    assert !CharOk("a-b", 1);
  }

  // ---------------------------------------------------------------------
  // Strings checked against the outside world

  /** is_valid_socketize: a non-empty address that socketize accepts; the
      parsed socket itself is thrown away. */
  predicate AddressOk(probe: Probe, arg: string, proto: Proto, dir: Direction)
  {
    |arg| > 0 && probe.socketize(arg, proto, dir)
  }

  /** is_valid_directory: a non-empty path for which the stat expression holds. */
  predicate DirectoryOk(probe: Probe, path: string)
  {
    |path| > 0 && probe.statDir(path)
  }

  // ---------------------------------------------------------------------
  // config_valid

  /** The fields config_valid checks, named after their option keys. */
  datatype Field =
    | TcpSendTimeoutSec             // tcp_send_timeout_sec
    | PollingIntervalMillisec       // polling_interval_millisec
    | SleepAfterDisasterMillisec    // sleep_after_disaster_millisec
    | ServerSocketRcvbufBytes       // server_socket_rcvbuf_bytes
    | SpillwayRoot                  // spillway_root
    | SpillUsec                     // spill_usec
    | GraphiteAddr                  // graphite.addr
    | GraphiteTarget                // graphite.target
    | GraphiteSendIntervalMillisec  // graphite.send_interval_millisec
    | GraphiteSleepPollIntervalMillisec  // graphite.sleep_poll_interval_millisec

  /** One line that config_valid reports before counting a failure. */
  datatype Violation =
    | BadField(field: Field)
    | MissingListener
    | BadListener
    | MissingForwards
    | BadForward(index: nat)

  function Check(ok: bool, v: Violation): seq<Violation>
  {
    if ok then [] else [v]
  }

  /** The failures of the ten field checks, in the order config_valid makes them. */
  function FieldViolations(c: Config, probe: Probe): (r: seq<Violation>)
    ensures forall v :: v in r ==> v.BadField?
  {
    Check(IsValidSec(c.tcpSendTimeoutSec), BadField(TcpSendTimeoutSec))
    + Check(IsValidMillisec(c.pollingIntervalMillisec), BadField(PollingIntervalMillisec))
    + Check(IsValidMillisec(c.sleepAfterDisasterMillisec), BadField(SleepAfterDisasterMillisec))
    + Check(IsValidBufferSize(c.serverSocketRcvbufBytes), BadField(ServerSocketRcvbufBytes))
    + Check(DirectoryOk(probe, c.spillwayRoot), BadField(SpillwayRoot))
    + Check(IsValidMicrosec(c.spillUsec), BadField(SpillUsec))
    + Check(AddressOk(probe, c.graphiteAddr, Tcp, Outbound), BadField(GraphiteAddr))
    + Check(IsValidGraphiteTarget(c.graphiteTarget), BadField(GraphiteTarget))
    + Check(IsValidMillisec(c.graphiteSendIntervalMillisec), BadField(GraphiteSendIntervalMillisec))
    + Check(IsValidMillisec(c.graphiteSleepPollIntervalMillisec), BadField(GraphiteSleepPollIntervalMillisec))
  }

  /** The failures of the listener check. */
  function ListenerViolations(argv: seq<string>, probe: Probe): seq<Violation>
  {
    if |argv| < 1 then [MissingListener]
    else Check(AddressOk(probe, argv[0], Udp, Inbound), BadListener)
  }

  /** The failures among forward addresses 1 .. k-1. */
  function ForwardViolations(argv: seq<string>, probe: Probe, k: nat): seq<Violation>
    requires k <= |argv|
  {
    if k <= 1 then []
    else ForwardViolations(argv, probe, k - 1) + Check(AddressOk(probe, argv[k - 1], Tcp, Outbound), BadForward(k - 1))
  }

  function Violations(c: Config, probe: Probe): seq<Violation>
  {
    FieldViolations(c, probe)
    + ListenerViolations(c.argv, probe)
    + (if |c.argv| < 2 then [MissingForwards] else ForwardViolations(c.argv, probe, |c.argv|))
  }

  /** Every rule of config_valid, stated directly. */
  predicate RulesHold(c: Config, probe: Probe)
  {
    && IsValidSec(c.tcpSendTimeoutSec)
    && IsValidMillisec(c.pollingIntervalMillisec)
    && IsValidMillisec(c.sleepAfterDisasterMillisec)
    && IsValidBufferSize(c.serverSocketRcvbufBytes)
    && DirectoryOk(probe, c.spillwayRoot)
    && IsValidMicrosec(c.spillUsec)
    && AddressOk(probe, c.graphiteAddr, Tcp, Outbound)
    && IsValidGraphiteTarget(c.graphiteTarget)
    && IsValidMillisec(c.graphiteSendIntervalMillisec)
    && IsValidMillisec(c.graphiteSleepPollIntervalMillisec)
    && |c.argv| >= 2
    && AddressOk(probe, c.argv[0], Udp, Inbound)
    && forall i :: 1 <= i < |c.argv| ==> AddressOk(probe, c.argv[i], Tcp, Outbound)
  }

  lemma {:induction false} ForwardViolationsEmpty(argv: seq<string>, probe: Probe, k: nat)
    requires k <= |argv|
    ensures ForwardViolations(argv, probe, k) == [] <==>
      forall i :: 1 <= i < k ==> AddressOk(probe, argv[i], Tcp, Outbound)
  {
    if k > 1 {
      ForwardViolationsEmpty(argv, probe, k - 1);
    }
  }

  /** The snapshot is valid (no failure reported) exactly when every rule holds. */
  lemma ViolationsEmptyIff(c: Config, probe: Probe)
    ensures Violations(c, probe) == [] <==> RulesHold(c, probe)
  {
    if |c.argv| >= 2 {
      ForwardViolationsEmpty(c.argv, probe, |c.argv|);
    }
  }

  /** With no addresses both the listener and the forwards are reported
      missing; with one address only the forwards are. */
  lemma MissingAddresses(c: Config, probe: Probe)
    ensures |c.argv| == 0 ==> MissingListener in Violations(c, probe) && MissingForwards in Violations(c, probe)
    ensures |c.argv| == 1 ==> MissingListener !in Violations(c, probe) && MissingForwards in Violations(c, probe)
    ensures |c.argv| >= 2 ==> MissingListener !in Violations(c, probe) && MissingForwards !in Violations(c, probe)
  {
    if |c.argv| >= 2 {
      ForwardNotMissing(c.argv, probe, |c.argv|);
    }
  }

  lemma {:induction false} ForwardNotMissing(argv: seq<string>, probe: Probe, k: nat)
    requires k <= |argv|
    ensures MissingListener !in ForwardViolations(argv, probe, k)
    ensures MissingForwards !in ForwardViolations(argv, probe, k)
  {
    if k > 1 { ForwardNotMissing(argv, probe, k - 1); }
  }

  /** The loop of config_valid over the forward addresses, from index 1;
      it runs only when there are at least two addresses. */
  method CheckForwards(argv: seq<string>, probe: Probe) returns (found: seq<Violation>)
    requires |argv| >= 2
    ensures found == ForwardViolations(argv, probe, |argv|)
  {
    found := [];
    for i := 1 to |argv|
      invariant found == ForwardViolations(argv, probe, i)
    {
      if !AddressOk(probe, argv[i], Tcp, Outbound) {
        found := found + [BadForward(i)];
      }
    }
  }

  /** config_valid: runs every check, counting (and reporting) each failure;
      valid when the count is zero. */
  method ConfigValid(c: Config, probe: Probe) returns (ok: bool, reported: seq<Violation>)
    ensures reported == Violations(c, probe)
    ensures ok <==> RulesHold(c, probe)
  {
    var invalid := 0;
    reported := FieldViolations(c, probe);
    invalid := |reported|;
    if |c.argv| < 1 {
      reported := reported + [MissingListener];
      invalid := invalid + 1;
    } else if !AddressOk(probe, c.argv[0], Udp, Inbound) {
      reported := reported + [BadListener];
      invalid := invalid + 1;
    }
    assert reported == FieldViolations(c, probe) + ListenerViolations(c.argv, probe);
    if |c.argv| < 2 {
      reported := reported + [MissingForwards];
      invalid := invalid + 1;
    } else {
      var forwards := CheckForwards(c.argv, probe);
      reported := reported + forwards;
      invalid := invalid + |forwards|;
    }
    assert invalid == |reported|;
    ok := invalid == 0;
    ViolationsEmptyIff(c, probe);
  }
}
