/** The reload state machine `config_reload` (src/config.c:430-579): load and
    validate the file, merge the result field by field into the live
    configuration, replace the address list, keep the generation and epoch
    provenance, and save a backup. Log lines that later behaviour depends on
    are kept as notices. */
module ConfigReload {
  import opened Util
  import opened ConfigTypes
  import opened ConfigValidate
  import opened ConfigLoad
  import opened ConfigPersist

  /** What the live configuration reports about its address list and its
      backup while merging. */
  datatype Notice =
    | SocketSet(index: nat, addr: string)            // "Setting <role> socket config to .."
    | SocketChanged(index: nat, from: string, to: string)
    | SocketStopped(addr: string)                    // "Stopping forward socket to .."
    | Saved(name: string)                            // config_save succeeded
    | SaveFailed                                     // "Warning: config save failed"

  /** How config_reload ends: the process dies (first load failed), or it
      returns whether the configuration changed. */
  datatype Outcome = Fatal | Done(changed: bool)

  /** The live `config_t`: the snapshot plus its provenance. */
  datatype LiveState = LiveState(
    cfg: Config,
    file: Option<string>,
    generation: int,
    epochAttempt: int,
    epochChanged: int,
    epochSuccess: int,
    notices: seq<Notice>)

  // ---------------------------------------------------------------------
  // The merge, as functions of the old and new snapshots

  /** Some scalar or string field compares unequal. */
  predicate FieldsDiffer(o: Config, n: Config, lib: Lib)
  {
    || o.syslogToStderr != n.syslogToStderr
    || o.tcpSendTimeoutSec != n.tcpSendTimeoutSec
    || o.pollingIntervalMillisec != n.pollingIntervalMillisec
    || o.sleepAfterDisasterMillisec != n.sleepAfterDisasterMillisec
    || o.serverSocketRcvbufBytes != n.serverSocketRcvbufBytes
    || !lib.streq(o.spillwayRoot, n.spillwayRoot)
    || o.spillUsec != n.spillUsec
    || !lib.streq(o.graphiteAddr, n.graphiteAddr)
    || !lib.streq(o.graphiteTarget, n.graphiteTarget)
    || o.graphiteSendIntervalMillisec != n.graphiteSendIntervalMillisec
    || o.graphiteSleepPollIntervalMillisec != n.graphiteSleepPollIntervalMillisec
  }

  /** The live snapshot after the merge: every scalar and the address list
      taken from the new snapshot; a string field replaced only when STRNE
      says it differs. */
  function Merged(o: Config, n: Config, lib: Lib): Config
  {
    n.(spillwayRoot := if lib.streq(o.spillwayRoot, n.spillwayRoot) then o.spillwayRoot else n.spillwayRoot,
       graphiteAddr := if lib.streq(o.graphiteAddr, n.graphiteAddr) then o.graphiteAddr else n.graphiteAddr,
       graphiteTarget := if lib.streq(o.graphiteTarget, n.graphiteTarget) then o.graphiteTarget else n.graphiteTarget)
  }

  /** What old position `i` reports: a changed address, or a stopped forward. */
  function OldPositionNotice(ov: seq<string>, nv: seq<string>, gen: int, lib: Lib, i: nat): seq<Notice>
    requires i < |ov|
  {
    if i < |nv| then
      if !lib.streq(ov[i], nv[i])
      then [if gen == 0 then SocketSet(i, nv[i]) else SocketChanged(i, ov[i], nv[i])]
      else []
    else [SocketStopped(ov[i])]
  }

  /** Old position `i` counts as a change. */
  predicate OldPositionDiffers(ov: seq<string>, nv: seq<string>, lib: Lib, i: nat)
    requires i < |ov|
  {
    i >= |nv| || !lib.streq(ov[i], nv[i])
  }

  /** Notices of the loop over old positions 0 .. k-1. */
  function OldArgvNotices(ov: seq<string>, nv: seq<string>, gen: int, lib: Lib, k: nat): seq<Notice>
    requires k <= |ov|
  {
    if k == 0 then [] else OldArgvNotices(ov, nv, gen, lib, k - 1) + OldPositionNotice(ov, nv, gen, lib, k - 1)
  }

  /** Some old position below k counts as a change. */
  predicate OldArgvDiffers(ov: seq<string>, nv: seq<string>, lib: Lib, k: nat)
    requires k <= |ov|
  {
    k > 0 && (OldArgvDiffers(ov, nv, lib, k - 1) || OldPositionDiffers(ov, nv, lib, k - 1))
  }

  /** Notices of the loop over new positions |ov| .. k-1. */
  function NewArgvNotices(ov: seq<string>, nv: seq<string>, k: nat): seq<Notice>
    requires k <= |nv|
    decreases k
  {
    if k <= |ov| then [] else NewArgvNotices(ov, nv, k - 1) + [SocketSet(k - 1, nv[k - 1])]
  }

  predicate ArgvDiffers(ov: seq<string>, nv: seq<string>, lib: Lib)
  {
    OldArgvDiffers(ov, nv, lib, |ov|) || |nv| > |ov|
  }

  /** The file loads and the loaded snapshot passes the second validation. */
  predicate Succeeds(s: LiveState, contents: Option<seq<string>>, lib: Lib, probeLoad: Probe, probeRecheck: Probe)
  {
    var loaded := LoadSpec(s.file, contents, lib, probeLoad);
    loaded.Some? && RulesHold(loaded.value, probeRecheck)
  }

  /** The success path of config_reload, from the merge on, for a loaded
      and validated snapshot `n`: the address list is taken from `n`,
      epoch_success is stamped, a backup is attempted whether or not
      anything changed and its outcome is the last notice, and the
      generation advances by one and epoch_changed is stamped exactly when a
      change is reported, which the first load always does. */
  function Installed(s: LiveState, n: Config, now: int, lib: Lib, fs: FsOutcome): (r: (LiveState, Outcome))
    ensures r.1.Done?
    ensures r.0.cfg.argv == n.argv && r.0.file == s.file && r.0.epochAttempt == s.epochAttempt
    ensures r.0.epochSuccess == now
    ensures r.0.generation == (if r.1.changed then s.generation + 1 else s.generation)
    ensures r.0.epochChanged == (if r.1.changed then now else s.epochChanged)
    ensures s.generation == 0 ==> r.1.changed
    ensures |r.0.notices| > |s.notices| && r.0.notices[..|s.notices|] == s.notices
    ensures s.file.None? ==> r.0.notices[|r.0.notices| - 1] == SaveFailed
    ensures s.file.Some? ==> r.0.notices[|r.0.notices| - 1] in {SaveFailed, Saved(SaveName(s.file.value, now))}
  {
    var ov := s.cfg.argv;
    var changed := s.generation == 0 || FieldsDiffer(s.cfg, n, lib) || ArgvDiffers(ov, n.argv, lib);
    var merged := Merged(s.cfg, n, lib);
    var saved := SaveSpec(merged, s.file, now, fs);
    var notices := s.notices + OldArgvNotices(ov, n.argv, s.generation, lib, |ov|)
                   + NewArgvNotices(ov, n.argv, |n.argv|)
                   + [if saved.Some? then Saved(saved.value) else SaveFailed];
    (LiveState(merged, s.file, if changed then s.generation + 1 else s.generation,
               s.epochAttempt, if changed then now else s.epochChanged, now, notices),
     Done(changed))
  }

  /** config_reload as a function of the live state before the call: every
      call stamps epoch_attempt; a failed load or a failed second validation
      changes nothing else and reports no change, except that a failed first
      load ends the process. */
  function ReloadSpec(s: LiveState, now: int, contents: Option<seq<string>>, lib: Lib,
                      probeLoad: Probe, probeRecheck: Probe, fs: FsOutcome): (r: (LiveState, Outcome))
    ensures r.0.file == s.file && r.0.epochAttempt == now
    ensures r.1 == Fatal <==> s.generation == 0 && LoadSpec(s.file, contents, lib, probeLoad).None?
    ensures !Succeeds(s, contents, lib, probeLoad, probeRecheck) ==>
      r.0 == s.(epochAttempt := now) && (r.1 == Fatal || r.1 == Done(false))
    ensures Succeeds(s, contents, lib, probeLoad, probeRecheck) ==> r.1.Done? && r.0.epochSuccess == now
  {
    var attempted := s.(epochAttempt := now);
    var loaded := LoadSpec(s.file, contents, lib, probeLoad);
    if loaded.None? then
      (attempted, if s.generation != 0 then Done(false) else Fatal)
    else if !RulesHold(loaded.value, probeRecheck) then
      (attempted, Done(false))
    else
      Installed(attempted, loaded.value, now, lib, fs)
  }

  // ---------------------------------------------------------------------
  // What a reload means

  /** With an exact STREQ the merge installs the loaded snapshot as it is. */
  lemma MergedExact(o: Config, n: Config, lib: Lib)
    requires ExactStreq(lib)
    ensures Merged(o, n, lib) == n
    ensures FieldsDiffer(o, n, lib) <==> o.(argv := n.argv) != n
  {
    assert lib.streq(o.spillwayRoot, n.spillwayRoot) <==> o.spillwayRoot == n.spillwayRoot;
    assert lib.streq(o.graphiteAddr, n.graphiteAddr) <==> o.graphiteAddr == n.graphiteAddr;
    assert lib.streq(o.graphiteTarget, n.graphiteTarget) <==> o.graphiteTarget == n.graphiteTarget;
  }

  /** With an exact STREQ, the loop over the first k old positions finds a
      change exactly when the new list is shorter than k or differs in its
      first k entries. */
  lemma {:induction false} OldArgvDiffersExact(ov: seq<string>, nv: seq<string>, lib: Lib, k: nat)
    requires ExactStreq(lib)
    requires k <= |ov|
    ensures OldArgvDiffers(ov, nv, lib, k) <==> k > |nv| || ov[..k] != nv[..k]
  {
    if k > 0 {
      OldArgvDiffersExact(ov, nv, lib, k - 1);
      if k <= |nv| {
        assert lib.streq(ov[k - 1], nv[k - 1]) <==> ov[k - 1] == nv[k - 1];
        assert ov[..k] == ov[..k - 1] + [ov[k - 1]] && nv[..k] == nv[..k - 1] + [nv[k - 1]];
        if ov[..k] == nv[..k] {
          assert ov[..k - 1] == ov[..k][..k - 1] && nv[..k - 1] == nv[..k][..k - 1];
          assert ov[k - 1] == ov[..k][k - 1];
        }
      }
    }
  }

  /** With an exact STREQ the address lists count as changed exactly when
      they differ. */
  lemma ArgvDiffersExact(ov: seq<string>, nv: seq<string>, lib: Lib)
    requires ExactStreq(lib)
    ensures ArgvDiffers(ov, nv, lib) <==> ov != nv
  {
    OldArgvDiffersExact(ov, nv, lib, |ov|);
    assert ov[..|ov|] == ov;
    if |nv| >= |ov| && ov == nv[..|ov|] && |nv| == |ov| {
      assert nv[..|ov|] == nv;
    }
  }

  /** With an exact STREQ a successful reload installs the loaded snapshot,
      and reports a change exactly on the first load or when the snapshot
      differs from the live one. */
  lemma InstalledExact(s: LiveState, n: Config, now: int, lib: Lib, fs: FsOutcome)
    requires ExactStreq(lib)
    ensures var r := Installed(s, n, now, lib, fs);
      r.0.cfg == n && r.1 == Done(s.generation == 0 || s.cfg != n)
  {
    MergedExact(s.cfg, n, lib);
    ArgvDiffersExact(s.cfg.argv, n.argv, lib);
  }

  /** Reloading the same file twice: the second reload finds nothing to
      change, so the generation and epoch_changed stay as the first left
      them. */
  lemma ReloadTwice(s: LiveState, now: int, later: int, contents: Option<seq<string>>, lib: Lib,
                    probeLoad: Probe, probeRecheck: Probe, fs: FsOutcome, fs2: FsOutcome)
    requires ExactStreq(lib)
    requires s.generation >= 0
    requires Succeeds(s, contents, lib, probeLoad, probeRecheck)
    ensures var s1 := ReloadSpec(s, now, contents, lib, probeLoad, probeRecheck, fs).0;
      var r2 := ReloadSpec(s1, later, contents, lib, probeLoad, probeRecheck, fs2);
      r2.1 == Done(false) && r2.0.cfg == s1.cfg
      && r2.0.generation == s1.generation && r2.0.epochChanged == s1.epochChanged
  {
    var n := LoadSpec(s.file, contents, lib, probeLoad).value;
    var s1 := ReloadSpec(s, now, contents, lib, probeLoad, probeRecheck, fs).0;
    InstalledExact(s.(epochAttempt := now), n, now, lib, fs);
    assert Succeeds(s1, contents, lib, probeLoad, probeRecheck);
    InstalledExact(s1.(epochAttempt := later), n, later, lib, fs2);
  }

  /** How many "Stopping forward socket" notices a log holds. */
  function Stops(log: seq<Notice>): (r: nat)
    ensures r <= |log|
  {
    if log == [] then 0
    else Stops(log[..|log| - 1]) + (if log[|log| - 1].SocketStopped? then 1 else 0)
  }

  lemma {:induction false} StopsAppend(a: seq<Notice>, b: seq<Notice>)
    ensures Stops(a + b) == Stops(a) + Stops(b)
    decreases |b|
  {
    if b != [] {
      DropLastAppend(a, b);
      StopsAppend(a, b[..|b| - 1]);
    } else {
      AppendEmpty(a);
    }
  }

  lemma StopsOne(x: Notice)
    ensures Stops([x]) == if x.SocketStopped? then 1 else 0
  {
    assert [x][..0] == [];
  }

  /** The loop over the first k old positions stops one forward per
      position at or beyond the end of the new list. */
  lemma {:induction false} OldArgvStops(ov: seq<string>, nv: seq<string>, gen: int, lib: Lib, k: nat)
    requires k <= |ov|
    ensures Stops(OldArgvNotices(ov, nv, gen, lib, k)) == if k <= |nv| then 0 else k - |nv|
  {
    if k > 0 {
      var p := OldPositionNotice(ov, nv, gen, lib, k - 1);
      OldArgvStops(ov, nv, gen, lib, k - 1);
      StopsAppend(OldArgvNotices(ov, nv, gen, lib, k - 1), p);
      if k - 1 >= |nv| {
        StopsOne(SocketStopped(ov[k - 1]));
      } else if !lib.streq(ov[k - 1], nv[k - 1]) {
        StopsOne(if gen == 0 then SocketSet(k - 1, nv[k - 1]) else SocketChanged(k - 1, ov[k - 1], nv[k - 1]));
      }
    }
  }

  /** The loop over new positions stops nothing. */
  lemma {:induction false} NewArgvStops(ov: seq<string>, nv: seq<string>, k: nat)
    requires k <= |nv|
    ensures Stops(NewArgvNotices(ov, nv, k)) == 0
    decreases k
  {
    if k > |ov| {
      NewArgvStops(ov, nv, k - 1);
      StopsAppend(NewArgvNotices(ov, nv, k - 1), [SocketSet(k - 1, nv[k - 1])]);
      StopsOne(SocketSet(k - 1, nv[k - 1]));
    }
  }

  /** A successful reload logs one "Stopping forward socket" notice per old
      address beyond the end of the new list, and no other. */
  lemma InstalledStops(s: LiveState, n: Config, now: int, lib: Lib, fs: FsOutcome)
    ensures var r := Installed(s, n, now, lib, fs);
      Stops(r.0.notices) == Stops(s.notices) + (if |s.cfg.argv| <= |n.argv| then 0 else |s.cfg.argv| - |n.argv|)
  {
    var r := Installed(s, n, now, lib, fs);
    var ov := s.cfg.argv;
    var a := OldArgvNotices(ov, n.argv, s.generation, lib, |ov|);
    var b := NewArgvNotices(ov, n.argv, |n.argv|);
    var last := r.0.notices[|r.0.notices| - 1];
    assert r.0.notices == s.notices + a + b + [last];
    StopsAppend(s.notices, a);
    StopsAppend(s.notices + a, b);
    StopsAppend(s.notices + a + b, [last]);
    StopsOne(last);
    OldArgvStops(ov, n.argv, s.generation, lib, |ov|);
    NewArgvStops(ov, n.argv, |n.argv|);
  }

  /** IF_NUM_OPT_CHANGED for one field: the new value is taken, and the
      field counts as changed when the two differ. */
  method NumChanged(cur: u32, next: u32) returns (v: u32, differs: bool)
    ensures v == next
    ensures differs <==> cur != next
  {
    v, differs := cur, false;
    if cur != next {
      v := next;
      differs := true;
    }
  }

  /** IF_STR_OPT_CHANGED for one field: the new string replaces the old one
      only when STRNE says they differ. */
  method StrChanged(cur: string, next: string, lib: Lib) returns (v: string, differs: bool)
    ensures v == if lib.streq(cur, next) then cur else next
    ensures differs <==> !lib.streq(cur, next)
  {
    v, differs := cur, false;
    if !lib.streq(cur, next) {
      v := next;
      differs := true;
    }
  }

  // ---------------------------------------------------------------------
  // The live configuration object

  class RuntimeConfig {
    /** The option fields and the address list. */
    var cfg: Config
    var file: Option<string>
    var generation: int
    var epochAttempt: int
    var epochChanged: int
    var epochSuccess: int
    var notices: seq<Notice>

    function State(): LiveState
      reads this
    {
      LiveState(cfg, file, generation, epochAttempt, epochChanged, epochSuccess, notices)
    }

    /** The configuration at startup: defaults, no addresses, generation 0. */
    constructor (lib: Lib, file: Option<string>)
      ensures State() == LiveState(Defaults(lib), file, 0, 0, 0, 0, [])
    {
      cfg := Defaults(lib);
      this.file := file;
      generation, epochAttempt, epochChanged, epochSuccess := 0, 0, 0, 0;
      notices := [];
    }

    /** The scalar and string fields, compared and assigned one by one in
        the order of the IF_*_OPT_CHANGED lines; the syslog_to_stderr block
        before them (whose log re-routing is not modelled) merges that field
        the same way, and its repeated comparison afterwards never fires. */
    method MergeFields(n: Config, lib: Lib) returns (changed: bool)
      modifies this
      ensures cfg == Merged(old(cfg), n, lib).(argv := old(cfg.argv))
      ensures changed <==> FieldsDiffer(old(cfg), n, lib)
      ensures file == old(file) && generation == old(generation) && notices == old(notices)
      ensures epochAttempt == old(epochAttempt) && epochChanged == old(epochChanged) && epochSuccess == old(epochSuccess)
    {
      var syslog, tcp, poll, sleep, rcvbuf, root, spill, addr, target, send, sleepPoll;
      var d1, d2, d3, d4, d5, d6, d7, d8, d9, d10, d11;
      syslog, d1 := NumChanged(cfg.syslogToStderr, n.syslogToStderr);
      tcp, d2 := NumChanged(cfg.tcpSendTimeoutSec, n.tcpSendTimeoutSec);
      poll, d3 := NumChanged(cfg.pollingIntervalMillisec, n.pollingIntervalMillisec);
      sleep, d4 := NumChanged(cfg.sleepAfterDisasterMillisec, n.sleepAfterDisasterMillisec);
      rcvbuf, d5 := NumChanged(cfg.serverSocketRcvbufBytes, n.serverSocketRcvbufBytes);
      root, d6 := StrChanged(cfg.spillwayRoot, n.spillwayRoot, lib);
      spill, d7 := NumChanged(cfg.spillUsec, n.spillUsec);
      addr, d8 := StrChanged(cfg.graphiteAddr, n.graphiteAddr, lib);
      target, d9 := StrChanged(cfg.graphiteTarget, n.graphiteTarget, lib);
      send, d10 := NumChanged(cfg.graphiteSendIntervalMillisec, n.graphiteSendIntervalMillisec);
      sleepPoll, d11 := NumChanged(cfg.graphiteSleepPollIntervalMillisec, n.graphiteSleepPollIntervalMillisec);
      cfg := Config(syslog, tcp, poll, sleep, rcvbuf, root, spill, addr, target, send, sleepPoll, cfg.argv);
      changed := d1 || d2 || d3 || d4 || d5 || d6 || d7 || d8 || d9 || d10 || d11;
    }

    /** The two loops over the address lists, then the list replaced. */
    method MergeArgv(nv: seq<string>, lib: Lib) returns (changed: bool)
      modifies this
      ensures cfg.argv == nv
      ensures notices == old(notices) + OldArgvNotices(old(cfg.argv), nv, generation, lib, |old(cfg.argv)|)
                                      + NewArgvNotices(old(cfg.argv), nv, |nv|)
      ensures changed <==> ArgvDiffers(old(cfg.argv), nv, lib)
      ensures cfg == old(cfg).(argv := nv)
      ensures file == old(file) && generation == old(generation)
      ensures epochAttempt == old(epochAttempt) && epochChanged == old(epochChanged) && epochSuccess == old(epochSuccess)
    {
      var ov := cfg.argv;
      var log := notices;
      changed := false;
      for i := 0 to |ov|
        invariant log == old(notices) + OldArgvNotices(ov, nv, generation, lib, i)
        invariant changed <==> OldArgvDiffers(ov, nv, lib, i)
      {
        if i < |nv| {
          if !lib.streq(ov[i], nv[i]) {
            log := log + [if generation == 0 then SocketSet(i, nv[i]) else SocketChanged(i, ov[i], nv[i])];
            changed := true;
          }
        } else {
          log := log + [SocketStopped(ov[i])];
          changed := true;
        }
      }
      var n1 := log;
      var i := |ov|;
      while i < |nv|
        invariant |ov| <= i <= |nv| || (i == |ov| && |nv| < |ov|)
        invariant log == n1 + NewArgvNotices(ov, nv, if i <= |nv| then i else |nv|)
        invariant changed <==> OldArgvDiffers(ov, nv, lib, |ov|) || (i > |ov|)
      {
        log := log + [SocketSet(i, nv[i])];
        changed := true;
        i := i + 1;
      }
      notices := log;
      cfg := cfg.(argv := nv);
    }

    /** The success path: the merge, the provenance update and the backup. */
    method Install(n: Config, now: int, lib: Lib, fs: FsOutcome) returns (changed: bool)
      modifies this
      ensures State() == Installed(old(State()), n, now, lib, fs).0
      ensures Done(changed) == Installed(old(State()), n, now, lib, fs).1
    {
      ghost var s0 := State();
      ghost var want := Installed(s0, n, now, lib, fs);
      changed := generation == 0;
      var fieldsChanged := MergeFields(n, lib);
      var argvChanged := MergeArgv(n.argv, lib);
      changed := changed || fieldsChanged || argvChanged;
      assert changed == want.1.changed;
      if changed {
        generation := generation + 1;
        epochChanged := now;
      }
      epochSuccess := now;
      assert cfg == want.0.cfg;
      var saved := ConfigSave(cfg, file, now, fs);
      notices := notices + [if saved.Some? then Saved(saved.value) else SaveFailed];
      assert notices == want.0.notices;
      assert State() == want.0;
    }

    /** config_reload. */
    method Reload(now: int, contents: Option<seq<string>>, lib: Lib,
                  probeLoad: Probe, probeRecheck: Probe, fs: FsOutcome) returns (outcome: Outcome)
      modifies this
      ensures (State(), outcome) == ReloadSpec(old(State()), now, contents, lib, probeLoad, probeRecheck, fs)
    {
      epochAttempt := now;
      var loaded := ConfigFromFile(file, contents, lib, probeLoad);
      if loaded.None? {
        if generation != 0 {
          return Done(false);
        }
        return Fatal;
      }
      var n := loaded.value;
      var ok, _ := ConfigValid(n, probeRecheck);
      if !ok {
        return Done(false);
      }
      var changed := Install(n, now, lib, fs);
      outcome := Done(changed);
    }
  }
}
