/** The line-oriented loader `config_from_file` (src/config.c:195-296). The
    file is given as the lines getline(3) returns (None when fopen fails);
    trim_space and STREQ come from the Lib parameter. */
module ConfigLoad {
  import opened Util
  import opened ConfigTypes
  import opened ConfigValidate

  /** The option names of the TRY_OPT block, in the order they are tried. */
  const OPTION_NAMES: seq<string> := [
    "syslog_to_stderr", "tcp_send_timeout_sec", "polling_interval_millisec",
    "sleep_after_disaster_millisec", "server_socket_rcvbuf_bytes", "spillway_root",
    "spill_usec", "graphite.addr", "graphite.target",
    "graphite.send_interval_millisec", "graphite.sleep_poll_interval_millisec"]

  /** TRY_NUM_OPT's value handling: a value strtol consumes completely is
      stored (truncated to the field's 32 bits); any other is ignored with a
      warning and the field keeps its value. */
  function NumValue(cur: u32, value: string): u32
  {
    var t := StrToL(value);
    if t.end == |value| then Wrap32(t.value) else cur
  }

  /** The index of the first option name from `i` on that STREQ matches. */
  function FindOption(key: string, lib: Lib, i: nat): (r: Option<nat>)
    requires i <= |OPTION_NAMES|
    ensures r.Some? ==> i <= r.value < |OPTION_NAMES| && lib.streq(OPTION_NAMES[r.value], key)
    ensures r.Some? ==> forall j :: i <= j < r.value ==> !lib.streq(OPTION_NAMES[j], key)
    ensures r.None? <==> forall j :: i <= j < |OPTION_NAMES| ==> !lib.streq(OPTION_NAMES[j], key)
    decreases |OPTION_NAMES| - i
  {
    if i == |OPTION_NAMES| then None
    else if lib.streq(OPTION_NAMES[i], key) then Some(i)
    else FindOption(key, lib, i + 1)
  }

  /** The assignment made by the option at index `k` of OPTION_NAMES. */
  function TryOpt(c: Config, k: nat, value: string): (r: Config)
    requires k < |OPTION_NAMES|
    ensures r.argv == c.argv
  {
    if k == 0 then c.(syslogToStderr := NumValue(c.syslogToStderr, value))
    else if k == 1 then c.(tcpSendTimeoutSec := NumValue(c.tcpSendTimeoutSec, value))
    else if k == 2 then c.(pollingIntervalMillisec := NumValue(c.pollingIntervalMillisec, value))
    else if k == 3 then c.(sleepAfterDisasterMillisec := NumValue(c.sleepAfterDisasterMillisec, value))
    else if k == 4 then c.(serverSocketRcvbufBytes := NumValue(c.serverSocketRcvbufBytes, value))
    else if k == 5 then c.(spillwayRoot := value)
    else if k == 6 then c.(spillUsec := NumValue(c.spillUsec, value))
    else if k == 7 then c.(graphiteAddr := value)
    else if k == 8 then c.(graphiteTarget := value)
    else if k == 9 then c.(graphiteSendIntervalMillisec := NumValue(c.graphiteSendIntervalMillisec, value))
    else c.(graphiteSleepPollIntervalMillisec := NumValue(c.graphiteSleepPollIntervalMillisec, value))
  }

  /** The TRY_OPT block: the first option whose name STREQ matches the key
      sets its field; no match rejects the load. */
  function SetOption(c: Config, key: string, value: string, lib: Lib): (r: Option<Config>)
    ensures r.Some? ==> r.value.argv == c.argv
    ensures r.None? <==> forall name :: name in OPTION_NAMES ==> !lib.streq(name, key)
  {
    match FindOption(key, lib, 0)
    case None => None
    case Some(k) => Some(TryOpt(c, k, value))
  }

  /** The line with everything from the first '#' on removed. */
  function CutComment(line: string): (r: string)
    ensures '#' !in r
    ensures r <= line
    ensures '#' !in line ==> r == line
    ensures |r| < |line| ==> line[|r|] == '#'
  {
    match IndexOf(line, '#')
    case None => line
    case Some(i) => line[..i]
  }

  /** The text the loop body works on: comment cut, then trimmed. */
  function Cleaned(raw: string, lib: Lib): string
  {
    lib.trim(CutComment(raw))
  }

  /** A non-blank line without '=' names an address. */
  predicate IsPositional(raw: string, lib: Lib)
  {
    var line := Cleaned(raw, lib);
    |line| > 0 && IndexOf(line, '=').None?
  }

  /** A line that makes the load return NULL: '=' as its last character, or
      a key that no option name matches. */
  predicate Rejects(raw: string, lib: Lib)
  {
    var line := Cleaned(raw, lib);
    |line| > 0 && IndexOf(line, '=').Some? &&
    var e := IndexOf(line, '=').value;
    e == |line| - 1 ||
    (forall name :: name in OPTION_NAMES ==> !lib.streq(name, line[..e]))
  }

  /** The effect of one line on the snapshot being built; None is a rejection. */
  function ApplyLine(c: Config, raw: string, lib: Lib): (r: Option<Config>)
    ensures r.Some? ==> r.value.argv == c.argv + (if IsPositional(raw, lib) then [Cleaned(raw, lib)] else [])
  {
    var line := Cleaned(raw, lib);
    if |line| == 0 then Some(c)
    else match IndexOf(line, '=')
      case None => Some(c.(argv := c.argv + [line]))
      case Some(e) =>
        if e == |line| - 1 then None
        else SetOption(c, line[..e], line[e + 1..], lib)
  }

  /** All lines, in file order, starting from snapshot `c`. */
  function ParseLines(c: Config, lines: seq<string>, lib: Lib): Option<Config>
    decreases |lines|
  {
    if lines == [] then Some(c)
    else match ApplyLine(c, lines[0], lib)
      case None => None
      case Some(c') => ParseLines(c', lines[1..], lib)
  }

  /** The positional lines, cleaned, in file order. */
  function Positionals(lines: seq<string>, lib: Lib): seq<string>
  {
    if lines == [] then []
    else (if IsPositional(lines[0], lib) then [Cleaned(lines[0], lib)] else [])
         + Positionals(lines[1..], lib)
  }

  /** What config_from_file returns: NULL for an unknown file name, a file
      that cannot be opened, a rejected line or an invalid result. */
  function LoadSpec(file: Option<string>, contents: Option<seq<string>>, lib: Lib, probe: Probe): Option<Config>
  {
    if file.None? || contents.None? then None
    else match ParseLines(Defaults(lib), contents.value, lib)
      case None => None
      case Some(c) => if RulesHold(c, probe) then Some(c) else None
  }

  /** A line fails on its own: whether it rejects does not depend on the
      snapshot built so far. */
  lemma ApplyLineNone(c: Config, raw: string, lib: Lib)
    ensures ApplyLine(c, raw, lib).None? <==> Rejects(raw, lib)
  {
  }

  /** The load is rejected exactly when some line rejects. */
  lemma {:induction false} ParseLinesNone(c: Config, lines: seq<string>, lib: Lib)
    ensures ParseLines(c, lines, lib).None? <==> exists k :: 0 <= k < |lines| && Rejects(lines[k], lib)
    decreases |lines|
  {
    if lines != [] {
      ApplyLineNone(c, lines[0], lib);
      match ApplyLine(c, lines[0], lib)
      case None =>
      case Some(c') =>
        ParseLinesNone(c', lines[1..], lib);
        if exists k :: 0 <= k < |lines| && Rejects(lines[k], lib) {
          var k :| 0 <= k < |lines| && Rejects(lines[k], lib);
          assert k > 0;
          assert Rejects(lines[1..][k - 1], lib);
        }
    }
  }

  /** A successful load lists the positional lines as addresses, in file
      order, after those already present. */
  lemma {:induction false} ParseLinesArgv(c: Config, lines: seq<string>, lib: Lib)
    requires ParseLines(c, lines, lib).Some?
    ensures ParseLines(c, lines, lib).value.argv == c.argv + Positionals(lines, lib)
    decreases |lines|
  {
    if lines != [] {
      var c' := ApplyLine(c, lines[0], lib).value;
      var p0 := if IsPositional(lines[0], lib) then [Cleaned(lines[0], lib)] else [];
      assert c'.argv == c.argv + p0;
      assert Positionals(lines, lib) == p0 + Positionals(lines[1..], lib);
      assert ParseLines(c, lines, lib) == ParseLines(c', lines[1..], lib);
      ParseLinesArgv(c', lines[1..], lib);
      AppendAssoc(c.argv, p0, Positionals(lines[1..], lib));
    }
  }

  /** A line with only a comment, or nothing but white space, changes nothing. */
  lemma BlankLineSkipped(c: Config, raw: string, lib: Lib)
    requires |Cleaned(raw, lib)| == 0
    ensures ApplyLine(c, raw, lib) == Some(c)
  {
  }

  /** The indices of OPTION_NAMES that TRY_NUM_OPT handles (the others,
      spillway_root, graphite.addr and graphite.target, are TRY_STR_OPT). */
  predicate IsNumericOption(k: nat)
  {
    k < |OPTION_NAMES| && k != 5 && k != 7 && k != 8
  }

  /** The field the numeric option at index `k` sets. */
  function NumField(c: Config, k: nat): u32
    requires IsNumericOption(k)
  {
    if k == 0 then c.syslogToStderr
    else if k == 1 then c.tcpSendTimeoutSec
    else if k == 2 then c.pollingIntervalMillisec
    else if k == 3 then c.sleepAfterDisasterMillisec
    else if k == 4 then c.serverSocketRcvbufBytes
    else if k == 6 then c.spillUsec
    else if k == 9 then c.graphiteSendIntervalMillisec
    else c.graphiteSleepPollIntervalMillisec
  }

  /** `d` agrees with `c` on every field except the numeric field `k`. */
  predicate OthersKept(c: Config, d: Config, k: nat)
  {
    && d.spillwayRoot == c.spillwayRoot
    && d.graphiteAddr == c.graphiteAddr
    && d.graphiteTarget == c.graphiteTarget
    && d.argv == c.argv
    && forall j: nat :: j < |OPTION_NAMES| && IsNumericOption(j) && j != k ==> NumField(d, j) == NumField(c, j)
  }

  /** No two option names are the same. */
  lemma NamesDistinct(i: nat, j: nat)
    requires i < j < |OPTION_NAMES|
    ensures OPTION_NAMES[i] != OPTION_NAMES[j]
  {
    // only spillway_root and graphite.addr share a length, and their first
    // characters differ
    assert |OPTION_NAMES[i]| != |OPTION_NAMES[j]| || OPTION_NAMES[i][0] != OPTION_NAMES[j][0];
  }

  /** The option names are distinct, so with an exact STREQ each name is
      found at its own index. */
  lemma FindOwnName(lib: Lib, k: nat)
    requires ExactStreq(lib)
    requires k < |OPTION_NAMES|
    ensures FindOption(OPTION_NAMES[k], lib, 0) == Some(k)
  {
    assert lib.streq(OPTION_NAMES[k], OPTION_NAMES[k]);
    var r := FindOption(OPTION_NAMES[k], lib, 0);
    assert r.Some? && r.value <= k;
    if r.value < k {
      NamesDistinct(r.value, k);
    }
  }

  /** The option at a numeric index stores NumValue in its own field and
      keeps every other field. */
  lemma TryOptNumeric(c: Config, k: nat, value: string)
    requires IsNumericOption(k)
    ensures NumField(TryOpt(c, k, value), k) == NumValue(NumField(c, k), value)
    ensures OthersKept(c, TryOpt(c, k, value), k)
  {
  }

  /** A config that keeps every field but `k`, and keeps `k` too, is the same. */
  lemma KeptAll(c: Config, d: Config, k: nat)
    requires IsNumericOption(k)
    requires OthersKept(c, d, k) && NumField(d, k) == NumField(c, k)
    ensures d == c
  {
    assert NumField(d, 0) == NumField(c, 0) && NumField(d, 1) == NumField(c, 1);
    assert NumField(d, 2) == NumField(c, 2) && NumField(d, 3) == NumField(c, 3);
    assert NumField(d, 4) == NumField(c, 4) && NumField(d, 6) == NumField(c, 6);
    assert NumField(d, 9) == NumField(c, 9) && NumField(d, 10) == NumField(c, 10);
  }

  /** With an exact STREQ, a numeric option whose value has trailing garbage
      is ignored, and one whose value strtol consumes completely is stored in
      its own field, truncated to 32 bits, with every other field kept. */
  lemma NumericOption(c: Config, k: nat, value: string, lib: Lib)
    requires ExactStreq(lib)
    requires IsNumericOption(k)
    ensures StrToL(value).end != |value| ==>
      SetOption(c, OPTION_NAMES[k], value, lib) == Some(c)
    ensures StrToL(value).end == |value| ==>
      var r := SetOption(c, OPTION_NAMES[k], value, lib);
      && r.Some?
      && NumField(r.value, k) == Wrap32(StrToL(value).value)
      && OthersKept(c, r.value, k)
  {
    FindOwnName(lib, k);
    TryOptNumeric(c, k, value);
    assert SetOption(c, OPTION_NAMES[k], value, lib) == Some(TryOpt(c, k, value));
    if StrToL(value).end != |value| {
      KeptAll(c, TryOpt(c, k, value), k);
    }
  }

  /** The indices of OPTION_NAMES that TRY_STR_OPT handles. */
  predicate IsStringOption(k: nat)
  {
    k == 5 || k == 7 || k == 8
  }

  /** The field the string option at index `k` sets. */
  function StrField(c: Config, k: nat): string
    requires IsStringOption(k)
  {
    if k == 5 then c.spillwayRoot
    else if k == 7 then c.graphiteAddr
    else c.graphiteTarget
  }

  /** `d` agrees with `c` on every field except the string field `k`. */
  predicate OthersKeptText(c: Config, d: Config, k: nat)
  {
    && d.argv == c.argv
    && (forall j: nat :: j < |OPTION_NAMES| && IsNumericOption(j) ==> NumField(d, j) == NumField(c, j))
    && (forall j: nat :: j < |OPTION_NAMES| && IsStringOption(j) && j != k ==> StrField(d, j) == StrField(c, j))
  }

  /** The option at a string index stores the value in its own field and
      keeps every other field. */
  lemma TryOptString(c: Config, k: nat, value: string)
    requires IsStringOption(k)
    ensures StrField(TryOpt(c, k, value), k) == value
    ensures OthersKeptText(c, TryOpt(c, k, value), k)
  {
  }

  /** With an exact STREQ, a string option stores its value as written (the
      strdup of TRY_STR_OPT), whatever it is, and keeps every other field. */
  lemma StringOption(c: Config, k: nat, value: string, lib: Lib)
    requires ExactStreq(lib)
    requires IsStringOption(k)
    ensures var r := SetOption(c, OPTION_NAMES[k], value, lib);
      && r.Some?
      && StrField(r.value, k) == value
      && OthersKeptText(c, r.value, k)
  {
    FindOwnName(lib, k);
    TryOptString(c, k, value);
    assert SetOption(c, OPTION_NAMES[k], value, lib) == Some(TryOpt(c, k, value));
  }

  /** config_from_file: reads the lines in order, growing the address list
      in place, then validates the result. */
  method ConfigFromFile(file: Option<string>, contents: Option<seq<string>>, lib: Lib, probe: Probe)
    returns (r: Option<Config>)
    ensures r == LoadSpec(file, contents, lib, probe)
  {
    var config := Defaults(lib);
    if file.None? {
      return None;
    }
    if contents.None? {
      return None;
    }
    var lines := contents.value;
    var i := 0;
    while i < |lines|
      invariant 0 <= i <= |lines|
      invariant ParseLines(Defaults(lib), lines, lib) == ParseLines(config, lines[i..], lib)
    {
      assert lines[i..][0] == lines[i] && lines[i..][1..] == lines[i + 1..];
      var line := CutComment(lines[i]);
      line := lib.trim(line);
      if |line| > 0 {
        var eq := IndexOf(line, '=');
        if eq.Some? {
          var e := eq.value;
          if e == |line| - 1 {
            return None;
          }
          var opt := SetOption(config, line[..e], line[e + 1..], lib);
          if opt.None? {
            return None;
          }
          config := opt.value;
        } else {
          config := config.(argv := config.argv + [line]);
        }
      }
      i := i + 1;
    }
    var ok, _ := ConfigValid(config, probe);
    if !ok {
      return None;
    }
    r := Some(config);
  }
}
