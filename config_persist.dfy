/** The bounded serialiser (`append_to_bufferf`, `config_to_bufferf`) and
    the parts of `config_save` that are not file-system calls
    (src/config.c:298-428). */
module ConfigPersist {
  import opened Util
  import opened ConfigTypes
  import opened ConfigLoad

  /** sizeof(struct bufferf.buf). */
  const BUFFERF_SIZE: int := 4096

  /** PATH_MAX on Linux. */
  const PATH_MAX: int := 4096

  /** `struct bufferf`: a fixed 4096-byte buffer and the offset of its end. */
  class BufferF {
    var buf: array<char>
    var offset: int

    ghost predicate Valid()
      reads this
    {
      buf.Length == BUFFERF_SIZE && 0 <= offset < BUFFERF_SIZE
    }

    /** The text appended so far. */
    ghost function Contents(): string
      reads this, buf
      requires Valid()
    {
      buf[..offset]
    }

    /** A zeroed buffer, as after memset. */
    constructor ()
      ensures Valid() && fresh(buf)
      ensures offset == 0 && Contents() == []
    {
      buf := new char[BUFFERF_SIZE](_ => '\0');
      offset := 0;
    }

    /** append_to_bufferf with the already formatted `text`: vsnprintf into
        the room left writes as much as fits plus a NUL; the offset moves only
        when the whole text fitted with room to spare. Returns the length
        written, 0 on overflow. */
    method Append(text: string) returns (wrote: int)
      requires Valid()
      modifies this, buf
      ensures Valid() && buf == old(buf)
      ensures |text| < BUFFERF_SIZE - old(offset) ==>
        wrote == |text| && offset == old(offset) + |text| && Contents() == old(Contents()) + text
      ensures |text| >= BUFFERF_SIZE - old(offset) ==>
        wrote == 0 && offset == old(offset) && Contents() == old(Contents())
      ensures var n := if |text| < BUFFERF_SIZE - old(offset) then |text| else BUFFERF_SIZE - old(offset) - 1;
        buf[old(offset)..old(offset) + n] == text[..n] && buf[old(offset) + n] == '\0'
    {
      var room := BUFFERF_SIZE - offset;
      var n := if |text| < room then |text| else room - 1;
      WriteTruncated(buf, offset, text, n);
      if |text| >= room {
        return 0;
      }
      offset := offset + |text|;
      wrote := |text|;
      assert buf[..offset] == buf[..old(offset)] + buf[old(offset)..offset];
    }
  }

  /** vsnprintf's output into the room left: the first `n` characters of
      `text` at `at`, then a NUL; what lies before `at` is untouched. */
  method WriteTruncated(buf: array<char>, at: int, text: string, n: int)
    requires 0 <= at && 0 <= n <= |text| && at + n < buf.Length
    modifies buf
    ensures buf[..at] == old(buf[..at])
    ensures buf[at..at + n] == text[..n] && buf[at + n] == '\0'
  {
    for i := 0 to n
      invariant buf[..at] == old(buf[..at])
      invariant buf[at..at + i] == text[..i]
    {
      buf[at + i] := text[i];
      assert buf[at..at + i + 1] == buf[at..at + i] + [text[i]];
    }
    buf[at + n] := '\0';
    assert buf[at..at + n] == text[..n];
  }

  /** How many `name = value` lines config_to_bufferf writes. */
  const SCALAR_LINES: nat := 11

  /** The option names of config_to_bufferf's fixed block, in its order. */
  const SCALAR_NAMES: seq<string> := [
    "syslog_to_stderr", "tcp_send_timeout_sec", "spillway_root", "spill_usec",
    "polling_interval_millisec", "sleep_after_disaster_millisec", "server_socket_rcvbuf_bytes",
    "graphite.addr", "graphite.target", "graphite.send_interval_millisec",
    "graphite.sleep_poll_interval_millisec"]

  /** The value printed on line k: a string field as it is, a number with %d,
      as the 32-bit signed value of the field. */
  function ScalarValue(c: Config, k: nat): string
    requires k < SCALAR_LINES
  {
    if k == 0 then Dec(AsInt32(c.syslogToStderr))
    else if k == 1 then Dec(AsInt32(c.tcpSendTimeoutSec))
    else if k == 2 then c.spillwayRoot
    else if k == 3 then Dec(AsInt32(c.spillUsec))
    else if k == 4 then Dec(AsInt32(c.pollingIntervalMillisec))
    else if k == 5 then Dec(AsInt32(c.sleepAfterDisasterMillisec))
    else if k == 6 then Dec(AsInt32(c.serverSocketRcvbufBytes))
    else if k == 7 then c.graphiteAddr
    else if k == 8 then c.graphiteTarget
    else if k == 9 then Dec(AsInt32(c.graphiteSendIntervalMillisec))
    else Dec(AsInt32(c.graphiteSleepPollIntervalMillisec))
  }

  /** Line k of config_to_bufferf's fixed block: `<name> = <value>\n`. */
  function ScalarLine(c: Config, k: nat): (line: string)
    requires k < SCALAR_LINES
    ensures |line| > 0
  {
    SCALAR_NAMES[k] + " = " + ScalarValue(c, k) + "\n"
  }

  /** The lines config_to_bufferf writes: the eleven `name = value` lines in
      its fixed order, then one line per address. */
  function SerializedLines(c: Config): (lines: seq<string>)
    ensures |lines| == SCALAR_LINES + |c.argv|
    ensures forall k :: 0 <= k < SCALAR_LINES ==> lines[k] == ScalarLine(c, k)
    ensures forall i :: SCALAR_LINES <= i < |lines| ==> lines[i] == c.argv[i - SCALAR_LINES] + "\n"
    ensures forall i :: 0 <= i < |lines| ==> |lines[i]| > 0
  {
    seq(SCALAR_LINES, k requires 0 <= k < SCALAR_LINES => ScalarLine(c, k)) + AddressLines(c.argv)
  }

  function AddressLines(argv: seq<string>): (lines: seq<string>)
    ensures |lines| == |argv|
    ensures forall i :: 0 <= i < |argv| ==> lines[i] == argv[i] + "\n"
  {
    if argv == [] then [] else [argv[0] + "\n"] + AddressLines(argv[1..])
  }

  /** Appends `lines` one after another, stopping at the first that does
      not fit. It succeeds exactly when the whole text fits below the end of
      the buffer; on success the buffer holds the text, on failure a prefix
      of whole lines. */
  method AppendLines(lines: seq<string>, b: BufferF) returns (ok: bool)
    requires b.Valid()
    requires forall i :: 0 <= i < |lines| ==> |lines[i]| > 0
    modifies b, b.buf
    ensures b.Valid() && b.buf == old(b.buf)
    ensures ok <==> old(b.offset) + |Flatten(lines)| < BUFFERF_SIZE
    ensures ok ==> b.Contents() == old(b.Contents()) + Flatten(lines)
    ensures !ok ==> (exists k :: 0 <= k < |lines|
                                && old(b.offset) + |Flatten(lines[..k])| < BUFFERF_SIZE <= old(b.offset) + |Flatten(lines[..k + 1])|
                                && b.Contents() == old(b.Contents()) + Flatten(lines[..k]))
  {
    ghost var start := b.Contents();
    for i := 0 to |lines|
      invariant b.Valid() && b.buf == old(b.buf)
      invariant b.Contents() == start + Flatten(lines[..i])
      invariant b.offset == old(b.offset) + |Flatten(lines[..i])|
    {
      var wrote := b.Append(lines[i]);
      assert lines[..i + 1][..i] == lines[..i];
      if wrote == 0 {
        FlattenPrefixLength(lines, i + 1);
        assert |Flatten(lines[..i + 1])| == |Flatten(lines[..i])| + |lines[i]|;
        return false;
      }
    }
    assert lines[..|lines|] == lines;
    ok := true;
  }

  /** config_to_bufferf: the eleven scalar lines, then the address lines,
      failing as soon as one append fails. */
  method ConfigToBufferf(c: Config, b: BufferF) returns (ok: bool)
    requires b.Valid()
    modifies b, b.buf
    ensures b.Valid() && b.buf == old(b.buf)
    ensures ok <==> old(b.offset) + |Flatten(SerializedLines(c))| < BUFFERF_SIZE
    ensures ok ==> b.Contents() == old(b.Contents()) + Flatten(SerializedLines(c))
    ensures !ok ==> (exists k :: 0 <= k < |SerializedLines(c)|
                       && old(b.offset) + |Flatten(SerializedLines(c)[..k])| < BUFFERF_SIZE
                            <= old(b.offset) + |Flatten(SerializedLines(c)[..k + 1])|
                       && b.Contents() == old(b.Contents()) + Flatten(SerializedLines(c)[..k]))
  {
    ok := AppendLines(SerializedLines(c), b);
  }

  /** Outcomes of the file-system steps of config_save that are not modelled:
      building the temporary name from dirname(3), mkstemp, write, close and
      rename. */
  datatype FsOutcome = FsOutcome(tempNameOk: bool, mkstempOk: bool, writeOk: bool, closeOk: bool, renameOk: bool)

  /** The backup name: `<file>.save.<now>`. */
  function SaveName(file: string, now: int): string
  {
    file + ".save." + Dec(now)
  }

  /** What config_save achieves: the name the configuration was saved under,
      or None when a step failed. */
  function SaveSpec(c: Config, file: Option<string>, now: int, fs: FsOutcome): (r: Option<string>)
    ensures file.None? ==> r.None?
    ensures r.Some? ==> file.Some? && r.value == SaveName(file.value, now) && |r.value| < PATH_MAX
  {
    if file.None? || |file.value| >= PATH_MAX || !fs.tempNameOk || !fs.mkstempOk then None
    else if !(|Flatten(SerializedLines(c))| < BUFFERF_SIZE) || !fs.writeOk || !fs.closeOk then None
    else if |SaveName(file.value, now)| >= PATH_MAX || !fs.renameOk then None
    else Some(SaveName(file.value, now))
  }

  /** config_save's copy of the file name into a PATH_MAX buffer: characters
      are copied while the buffer has room; the copy succeeds only when a
      terminating NUL still fits after the whole name. */
  method CopyName(file: string) returns (temp: array<char>, ok: bool)
    ensures fresh(temp) && temp.Length == PATH_MAX
    ensures ok <==> |file| < PATH_MAX
    ensures ok ==> temp[..|file|] == file && temp[|file|] == '\0'
  {
    temp := new char[PATH_MAX];
    var q := 0;
    while q < |file| && q < temp.Length
      invariant q <= |file| && q <= temp.Length
      invariant temp[..q] == file[..q]
    {
      temp[q] := file[q];
      q := q + 1;
    }
    if q < temp.Length {
      temp[q] := '\0';
      ok := true;
    } else {
      ok := false;
    }
  }

  /** config_save: refuses a NULL file name, copies the name into a
      PATH_MAX buffer, serialises the configuration into a fresh bufferf,
      and renames the written temporary file to the backup name. */
  method ConfigSave(c: Config, file: Option<string>, now: int, fs: FsOutcome) returns (saved: Option<string>)
    ensures saved == SaveSpec(c, file, now, fs)
  {
    if file.None? {
      return None;
    }
    var temp, copied := CopyName(file.value);
    if !copied || !fs.tempNameOk || !fs.mkstempOk {
      return None;
    }
    var b := new BufferF();
    var ok := ConfigToBufferf(c, b);
    if !ok || !fs.writeOk || !fs.closeOk {
      return None;
    }
    var name := file.value + ".save." + Dec(now);
    if |name| >= PATH_MAX || !fs.renameOk {
      return None;
    }
    saved := Some(name);
  }

  /** The value text of a numeric line parses back to the field's 32 bits. */
  lemma NumericValueRoundTrip(cur: u32, v: u32)
    ensures NumValue(cur, Dec(AsInt32(v))) == v
  {
    StrToLDec(AsInt32(v));
  }

  /** No name config_to_bufferf writes holds an '='. */
  lemma NoEqualsInScalarNames(k: nat)
    requires k < SCALAR_LINES
    ensures '=' !in SCALAR_NAMES[k]
  {
  }

  /** No option name the loader accepts ends in a space. */
  lemma NoTrailingSpaceInNames(j: nat)
    requires j < |OPTION_NAMES|
    ensures |OPTION_NAMES[j]| > 0 && OPTION_NAMES[j][|OPTION_NAMES[j]| - 1] != ' '
  {
  }

  /** The first '=' of a line that starts with `name =`, for a name
      without '=', is the one after the space. */
  lemma FirstEquals(line: string, name: string)
    requires '=' !in name
    requires name + " =" <= line
    ensures IndexOf(line, '=') == Some(|name| + 1)
  {
    assert line[|name| + 1] == '=';
    assert line[..|name|] == name;
  }

  /** With an exact STREQ, no option name matches a key ending in a space. */
  lemma SpacedKeyUnknown(key: string, lib: Lib)
    requires ExactStreq(lib)
    requires |key| > 0 && key[|key| - 1] == ' '
    ensures forall name :: name in OPTION_NAMES ==> !lib.streq(name, key)
  {
    forall j | 0 <= j < |OPTION_NAMES|
      ensures !lib.streq(OPTION_NAMES[j], key)
    {
      NoTrailingSpaceInNames(j);
    }
  }

  /** A line whose cleaned text starts with `name =` is rejected: its key is
      the name followed by a space. */
  lemma SpacedKeyRejected(c: Config, raw: string, name: string, lib: Lib)
    requires ExactStreq(lib)
    requires '=' !in name
    requires name + " =" <= Cleaned(raw, lib)
    ensures ApplyLine(c, raw, lib) == None
  {
    var line := Cleaned(raw, lib);
    FirstEquals(line, name);
    assert line[..|name| + 1][|name|] == ' ';
    SpacedKeyUnknown(line[..|name| + 1], lib);
  }

  /** The loader splits a saved `name = value` line at its first '=' and
      keeps the space before it in the key, so with an exact STREQ no option
      name matches and the line is rejected, as long as trim_space leaves
      the start of the line alone. */
  lemma SavedLineRejected(c: Config, k: nat, lib: Lib)
    requires ExactStreq(lib)
    requires k < SCALAR_LINES
    requires SCALAR_NAMES[k] + " =" <= Cleaned(ScalarLine(c, k), lib)
    ensures ApplyLine(c, ScalarLine(c, k), lib) == None
  {
    NoEqualsInScalarNames(k);
    SpacedKeyRejected(c, ScalarLine(c, k), SCALAR_NAMES[k], lib);
  }
}
