/** The configuration record of src/config.c (`config_t` without its
    provenance fields) and the external collaborators the configuration
    engine calls but does not define. */
module ConfigTypes {
  import opened Util

  /** One configuration snapshot. Numeric fields hold 32-bit patterns;
      `argv[0]` is the listener address, `argv[1..]` the forward addresses. */
  datatype Config = Config(
    syslogToStderr: u32,
    tcpSendTimeoutSec: u32,
    pollingIntervalMillisec: u32,
    sleepAfterDisasterMillisec: u32,
    serverSocketRcvbufBytes: u32,
    spillwayRoot: string,
    spillUsec: u32,
    graphiteAddr: string,
    graphiteTarget: string,
    graphiteSendIntervalMillisec: u32,
    graphiteSleepPollIntervalMillisec: u32,
    argv: seq<string>)

  /** IPPROTO_UDP / IPPROTO_TCP as far as address checking is concerned. */
  datatype Proto = Udp | Tcp

  /** RELAY_CONN_IS_INBOUND (0) / RELAY_CONN_IS_OUTBOUND (1) of socket_util.h. */
  datatype Direction = Inbound | Outbound

  /** String helpers from string_util.h, which is not part of this model,
      and the DEFAULT_* values of config.h. */
  datatype Lib = Lib(
    trim: string -> string,             // trim_space
    streq: (string, string) -> bool,    // STREQ; STRNE is its negation
    defaults: Config)                   // what config_set_defaults installs

  /** What the checks of config_valid observe of the outside world. */
  datatype Probe = Probe(
    socketize: (string, Proto, Direction) -> bool,  // socketize(arg, ..) succeeded
    statDir: string -> bool)                        // `stat(..) == 0 || S_ISDIR(..)`

  /** STREQ compares exactly, as strcmp(a, b) == 0 would. */
  ghost predicate ExactStreq(lib: Lib)
  {
    forall a: string, b: string :: lib.streq(a, b) <==> a == b
  }

  /** The snapshot calloc + config_set_defaults produce: defaults, no addresses. */
  function Defaults(lib: Lib): (c: Config)
    ensures c.argv == []
  {
    lib.defaults.(argv := [])
  }
}
