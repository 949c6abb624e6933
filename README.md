# event-relay configuration engine, control word and graphite worker in Dafny

This project models three parts of the relay daemon:

- **The configuration engine (`src/config.c`).**
  - The field validators and `config_valid`.
  - The line-oriented loader `config_from_file`.
  - The bounded serialiser `append_to_bufferf` / `config_to_bufferf`.
  - The non-file-system part of `config_save`: refusing a NULL name, copying the name into a `PATH_MAX` buffer, and building the `<file>.save.<now>` backup name.
  - The reload state machine `config_reload`. It loads and validates the file, merges the new snapshot field by field, replaces the address list, and keeps the provenance fields `generation`, `epoch_attempt`, `epoch_changed` and `epoch_success`.
- **The process-wide control word (`src/control.c`).** The main thread sets and clears its bits; every thread reads it.
- **The graphite worker (`src/graphite_worker.c`).**
  - `graphite_worker_destroy`'s claim on the stopping bit.
  - The namespace root of `graphite_worker_setup_root`.
  - The twenty lines per socket worker of `graphite_build_worker`.
  - The worker loop, the six blob lines and the size-bucket loop of `graphite_build`.
  - The chunked pause of `graphite_wait`.
  - The build, connect, send and wait cycle of `graphite_worker_thread`, with the flush and the death report after its loop.

## How the model is built

- **Modules.** There is one module per concern:
  - `Util`: 32-bit words, decimal text, `strtol`, sequence lemmas;
  - `Control`;
  - `ConfigTypes`, `ConfigValidate`, `ConfigLoad`, `ConfigPersist` and `ConfigReload`;
  - `GraphiteWait`, `GraphiteLines` and `GraphiteWorker`.
- **State kept in place by the source is kept in classes.**
  - `Control.ControlWord` holds the control word.
  - `ConfigPersist.BufferF` is `struct bufferf`, over a 4096-character array.
  - `ConfigReload.RuntimeConfig` is the live `config_t`.
  - `GraphiteLines.FixedBuffer` is a `fixed_buffer_t`.
  - `GraphiteWorker.Worker` holds the worker's stopping word.
- **Specification functions and loops.** Most state-changing methods are proved equal to a specification function, and the properties are proved about those functions. Examples:
  - `Reload` is proved against `ReloadSpec`;
  - `ConfigFromFile` against `LoadSpec`;
  - `BuildWorkers` against `GroupsPhase`, and `Build` against `BuildSpec`;
  - `BucketLoop` against `BucketIndices` and `PutBuckets`.
- **Methods stated directly.** The control-word methods, `BufferF.Append`, `WriteTruncated` and `CopyName` state their new state or result outright.
- **Loops.** Each loop of the source is a loop here, with its invariants. Two of them are also given a recursive form that the validation rules use:
  - `ScanGraphiteTarget` runs the two loops of `is_valid_graphite_target`, and is proved equal to the recursive `SkipWord` / `ScanTarget`;
  - `CopyName` runs `config_save`'s name copy, and `SaveSpec` states its outcome as the length test it amounts to.
- **Appends written as a chain.** The source writes the eleven scalar appends of `config_to_bufferf`, and the twenty stats appends of `graphite_build_worker`, as a chain of `if (!append) return 0;` statements. These are written here as one loop over the list of lines (`AppendLines`, `AppendUntilFailure`).
- **Code that is not part of this model becomes function-typed parameters:**
  - `trim_space`, `STREQ`, the `DEFAULT_*` values and `socketize`;
  - the `stat` expression of `is_valid_directory`;
  - `fixed_buffer_vcatf`'s success, as the `Fits` oracle;
  - `gethostname` and `reverse_dotwise`;
  - the results of the file-system calls of `config_save`;
  - the values each atomic read of a stopping or control word returns.
- **Concurrency.** Another thread may set the stopping word at any moment. This is modelled by giving the sequence of values the reads return: `stopRead` in `GraphiteWait.Wait`, `stopAt` in `GraphiteWorker.Env`.
- **Where the intended behaviour and the code disagree, the code is followed:**
  - **A failed second check is never fatal.** `config_reload` returns 0 when the loaded snapshot fails the second `config_valid`, even at generation 0 (`src/config.c:490-494`). Only a failed first load ends the process.
  - **The directory check accepts any existing path.** As written, `stat(..) == 0 || S_ISDIR(..)` accepts any existing path, not only directories. `Probe.statDir` stands for that expression as written.
  - **The namespace root is stricter than "words joined by dots".** The character after a dot must be a letter or a digit, so `a._b` is refused (`ConfigValidate.TargetCounterexamples`).
  - **Buffer sizes start at 1048576.** `size >= 1 << 20` accepts 1048576 and refuses 1052680, which is not a multiple of 4096 anyway (`src/config.c:144-149`, `ConfigValidate.NumericBoundaries`).
  - **epoch_success is stamped only on success.** A failed load or a failed second check leaves it alone; only epoch_attempt is stamped on every call (`src/config.c:560`, `ConfigReload.ReloadSpec`).
  - **A backup is attempted after every successful reload,** whether or not anything changed (`src/config.c:564-566`, `ConfigReload.Installed`).
  - **A failing worker does not fail the build,** and the six blob appends ignore their results. Within the sections modelled, only an unfit blobs or buckets format makes `graphite_build` return 0 (`src/graphite_worker.c:180-185`, `src/graphite_worker.c:197-203`, `GraphiteLines.Build`). The mallinfo section, which is not modelled, adds two more ways to fail; see "## Left out".
  - **A saved configuration cannot be loaded back as written.** `config_to_bufferf` writes `name = value` (`src/config.c:318-339`). The loader splits the trimmed line at its first `=` and does not trim the key (`src/config.c:249-256`), so the key ends in a space, no option name matches it, and the load is rejected (`ConfigPersist.SavedLineRejected`).

## Model

| member | source | states |
|---|---|---|
| Control.SetBits | src/control.c:7-10 | OR-ing in `v` sets exactly the bits of `v` and leaves every other bit as it was |
| Control.UnsetBits | src/control.c:12-16 | AND-ing with the complement clears exactly the bits of `v` and leaves every other bit as it was |
| Control.ControlWord.SetControlBits | src/control.c:7-10 | the word becomes the old word with the bits of `v` set |
| Control.ControlWord.UnsetControlBits | src/control.c:12-16 | the word becomes the old word with the bits of `v` cleared |
| Control.ControlWord.SetStopped | src/control.c:18-21 | sets RELAY_STOP and keeps the other bits |
| Control.ControlWord.GetControlVal | src/control.c:23-26 | returns the current word |
| Control.ControlWord.NotStopped | src/control.c:28-32 | true exactly when RELAY_STOP is clear |
| Control.ControlWord.IsStopped | src/control.c:34-38 | true exactly when RELAY_STOP is set |
| Control.ReadersComplement | src/control.c:28-38 | `not_stopped` and `is_stopped` always answer opposite ways |
| Control.Idempotent | src/control.c:7-16 | setting, or clearing, the same bits twice is the same as doing it once |
| Control.StopPersists | src/control.c:7-21 | once RELAY_STOP is set, setting further bits cannot clear it |
| Control.StopThenSet | src/control.c:7-38 | after `set_stopped` and any `set_control_bits`, `not_stopped` is false and `is_stopped` is true |
| ConfigTypes.Defaults | src/config.c:29-47 | the snapshot calloc + config_set_defaults produce has no addresses |
| ConfigValidate.IsValidSec | src/config.c:136-141 | a value in seconds is valid exactly from 1 to 60 |
| ConfigValidate.IsValidMillisec | src/config.c:122-127 | a value in milliseconds is valid exactly from 1 to 1000000 |
| ConfigValidate.IsValidMicrosec | src/config.c:129-134 | a value in microseconds is valid exactly from 1 to 1000000 |
| ConfigValidate.IsValidBufferSize | src/config.c:144-149 | a buffer size is valid exactly when its low twelve bits are clear and it is at least `1 << 20` |
| ConfigValidate.AddressOk | src/config.c:100-111 | an address is valid exactly when it is non-empty and socketize accepts it for the given protocol and direction |
| ConfigValidate.DirectoryOk | src/config.c:113-120 | a directory is valid exactly when its path is non-empty and the stat expression, as written, holds |
| ConfigValidate.MaskIsRemainder | src/config.c:144-149 | the `size & 4095` test is the remainder-by-4096 test, and `1 << 20` is 1048576 |
| ConfigValidate.NumericBoundaries | src/config.c:122-149 | the edges of each range: seconds 1..60, milli- and microseconds 1..1000000, buffer sizes multiples of 4096 from 1 MiB |
| ConfigValidate.SkipWord | src/config.c:87-88 | the inner loop stops at the first non-word character at or after `p`, and everything it skips is a word character |
| ConfigValidate.ScanTarget | src/config.c:86-97 | the outer scanning loop, from position `p`: a word, then either the end or a dot followed by a letter or digit and another round |
| ConfigValidate.ScanTargetMeaning | src/config.c:86-97 | the scanning loop accepts from `p` exactly when the rest is empty, or starts with a word character and every position is a word character or a dot followed by a letter or digit |
| ConfigValidate.IsValidGraphiteTarget | src/config.c:80-98 | accepts exactly the non-empty names made of word characters and single dots each followed by a letter or digit |
| ConfigValidate.ScanGraphiteTarget | src/config.c:80-98 | the loop version accepts exactly when the recursive scan does, that is exactly the dotted names |
| ConfigValidate.TargetExamples | src/config.c:80-98 | `a` and `a_1.b9` are accepted; the empty name and `.a` are refused |
| ConfigValidate.TargetCounterexamples | src/config.c:80-98 | a trailing dot, a double dot, `_` after a dot and a character outside the word set are refused |
| ConfigValidate.FieldViolations | src/config.c:164-175 | the ten field checks report only field violations |
| ConfigValidate.ForwardViolationsEmpty | src/config.c:187-189 | the forward loop reports nothing exactly when every forward address below `k` passes the outbound TCP check |
| ConfigValidate.Violations | src/config.c:160-193 | the failures config_valid reports, in its order: the field checks, then the listener, then each forward address from index 1, or one missing-forwards report |
| ConfigValidate.ViolationsEmptyIff | src/config.c:160-193 | nothing is reported exactly when every rule holds |
| ConfigValidate.MissingAddresses | src/config.c:177-190 | with no addresses both the listener and the forwards are reported missing; with one only the forwards; with two or more neither |
| ConfigValidate.CheckForwards | src/config.c:186-189 | the loop reports, in order, each forward address from index 1 that fails the check |
| ConfigValidate.ConfigValid | src/config.c:160-193 | reports the violations in the source's order, and is valid exactly when all the rules hold |
| ConfigLoad.FindOption | src/config.c:256-274 | finds the first option name STREQ matches, or none when no name matches |
| ConfigLoad.TryOpt | src/config.c:198-214 | setting an option never touches the address list |
| ConfigLoad.SetOption | src/config.c:256-274 | the key is rejected exactly when no option name matches it; a match keeps the address list |
| ConfigLoad.CutComment | src/config.c:243-244 | the cut line holds no `#` and is a prefix of the line. A line without `#` is kept whole, and a shorter result stops exactly at a `#` |
| ConfigLoad.ApplyLine | src/config.c:243-281 | a line that is accepted adds its cleaned text to the address list exactly when it is non-blank and has no `=` |
| ConfigLoad.ParseLines | src/config.c:237-283 | the lines are applied in file order to one snapshot, and the first rejected line makes the whole load NULL |
| ConfigLoad.LoadSpec | src/config.c:216-296 | NULL for a NULL file name or an unopenable file; otherwise the lines applied to the defaults, NULL when a line rejects or the result fails config_valid |
| ConfigLoad.ApplyLineNone | src/config.c:248-274 | whether a line rejects the load does not depend on the snapshot built so far |
| ConfigLoad.ParseLinesNone | src/config.c:237-283 | the lines are rejected exactly when some line rejects |
| ConfigLoad.ParseLinesArgv | src/config.c:277-281 | a successful load lists the positional lines as addresses, in file order |
| ConfigLoad.BlankLineSkipped | src/config.c:243-248 | a blank or comment-only line changes nothing |
| ConfigLoad.FindOwnName | src/config.c:256-274 | with an exact STREQ, each option name is found at its own place in the TRY_OPT order |
| ConfigLoad.NamesDistinct | src/config.c:256-274 | no two option names of the TRY_OPT block are equal |
| ConfigLoad.TryOptNumeric | src/config.c:198-214 | a numeric option stores the value's meaning in its own field and keeps every other field |
| ConfigLoad.NumericOption | src/config.c:198-207 | for every numeric option, with an exact STREQ: a value with trailing characters is ignored, and the configuration is unchanged. A fully numeric value is stored in that option's field, truncated to 32 bits, and every other field is kept |
| ConfigLoad.TryOptString | src/config.c:208-214 | a string option stores the value in its own field and keeps every other field |
| ConfigLoad.StringOption | src/config.c:208-214 | for each of spillway_root, graphite.addr and graphite.target, with an exact STREQ: the value is stored as written, whatever it is, and every other field, numeric or string, and the address list are kept |
| ConfigLoad.ConfigFromFile | src/config.c:216-296 | returns NULL for an unknown file, an unopenable file, a rejected line or an invalid snapshot, and otherwise the snapshot the lines build |
| ConfigPersist.BufferF.Append | src/config.c:304-314 | text that fits with room for the NUL is appended and its length returned; otherwise 0 is returned and the offset does not move; either way the truncated copy and its NUL are written |
| ConfigPersist.WriteTruncated | src/config.c:309 | the formatted text, cut to the room left, is written at the offset and ends with a NUL; the text before the offset is untouched |
| ConfigPersist.ScalarLine | src/config.c:318-339 | each scalar line is non-empty |
| ConfigPersist.SerializedLines | src/config.c:316-346 | eleven `name = value` lines in the fixed order, then one line per address, each non-empty |
| ConfigPersist.AddressLines | src/config.c:340-343 | one line per address, in order |
| ConfigPersist.AppendLines | src/config.c:316-346 | succeeds exactly when the whole text fits; on success the buffer holds all of it. On failure it holds exactly the lines before the first line that does not fit: those lines fit, and adding that line would not |
| ConfigPersist.ConfigToBufferf | src/config.c:316-346 | the same, for the serialised configuration |
| ConfigPersist.CopyName | src/config.c:375-387 | the copy succeeds exactly when the name is shorter than PATH_MAX; it then holds the whole name followed by a NUL |
| ConfigPersist.SaveSpec | src/config.c:365-428 | a NULL file never saves; a save is always under `<file>.save.<now>`, and that name is shorter than PATH_MAX |
| ConfigPersist.ConfigSave | src/config.c:365-428 | config_save follows SaveSpec step by step |
| ConfigPersist.NumericValueRoundTrip | src/config.c:198-207 | strtol in TRY_NUM_OPT reads the `%d` text of a field back as the same 32 bits; the line that carries it is rejected, see SavedLineRejected |
| ConfigPersist.SavedLineRejected | src/config.c:249-256 | with an exact STREQ, and a trim that keeps the start of the line, every `name = value` line config_to_bufferf writes is rejected by the loader, because the key keeps the space before `=` |
| ConfigPersist.SpacedKeyRejected | src/config.c:249-256 | with an exact STREQ, a line whose cleaned text starts with a name holding no `=`, then a space and `=`, is rejected: the untrimmed key ends in a space and matches no option name |
| ConfigPersist.SaveName | src/config.c:415 | the backup is named `<file>.save.<now>` |
| ConfigReload.FieldsDiffer | src/config.c:497-522 | a field change is reported exactly when some numeric field differs or STRNE says some string field differs |
| ConfigReload.Merged | src/config.c:497-522 | the merge takes every numeric field and the address list from the new snapshot, and replaces a string only when STRNE says it differs |
| ConfigReload.Installed | src/config.c:497-566 | the success path takes the new address list and stamps epoch_success. It advances the generation and stamps epoch_changed exactly when a change is reported, which the first load always is. It keeps the old notices and ends with the backup's outcome |
| ConfigReload.ReloadSpec | src/config.c:451-579 | every call stamps epoch_attempt. A failed load or second check changes nothing else and reports no change. Only a failed first load is fatal. A success reports Done |
| ConfigReload.MergedExact | src/config.c:497-522 | with an exact STREQ the merge installs the new snapshot, and a field change is reported exactly when some field differs |
| ConfigReload.OldArgvDiffersExact | src/config.c:524-540 | with an exact STREQ, the loop over the first `k` old addresses reports a change exactly when the new list is shorter or differs on those positions |
| ConfigReload.ArgvDiffersExact | src/config.c:524-545 | with an exact STREQ the address lists count as changed exactly when they differ |
| ConfigReload.InstalledExact | src/config.c:497-566 | with an exact STREQ, success installs the new snapshot and reports a change exactly on the first load or when the snapshot differs |
| ConfigReload.ReloadTwice | src/config.c:451-579 | reloading the same file again reports no change and leaves the configuration, generation and epoch_changed alone |
| ConfigReload.Stops | src/config.c:536-537 | a count of "Stopping forward socket" notices never exceeds the log length |
| ConfigReload.StopsAppend | src/config.c:524-545 | the stop count of two logs put together is the sum of their counts |
| ConfigReload.OldArgvStops | src/config.c:524-540 | the old-address loop stops one forward per old position beyond the end of the new list |
| ConfigReload.NewArgvStops | src/config.c:542-545 | the new-address loop stops nothing |
| ConfigReload.InstalledStops | src/config.c:524-545 | a successful reload stops exactly the forwards beyond the end of the new list |
| ConfigReload.NumChanged | src/config.c:430-438 | the new value is taken, and a change is reported exactly when the values differ |
| ConfigReload.StrChanged | src/config.c:440-449 | the new string replaces the old one, and a change is reported, exactly when STRNE says they differ |
| ConfigReload.RuntimeConfig.constructor | src/config.c:585-586 | the live configuration starts with the defaults, no addresses and generation 0 |
| ConfigReload.RuntimeConfig.MergeFields | src/config.c:497-522 | the fields become the merged values and a change is reported exactly when FieldsDiffer; nothing else changes |
| ConfigReload.RuntimeConfig.MergeArgv | src/config.c:524-547 | the address list becomes the new one; the notices gain the old-address loop's then the new-address loop's; a change is reported exactly when ArgvDiffers |
| ConfigReload.RuntimeConfig.Install | src/config.c:497-566 | the live state becomes the one Installed describes |
| ConfigReload.RuntimeConfig.Reload | src/config.c:451-579 | the live state and outcome are those of ReloadSpec |
| GraphiteWait.Plan | src/graphite_worker.c:345-353 | the sleeps of an undisturbed pause: full poll intervals while at least one remains, then the remainder if any |
| GraphiteWait.PlanSum | src/graphite_worker.c:345-353 | left alone, the chunks add up to exactly the send interval |
| GraphiteWait.PlanChunks | src/graphite_worker.c:346-352 | every chunk is positive and at most the poll interval, and all but the last are exactly the poll interval |
| GraphiteWait.PlanLength | src/graphite_worker.c:345-353 | there are ceil(send / poll) chunks |
| GraphiteWait.Wait | src/graphite_worker.c:336-355 | the chunks slept are a prefix of the undisturbed plan, each preceded by a clear stopping word; the wait ends early only when the stopping word was read as set |
| GraphiteWait.WaitUndisturbed | src/graphite_worker.c:336-355 | with the stopping word clear throughout, the pause sleeps exactly the send interval in ceil(send / poll) chunks of at most `poll` |
| GraphiteWorker.Worker.constructor | src/graphite_worker.c:83 | a new worker has a clear stopping word and no cleanup |
| GraphiteWorker.Worker.Destroy | src/graphite_worker.c:18-32 | the stopping bit ends up set; the caller claims the worker, and cleanup runs, exactly when the bit was clear before |
| GraphiteWorker.DestroyTwice | src/graphite_worker.c:18-32 | of two destroys the second is a no-op, the bit is set and cleanup runs at most once |
| GraphiteLines.FixedBuffer.Reset | src/graphite_worker.c:175 | the build starts from an empty buffer |
| GraphiteLines.FixedBuffer.Vcatf | src/graphite_worker.c:59-63 | an append either adds the whole text or leaves the buffer as it was, as the oracle decides |
| GraphiteLines.Appended | src/graphite_worker.c:120-153 | the number of lines appended before the first failure is at most the number of lines |
| GraphiteLines.AppendedUnderRoomRule | src/graphite_worker.c:120-153 | when appends succeed exactly while the text stays below the size, all lines go in exactly when their whole text fits |
| GraphiteLines.SetupRoot | src/graphite_worker.c:34-78 | a NULL config, a NULL listener or a failed gethostname gives no root. A root is `path_root.<reversed host>`, followed by `.<listener>.<output>` when ports are added. When appends fail only for lack of room, a root is made exactly when it is shorter than 256 bytes |
| GraphiteLines.AppendUntilFailure | src/graphite_worker.c:120-153 | the buffer gains exactly the lines before the first failing one; all went in exactly when none failed |
| GraphiteLines.BuildWorker | src/graphite_worker.c:103-157 | an unfit format leaves the buffer untouched; otherwise the buffer gains the worker's lines up to the first failure; success means the format fit, all twenty lines went in and the buffer is not full. This is one step of `GroupStep` / `GroupOk` |
| GraphiteLines.GroupsPhase | src/graphite_worker.c:177-185 | the worker loop as a function of the buffer text before it: each worker in turn, up to and including the first that fails; it never counts more successes than there are workers |
| GraphiteLines.PhaseBounds | src/graphite_worker.c:177-185 | the worker loop never counts more successes than there are workers, and only adds text after what was there |
| GraphiteLines.BuildWorkers | src/graphite_worker.c:177-185 | the count and the buffer are exactly those of GroupsPhase. The workers that succeeded have their lines in the buffer in order. The loop stops at the first failing worker, for one of the three reasons. The buffer then ends with that worker's lines up to the first append that failed |
| GraphiteLines.BucketIndices | src/graphite_worker.c:218-225 | the indices the bucket loop writes: from `i` on, while the shifted word is nonzero and `i` is within the array, each index whose count is positive |
| GraphiteLines.BucketIndicesMeaning | src/graphite_worker.c:218-225 | a bucket line is written for index `k` exactly when `k` is within the array, its count is positive and the shifted word is still nonzero there |
| GraphiteLines.BucketIndicesAscend | src/graphite_worker.c:218-225 | bucket lines are written in strictly ascending index order |
| GraphiteLines.BucketExtremes | src/graphite_worker.c:206-225 | a zero word writes no bucket line; a negative word, which arithmetic shifts never clear, writes a line for every positive count |
| GraphiteLines.BucketLoop | src/graphite_worker.c:218-225 | the loop writes lines for exactly the indices BucketIndices gives, and the buffer is the result of appending those lines |
| GraphiteLines.PutLines | src/graphite_worker.c:197-203 | the six blob appends, whose results are ignored, leave the buffer as the append-ignoring-failures fold says |
| GraphiteLines.PutAllUnderRoomRule | src/graphite_worker.c:197-203 | when appends fail only for lack of room and the whole text fits, ignored-failure appends add all of it |
| GraphiteLines.BuildSpec | src/graphite_worker.c:159-227 | graphite_build's worker count, result and text from an empty buffer: the worker phase, then the blob lines when their format fits, then the bucket lines when the word is nonzero and their format fits |
| GraphiteLines.Build | src/graphite_worker.c:159-227 | the result, the worker count and the buffer are exactly BuildSpec's. The build fails exactly when the blobs format, or for a nonzero bucket word the buckets format, does not fit. The buffer holds the successful workers' lines and the failing worker's partial lines, then the blob lines, then the bucket lines, as far as each stage was reached |
| GraphiteWorker.RoundSpec | src/graphite_worker.c:380-402 | a round connects only when the build succeeded and there was no socket; sends only over a socket; closes exactly after a failed send; waits exactly after a successful one |
| GraphiteWorker.FinishSpec | src/graphite_worker.c:404-426 | the socket is closed exactly when there was one; the flush is tried exactly with a socket and an expected stop; its send exactly when its build succeeded; death is reported exactly when the stop was unexpected |
| GraphiteWorker.RunRound | src/graphite_worker.c:381-401 | one pass of the loop body does what RoundSpec says, and leaves a socket exactly as OpenAfter says |
| GraphiteWorker.AfterLoop | src/graphite_worker.c:404-426 | the part after the loop does what FinishSpec says |
| GraphiteWorker.FaithfulSnoc | src/graphite_worker.c:380-402 | appending the next round as RoundSpec gives it keeps the trace faithful and carries the socket state forward |
| GraphiteWorker.WorkerThread | src/graphite_worker.c:357-428 | every round is what RoundSpec gives for the socket state it started in. Every round but the last continued. The loop ended because the stopping word was read as set or the last round's build or open failed. The finish is FinishSpec of the socket state left |
| GraphiteWorker.ReconnectLazily | src/graphite_worker.c:386-398 | after a failed send the next round with a successful build opens a new socket; after a successful send the next round reuses the socket |
| GraphiteWorker.SocketDiscipline | src/graphite_worker.c:386-398 | every send goes over an open socket, and a socket is opened only when there is none |

## Left out

- Logging: the SAY/WARN/FATAL text and `config_dump` are not modelled. The few messages that later behaviour depends on are kept as `ConfigReload.Notice` values: address changes, stopped forwards, and the backup's outcome.
- `syslog_to_stderr`'s `closelog`/`openlog` re-routing is not modelled; only the field's merge is.
- Memory management (calloc, strdup, free, realloc) and the ownership hand-over of strings in the merge are not modelled.
- Concurrency and atomicity: every atomic read or update is one sequential step. The values another thread makes the stopping and control words show are inputs (`stopRead`, `Env.stopAt`, `Env.controlAtFlush`, `Env.controlAtEnd`).
- The control bit values of control.h, and `WORKER_STOPPING` of worker_util.h, are not part of this model. They are chosen as distinct single bits. `control_is_one_of(bits)` is read as "some bit of `bits` is set in the word" (`w & bits != 0`, `Control.IsOneOf`), and `control_is_not_one_of` as its negation. The flush and death conditions of `GraphiteWorker.FinishSpec` rest on this reading.
- `config_save`'s file-system steps (dirname, the temporary-name snprintf, mkstemp, write, close, rename) are results given in `FsOutcome`.
- `fixed_buffer_vcatf` is not part of this model. Its success is the `Fits` oracle, and it is assumed to leave the buffer as it was when it fails.
- GraphiteLines.MetricLine: the root (the configured `path_root`, the reversed host name and the listener and output names) is assumed to hold no `%`. `graphite_build` splices it into the format strings that `fixed_buffer_vcatf` then interprets (`src/graphite_worker.c:112`, `190`, `211`), so a `%` in it, as in an IPv6 scope like `fe80::1%eth0`, would become a conversion; the model prints the root as literal text. `WorkerLines`, `BlobLines` and `BucketLine` share this reading.
- `snprintf` is modelled only for formats made of text already known. A negative return, which happens only on an encoding error, is not modelled.
- The memory-statistics sections of `graphite_build` (mallinfo, /proc/self/statm, jemalloc and tcmalloc, `src/graphite_worker.c:229-324`) are not modelled: neither their lines nor their effect on the result.
- GraphiteLines.Build: the result is stated for a build without the mallinfo section. When the system allocator reports through mallinfo (`HAVE_MALLINFO` and `SYSTEM_MALLOC`), `graphite_build` also returns 0 when the meminfo format does not fit in its buffer (`src/graphite_worker.c:234-240`), or when any of the thirteen mallinfo appends fails, so a full buffer fails the build there (`src/graphite_worker.c:242-259`). The worker thread then ends its loop as for any failed build. The statm, jemalloc and tcmalloc appends ignore their results (`src/graphite_worker.c:263-324`) and cannot fail the build, but their text is not in the modelled buffer.
- `accumulate_and_clear_stats` and the floating-point rates are not modelled: the values each metric line prints are inputs.
- The socket-worker list, `GRAPHITE_BUFFER_MAX` and the length of `blob_total_sizes` are parameters (`workers`, `buffer.size`, `sizes`).
- `time(NULL)` is the `now` / `epoch` parameter.
- `graphite_send`, `open_output_socket_eventually` and `worker_wait_millisec` are not modelled beyond their results. The thread's socket and waits are represented by the `Round` record.
- `gethostname`'s truncation to HOST_NAME_MAX - 1 bytes is not modelled; the host name is an input.
- `reverse_dotwise` is a parameter; its code is not part of this model.
- `strtol`'s saturation at LONG_MIN/LONG_MAX and its leading white space are modelled in `Util.StrToL`; locale-specific forms are not.
- `config_init` and `config_die_args` are not modelled: they are outside the core.
- `graphite_worker_create` is not modelled beyond the root it sets up.
- Bytes and characters: a Dafny `char` stands for a C byte. The 4096-byte bufferf, the 256-byte root and format buffers and PATH_MAX are therefore counted in characters, so a name in multibyte UTF-8 is measured differently from the source. A NUL inside a line read by getline, where the C string functions would stop, is not modelled.
- GraphiteWorker.Worker.Destroy: `RELAY_ATOMIC_OR` is taken to be a fetch-and-or that returns the previous value; its definition is not part of this model. The claim-once property (`DestroyTwice`) depends on that reading.
- The numeric `config_t` fields are taken to be 32-bit integers (`Util.u32`, printed and read as signed by `%d` and `strtol`); config.h is not part of this model.
- GraphiteWait.Wait: requires a positive poll interval. With a zero `sleep_poll_interval_millisec` the source loop sleeps for 0 ms and spins until the stopping word is set. `config_valid` refuses that value (1 to 1000000 ms), so a running worker never sees it.
