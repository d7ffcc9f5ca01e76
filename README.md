# dyn_tor: launch derivation, rotation and output capture, modelled in Dafny

dyn_tor starts one tor process per port of a configured range, captures each
one's standard output, and hands out incoming client connections to the tors in
strict rotation. This project models the parts of that program that are logic
rather than I/O, and proves what they promise:

- **Configuration paths** (`src/init.rs`). `normalize_path` resolves a path's
  components against a rooted directory as a stack of segments: `..` pops, a name
  pushes, `/` and `.` are ignored, and popping at the root fails. Around it sit
  `expand_path` (absolute paths pass through), `normalize_path_in_config`
  (directories get one trailing `/`; failures name the parameter),
  `check_config` (the first empty path is reported) and `init_config`
  (validate, then set the three full paths in order).
- **Backend launch** (`src/main.rs`). This covers the port range, the
  `127.0.0.1:<port>` address table and the six-argument command line per port.
  The data directory is `data_dirs.full_path` with the port appended and no
  separator added. Spawning is all-or-nothing: one tor per port, in order,
  stopping at the first failure. A failure is mapped to `NotFound` or `Other`.
- **Rotation**: the `u16` cursor behind a mutex. On each accepted client it is
  wrapped, used to pick an address, and incremented.
- **Output capture and drain**: the capture thread appends bytes one at a time
  until an error, end of file or an unexpected count. The drain loop logs and
  clears each buffer once it holds valid UTF-8. Validity follows the UTF8-octets
  syntax of RFC 3629, section 4, which is what `String::from_utf8` checks.

Modules: `Results` (Option/Result/Outcome), `Numbers` (`u16`, bytes, decimal
rendering), `Utf8`, `Io` (I/O errors and read results as values), `Errors` and
`Config` (the records of `src/error.rs` and `src/config.rs`), `Paths`
(`normalize_path`), `Init`, `Launch`, `Capture` (the buffer and the capture
thread), `Drain` (the drain task) and `Dispatch`.

Modelling choices:

- A rooted `PathBuf` is `AbsPath(segments, trailingSlash)`. Being rooted is built
  into the type. `push` appends a segment. `pop` truncates to the parent, so the
  parent of `/a/b/` is `/a`. `Render` gives `to_str()`.
- The components of a path (`PathBuf::components`) are an input: the `comps`
  parameter, or the `split` function given to `InitConfig`.
- `init_config` mutates a plain struct through `&mut`. It is modelled as a
  method that returns the outcome together with the updated configuration.
- The operating system's `Command::spawn` is an abstract function parameter
  `spawn: Command -> SpawnResult`. A child's standard output is the sequence of
  read results it will yield.
- Each call of `OutputBuffer.Append`, `OutputBuffer.DrainStep` and
  `RoundRobin.Next` is one critical section under its mutex. The loops built on
  them (`CaptureLoop`, `AppendEach`, the drain loops) take the lock once per
  call. `RoundRobin.OnAccept` is one turn of the accept loop and takes the lock
  only for an accepted client; `RoundRobin.Serve` is the whole accept loop. A ghost history on the buffer says that nothing is lost or repeated:
  the text drained so far, followed by the bytes still held, is every byte
  appended. `Append` and `DrainStep` both preserve this, so it holds for every
  interleaving of the capture thread and the drain task.

Three facts about the code that shape the model:

- The rotation cursor takes values in `[0, port_count]`, not only in
  `[0, port_count)`. It is wrapped just before a selection, not after the
  increment. The selections still follow the rotation: the k-th is
  `tor_addrs[k % port_count]`.
- On bytes that are not UTF-8, the inner drain loop does not move on to the next
  buffer. It retries at once, dropping and retaking the lock on every pass, and
  leaves only when a pass finds the buffer empty (see Findings).
- The drain never logs a byte twice and never loses one. An invalid buffer is
  not logged; when pushes complete it, it is logged once and cleared. The
  conservation invariant above and `Drain.RunConserves` prove this.

## Model

| member | source | states |
|---|---|---|
| Paths.NormalizePath | src/init.rs:57-77 | The loop with its early return yields exactly `Normalize`: the walk of the components from `relative_to`, or `GoesThruRoot` carrying the input path text |
| Paths.Render | src/init.rs:58 | A normalised path always prints as a rooted path (starts with `/`) |
| Paths.WalkFailsIff | src/init.rs:66-71 | Normalisation fails iff some prefix of the components has more `..` than the depth of `relative_to` plus the names in that prefix |
| Paths.WalkDepth | src/init.rs:60-75 | A successful result has depth = start depth + names − `..`s |
| Paths.WalkConcat | src/init.rs:60-75 | Walking `a + b` is walking `a`, then `b` from where it ended (failure propagates) |
| Paths.WalkLastComponent | src/init.rs:62-74 | A further name appends one segment; `..` removes the last segment or fails at the root; `/` and `.` leave the path unchanged |
| Paths.WalkIgnoresRootAndCurDir | src/init.rs:64-65 | Dropping every `/` and `.` component changes nothing, so an absolute path given directly is resolved like a relative one |
| Paths.NormalizeExamples | src/init.rs:274-298 | The unit test: `..`, `/../../`, `./x` and `../x` against `/foo/bar/baz` (with or without trailing `/`) give `/foo/bar`, `/foo`, `/foo/bar/baz/x` and `/foo/bar/x`; `../../../..` gives `GoesThruRoot` |
| Init.ExpandPath | src/init.rs:79-85 | An absolute path is returned unchanged; a relative one succeeds iff its walk does, as the rendered walk; every success is absolute; a failure carries the input path |
| Init.NormalizePathInConfig | src/init.rs:87-108 | Succeeds iff expansion does; a directory result ends in `/`, with one `/` added only when missing; a file result is the expansion unchanged; a failure becomes `NormalizePath{parameter: field, path: input, error: message}` |
| Init.CheckConfig | src/init.rs:117-158 | `Pass` iff the tor, torrc and data_dirs paths are all non-empty; otherwise `EmptyParameter` for the first empty one in that order, built by `EmptyParameterError` from its entry of `CONFIG_PARAMETERS` (`TorParameter`, `TorrcParameter`, `DataDirsParameter`: name and description) |
| Init.EmptyParameterNamesField | src/init.rs:117-158 | A failed check names exactly the first empty path: the error is `EmptyParameter`, and its name is `tor`, `torrc` or `data_dirs` iff that path is the first one left empty |
| Init.InitConfig | src/init.rs:160-169 | A validation failure changes no field; the three full paths are set in order and the first normalisation failure is returned, later fields not set; on success all three are absolute and `data_dirs.full_path` ends in `/` |
| Launch.Ports | src/main.rs:73-75 | Under the `u16` no-overflow precondition: `port_count` ports, the i-th being `start_port + i`, strictly ascending, membership iff in `[start_port, start_port + port_count)` |
| Launch.TorAddrs | src/main.rs:76-79 | One address per port, in order, each `"127.0.0.1:" + decimal(port)` |
| Launch.AddressInjective | src/main.rs:78 | An address determines its port |
| Launch.TorAddrsDistinct | src/main.rs:73-79 | The address table of a port range has no duplicates |
| Launch.LaunchArgs | src/main.rs:84-91 | Six arguments: `-f` with the torrc path, `--SocksPort` with the port's decimal text (which reads back as the port), `--DataDirectory` with the base path followed by that same text |
| Launch.DataDirectory | src/main.rs:90 | The data directory is the base path followed directly by the decimal port |
| Launch.DataDirectoriesDistinct | src/main.rs:84-91 | Tors on different ports get different `--DataDirectory` arguments |
| Launch.InstanceDirectoryUnderBase | src/main.rs:90 | With a base ending in `/`, the data directory is `<base without slash>/<port>` |
| Launch.DataDirectoryAfterInit | src/init.rs:166-167 | The data directory base that `init_config` derives is absolute, and each tor's data directory under it is `<dir>/<port>` |
| Launch.TorCommand | src/main.rs:83-91 | The program spawned is `tor.full_path`; of its six arguments the torrc path is `tor.torrc_full_path`, the SOCKS port reads back as `port`, and the data directory is that of `port` under `data_dirs.full_path` |
| Launch.SpawnError | src/main.rs:98-106 | The error keeps `tor.full_path`; it is `NotFound` iff the OS error kind is `NotFound`; otherwise `Other` also carries the error message |
| Launch.LaunchAll | src/main.rs:80-109 | The commands tried are, in order, those of a prefix of the ports; on success every port was tried and there is one output per port; a failure carries `tor.full_path` and follows at least one attempt |
| Launch.LaunchOkIff | src/main.rs:80-111 | Launch yields `Ok` iff every port's spawn succeeds |
| Launch.LaunchAllSucceed | src/main.rs:80-109 | When all spawns succeed: one captured stream per port, in port order, and exactly the per-port commands were issued |
| Launch.LaunchStopsAtFirstFailure | src/main.rs:80-111 | When port k is the first to fail: the result is that port's mapped error and only the commands for ports 0..k were issued |
| Numbers.DecimalRoundTrip | src/main.rs:88 | Reading back `port.to_string()` gives the port |
| Numbers.DecimalInjective | src/main.rs:88 | Distinct numbers render differently |
| Numbers.Decimal | src/main.rs:88 | The rendering is a non-empty digit string with no leading zero: it starts with `0` only when it is `"0"`, the rendering of 0 |
| Capture.Captured | src/main.rs:29-44 | The capture loop pushes at most one byte per read |
| Capture.CaptureLoop | src/main.rs:29-44 | The buffer gains exactly the bytes of the leading one-byte reads, in order. The loop stops for good at the first error, 0 or unexpected count, and counts its reads |
| Capture.CapturedIsLeadingRun | src/main.rs:29-44 | The captured bytes are the bytes of the leading one-byte reads, and the read after them is the one that stopped the loop |
| Capture.StdoutStreamToVec | src/main.rs:21-48 | A fresh buffer holding exactly the captured prefix of the stream |
| Capture.OutputBuffer.constructor | src/main.rs:25 | The new buffer is empty with empty history |
| Capture.OutputBuffer.Append | src/main.rs:38 | One byte is pushed at the end; the conservation invariant is kept |
| Capture.Classify | src/main.rs:118-122 | Empty iff no bytes; emitted iff non-empty valid UTF-8, and then the text is exactly those bytes |
| Capture.OutputBuffer.DrainStep | src/main.rs:117-126 | Valid non-empty text is logged and the buffer is cleared; otherwise the buffer is unchanged; nothing appended is lost |
| Capture.AppendEach | src/main.rs:38 | The capture thread's pushes of several bytes, one lock each: the buffer and its history gain exactly those bytes, in order |
| Drain.RunAsWritten | src/main.rs:116-127 | A run of the inner loop as written, with the capture thread's pushes between passes: it leaves only after at least one pass and with an empty buffer, and otherwise runs as many passes as it is given |
| Drain.DrainPass | src/main.rs:117-126 | One pass of the inner loop as written, after the capture thread's pushes: the bytes pushed join the buffer and its history; an empty buffer ends the run, valid text is logged and cleared, invalid bytes stay, and the run from this pass is this pass followed by the run from the next |
| Drain.DrainBufferAsWritten | src/main.rs:116-127 | The inner loop, pass by pass under the lock with the given pushes between passes, does exactly `RunAsWritten`: the same texts, exit, pass count and bytes left, and the history gains exactly the bytes pushed |
| Drain.RunConserves | src/main.rs:116-127 | The texts a run logs followed by the bytes it leaves are the starting bytes followed by every byte pushed during the run: nothing lost, nothing logged twice |
| Drain.RunLogsText | src/main.rs:118-125 | Every text a run logs is non-empty valid UTF-8 |
| Drain.LoggedTextsAreText | src/main.rs:118-125 | The logged texts, read one after another, are valid UTF-8 as a whole |
| Drain.RunSpinsOnStrayByte | src/main.rs:116-127 | Once 0xFF is in the buffer the loop never leaves, logs nothing more and keeps the byte, whatever is pushed afterwards |
| Drain.RunStallsOnInvalid | src/main.rs:116-127 | With nothing pushed, a buffer that is not text stays as it is and every pass runs without leaving |
| Drain.RunLeftAlone | src/main.rs:116-127 | With nothing pushed: the loop leaves iff the buffer is empty (one pass) or holds text (logged once, then one more pass); text is logged exactly once; it never leaves invalid bytes |
| Drain.RunCompletesSplitCharacter | src/main.rs:116-127 | A character cut after E2 82 is kept until AC is pushed, then logged whole, and the loop leaves on the next pass |
| Drain.AsciiOutputIsLogged | src/main.rs:118-125 | Non-empty all-ASCII output is always logged whole by the pass that finds it |
| Drain.DrainAsWrittenSpinsOnInvalidByte | src/main.rs:116-127 | A buffer holding 0xFF keeps the inner loop as written spinning, with 0xFF kept, for any pushes and any number of passes |
| Drain.DrainBuffer | src/main.rs:116-127 | The intended inner loop always returns: valid text is logged once and cleared, and invalid bytes are kept for the next tick |
| Drain.DrainSkipsInvalidByte | src/main.rs:116-127 | Under the intended loop the 0xFF buffer is left as it is and nothing is logged |
| Drain.DrainTick | src/main.rs:115-128 | One tick visits every buffer in order. It logs `(index, text)` for each one holding valid text, clears those, and keeps invalid ones |
| Utf8.ValidConcat | src/main.rs:118 | Text followed by text is text |
| Utf8.AsciiIsValid | src/main.rs:118 | ASCII output is always valid |
| Utf8.StrayByteNeverValid | src/main.rs:118 | A byte sequence that holds 0xFF anywhere is never valid, whatever surrounds it |
| Utf8.SplitCharacterExamples | src/main.rs:118 | A three-byte character is valid whole and invalid when cut; a lone 0xFF is invalid |
| Dispatch.RoundRobin.constructor | src/main.rs:136 | The cursor starts at 0 with no selections made |
| Dispatch.RoundRobin.Next | src/main.rs:141-147 | Requires a backend; the k-th selection is `tor_addrs[k % port_count]`; the cursor stays in `[0, port_count]`, so it neither overflows `u16` nor indexes out of bounds |
| Dispatch.RoundRobin.OnAccept | src/main.rs:139-160 | A failed accept leaves the cursor and the count alone; an accepted client gets the next address in the rotation |
| Dispatch.RoundRobin.Serve | src/main.rs:138-161 | Over any accept outcomes, the k-th accepted client is sent to `tor_addrs[(earlier + k) % port_count]`; from a fresh cursor this is the rotation `Cycle` |
| Dispatch.Cycle | src/main.rs:141-147 | The k selections of the rotation: the i-th is `addrs[i % N]` |
| Dispatch.CycleIsRoundsThenPrefix | src/main.rs:141-147 | k selections are `k / N` whole rounds followed by the first `k % N` addresses |

## Left out

- `transfer` (src/main.rs:50-69), the relay: concurrent TCP copying and half-close. That is socket I/O.
- The listener: `TcpListener::bind`, `accept` and `tokio::spawn` of each relay (src/main.rs:133-161) are I/O. Accept results are an input sequence (`Serve`), and only the cursor update is modelled.
- Threads, `Arc`/`Mutex` and the 50 ms sleep (src/main.rs:27-28, 113, 129). Each locked region is one atomic method. The sleep and the unbounded outer loop are not modelled.
- Logging and the stdout flush: logged lines are returned as values (`LogLine`).
- Process spawning and OS error kinds: an abstract `spawn` function and a three-way `ErrorKind`. The `Display` text of an `io::Error` is its `message`. Standard error is piped, but nothing reads it; this is not modelled.
- `init_log`, `remove_dir_contents`, `get_relative_to` and `init` (src/init.rs:5-49, 171-244): file system, environment and logging setup.
- Loading and parsing of src/config.rs and its file-existence checks; only its records are mirrored.
- `PathBuf::components` splitting, the Windows `Prefix` panic and `to_str().unwrap()` on non-UTF-8 paths. The components of a path are an input. `relative_to` is taken to be already canonical (rooted, no `.` or `..`).
- The `Display` formats of `TorSpawnError` and `ConfigFileError`. Only the `NormalizePathError` message that is stored in `ConfigFileError::NormalizePath` is modelled.
- Launch.LaunchAll: a spawned tor's output is its stream of reads (`seq<Stream>`), not the `TStdOutData` buffer `stdout_stream_to_vec` builds from it (src/main.rs:97). The link between launch and `Capture.StdoutStreamToVec` is not modelled as one operation.
- `main`'s printing and exit code (src/main.rs:167-175).
- Drain.DrainBufferAsWritten: the source loop has no bound. The model runs one pass per entry of `between`, so "never exits" is stated for any number of passes.
- Drain.DrainBuffer: its passes run with no capture-thread push between them. Pushes between passes are modelled only for the loop as written (`between`). The passes of the intended loop end at the first one that finds invalid bytes or an empty buffer.
- Drain.DrainTick: the buffers of one tick are drained with no push between them, or between passes. Pushes during a tick are modelled only for the loop as written.
- Capture.CaptureLoop: it runs the capture thread's reads without drains between them. That interleaving is covered by the invariant that `Append` and `DrainStep` each preserve, and by `between` in `Drain.RunAsWritten`.
- Launch.Ports: wrap-around of `start_port + port_count` in a release build is not modelled. The function requires the sum to fit in `u16`, as a debug build does (it panics otherwise).
- Dispatch.RoundRobin.Next: requires `port_count >= 1`. With no backends, `port_count - 1` underflows `u16` and panics at the first accepted client.

## Findings

| source | as written | input that shows it | evidently intended | confidence | as-written member | corrected member |
|---|---|---|---|---|---|---|
| src/main.rs:116-127 | The inner drain `loop` leaves only on an empty buffer. When the bytes are not valid UTF-8 it immediately retries, without sleeping or yielding, and nothing else can clear the buffer. | A tor writes the byte 0xFF, or exits halfway through a multi-byte character. A buffer holding 0xFF is never valid again, whatever is pushed (`Utf8.StrayByteNeverValid`, `Drain.RunSpinsOnStrayByte`). A cut character that is never completed stays invalid (`Drain.RunStallsOnInvalid`). The drain task spins on that buffer for good, and no other tor's output is logged again. | Leave invalid bytes for the next tick and go on to the next buffer. | medium, not executed | Drain.DrainBufferAsWritten, Drain.DrainAsWrittenSpinsOnInvalidByte | Drain.DrainBuffer (used by Drain.DrainTick) |
