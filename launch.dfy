/**
 * The backend launch of `main_impl` in src/main.rs: the port range, the address table,
 * the per-port argument vector, and the all-or-nothing spawn of one tor per port.
 */
module Launch {
  import opened Numbers
  import opened Results
  import opened Io
  import opened Errors
  import opened Config
  import Init
  import Paths

  /**
   * `(start_port..start_port + port_count).collect()`. The end is computed in `u16`,
   * so the caller must keep it representable.
   */
  function Ports(start: U16, count: U16): (r: seq<U16>)
    requires start + count < 0x1_0000
    ensures |r| == count
    ensures forall i :: 0 <= i < |r| ==> r[i] == start + i
    ensures forall i, j :: 0 <= i < j < |r| ==> r[i] < r[j]
    ensures forall p :: p in r <==> start <= p < start + count
    decreases count
  {
    if count == 0 then [] else [start] + Ports(start + 1, count - 1)
  }

  const LocalHost: string := "127.0.0.1:"

  /** The backend address of a port. */
  function Address(port: U16): string {
    LocalHost + Decimal(port)
  }

  /** `ports.iter().map(|x| "127.0.0.1:".to_string() + &x.to_string()).collect()`. */
  function TorAddrs(ports: seq<U16>): (r: seq<string>)
    ensures |r| == |ports|
    ensures forall i :: 0 <= i < |r| ==> r[i] == LocalHost + Decimal(ports[i])
    decreases |ports|
  {
    if ports == [] then [] else [Address(ports[0])] + TorAddrs(ports[1..])
  }

  /** An address names exactly one port. */
  lemma AddressInjective(p: U16, q: U16)
    requires Address(p) == Address(q)
    ensures p == q
  {
    assert Address(p)[|LocalHost|..] == Decimal(p);
    assert Address(q)[|LocalHost|..] == Decimal(q);
    DecimalInjective(p, q);
  }

  /** The address table of a port range lists distinct backends, in port order. */
  lemma TorAddrsDistinct(start: U16, count: U16)
    requires start + count < 0x1_0000
    ensures var addrs := TorAddrs(Ports(start, count));
      forall i, j :: 0 <= i < j < |addrs| ==> addrs[i] != addrs[j]
  {
    var ports := Ports(start, count);
    var addrs := TorAddrs(ports);
    forall i, j | 0 <= i < j < |addrs| ensures addrs[i] != addrs[j] {
      if addrs[i] == addrs[j] {
        AddressInjective(ports[i], ports[j]);
      }
    }
  }

  /** The data directory given to the tor serving `port`: the base path with the port appended. */
  function DataDirectory(base: string, port: U16): (d: string)
    ensures |d| > |base| && d[..|base|] == base && d[|base|..] == Decimal(port)
  {
    base + Decimal(port)
  }

  /**
   * The command line of the tor serving `port`: three options, each flag followed by
   * its value; the SOCKS port reads back as `port`, and the data directory is the base
   * path followed by those same digits.
   */
  function LaunchArgs(torrcFullPath: string, dataDirsFullPath: string, port: U16): (r: seq<string>)
    ensures |r| == 6 && r[0] == "-f" && r[2] == "--SocksPort" && r[4] == "--DataDirectory"
    ensures r[1] == torrcFullPath
    ensures r[3] == Decimal(port) && DigitsValue(r[3]) == port
    ensures var base := dataDirsFullPath;
      |r[5]| > |base| && r[5][..|base|] == base && r[5][|base|..] == r[3]
  {
    DecimalRoundTrip(port);
    ["-f", torrcFullPath, "--SocksPort", Decimal(port), "--DataDirectory", DataDirectory(dataDirsFullPath, port)]
  }

  /** Two tors on different ports never share a data directory. */
  lemma DataDirectoriesDistinct(torrc: string, base: string, p: U16, q: U16)
    requires p != q
    ensures LaunchArgs(torrc, base, p)[5] != LaunchArgs(torrc, base, q)[5]
  {
    var dp, dq := DataDirectory(base, p), DataDirectory(base, q);
    if dp == dq {
      assert dp[|base|..] == dq[|base|..];
      DecimalInjective(p, q);
    }
  }

  /**
   * With a base that ends in `/`, as `init_config` leaves `data_dirs.full_path`, each
   * instance directory is `<base>/<port>`: one separator, then the port.
   */
  lemma InstanceDirectoryUnderBase(torrc: string, base: string, port: U16)
    requires Init.EndsWithSlash(base)
    ensures var dir := base[..|base| - 1];
      LaunchArgs(torrc, base, port)[5] == dir + "/" + Decimal(port)
  {
    assert base == base[..|base| - 1] + "/";
  }

  /**
   * The data directory `init_config` derives from `data_dirs.path` is absolute and ends
   * in `/`, so the one handed to each tor is `<that directory>/<port>`.
   */
  lemma DataDirectoryAfterInit(path: string, comps: seq<Paths.Component>, relativeTo: Paths.AbsPath, torrc: string, port: U16)
    requires Init.NormalizePathInConfig(path, comps, "data_dirs.path", true, relativeTo).Ok?
    ensures var base := Init.NormalizePathInConfig(path, comps, "data_dirs.path", true, relativeTo).value;
      && Init.IsAbsolute(base)
      && LaunchArgs(torrc, base, port)[5] == base[..|base| - 1] + "/" + Decimal(port)
  {
    var base := Init.NormalizePathInConfig(path, comps, "data_dirs.path", true, relativeTo).value;
    InstanceDirectoryUnderBase(torrc, base, port);
  }

  /** A `Command`: the program and its arguments. */
  datatype Command = Command(program: string, args: seq<string>)

  /**
   * `Command::new(&tor.full_path).args(...)`: the configured tor binary, told to read the
   * configured torrc, to listen for SOCKS on `port` and to keep its state in the data
   * directory of `port`.
   */
  function TorCommand(tor: TorConfig, port: U16): (c: Command)
    ensures c.program == tor.fullPath
    ensures |c.args| == 6 && c.args[1] == tor.torrcFullPath
    ensures c.args[3] == Decimal(port) && DigitsValue(c.args[3]) == port
    ensures c.args[5] == DataDirectory(tor.dataDirs.fullPath, port)
  {
    Command(tor.fullPath, LaunchArgs(tor.torrcFullPath, tor.dataDirs.fullPath, port))
  }

  /** What `Command::spawn` gives: a child whose piped stdout reads as `stdout`, or an error. */
  datatype SpawnResult = Spawned(stdout: Stream) | SpawnFailed(error: IoError)

  /** The mapping of a spawn error: `NotFound` keeps only the path; every other kind also keeps the message. */
  function SpawnError(path: string, e: IoError): (r: TorSpawnError)
    ensures r.path == path
    ensures r.NotFound? <==> e.kind == ErrorKind.NotFound
    ensures r.Other? ==> r.error == e.message
  {
    match e.kind
    case NotFound => TorSpawnError.NotFound(path)
    case _ => Other(path, e.message)
  }

  /** The collected result and the commands actually spawned, in order. */
  datatype Launched = Launched(result: Result<seq<Stream>, TorSpawnError>, attempted: seq<Command>)

  /**
   * `ports.iter().map(spawn one tor).collect::<Result<Vec<_>, _>>()`: spawn one tor per
   * port in order and stop at the first failure. `spawn` stands for the operating system.
   */
  function LaunchAll(spawn: Command -> SpawnResult, tor: TorConfig, ports: seq<U16>): (r: Launched)
    ensures |r.attempted| <= |ports|
    ensures forall i :: 0 <= i < |r.attempted| ==> r.attempted[i] == TorCommand(tor, ports[i])
    ensures r.result.Ok? ==> |r.result.value| == |ports| == |r.attempted|
    ensures r.result.Err? ==> r.result.error.path == tor.fullPath && r.attempted != []
    decreases |ports|
  {
    if ports == [] then Launched(Ok([]), [])
    else
      var cmd := TorCommand(tor, ports[0]);
      match spawn(cmd)
      case SpawnFailed(e) => Launched(Err(SpawnError(tor.fullPath, e)), [cmd])
      case Spawned(out) =>
        var rest := LaunchAll(spawn, tor, ports[1..]);
        Launched(
          if rest.result.Ok? then Ok([out] + rest.result.value) else rest.result,
          [cmd] + rest.attempted)
  }

  /** Launch succeeds exactly when every spawn does. */
  lemma {:induction false} LaunchOkIff(spawn: Command -> SpawnResult, tor: TorConfig, ports: seq<U16>)
    ensures LaunchAll(spawn, tor, ports).result.Ok?
      <==> forall i :: 0 <= i < |ports| ==> spawn(TorCommand(tor, ports[i])).Spawned?
    decreases |ports|
  {
    if ports != [] {
      LaunchOkIff(spawn, tor, ports[1..]);
      assert forall i :: 1 <= i < |ports| ==> ports[i] == ports[1..][i - 1];
    }
  }

  /** When every spawn succeeds: one output per port, in port order, and every port tried. */
  lemma {:induction false} LaunchAllSucceed(spawn: Command -> SpawnResult, tor: TorConfig, ports: seq<U16>)
    requires forall i :: 0 <= i < |ports| ==> spawn(TorCommand(tor, ports[i])).Spawned?
    ensures var l := LaunchAll(spawn, tor, ports);
      && l.result.Ok?
      && |l.result.value| == |ports|
      && (forall i :: 0 <= i < |ports| ==> l.result.value[i] == spawn(TorCommand(tor, ports[i])).stdout)
      && |l.attempted| == |ports|
      && (forall i :: 0 <= i < |ports| ==> l.attempted[i] == TorCommand(tor, ports[i]))
    decreases |ports|
  {
    if ports != [] {
      assert forall i :: 1 <= i < |ports| ==> ports[i] == ports[1..][i - 1];
      LaunchAllSucceed(spawn, tor, ports[1..]);
    }
  }

  /**
   * When the spawn for `ports[k]` is the first to fail: launch reports that failure,
   * mapped, and no port after `k` is tried.
   */
  lemma {:induction false} LaunchStopsAtFirstFailure(spawn: Command -> SpawnResult, tor: TorConfig, ports: seq<U16>, k: nat)
    requires k < |ports|
    requires forall i :: 0 <= i < k ==> spawn(TorCommand(tor, ports[i])).Spawned?
    requires spawn(TorCommand(tor, ports[k])).SpawnFailed?
    ensures var l := LaunchAll(spawn, tor, ports);
      && l.result == Err(SpawnError(tor.fullPath, spawn(TorCommand(tor, ports[k])).error))
      && |l.attempted| == k + 1
      && (forall i :: 0 <= i <= k ==> l.attempted[i] == TorCommand(tor, ports[i]))
    decreases k
  {
    if k > 0 {
      assert forall i :: 1 <= i < |ports| ==> ports[i] == ports[1..][i - 1];
      LaunchStopsAtFirstFailure(spawn, tor, ports[1..], k - 1);
    }
  }
}
