/**
 * Configuration path handling of src/init.rs: `expand_path`, `normalize_path_in_config`,
 * `check_config` and `init_config`.
 */
module Init {
  import opened Results
  import opened Errors
  import opened Config
  import opened Paths

  /** `Path::is_absolute` on Unix: the text starts at the root. */
  predicate IsAbsolute(path: string) {
    |path| > 0 && path[0] == '/'
  }

  predicate EndsWithSlash(s: string) {
    |s| > 0 && s[|s| - 1] == '/'
  }

  /**
   * `expand_path`, giving the `to_str()` of the resulting `PathBuf`: an absolute path
   * comes back as written, a relative one is normalised against `relativeTo`.
   */
  function ExpandPath(path: string, comps: seq<Component>, relativeTo: AbsPath)
    : (r: Result<string, NormalizePathError>)
    ensures IsAbsolute(path) ==> r == Ok(path)
    ensures r.Ok? ==> IsAbsolute(r.value)
    ensures !IsAbsolute(path) ==>
      (r.Ok? <==> Walk(relativeTo, comps).Some?)
      && (r.Ok? ==> r.value == Render(Walk(relativeTo, comps).value))
    ensures r.Err? ==> r.error == GoesThruRoot(path)
  {
    if IsAbsolute(path) then Ok(path)
    else
      match Normalize(path, comps, relativeTo)
      case Ok(p) => Ok(Render(p))
      case Err(e) => Err(e)
  }

  /**
   * `normalize_path_in_config`: expand the path; for a directory make sure it ends in
   * exactly one added `/`; report a failure against the parameter `field`.
   */
  function NormalizePathInConfig(path: string, comps: seq<Component>, field: string, isDir: bool, relativeTo: AbsPath)
    : (r: Result<string, ConfigFileError>)
    ensures var x := ExpandPath(path, comps, relativeTo);
      && (r.Ok? <==> x.Ok?)
      && (r.Ok? ==> IsAbsolute(r.value))
      && (r.Ok? && !isDir ==> r.value == x.value)
      && (r.Ok? && isDir ==> EndsWithSlash(r.value))
      && (r.Ok? && isDir && EndsWithSlash(x.value) ==> r.value == x.value)
      && (r.Ok? && isDir && !EndsWithSlash(x.value) ==> r.value == x.value + "/")
      && (r.Err? ==> r.error == NormalizePath(field, path, NormalizePathErrorMessage(GoesThruRoot(path))))
  {
    match ExpandPath(path, comps, relativeTo)
    case Ok(expanded) =>
      var s := if isDir && !EndsWithSlash(expanded) then expanded + "/" else expanded;
      Ok(s)
    case Err(e) =>
      Err(NormalizePath(field, path, NormalizePathErrorMessage(e)))
  }

  /** An entry of `CONFIG_PARAMETERS`. */
  datatype ConfigParameter = ConfigParameter(name: string, description: string)

  const TorParameter := ConfigParameter("tor", "path to tor binary")
  const TorrcParameter := ConfigParameter("torrc", "path to torrc (tor config) file")
  const DataDirsParameter := ConfigParameter("data_dirs", "path to tor work data root directory")

  function EmptyParameterError(p: ConfigParameter): ConfigFileError {
    EmptyParameter(p.name, p.description)
  }

  /**
   * `check_config`: the three paths must be given; the first empty one, in the order
   * `tor.path`, `tor.torrc`, `data_dirs.path`, is the one reported.
   */
  function CheckConfig(config: AppConfig): (r: Outcome<ConfigFileError>)
    ensures r.Pass? <==> config.tor.path != "" && config.tor.torrc != "" && config.tor.dataDirs.path != ""
    ensures config.tor.path == "" ==> r == Fail(EmptyParameterError(TorParameter))
    ensures config.tor.path != "" && config.tor.torrc == "" ==> r == Fail(EmptyParameterError(TorrcParameter))
    ensures config.tor.path != "" && config.tor.torrc != "" && config.tor.dataDirs.path == ""
      ==> r == Fail(EmptyParameterError(DataDirsParameter))
  {
    if config.tor.path == "" then Fail(EmptyParameterError(TorParameter))
    else if config.tor.torrc == "" then Fail(EmptyParameterError(TorrcParameter))
    else if config.tor.dataDirs.path == "" then Fail(EmptyParameterError(DataDirsParameter))
    else Pass
  }

  /** The name a failed check reports tells which path was the first one left empty. */
  lemma EmptyParameterNamesField(config: AppConfig)
    requires CheckConfig(config).Fail?
    ensures var e := CheckConfig(config).error;
      && e.EmptyParameter?
      && (e.name == "tor" <==> config.tor.path == "")
      && (e.name == "torrc" <==> config.tor.path != "" && config.tor.torrc == "")
      && (e.name == "data_dirs" <==> config.tor.path != "" && config.tor.torrc != "" && config.tor.dataDirs.path == "")
  {
  }

  /** `config` with the three derived full paths set (and nothing else changed). */
  function WithFullPaths(config: AppConfig, tor: string, torrc: string, dataDirs: string): AppConfig {
    config.(tor := config.tor.(
      fullPath := tor,
      torrcFullPath := torrc,
      dataDirs := config.tor.dataDirs.(fullPath := dataDirs)))
  }

  /**
   * `init_config`: validate, then set `tor.full_path`, `tor.torrc_full_path` and
   * `data_dirs.full_path` in that order, stopping at the first failure; a field whose
   * normalisation failed, and every later one, keeps its old value. `split` stands for
   * `PathBuf::components`.
   */
  method InitConfig(config: AppConfig, split: string -> seq<Component>, relativeTo: AbsPath)
    returns (outcome: Outcome<ConfigFileError>, updated: AppConfig)
    ensures var t := config.tor;
      var tp := NormalizePathInConfig(t.path, split(t.path), "tor.path", false, relativeTo);
      var rp := NormalizePathInConfig(t.torrc, split(t.torrc), "tor.torrc", false, relativeTo);
      var dp := NormalizePathInConfig(t.dataDirs.path, split(t.dataDirs.path), "data_dirs.path", true, relativeTo);
      && (outcome.Pass? <==> CheckConfig(config).Pass? && tp.Ok? && rp.Ok? && dp.Ok?)
      && (CheckConfig(config).Fail? ==> outcome == CheckConfig(config) && updated == config)
      && (CheckConfig(config).Pass? && tp.Err? ==> outcome == Fail(tp.error) && updated == config)
      && (CheckConfig(config).Pass? && tp.Ok? && rp.Err? ==>
            outcome == Fail(rp.error)
            && updated == WithFullPaths(config, tp.value, t.torrcFullPath, t.dataDirs.fullPath))
      && (CheckConfig(config).Pass? && tp.Ok? && rp.Ok? && dp.Err? ==>
            outcome == Fail(dp.error)
            && updated == WithFullPaths(config, tp.value, rp.value, t.dataDirs.fullPath))
      && (outcome.Pass? ==> updated == WithFullPaths(config, tp.value, rp.value, dp.value))
    ensures outcome.Pass? ==>
      && IsAbsolute(updated.tor.fullPath)
      && IsAbsolute(updated.tor.torrcFullPath)
      && IsAbsolute(updated.tor.dataDirs.fullPath)
      && EndsWithSlash(updated.tor.dataDirs.fullPath)
  {
    updated := config;
    var check := CheckConfig(updated);
    if check.Fail? {
      return check, updated;
    }
    var tor := NormalizePathInConfig(updated.tor.path, split(updated.tor.path), "tor.path", false, relativeTo);
    if tor.Err? {
      return Fail(tor.error), updated;
    }
    updated := updated.(tor := updated.tor.(fullPath := tor.value));
    var torrc := NormalizePathInConfig(updated.tor.torrc, split(updated.tor.torrc), "tor.torrc", false, relativeTo);
    if torrc.Err? {
      return Fail(torrc.error), updated;
    }
    updated := updated.(tor := updated.tor.(torrcFullPath := torrc.value));
    var dataDirs := NormalizePathInConfig(
      updated.tor.dataDirs.path, split(updated.tor.dataDirs.path), "data_dirs.path", true, relativeTo);
    if dataDirs.Err? {
      return Fail(dataDirs.error), updated;
    }
    updated := updated.(tor := updated.tor.(dataDirs := updated.tor.dataDirs.(fullPath := dataDirs.value)));
    return Pass, updated;
  }
}
