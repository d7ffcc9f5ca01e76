/** The configuration records of src/config.rs; loading and parsing them is not modelled. */
module Config {
  import opened Numbers

  datatype LogLevelConfig = Error | Warn | Info | Debug | Trace

  /** `LogConfig`; `enabled` is the field spelled `r#use` in the source. */
  datatype LogConfig = LogConfig(enabled: bool, path: string, level: LogLevelConfig)

  datatype TorDataDirsConfig = TorDataDirsConfig(path: string, clear: bool, fullPath: string)

  datatype TorConfig = TorConfig(
    path: string,
    torrc: string,
    dataDirs: TorDataDirsConfig,
    startPort: U16,
    portCount: U16,
    fullPath: string,
    torrcFullPath: string)

  datatype AppConfig = AppConfig(tor: TorConfig, listenAddr: string, log: LogConfig)
}
