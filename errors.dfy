/**
 * The error enums of src/error.rs, and `NormalizePathError` of src/init.rs with the one
 * message of it that is stored in a `ConfigFileError`.
 */
module Errors {

  datatype TorSpawnError =
    | NotFound(path: string)
    | Other(path: string, error: string)

  datatype ConfigFileError =
    | NormalizePath(parameter: string, path: string, error: string)
    | EmptyParameter(name: string, description: string)

  /** `NormalizePathError` of src/init.rs. */
  datatype NormalizePathError = GoesThruRoot(path: string)

  function NormalizePathErrorMessage(e: NormalizePathError): string {
    "path '" + e.path + "' goes thru root ('/')"
  }
}
