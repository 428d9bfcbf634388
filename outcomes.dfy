/** Option and Result, and the failures the version handler can raise. */
module Outcomes {

  datatype Option<+T> = None | Some(value: T)

  /** Every exception the modelled code can end in, one constructor per cause. */
  datatype Error =
    /** A value reached a parameter declared `array` (strict types): a scalar or
        a missing element (read as null) where a nested mapping was expected. */
    | NotAnArray
    /** A value reached a `string` parameter or return type (strict types). */
    | NotAString
    /** FileException: the target file could not be read or parsed. */
    | FileError(path: string)
    /** StrategyException: every configured strategy declined. */
    | StrategyError
    /** A configured strategy name has no entry in the registry, so
        instantiating it fails. */
    | UnknownStrategy
    /** ConfigurationException: `file` missing or empty. */
    | ConfigMissingFile
    /** ConfigurationException: `file` does not name an existing file. */
    | ConfigFileNotFound(file: string)
    /** ConfigurationException: `parameter-key` missing or empty. */
    | ConfigMissingParameterKey
    /** InvalidArgumentException: the setting is not an array. */
    | InvalidSetting
    /** InvalidArgumentException: an element of the configuration list is not an array. */
    | InvalidConfigEntry

  datatype Result<+T> = Ok(value: T) | Err(error: Error) {
    predicate IsFailure() { Err? }
    function PropagateFailure<U>(): Result<U> requires Err? { Err(error) }
    function Extract(): T requires Ok? { value }
  }
}
