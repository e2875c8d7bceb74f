/** The error values a connector reports to the platform (`ndc_sdk::connector`). */
module Connector {

  /** One step of the path to a configuration field. */
  datatype KeyOrIndex = Key(key: string) | Index(index: int)

  /** One configuration defect: where it is and what is wrong. */
  datatype InvalidRange = InvalidRange(path: seq<KeyOrIndex>, message: string)

  datatype ValidateError = ValidateError(ranges: seq<InvalidRange>)

  /** A failure while elaborating a configuration, wrapping its cause. */
  datatype UpdateConfigurationError = Other(cause: string)
}
