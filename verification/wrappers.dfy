/** Optional values and fallible results, used for JavaScript's `undefined`
    and for the errors the versioning code throws. */
module Wrappers {

  datatype Option<+T> = None | Some(value: T)

  datatype Result<+R, +E> = Ok(value: R) | Err(error: E)
}

/** The kinds of failure a version resolution can end in. */
module Errors {

  datatype VersionError =
    | InvalidStrategy                 // the strategy key is not in the registry
    | NotImplemented(name: string)    // the key is registered but has no resolver
    | DescribeParse(message: string)  // `git describe` output does not match the grammar
    | NotANumber(output: string)      // a count-like command output is not a decimal number

  /** The failures a version generator can end in: a generator reads git
      output, so it never fails with one of the dispatcher's own errors. */
  type GeneratorError = e: VersionError | !e.InvalidStrategy? && !e.NotImplemented?
    witness DescribeParse("")
}
