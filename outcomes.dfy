/** Option and Result wrappers, and the ways a fit call fails. */
module Outcomes {

  datatype Option<T> = None | Some(value: T)

  datatype Result<T, E> = Ok(value: T) | Err(error: E)

  /** Why a fit call raises instead of producing factors. */
  datatype FitError =
    | MissingColumn(column: string)    // a KeyError on the fitted index maps
    | ProcessFailed(stderr: string)    // the external engine wrote to its error stream
    | MalformedOutput(stdout: string)  // standard output did not split into two paths
}
