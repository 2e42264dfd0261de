/** Option and Result, and the closed set of failures the pipeline can raise. */
module Wrappers {

  datatype Option<+T> = None | Some(value: T)

  datatype Result<+R, +E> = Success(value: R) | Failure(error: E)

  /** The exceptions the modelled code can raise. */
  datatype Error =
    | NotImplemented    // `raise NotImplementedError` for interactive selection
    | EmptySequence     // numpy's ValueError for argmin / argmax of an empty array
    | IndexOutOfRange   // IndexError from indexing a list or an array
    | ShapeMismatch     // numpy's ValueError when a candidate and the reference cannot be subtracted
    | KeyFrameNotFirst  // the AssertionError "Only support key frame at the beginning."
}
