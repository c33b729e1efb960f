/** Outcomes of the analyser's operations: a value, or the exception the
    histogram script would raise instead of producing one. */
module Results {

  datatype Option<T> = None | Some(value: T)

  /** Every way the histogram computation can stop without a report. */
  datatype Error =
    | UnknownMeasure(name: string)  // the ValueError of the measure check
    | EmptyReshape                  // reshape(0, -1) of a recording that has no frames
    | NothingToConcatenate          // np.concatenate of an empty list of matrices
    | ColumnMismatch                // np.concatenate of matrices of different widths
    | ZeroWidth                     // np.arange with a step of zero
    | NoJoints                      // np.stack of the lone Total column when no joint is left

  datatype Result<T> = Ok(value: T) | Err(error: Error)
}
