/**
 * Failure-carrying results and the error conditions the modelled code raises.
 */
module Common {

  datatype Option<+T> = None | Some(value: T)

  datatype Result<+T> = Ok(value: T) | Err(error: Error)

  /** The exceptions the modelled Python code can raise, one constructor each. */
  datatype Error =
    /** `ValueError("No fills found in <path>")`: an empty raw fills file. */
    | NoFillsFound(path: string)
    /** `ValueError("No fills files found in <dir>")`: no `fills_*.json` file at all. */
    | NoFillsFiles(dir: string)
    /** `ZeroDivisionError` from `timestamp // window_seconds` with a zero window. */
    | ZeroWindow
    /** `json.loads` rejected a bracketed string. */
    | JsonDecode(text: string)
    /** `ValueError("Expected 2 clobTokenIds; got <n>. ...")`. */
    | TokenCount(count: nat)
    /** `AssertionError` from one of the writer's integrity asserts. */
    | IntegrityAssertion(message: string)
}
