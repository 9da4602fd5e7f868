/** Failure-compatible wrappers shared by every module of the model. */
module Wrappers {

  datatype Option<+T> = None | Some(value: T)

  datatype Result<+T, +E> = Ok(value: T) | Err(error: E)

  /** The error values the program can return: the two named errors of
      overmapper.go plus the errors it passes through from the file system,
      strconv and fmt. */
  datatype Error =
    | MultipleCharacters  // ErrMultiChars
    | NoSeenFiles         // ErrNotFound
    | NumberOutOfRange    // strconv.Atoi: value out of range
    | OpenFailure         // os.Open failed
    | ReadFailure         // bufio.Scanner reported a read error
    | ScanFailure         // fmt.Fscanf failed with an error other than io.EOF
}
