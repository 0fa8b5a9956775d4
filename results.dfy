/** Error outcomes of the restore pipeline.  Every failure in the source throws
    and aborts the whole restore, so a single error value is all a caller sees. */
module Results {

  datatype Error =
    | ReadFailed              // readFile: fewer bytes remained than requested
    | SeekFailed              // setFilePointer: target position is negative
    | OpenFailed(name: string) // openFile / readBackupFileLayout on a file that cannot be opened
    | MissingTrack0           // readDiskMetadata: first header is not tagged $TRACK0
    | BadCount                // vector::resize of a negative int32 count throws
    | DecodeFailed            // the JSON payload could not be decoded
    | UndefinedIndex          // the source would index a vector out of range

  datatype Result<T> = Ok(value: T) | Err(error: Error) {
    predicate IsFailure() { Err? }
    function PropagateFailure<U>(): Result<U> {
      match this
      case Err(e) => Err(e)
      case Ok(_) => Err(UndefinedIndex)
    }
    function Extract(): T
      requires Ok?
    {
      value
    }
  }

  datatype Option<T> = None | Some(value: T)
}
