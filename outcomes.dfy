/** Error values shared by the storage helpers and the listing. */
module Outcomes {

  datatype Option<+T> = None | Some(value: T)

  datatype Result<+T, +E> = Success(value: T) | Failure(error: E)

  /** The step of a storage helper at which a call into the storage client failed;
      each one is the prefix the helper puts in front of the client's error text. */
  datatype Stage =
    | NewClient    // "storage.NewClient: ..."
    | Copy         // "io.Copy: ..."
    | WriterClose  // "Writer.Close: ..."
    | NewReader    // "Object(...).NewReader: ..."
    | ReadAll      // "ioutil.ReadAll: ..."
    | Objects      // "Bucket(...).Objects: ..."

  /** What the storage client reported. */
  datatype Cause =
    | ObjectNotExist          // storage.ErrObjectNotExist
    | Transport(msg: string)  // any other failure: session, network, permission

  datatype Error =
    | StorageError(stage: Stage, cause: Cause)  // a client error wrapped with the stage prefix
    | CallbackError(msg: string)                // the caller's callback failed; passed on unchanged
}
