/** `PutFile`, `GetFile`, `Exists`, `FileMetadata.Get`, `ProcessFile` and
    `ProcessAndUpdateFile` over an in-memory object store.

    The storage client is replaced by a map from (bucket, path) to the stored bytes.
    Whether a call into the client fails, and with what message, is not something the
    helpers decide: it is a parameter of each call (a `WriteFault` or a `ReadFault`). */
module Storage {
  import opened Outcomes
  import opened Metadata

  type Bytes = seq<bv8>

  datatype ObjectKey = ObjectKey(bucket: string, path: string)

  /** How the storage client behaves during one upload. */
  datatype WriteFault =
    | WriteSucceeds
    | WriteClientUnavailable(msg: string)  // storage.NewClient fails
    | CopyInterrupted(msg: string)         // io.Copy into the writer fails
    | CloseFailed(msg: string, committed: bool)
      // the writer's Close fails; `committed` says whether the final request had already
      // been accepted (a lost response or the timeout after the commit), so the object
      // was replaced even though an error is returned

  /** How the storage client behaves during one download. */
  datatype ReadFault =
    | ReadSucceeds
    | ReadClientUnavailable(msg: string)   // storage.NewClient fails
    | ReaderFailed(msg: string)            // NewReader fails for a reason other than a missing object
    | ReadInterrupted(msg: string)         // ioutil.ReadAll fails

  /** The error `PutFile` returns; none exactly when every client step succeeds. */
  function WriteError(fault: WriteFault): (err: Option<Error>)
    ensures err.None? <==> fault.WriteSucceeds?
  {
    match fault
    case WriteSucceeds => None
    case WriteClientUnavailable(msg) => Some(StorageError(NewClient, Transport(msg)))
    case CopyInterrupted(msg) => Some(StorageError(Copy, Transport(msg)))
    case CloseFailed(msg, _) => Some(StorageError(WriterClose, Transport(msg)))
  }

  /** Whether the upload replaces the object: always on success, and on a failed
      Close when the commit had already gone through. Nothing is written before Close. */
  predicate Commits(fault: WriteFault)
  {
    fault.WriteSucceeds? || (fault.CloseFailed? && fault.committed)
  }

  /** What `GetFile` returns for the object at `key`: its bytes exactly when the
      client works and the object exists; "object does not exist" from NewReader
      whenever the client could be created but there is no such object. */
  function Fetch(objects: map<ObjectKey, Bytes>, key: ObjectKey, fault: ReadFault): (r: Result<Bytes, Error>)
    ensures r.Success? <==> fault.ReadSucceeds? && key in objects
    ensures r.Success? ==> r.value == objects[key]
    ensures !fault.ReadClientUnavailable? && key !in objects ==>
      r == Failure(StorageError(NewReader, ObjectNotExist))
  {
    if fault.ReadClientUnavailable? then Failure(StorageError(NewClient, Transport(fault.msg)))
    else if key !in objects then Failure(StorageError(NewReader, ObjectNotExist))
    else if fault.ReaderFailed? then Failure(StorageError(NewReader, Transport(fault.msg)))
    else if fault.ReadInterrupted? then Failure(StorageError(ReadAll, Transport(fault.msg)))
    else Success(objects[key])
  }

  class Store {
    /** The stored objects. */
    var objects: map<ObjectKey, Bytes>

    constructor (initial: map<ObjectKey, Bytes>)
      ensures objects == initial
    {
      objects := initial;
    }

    /** `PutFile`: when the upload commits, the object at (bucket, path) holds exactly
        `data` and no other object changes; otherwise nothing changes. It commits on
        success and may commit even though Close reports an error (`Commits`). */
    method PutFile(bucket: string, path: string, data: Bytes, fault: WriteFault) returns (err: Option<Error>)
      modifies this
      ensures err == WriteError(fault)
      ensures Commits(fault) ==> objects == old(objects)[ObjectKey(bucket, path) := data]
      ensures !Commits(fault) ==> objects == old(objects)
    {
      err := WriteError(fault);
      if Commits(fault) {
        objects := objects[ObjectKey(bucket, path) := data];
      }
    }

    /** `GetFile`: the stored bytes, or the first failure on the way to them. */
    method GetFile(bucket: string, path: string, fault: ReadFault) returns (r: Result<Bytes, Error>)
      ensures r == Fetch(objects, ObjectKey(bucket, path), fault)
    {
      r := Fetch(objects, ObjectKey(bucket, path), fault);
    }

    /** `Exists`: false exactly for a missing object. */
    method Exists(bucket: string, path: string) returns (present: bool)
      ensures present <==> ObjectKey(bucket, path) in objects
    {
      present := ObjectKey(bucket, path) in objects;
    }

    /** `FileMetadata.Get`: downloads the listed object. */
    method GetEntry(entry: FileMetadata, fault: ReadFault) returns (r: Result<Bytes, Error>)
      ensures r.Success? <==> fault.ReadSucceeds? && ObjectKey(entry.bucket, entry.name) in objects
      ensures r.Success? ==> r.value == objects[ObjectKey(entry.bucket, entry.name)]
    {
      r := GetFile(entry.bucket, entry.name, fault);
    }

    /** `ProcessFile`: a failed download is returned as is; otherwise the callback's
        error is. The store is never written (the method may modify nothing). */
    method ProcessFile(bucket: string, path: string, process: Bytes -> Option<string>, fault: ReadFault)
      returns (err: Option<Error>)
      ensures var fetched := Fetch(objects, ObjectKey(bucket, path), fault);
        && (fetched.Failure? ==> err == Some(fetched.error))
        && (fetched.Success? && process(fetched.value).Some? ==>
              err == Some(CallbackError(process(fetched.value).value)))
        && (fetched.Success? && process(fetched.value).None? ==> err.None?)
    {
      var data := GetFile(bucket, path, fault);
      if data.Failure? {
        return Some(data.error);
      }
      var reported := process(data.value);
      if reported.Some? {
        return Some(CallbackError(reported.value));
      }
      err := None;
    }

    /** `ProcessAndUpdateFile`: a failed download or a failed callback is returned and
        nothing is written; otherwise the callback's output is uploaded to the same
        object, and the outcome is that of the upload. */
    method ProcessAndUpdateFile(bucket: string, path: string, process: Bytes -> Result<Bytes, string>,
                                readFault: ReadFault, writeFault: WriteFault)
      returns (err: Option<Error>)
      modifies this
      ensures var key := ObjectKey(bucket, path);
        var fetched := Fetch(old(objects), key, readFault);
        && (fetched.Failure? ==> err == Some(fetched.error) && objects == old(objects))
        && (fetched.Success? && process(fetched.value).Failure? ==>
              err == Some(CallbackError(process(fetched.value).error)) && objects == old(objects))
        && (fetched.Success? && process(fetched.value).Success? ==>
              && err == WriteError(writeFault)
              && objects == if Commits(writeFault) then old(objects)[key := process(fetched.value).value]
                            else old(objects))
    {
      var data := GetFile(bucket, path, readFault);
      if data.Failure? {
        return Some(data.error);
      }
      var processed := process(data.value);
      if processed.Failure? {
        return Some(CallbackError(processed.error));
      }
      err := PutFile(bucket, path, processed.value, writeFault);
    }
  }

  /** Write, then check and read back: after a `PutFile` that commits (every successful
      one, and one whose Close fails after the commit) the object exists and reads back
      as exactly the bytes written; an upload that does not commit changes nothing. */
  method PutThenGet(store: Store, bucket: string, path: string, data: Bytes, fault: WriteFault)
    returns (err: Option<Error>, present: bool, read: Result<Bytes, Error>)
    modifies store
    ensures err.None? <==> fault.WriteSucceeds?
    ensures Commits(fault) ==> present && read == Success(data)
    ensures !Commits(fault) ==> store.objects == old(store.objects)
  {
    err := store.PutFile(bucket, path, data, fault);
    present := store.Exists(bucket, path);
    read := store.GetFile(bucket, path, ReadSucceeds);
  }

  /** Update, then read back: after a successful `ProcessAndUpdateFile` the object
      reads back as the callback's output for the bytes it held before. */
  method UpdateThenGet(store: Store, bucket: string, path: string, process: Bytes -> Result<Bytes, string>)
    returns (err: Option<Error>, read: Result<Bytes, Error>)
    requires ObjectKey(bucket, path) in store.objects
    requires process(store.objects[ObjectKey(bucket, path)]).Success?
    modifies store
    ensures err.None?
    ensures read == Success(process(old(store.objects[ObjectKey(bucket, path)])).value)
  {
    err := store.ProcessAndUpdateFile(bucket, path, process, ReadSucceeds, WriteSucceeds);
    read := store.GetFile(bucket, path, ReadSucceeds);
  }

  /** An identity callback leaves every stored object as it was, whatever fails. */
  method UpdateWithIdentity(store: Store, bucket: string, path: string, readFault: ReadFault, writeFault: WriteFault)
    returns (err: Option<Error>)
    modifies store
    ensures store.objects == old(store.objects)
  {
    err := store.ProcessAndUpdateFile(bucket, path, d => Success(d), readFault, writeFault);
  }
}
