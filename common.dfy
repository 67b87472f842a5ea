/** Values shared by every part of the supervisor model: optional values,
    results that carry an error, the error kinds the program raises, and
    the JSON values it stores without looking inside. */
module Common {

  datatype Option<+T> = None | Some(value: T)

  datatype Result<+T> = Ok(value: T) | Err(error: Error) {
    predicate IsFailure() { Err? }
    function PropagateFailure<U>(): Result<U>
      requires Err?
    {
      Err(error)
    }
    function Extract(): T
      requires Ok?
    {
      value
    }
  }

  /** Every exception the core can raise.  The first six are the classes of
      skgc/server_exceptions.py; the next three are the bare `Exception`s of
      the thread-based skgc.py, named after their messages; the rest are the
      Python built-in errors that reach the caller. */
  datatype Error =
    | ServerInitException
    | ServerDataError
    | ServerStartingException
    | ServerProcessError
    | ServerOutputException
    | ServerInputException
    | NotInitialized        // skgc.py: "not initialised"
    | AlreadyStarted        // skgc.py: "already started"
    | NotStarted            // skgc.py: "not started"
    | KeyError(key: string)
    | IndexError
    | ValueError
    | FileNotFoundError
    | FileExistsError
    | NotADirectoryError
    | IsADirectoryError
    | ShutilError           // shutil.Error: destination already exists, or move into itself
    | ReadError             // shutil.ReadError: an archive that cannot be unpacked
    | DownloadError         // urllib failure while fetching a release

  /** A JSON document, as stored in the `misc` / `server_data` fields.  The
      core passes these through unchanged. */
  datatype Json =
    | JNull
    | JBool(b: bool)
    | JNumber(n: int)
    | JString(s: string)
    | JArray(items: seq<Json>)
    | JObject(fields: map<string, Json>)
}
