/** Error kinds and result wrappers shared by the storage engine model. */
module Results {

  /** The failures the engine can report. The engine returns Go `error`
      values; each distinct cause gets its own constructor here. */
  datatype Error =
    | MissingCollection   // empty collection name
    | MissingResource     // empty resource name
    | NotFound            // ENOENT, or the "record does not exist" check
    | NotADirectory       // ENOTDIR: a path segment is a regular file
    | IsADirectory        // EISDIR: a file operation met a directory
    | AlreadyExists       // EEXIST: os.Rename onto an existing directory
    | InvalidPath         // EINVAL: os.RemoveAll of a path ending in "."
    | EncodeFailed        // the serializer rejected the value
    | DecodeFailed        // the stored bytes do not decode

  datatype Option<+T> = None | Some(value: T)

  datatype Result<+T> = Ok(value: T) | Err(error: Error)

  /** One byte of file content. */
  newtype Byte = x: int | 0 <= x < 256

  type Bytes = seq<Byte>

  /** The newline the engine appends after the encoded document. */
  const Newline: Byte := 10
}
