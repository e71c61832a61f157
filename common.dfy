/** Shared vocabulary of the file-stream model: the errors a stream raises, the
    values a record holds, the per-stream configuration and the filesystem the
    stream reads through. */
module Common {

  /** The exceptions raised by discovery and schema derivation. */
  datatype Error =
    | PathDoesNotExist(path: string)   // `Exception("File path does not exist ...")`
    | NoAcceptableFiles                // `RuntimeError("Stream ... has no acceptable files")`
    | NoHeaderRow                      // `header` never bound: the first file has no rows

  /** A computation that either produces a value or raises one of the errors above. */
  datatype Result<T> = Ok(value: T) | Err(error: Error)

  datatype Option<T> = None | Some(value: T)

  /** One value of a record: a CSV cell, or one of the injected metadata values
      (the file's modification time as seconds since the epoch, UTC, and the row index). */
  datatype Value = Str(s: string) | DateTime(seconds: int) | Int(n: int)

  /** What one `os.walk` / `fs.walk` step yields: a directory and the plain files in it
      (the sub-directory names are not used by the stream). */
  datatype WalkEntry = WalkEntry(dirpath: string, filenames: seq<string>)

  /** The outside world as seen by a stream. `walk` is the complete walk of a root, in
      walk order; `normpath` stands for `os.path.normpath`, left uninterpreted; `rows` is
      a file's content after CSV decoding; `mtime` its modification time. */
  datatype FileSystem = FileSystem(
    pathExists: string -> bool,
    isDir: string -> bool,
    walk: string -> seq<WalkEntry>,
    normpath: string -> string,
    mtime: string -> int,
    rows: string -> seq<seq<string>>)

  /** The part of one `files` entry of the tap configuration that the core reads. */
  datatype FileConfig = FileConfig(path: string, keys: Option<seq<string>>)

  /** `file_config.get("keys", [])`: the configured keys, or none when the entry has no
      `keys` field. */
  function KeysOf(config: FileConfig): (ks: seq<string>)
    ensures config.keys.Some? ==> ks == config.keys.value
    ensures config.keys.None? ==> ks == []
  {
    match config.keys
    case Some(ks) => ks
    case None => []
  }
}
