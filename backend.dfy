/** What the media source sees of the object store: the records a listing
    returns, the objects a container holds, and the outcome of one backend
    call. */
module Backend {
  import opened Strings
  import Percent

  datatype Option<T> = None | Some(value: T)

  /** The content type that marks a zero-length object as a directory. */
  const DirectoryType: string := "application/directory"

  /** How one backend call ends: it does its work and reports success, it
      reports failure (returns false or nothing) without changing anything,
      or it throws. A fetch only distinguishes Throws from the others: when
      it does not throw it answers from the container. A batch upload that
      throws may have stored part of its batch (MediaSource's UploadObjects). */
  datatype Call = Succeeds | Refuses | Throws

  /** An object of the container. A content type of None is one this layer
      did not set (the backend picks it). */
  datatype StoredObject = StoredObject(contentType: Option<string>, content: string)

  /** One record of an object listing: the name as the backend returns it
      (percent-encoded), the content type and the content length. */
  datatype BackendRecord = BackendRecord(name: string, contentType: string, size: nat)

  /** The field an error is reported against (addError's first argument). */
  datatype Field = Name | Dir | Path | File

  /** What went wrong; the translated message of the source is replaced by
      the lexicon key it uses and the values it fills in. */
  datatype Code =
    | FolderCreateFailed(path: string)     // file_folder_err_create
    | FolderNotFound(path: string)         // file_folder_err_nf
    | FolderRemoveFailed(path: string)     // file_folder_err_remove
    | ExtNotAllowed(ext: string)           // file_err_ext_not_allowed
    | TooLarge(size: int, allowed: int)    // file_err_too_large
    | UploadFailed                         // file_err_upload
    | SaveFailed(path: string)             // file_err_save
    | FileNotFound(path: string)           // file_err_nf
    | FileNotSpecified(path: string)       // file_err_ns
    | RenameFailed(path: string)           // file_err_rename
    | MoveFailed(to: string, from: string) // file_err_rename, "to" -> "from"
    | RemoveFailed(path: string)           // file_err_remove

  /** One addError call. */
  datatype FieldError = FieldError(field: Field, code: Code)

  /** The decoded name of a record with its trailing separators removed. */
  function RecordPath(r: BackendRecord): (p: string)
    ensures p == [] || p[|p| - 1] != '/'
  {
    RTrim(Percent.Decode(r.name), Slash)
  }

  /** A record is a directory when its lower-cased content type is the marker type. */
  predicate IsDirectoryType(contentType: string)
  {
    Lower(contentType) == DirectoryType
  }

  /** stripos($contentType, 'text') === 0: the type starts with "text" in any case. */
  predicate IsTextType(contentType: string)
  {
    |contentType| >= 4 && Lower(contentType[..4]) == "text"
  }
}
