/** The rows and snapshots the store holds.

    Only the key fields of each row are modelled; everything else a row
    carries is an opaque payload. */
module AppData {
  import opened KeyedSeq

  datatype Option<T> = None | Some(value: T)

  type FileId = string
  type UserId = string
  type MutationId = string

  /** The non-key columns of a row, which the store never inspects. */
  type Payload = string

  datatype User = User(id: UserId, payload: Payload)
  datatype File = File(id: FileId, payload: Payload)
  datatype FileState = FileState(fileId: FileId, userId: UserId, payload: Payload)

  /** Files are matched by `id`. */
  function FileKey(f: File): FileId { f.id }

  /** File states are matched by `fileId` and `userId` together. */
  function FileStateKey(fs: FileState): (FileId, UserId) { (fs.fileId, fs.userId) }

  datatype Table = UserTable | FileTable | FileStateTable
  datatype Event = Insert | Update | Delete

  /** The new row of an update; its constructor is the table it belongs to. */
  datatype Row = UserRow(user: User) | FileRow(file: File) | FileStateRow(fileState: FileState)

  /** One row change: which table, which event, the full new row. */
  datatype RowUpdate = RowUpdate(event: Event, row: Row) {
    function table(): Table {
      match row
      case UserRow(_) => UserTable
      case FileRow(_) => FileTable
      case FileStateRow(_) => FileStateTable
    }
  }

  /** A snapshot: the singleton user slot, the files and the file states. */
  datatype StoreData = StoreData(user: Option<User>, files: seq<File>, fileStates: seq<FileState>)

  /** The keyed collections of `d` hold each key at most once. */
  ghost predicate WellKeyed(d: StoreData) {
    UniqueKeys(d.files, FileKey) && UniqueKeys(d.fileStates, FileStateKey)
  }
}
