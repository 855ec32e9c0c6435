/** The backend the cache consumes: its tables and its three file-storage
    calls, kept as uninterpreted function values, and the entries of the
    call log through which the model states when the cache reaches it. */
module Storage {
  import opened Values
  import opened Fields

  /** The small mapping of derived file attributes (size, mtime) that
      `backend.format_metadata` returns. */
  type FormatMeta = map<string, Value>

  /** The `as_file`, `as_image` and `as_path` flags of a cover request. */
  datatype CoverShape = CoverShape(asFile: bool, asImage: bool, asPath: bool)

  /** One call into the backend. */
  datatype Call =
    | ReadTables
    | FormatAbspathCall(bookId: BookId, fmt: string, name: string, path: string)
    | FormatMetadataCall(bookId: BookId, fmt: string, name: string, path: string)
    | CoverCall(path: string, shape: CoverShape)

  /** `tables` is the backend's field name -> table handle mapping as
      `read_tables()` leaves it; the three functions are the answers of
      `format_abspath`, `format_metadata` and `cover`. */
  datatype Backend<Table> = Backend(
    tables: map<string, Table>,
    formatAbspath: (BookId, string, string, string) -> Option<string>,
    formatMetadata: (BookId, string, string, string) -> FormatMeta,
    cover: (string, CoverShape) -> Value)
}
