/** The data directory as a value. Every operation of the dataset service
    reads the filesystem and nothing else, so one snapshot of it is the
    whole input. */
module FileSystem {

  /** How the row iterator of a file ends once the rows it yields run out. */
  datatype StreamEnd =
    | Eof                         // the file was read to its end
    | OsFailure(reason: string)   // opening or reading raised an OSError
    | OtherFailure                // decoding or tokenising raised something else

  /** What `csv.reader` over the file yields: its rows in order, each a list
      of fields, then how the iteration stops. A file that cannot be opened
      at all yields no rows and ends in `OsFailure`. */
  datatype RowStream = RowStream(rows: seq<seq<string>>, end: StreamEnd)

  /** The result of `stat()` on the file: its size and its modification time
      already rendered as an ISO-8601 string, or the OSError it raised. */
  datatype Stat = Stat(size: int, modified: string) | StatError(reason: string)

  /** One entry of the data directory. */
  datatype Entry = Entry(name: string, stat: Stat, stream: RowStream)

  /** The state of the data directory path. `Dir` lists its entries in the
      order the operating system enumerates them, which nothing specifies. */
  datatype DirState = Missing | NotADir | Dir(entries: seq<Entry>)

  /** An exception that escapes from one of the service's functions. */
  datatype Exception = OSError(reason: string) | OtherException

  /** No two entries of a directory share a name. */
  ghost predicate DistinctNames(s: seq<Entry>) {
    forall i, j :: 0 <= i < j < |s| ==> s[i].name != s[j].name
  }

}
