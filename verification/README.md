# Dataset dashboard backend: the dataset service in Dafny

A model of the dataset service of the dataset dashboard backend
(`app/services/datasets.py`). The service scans a `data` directory for
`*.csv` files. It has two entry points:

- `list_datasets` returns the metadata of every file: id, file name, row
  count, column names, size and modification time.
- `readiness_check` returns a structured report. Its gates are: the
  directory exists, it is a directory, it holds at least one `*.csv` file,
  and every such file yields a header row.

The filesystem is an immutable value, so every operation is a pure function
of one snapshot of the directory:

- `FileSystem.DirState` is `Missing | NotADir | Dir(entries)`. The entries
  come in the order the operating system enumerates them, which nothing
  specifies.
- `FileSystem.Entry` holds a name, the result of `stat()` and a `RowStream`.
  The `RowStream` is the rows `csv.reader` yields for the file, followed by
  how the iteration ends: `Eof`, an `OSError` (`OsFailure`) or any other
  exception (`OtherFailure`, e.g. a `UnicodeDecodeError`). A file that
  cannot be opened yields no rows and ends in `OsFailure`. A sub-directory
  named `x.csv` is such an entry.
- Exceptions that escape an entry point are values: `Results.Result` with
  `FileSystem.Exception`.

Modules follow the components of the service:

| module | what it models |
|---|---|
| `Text` | Python's `str.strip()` (with Python's whitespace set) and Python's `str` ordering |
| `Paths` | the `*.csv` glob pattern and `pathlib`'s `stem` |
| `Scan` | `sorted(data_dir.glob("*.csv"))`: filter, sort, and why the order is deterministic |
| `Inspector` | `_inspect_csv` |
| `Listing` | `list_datasets` |
| `Readiness` | `readiness_check`, its gates and its per-file loop |
| `Agreement` | how the two entry points relate on one snapshot |

Three behaviours of the code are easy to miss:

- `readiness_check` counts a file that yields no row as unreadable, with an
  empty-file message (lines 151-153). `_inspect_csv` lists the same file
  with 0 rows and no columns (lines 43-53).
- `readiness_check` catches only `OSError` (line 156). A decoding or
  CSV-tokenising error therefore escapes from it; the model returns
  `Failure(OtherException)`.
- A path that exists but is not a directory lists as empty, because
  `pathlib`'s glob yields nothing for it. `Listing.ListDatasets` returns
  `Success([])` for it, as for a missing directory.

## Model

| member | source | states |
|---|---|---|
| `Text.Strip` | app/services/datasets.py:54 | the result is a contiguous piece of the field, bordered in the field only by whitespace, that neither starts nor ends with whitespace |
| `Text.StripCharacterized` | app/services/datasets.py:54 | that characterisation is exact: a string satisfies it for `s` if and only if it equals `Strip(s)` |
| `Text.StripIdempotent` | app/services/datasets.py:54 | stripping an already stripped value changes nothing |
| `Paths.Stem` | app/services/datasets.py:47 | the id is a prefix of the name; it stops right before the last dot, unless that dot begins or ends the name, in which case it is the whole name (`pathlib` up to Python 3.13; only `*.csv` names reach it) |
| `Paths.StemOfCsvName` | app/services/datasets.py:60-61 | for a `*.csv` name, id followed by `.csv` gives back the name; only the bare name `.csv` is its own id |
| `Paths.SampleStem` | tests/test_datasets_endpoint.py:41 | the id of `sample.csv` is `sample` |
| `Scan.CsvEntries` | app/services/datasets.py:80 | keeps every entry whose name matches `*.csv`, as often as it occurs, and no other entry |
| `Scan.SortByName` | app/services/datasets.py:80 | the result is sorted by file name and is a permutation of the input |
| `Scan.CsvFiles` | app/services/datasets.py:133 | the files both entry points visit are the `*.csv` entries, each once, in ascending name order |
| `Scan.SortedUnique` | app/services/datasets.py:80 | with distinct names, two sorted permutations of one collection are equal |
| `Scan.CsvFilesStrictlySorted` | app/services/datasets.py:80 | in a directory with distinct names, the visited files are in strictly increasing name order |
| `Scan.CsvFilesOrderIndependent` | app/services/datasets.py:133 | the visited files do not depend on the order in which the directory is enumerated |
| `Scan.CsvFilesMembers` | app/services/datasets.py:133 | an entry is visited if and only if it is in the directory and its name matches `*.csv` |
| `Inspector.Raised` | app/services/datasets.py:40-57 | a read that stops with an `OSError` raises that `OSError` with its reason; any other stop raises a non-OSError |
| `Inspector.Columns` | app/services/datasets.py:54 | one column per header field, in order and with duplicates kept, each the strip of its field |
| `Inspector.Inspect` | app/services/datasets.py:27-66 | fails exactly when `stat()` or the read fails, with `stat()`'s error first; an empty file gives 0 rows and no columns; otherwise the row count is the number of rows minus the header and the columns are the stripped header fields; file name, id, size and time come from the entry |
| `Inspector.ColumnsAreStripped` | app/services/datasets.py:54 | every reported column is its own strip and neither starts nor ends with whitespace |
| `Inspector.SampleInspection` | tests/test_datasets_endpoint.py:20-43 | header `id,name` with three data rows gives row count 3, columns `id`,`name` and id `sample` |
| `Listing.InspectAll` | app/services/datasets.py:80-83 | on success, one record per file, in order, each the inspection of that file; on failure, the error is that of the first file whose inspection fails |
| `Listing.ListDatasets` | app/services/datasets.py:69-83 | a missing directory (or a non-directory) gives an empty list; otherwise one record per visited file, file names in ascending order; a failure is the inspection failure of some `*.csv` entry, never a partial list |
| `Listing.ListingSucceedsIff` | app/services/datasets.py:79-83 | the listing of a directory succeeds if and only if every `*.csv` entry can be inspected |
| `Listing.ListingHoldsEveryCsvEntry` | app/services/datasets.py:80-81 | a successful listing holds the inspection of every `*.csv` entry |
| `Listing.ListingHoldsOnlyCsvEntries` | app/services/datasets.py:80-81 | every record of a successful listing is the inspection of some `*.csv` entry |
| `Listing.ListingStrictlySorted` | app/services/datasets.py:80 | with distinct names, the listed file names strictly increase |
| `Listing.ListingOrderIndependent` | app/services/datasets.py:80 | two enumerations of one directory give the same listing |
| `Listing.SampleListing` | tests/test_datasets_endpoint.py:17-46 | a directory holding only `sample.csv` lists one record with id `sample`, 3 rows and columns `id`,`name` |
| `Readiness.ProbeHeader` | app/services/datasets.py:146-158 | a file is readable exactly when it yields a first row; an empty file is unreadable with an empty-file message; an `OSError` is unreadable with its reason; anything else raises |
| `Readiness.Fold` | app/services/datasets.py:146-158 | the loop raises exactly when some file's probe raises, and then only a non-OSError; otherwise readable plus unreadable is the number of files and there is one message per unreadable file |
| `Readiness.ProbeReport` | app/services/datasets.py:160-168 | after the loop: ready exactly when there are no messages, status ok exactly when ready, datasets found equals the file count |
| `Readiness.ReadinessCheck` | app/services/datasets.py:98-168 | each gate gives its fixed outcome and skips the later ones; every report has readable plus unreadable equal to the file count, datasets found equal to the file count, ready exactly when there are no messages, status ok exactly when ready and error exactly when the path is not a directory; ready implies the directory exists, is a directory and holds a file; only a non-OSError escapes |
| `Readiness.FoldErrorsExact` | app/services/datasets.py:150-158 | a message is in the loop's list if and only if it is the message of an unreadable file |
| `Readiness.FoldErrorsInFileOrder` | app/services/datasets.py:133-158 | every message is about one file, and for files in strictly increasing name order the messages are too |
| `Readiness.FoldCleanIff` | app/services/datasets.py:150-161 | the loop ends with no unreadable file if and only if every file yields a first row |
| `Readiness.ReadyIffEveryHeaderRead` | app/services/datasets.py:108-168 | the report is ready if and only if the path is a directory holding at least one `*.csv` entry and every such entry yields a first row |
| `Readiness.ReportErrorsExact` | app/services/datasets.py:146-158 | a per-file message is in the report if and only if it belongs to a `*.csv` entry that yields no first row |
| `Readiness.ReportErrorsInFileOrder` | app/services/datasets.py:133-158 | with distinct names, the report's messages come in strictly increasing file-name order |
| `Readiness.ReadinessOrderIndependent` | app/services/datasets.py:133 | two enumerations of one directory give the same report |
| `Readiness.OneValidCsvIsReady` | tests/test_datasets_endpoint.py:79-110 | one file with a header and a data row gives status ok, ready, one dataset found, one readable and no unreadable file |
| `Agreement.ListingSuccessMeansReportWithSameCount` | app/services/datasets.py:75-166 | when the listing succeeds the readiness check does not raise, and it reports as many datasets as the listing returns |
| `Agreement.EmptyFileAsymmetry` | app/services/datasets.py:43-153 | an empty `*.csv` file lists with no rows and no columns, but the readiness check records an empty-file message for it and is not ready |
| `Agreement.ReadyDoesNotMeanListable` | app/services/datasets.py:146-161 | the check reads only headers, so some directory is ready while its listing fails |

## Left out

- `_data_dir` (lines 17-24) resolves the directory from the module's location. That is a deployment concern, so the directory state is a parameter.
- `stat()` size and the ISO-8601 rendering of the modification time (lines 33-38) are opaque inputs carried in `Stat`. The UTC conversion and formatting belong to the `datetime` library.
- CSV tokenising and UTF-8 decoding (`csv.reader`, `open`) belong to the standard library. Their output is given as the rows of a `RowStream` and how it ends.
- The text of the error messages and the paths they interpolate are left out. Messages are the constructors of `Readiness.Message`, tagged with the file name and the `OSError` reason.
- Glob matching is a case-sensitive "ends with `.csv`" test, with `*` matching a leading dot as `pathlib` does. Case-insensitive matching on other platforms is not modelled.
- `Path.exists()` can raise on permission errors, and glob can skip a directory it cannot scan. Neither is modelled: the directory's state and entries are given.
- The file changing between `stat()` and the open, or between the listing and the reads, is not modelled: each entry is one fixed snapshot.
- `app/main.py` (HTTP routing, JSON serialisation, mapping `ready` to status 200 or 503) and `app/models/schema.py` (response declarations) hold no logic of the service beyond that mapping.
- Closing file handles and releasing resources are not modelled; the model has no resources.
- File names are those of a POSIX system: Unicode scalar strings, compared code point by code point (`Text.NameLe`, used by `Scan.SortByName`). Windows' case-folded path ordering and surrogate-escaped names are not modelled.
- `Paths.Stem` follows `pathlib` up to Python 3.13, where a trailing dot does not begin a suffix; from Python 3.14 it does. Only `*.csv` names reach `Stem`, and for them both versions agree.
