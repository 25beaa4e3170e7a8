/** `_inspect_csv`: the metadata of one CSV file. */
module Inspector {
  import opened Results
  import opened Text
  import opened Paths
  import opened FileSystem

  /** What the listing reports about one dataset. */
  datatype DatasetMetadata = DatasetMetadata(
    id: string,
    filename: string,
    rowCount: nat,
    columns: seq<string>,
    sizeBytes: int,
    modifiedTime: string)

  /** The exception that escapes when the row iterator stops with a failure. */
  function Raised(end: StreamEnd): (x: Exception)
    requires !end.Eof?
    ensures x.OSError? <==> end.OsFailure?
    ensures x.OSError? ==> x.reason == end.reason
  {
    match end
    case OsFailure(reason) => OSError(reason)
    case OtherFailure => OtherException
  }

  /** The column names: every header field stripped of surrounding
      whitespace, in order, duplicates kept. */
  function Columns(header: seq<string>): (columns: seq<string>)
    ensures |columns| == |header|
    ensures forall i :: 0 <= i < |header| ==> IsStripOf(columns[i], header[i])
  {
    seq(|header|, i requires 0 <= i < |header| => Strip(header[i]))
  }

  /** Inspects one file. `stat()` comes first, so its failure wins; then the
      first row is the header and every later row is counted. A file with
      no row at all is not an error: it has no columns and no rows. */
  function Inspect(e: Entry): (r: Result<DatasetMetadata, Exception>)
    ensures r.Success? <==> e.stat.Stat? && e.stream.end.Eof?
    ensures e.stat.StatError? ==> r == Failure(OSError(e.stat.reason))
    ensures e.stat.Stat? && !e.stream.end.Eof? ==> r == Failure(Raised(e.stream.end))
    ensures r.Success? ==>
              && r.value.filename == e.name
              && r.value.id == Stem(e.name)
              && r.value.sizeBytes == e.stat.size
              && r.value.modifiedTime == e.stat.modified
    ensures r.Success? && |e.stream.rows| == 0 ==> r.value.rowCount == 0 && r.value.columns == []
    ensures r.Success? && |e.stream.rows| > 0 ==>
              && r.value.rowCount + 1 == |e.stream.rows|
              && |r.value.columns| == |e.stream.rows[0]|
              && forall i :: 0 <= i < |r.value.columns| ==> IsStripOf(r.value.columns[i], e.stream.rows[0][i])
  {
    match e.stat
    case StatError(reason) => Failure(OSError(reason))
    case Stat(size, modified) =>
      if !e.stream.end.Eof? then
        Failure(Raised(e.stream.end))
      else if |e.stream.rows| == 0 then
        Success(DatasetMetadata(Stem(e.name), e.name, 0, [], size, modified))
      else
        Success(DatasetMetadata(Stem(e.name), e.name, |e.stream.rows| - 1, Columns(e.stream.rows[0]), size, modified))
  }

  /** Every reported column name is already stripped: stripping it again
      changes nothing, and it neither starts nor ends with whitespace. */
  lemma {:induction false} ColumnsAreStripped(e: Entry)
    requires Inspect(e).Success?
    ensures forall c :: c in Inspect(e).value.columns ==>
              Strip(c) == c && (c == [] || (!IsSpace(c[0]) && !IsSpace(c[|c| - 1])))
  {
    forall c | c in Inspect(e).value.columns
      ensures Strip(c) == c
    {
      var i :| 0 <= i < |Inspect(e).value.columns| && Inspect(e).value.columns[i] == c;
      var h := e.stream.rows[0][i];
      StripCharacterized(h, c);
      StripIdempotent(h);
    }
  }

  /** A header of `id,name` followed by three data rows gives three rows and
      the columns `id` and `name`; the id of `sample.csv` is `sample`. */
  lemma {:induction false} SampleInspection(size: int, modified: string)
    ensures Inspect(Entry("sample.csv", Stat(size, modified),
                          RowStream([["id", "name"], ["1", "Ada"], ["2", "Grace"], ["3", "Linus"]], Eof)))
            == Success(DatasetMetadata("sample", "sample.csv", 3, ["id", "name"], size, modified))
  {
    SampleStem();
    var h: seq<string> := ["id", "name"];
    StripOfTrimmed("id");
    StripOfTrimmed("name");
    assert Columns(h) == h by {
      assert Columns(h)[0] == Strip("id") && Columns(h)[1] == Strip("name");
    }
  }

}
