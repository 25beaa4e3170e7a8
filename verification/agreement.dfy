/** How the two entry points of the dataset service relate on one snapshot
    of the data directory. */
module Agreement {
  import opened Results
  import opened Paths
  import opened FileSystem
  import opened Scan
  import opened Inspector
  import opened Listing
  import opened Readiness

  /** Whenever the listing succeeds, the readiness check does not raise, and
      the number of datasets it reports is the length of the listing. */
  lemma {:induction false} ListingSuccessMeansReportWithSameCount(d: DirState)
    requires ListDatasets(d).Success?
    ensures ReadinessCheck(d).Success?
    ensures ReadinessCheck(d).value.datasetsFound == |ListDatasets(d).value|
  {
    if d.Dir? {
      var files := CsvFiles(d.entries);
      forall i | 0 <= i < |files| ensures !ProbeHeader(files[i]).Raises? {
        assert Inspect(files[i]).Success?;
      }
    }
  }

  /** An empty `*.csv` file is a dataset with no columns and no rows for the
      listing, but an unreadable file for the readiness check: unless another
      file makes the check raise, it reports an empty-file message for it and
      is not ready. */
  lemma {:induction false} EmptyFileAsymmetry(entries: seq<Entry>, e: Entry)
    requires e in entries && IsCsvName(e.name)
    requires e.stat.Stat? && e.stream == RowStream([], Eof)
    ensures Inspect(e).Success? && Inspect(e).value.rowCount == 0 && Inspect(e).value.columns == []
    ensures ReadinessCheck(Dir(entries)).Success? ==>
              && EmptyFile(e.name) in ReadinessCheck(Dir(entries)).value.checks.errors
              && !ReadinessCheck(Dir(entries)).value.ready
  {
    CsvFilesMembers(entries, e);
    assert |CsvFiles(entries)| > 0;
    if ReadinessCheck(Dir(entries)).Success? {
      ReportErrorsExact(entries);
      assert ProbeHeader(e) == Unreadable(EmptyFile(e.name));
    }
  }

  /** The readiness check reads only the first row of each file, so it can
      report ready for a directory the listing fails on: here the read fails
      after the header. */
  lemma ReadyDoesNotMeanListable()
    ensures exists d :: ReadinessCheck(d).Success? && ReadinessCheck(d).value.ready && ListDatasets(d).Failure?
  {
    var e := Entry("broken.csv", Stat(10, "1970-01-01T00:00:00+00:00"), RowStream([["id"]], OsFailure("I/O error")));
    assert IsCsvName(e.name);
    assert CsvEntries([e]) == [e];
    assert CsvFiles([e]) == [e];
    assert [e][..0] == [] && [e][0] == e;
    assert Fold([e]) == Success(Tally(1, 0, []));
    assert ReadinessCheck(Dir([e])).value.ready;
    assert ListDatasets(Dir([e])).Failure?;
  }

}
