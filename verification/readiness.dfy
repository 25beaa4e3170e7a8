/** `readiness_check`: an ordered pipeline of gates over the data directory
    (it exists, it is a directory, it holds `*.csv` files), then a header
    probe of every candidate file, folded into counters and messages. */
module Readiness {
  import opened Results
  import opened Text
  import opened Paths
  import opened FileSystem
  import opened Scan

  /** The human-readable messages of the report. The wording and the paths
      they interpolate are not modelled; per-file ones carry the file name. */
  datatype Message =
    | MissingDirectory
    | NotADirectory
    | NoCsvFiles
    | EmptyFile(file: string)
    | CannotRead(file: string, reason: string)

  /** The message reports a problem with the file called `name`. */
  predicate IsAbout(m: Message, name: string) {
    (m.EmptyFile? || m.CannotRead?) && m.file == name
  }

  datatype Status = Ok | Degraded | Error

  datatype Checks = Checks(
    dataDirExists: bool,
    dataDirIsDir: bool,
    csvCount: nat,
    csvReadable: nat,
    csvUnreadable: nat,
    errors: seq<Message>)

  datatype Report = Report(status: Status, ready: bool, datasetsFound: nat, checks: Checks)

  /** What reading the first row of one file leads to. */
  datatype Probe = HasHeader | Unreadable(message: Message) | Raises

  /** Opens the file and asks for one row. A file that yields no row is
      unreadable here, unlike in the inspector; an OSError is caught and
      reported; anything else escapes. */
  function ProbeHeader(e: Entry): (p: Probe)
    ensures p.HasHeader? <==> |e.stream.rows| > 0
    ensures p.Raises? <==> |e.stream.rows| == 0 && e.stream.end.OtherFailure?
    ensures p.Unreadable? ==> IsAbout(p.message, e.name)
    ensures p.Unreadable? && e.stream.end.Eof? ==> p.message == EmptyFile(e.name)
    ensures p.Unreadable? && e.stream.end.OsFailure? ==> p.message == CannotRead(e.name, e.stream.end.reason)
  {
    if |e.stream.rows| > 0 then HasHeader
    else
      match e.stream.end
      case Eof => Unreadable(EmptyFile(e.name))
      case OsFailure(reason) => Unreadable(CannotRead(e.name, reason))
      case OtherFailure => Raises
  }

  /** The counters the per-file loop accumulates. */
  datatype Tally = Tally(readable: nat, unreadable: nat, errors: seq<Message>)

  /** One iteration of the per-file loop. */
  function Step(t: Tally, e: Entry): Result<Tally, Exception> {
    match ProbeHeader(e)
    case HasHeader => Success(t.(readable := t.readable + 1))
    case Unreadable(m) => Success(t.(unreadable := t.unreadable + 1, errors := t.errors + [m]))
    case Raises => Failure(OtherException)
  }

  /** The per-file loop over `files`, from the first file to the last. Every
      file is counted once, as readable or as unreadable, and every
      unreadable one leaves one message; only a non-OSError escapes. */
  function Fold(files: seq<Entry>): (r: Result<Tally, Exception>)
    ensures r.Failure? <==> exists i :: 0 <= i < |files| && ProbeHeader(files[i]).Raises?
    ensures r.Failure? ==> r.error == OtherException
    ensures r.Success? ==> r.value.readable + r.value.unreadable == |files|
    ensures r.Success? ==> |r.value.errors| == r.value.unreadable
  {
    if |files| == 0 then Success(Tally(0, 0, []))
    else
      var init := files[..|files| - 1];
      assert forall i :: 0 <= i < |init| ==> init[i] == files[i];
      match Fold(init)
      case Failure(x) => Failure(x)
      case Success(t) => Step(t, files[|files| - 1])
  }

  /** The per-file loop and the final status (`app/services/datasets.py`
      lines 145-168), once at least one candidate file exists. */
  function ProbeReport(files: seq<Entry>): (r: Result<Report, Exception>)
    requires |files| > 0
    ensures r.Failure? <==> exists i :: 0 <= i < |files| && ProbeHeader(files[i]).Raises?
    ensures r.Failure? ==> r.error == OtherException
    ensures r.Success? ==>
              && r.value.checks.dataDirExists && r.value.checks.dataDirIsDir
              && r.value.checks.csvCount == |files| == r.value.datasetsFound
              && r.value.checks.csvReadable + r.value.checks.csvUnreadable == |files|
              && |r.value.checks.errors| == r.value.checks.csvUnreadable
              && (r.value.ready <==> r.value.checks.errors == [])
              && (r.value.status == Ok <==> r.value.ready)
              && r.value.status != Error
  {
    match Fold(files)
    case Failure(x) => Failure(x)
    case Success(t) =>
      var ready := t.unreadable == 0;
      Success(Report(if ready then Ok else Degraded, ready, |files|,
                     Checks(true, true, |files|, t.readable, t.unreadable, t.errors)))
  }

  /** The readiness report, or the exception that escapes from it. */
  function ReadinessCheck(d: DirState): (r: Result<Report, Exception>)
    // gate 1: the directory is missing
    ensures d.Missing? ==>
              && r.Success? && r.value.status == Error && !r.value.ready && r.value.datasetsFound == 0
              && r.value.checks == Checks(false, false, 0, 0, 0, [MissingDirectory])
    // gate 2: the path is not a directory
    ensures d.NotADir? ==>
              && r.Success? && r.value.status == Error && !r.value.ready && r.value.datasetsFound == 0
              && r.value.checks == Checks(true, false, 0, 0, 0, [NotADirectory])
    // gate 3: no candidate file
    ensures d.Dir? && |CsvFiles(d.entries)| == 0 ==>
              && r.Success? && r.value.status == Degraded && !r.value.ready && r.value.datasetsFound == 0
              && r.value.checks == Checks(true, true, 0, 0, 0, [NoCsvFiles])
    // gate 4: the per-file probe; only a non-OSError escapes
    ensures r.Failure? <==>
              d.Dir? && exists i :: 0 <= i < |CsvFiles(d.entries)| && ProbeHeader(CsvFiles(d.entries)[i]).Raises?
    ensures r.Failure? ==> r.error == OtherException
    // what every report satisfies
    ensures r.Success? ==>
              && r.value.checks.csvReadable + r.value.checks.csvUnreadable == r.value.checks.csvCount
              && r.value.datasetsFound == r.value.checks.csvCount
              && (r.value.ready <==> r.value.checks.errors == [])
              && (r.value.status == Ok <==> r.value.ready)
              && (r.value.status == Error <==> !d.Dir?)
              && (r.value.checks.dataDirExists <==> !d.Missing?)
              && (r.value.checks.dataDirIsDir <==> d.Dir?)
              && (d.Dir? ==> r.value.checks.csvCount == |CsvFiles(d.entries)|)
              && (r.value.checks.csvCount > 0 ==> |r.value.checks.errors| == r.value.checks.csvUnreadable)
              && (r.value.ready ==> r.value.checks.dataDirExists && r.value.checks.dataDirIsDir && r.value.checks.csvCount >= 1)
  {
    match d
    case Missing =>
      Success(Report(Error, false, 0, Checks(false, false, 0, 0, 0, [MissingDirectory])))
    case NotADir =>
      Success(Report(Error, false, 0, Checks(true, false, 0, 0, 0, [NotADirectory])))
    case Dir(entries) =>
      var files := CsvFiles(entries);
      if |files| == 0 then
        Success(Report(Degraded, false, 0, Checks(true, true, 0, 0, 0, [NoCsvFiles])))
      else
        ProbeReport(files)
  }

  /** The messages of the loop are exactly those of its unreadable files. */
  lemma {:induction false} FoldErrorsExact(files: seq<Entry>)
    requires Fold(files).Success?
    ensures forall m :: m in Fold(files).value.errors <==>
              exists i :: 0 <= i < |files| && ProbeHeader(files[i]) == Unreadable(m)
  {
    if |files| > 0 {
      var init := files[..|files| - 1];
      var last := files[|files| - 1];
      assert forall i :: 0 <= i < |init| ==> init[i] == files[i];
      FoldErrorsExact(init);
      forall m ensures m in Fold(files).value.errors <==>
                         exists i :: 0 <= i < |files| && ProbeHeader(files[i]) == Unreadable(m)
      {
        if exists i :: 0 <= i < |files| && ProbeHeader(files[i]) == Unreadable(m) {
          var i :| 0 <= i < |files| && ProbeHeader(files[i]) == Unreadable(m);
          if i < |init| {
            assert ProbeHeader(init[i]) == Unreadable(m);
          }
        }
      }
    }
  }

  /** Every message of the loop is about one file, and when the files come in
      strictly increasing name order, so do the files their messages are
      about. */
  lemma {:induction false} FoldErrorsInFileOrder(files: seq<Entry>)
    requires forall i, j :: 0 <= i < j < |files| ==> NameLt(files[i].name, files[j].name)
    requires Fold(files).Success?
    ensures forall k :: 0 <= k < |Fold(files).value.errors| ==>
              Fold(files).value.errors[k].EmptyFile? || Fold(files).value.errors[k].CannotRead?
    ensures forall k1, k2 :: 0 <= k1 < k2 < |Fold(files).value.errors| ==>
              NameLt(Fold(files).value.errors[k1].file, Fold(files).value.errors[k2].file)
  {
    if |files| > 0 {
      var init := files[..|files| - 1];
      var last := files[|files| - 1];
      assert forall i :: 0 <= i < |init| ==> init[i] == files[i];
      FoldErrorsInFileOrder(init);
      FoldErrorsExact(init);
      var before := Fold(init).value.errors;
      forall k | 0 <= k < |before| ensures NameLt(before[k].file, last.name) {
        assert before[k] in before;
        var i :| 0 <= i < |init| && ProbeHeader(init[i]) == Unreadable(before[k]);
      }
    }
  }

  /** The loop ends with no unreadable file exactly when every file yields
      a first row. */
  lemma {:induction false} FoldCleanIff(files: seq<Entry>)
    ensures (Fold(files).Success? && Fold(files).value.unreadable == 0) <==>
              forall i :: 0 <= i < |files| ==> ProbeHeader(files[i]).HasHeader?
  {
    if |files| > 0 {
      var init := files[..|files| - 1];
      assert forall i :: 0 <= i < |init| ==> init[i] == files[i];
      FoldCleanIff(init);
    }
  }

  /** The report says ready exactly when the path is a directory holding at
      least one `*.csv` entry and every such entry yields a first row. */
  lemma {:induction false} ReadyIffEveryHeaderRead(d: DirState)
    ensures (ReadinessCheck(d).Success? && ReadinessCheck(d).value.ready) <==>
              && d.Dir?
              && (exists e :: e in d.entries && IsCsvName(e.name))
              && forall e :: e in d.entries && IsCsvName(e.name) ==> |e.stream.rows| > 0
  {
    if d.Dir? {
      var files := CsvFiles(d.entries);
      forall e ensures e in files <==> e in d.entries && IsCsvName(e.name) {
        CsvFilesMembers(d.entries, e);
      }
      FoldCleanIff(files);
      assert (forall i :: 0 <= i < |files| ==> ProbeHeader(files[i]).HasHeader?) <==>
             (forall e :: e in files ==> |e.stream.rows| > 0);
      if |files| > 0 {
        assert files[0] in files;
      }
    }
  }

  /** Each message of a report that reached the per-file probe names a
      `*.csv` entry that yields no first row, and each such entry has one. */
  lemma {:induction false} ReportErrorsExact(entries: seq<Entry>)
    requires ReadinessCheck(Dir(entries)).Success?
    requires |CsvFiles(entries)| > 0
    ensures forall m :: m in ReadinessCheck(Dir(entries)).value.checks.errors <==>
              exists e :: e in entries && IsCsvName(e.name) && ProbeHeader(e) == Unreadable(m)
  {
    var files := CsvFiles(entries);
    var errors := ReadinessCheck(Dir(entries)).value.checks.errors;
    assert errors == Fold(files).value.errors;
    FoldErrorsExact(files);
    forall m | m in errors ensures exists e :: e in entries && IsCsvName(e.name) && ProbeHeader(e) == Unreadable(m) {
      var i :| 0 <= i < |files| && ProbeHeader(files[i]) == Unreadable(m);
      CsvFilesMembers(entries, files[i]);
    }
    forall e | e in entries && IsCsvName(e.name) && ProbeHeader(e).Unreadable?
      ensures ProbeHeader(e).message in errors
    {
      CsvFilesMembers(entries, e);
      var i :| 0 <= i < |files| && files[i] == e;
    }
  }

  /** In a directory whose names are distinct, the per-file messages come in
      strictly increasing file name order. */
  lemma {:induction false} ReportErrorsInFileOrder(entries: seq<Entry>)
    requires DistinctNames(entries)
    requires ReadinessCheck(Dir(entries)).Success?
    requires |CsvFiles(entries)| > 0
    ensures forall k :: 0 <= k < |ReadinessCheck(Dir(entries)).value.checks.errors| ==>
              ReadinessCheck(Dir(entries)).value.checks.errors[k].EmptyFile? ||
              ReadinessCheck(Dir(entries)).value.checks.errors[k].CannotRead?
    ensures forall k1, k2 :: 0 <= k1 < k2 < |ReadinessCheck(Dir(entries)).value.checks.errors| ==>
              NameLt(ReadinessCheck(Dir(entries)).value.checks.errors[k1].file,
                     ReadinessCheck(Dir(entries)).value.checks.errors[k2].file)
  {
    CsvFilesStrictlySorted(entries);
    FoldErrorsInFileOrder(CsvFiles(entries));
  }

  /** Two enumerations of the same directory give the same report. */
  lemma {:induction false} ReadinessOrderIndependent(e1: seq<Entry>, e2: seq<Entry>)
    requires multiset(e1) == multiset(e2) && DistinctNames(e1)
    ensures ReadinessCheck(Dir(e1)) == ReadinessCheck(Dir(e2))
  {
    CsvFilesOrderIndependent(e1, e2);
  }

  /** A directory holding one CSV file with a header and one data row is
      ready, with one readable file and no unreadable one. */
  lemma {:induction false} OneValidCsvIsReady(stat: Stat)
    ensures ReadinessCheck(Dir([Entry("valid.csv", stat, RowStream([["id", "name"], ["1", "Ada"]], Eof))]))
            == Success(Report(Ok, true, 1, Checks(true, true, 1, 1, 0, [])))
  {
    var e := Entry("valid.csv", stat, RowStream([["id", "name"], ["1", "Ada"]], Eof));
    assert IsCsvName(e.name);
    assert CsvEntries([e]) == [e];
    assert CsvFiles([e]) == [e];
    assert [e][..0] == [];
    assert Fold([e]) == Success(Tally(1, 0, []));
  }

}
