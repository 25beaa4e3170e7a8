/** `list_datasets`: the metadata of every `*.csv` file of the data
    directory, in file name order. */
module Listing {
  import opened Results
  import opened Text
  import opened Paths
  import opened FileSystem
  import opened Scan
  import opened Inspector

  /** Inspects the files in order. The first failing inspection ends the
      scan and its exception escapes; nothing partial is returned. */
  function InspectAll(files: seq<Entry>): (r: Result<seq<DatasetMetadata>, Exception>)
    ensures r.Success? ==>
              && |r.value| == |files|
              && forall i :: 0 <= i < |files| ==> Inspect(files[i]) == Success(r.value[i])
    ensures r.Failure? ==>
              exists i :: 0 <= i < |files| && Inspect(files[i]) == Failure(r.error)
                            && forall j :: 0 <= j < i ==> Inspect(files[j]).Success?
  {
    if |files| == 0 then Success([])
    else
      match Inspect(files[0])
      case Failure(x) => Failure(x)
      case Success(m) =>
        match InspectAll(files[1..])
        case Failure(x) =>
          assert forall i :: 1 <= i < |files| ==> files[1..][i - 1] == files[i];
          Failure(x)
        case Success(ms) => Success([m] + ms)
  }

  /** The listing. A missing data directory gives an empty list, and so does
      a path that is not a directory, because globbing it matches nothing. */
  function ListDatasets(d: DirState): (r: Result<seq<DatasetMetadata>, Exception>)
    ensures !d.Dir? ==> r == Success([])
    ensures d.Dir? && r.Success? ==>
              && |r.value| == |CsvFiles(d.entries)|
              && (forall i :: 0 <= i < |r.value| ==> Inspect(CsvFiles(d.entries)[i]) == Success(r.value[i]))
              && (forall i, j :: 0 <= i < j < |r.value| ==> NameLe(r.value[i].filename, r.value[j].filename))
    ensures d.Dir? && r.Failure? ==>
              exists e :: e in d.entries && IsCsvName(e.name) && Inspect(e) == Failure(r.error)
  {
    match d
    case Missing => Success([])
    case NotADir => Success([])
    case Dir(entries) =>
      var files := CsvFiles(entries);
      var r := InspectAll(files);
      if r.Failure? then
        assert exists i :: 0 <= i < |files| && Inspect(files[i]) == Failure(r.error);
        forall e | e in files ensures e in entries && IsCsvName(e.name) {
          CsvFilesMembers(entries, e);
        }
        r
      else
        r
  }

  /** The listing of a directory succeeds exactly when every `*.csv` entry
      can be inspected. */
  lemma {:induction false} ListingSucceedsIff(entries: seq<Entry>)
    ensures ListDatasets(Dir(entries)).Success? <==>
              forall e :: e in entries && IsCsvName(e.name) ==> Inspect(e).Success?
  {
    var files := CsvFiles(entries);
    if ListDatasets(Dir(entries)).Success? {
      forall e | e in entries && IsCsvName(e.name) ensures Inspect(e).Success? {
        CsvFilesMembers(entries, e);
        var i :| 0 <= i < |files| && files[i] == e;
      }
    }
  }

  /** A successful listing holds the inspection of every `*.csv` entry. */
  lemma {:induction false} ListingHoldsEveryCsvEntry(entries: seq<Entry>, e: Entry)
    ensures ListDatasets(Dir(entries)).Success? && e in entries && IsCsvName(e.name) ==>
              Inspect(e).Success? && Inspect(e).value in ListDatasets(Dir(entries)).value
  {
    if ListDatasets(Dir(entries)).Success? && e in entries && IsCsvName(e.name) {
      var files := CsvFiles(entries);
      var ms := ListDatasets(Dir(entries)).value;
      CsvFilesMembers(entries, e);
      var i :| 0 <= i < |files| && files[i] == e;
      assert Inspect(files[i]) == Success(ms[i]);
    }
  }

  /** A successful listing holds nothing but inspections of `*.csv` entries. */
  lemma {:induction false} ListingHoldsOnlyCsvEntries(entries: seq<Entry>, m: DatasetMetadata)
    ensures ListDatasets(Dir(entries)).Success? && m in ListDatasets(Dir(entries)).value ==>
              exists e :: e in entries && IsCsvName(e.name) && Inspect(e) == Success(m)
  {
    if ListDatasets(Dir(entries)).Success? && m in ListDatasets(Dir(entries)).value {
      var files := CsvFiles(entries);
      var ms := ListDatasets(Dir(entries)).value;
      var i :| 0 <= i < |ms| && ms[i] == m;
      CsvFilesMembers(entries, files[i]);
      assert Inspect(files[i]) == Success(m);
    }
  }

  /** The file names listed are those of the `*.csv` entries, in strictly
      increasing order, whatever order the directory was enumerated in. */
  lemma {:induction false} ListingStrictlySorted(entries: seq<Entry>)
    requires DistinctNames(entries)
    requires ListDatasets(Dir(entries)).Success?
    ensures forall i, j :: 0 <= i < j < |ListDatasets(Dir(entries)).value| ==>
              NameLt(ListDatasets(Dir(entries)).value[i].filename, ListDatasets(Dir(entries)).value[j].filename)
  {
    CsvFilesStrictlySorted(entries);
  }

  /** Two enumerations of the same directory list the same datasets. */
  lemma {:induction false} ListingOrderIndependent(e1: seq<Entry>, e2: seq<Entry>)
    requires multiset(e1) == multiset(e2) && DistinctNames(e1)
    ensures ListDatasets(Dir(e1)) == ListDatasets(Dir(e2))
  {
    CsvFilesOrderIndependent(e1, e2);
  }

  /** The listing of a data directory holding just `sample.csv`. */
  lemma {:induction false} SampleListing(size: int, modified: string)
    ensures ListDatasets(Dir([Entry("sample.csv", Stat(size, modified),
                                    RowStream([["id", "name"], ["1", "Ada"], ["2", "Grace"], ["3", "Linus"]], Eof))]))
            == Success([DatasetMetadata("sample", "sample.csv", 3, ["id", "name"], size, modified)])
  {
    var e := Entry("sample.csv", Stat(size, modified),
                   RowStream([["id", "name"], ["1", "Ada"], ["2", "Grace"], ["3", "Linus"]], Eof));
    SampleInspection(size, modified);
    assert IsCsvName(e.name);
    assert CsvEntries([e]) == [e];
    assert CsvFiles([e]) == [e];
    assert [e][0] == e && [e][1..] == [];
    assert InspectAll([]) == Success([]);
    assert Inspect(e).Success? && [Inspect(e).value] + [] == [Inspect(e).value];
    assert InspectAll([e]) == Success([Inspect(e).value]);
  }

}
