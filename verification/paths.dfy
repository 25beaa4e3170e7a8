/** The parts of `pathlib` the dataset service uses on a file name: the
    `*.csv` glob pattern and the `stem` property. */
module Paths {

  const CsvSuffix: string := ".csv"

  /** The name matches the glob pattern `*.csv`, case-sensitively. The `*`
      may match nothing, and it matches a leading dot. */
  predicate IsCsvName(name: string) {
    |name| >= |CsvSuffix| && name[|name| - |CsvSuffix|..] == CsvSuffix
  }

  /** Python's `name.rfind('.')`: the last index of a dot, or -1. */
  function LastDot(name: string): (i: int)
    ensures -1 <= i < |name|
    ensures i >= 0 ==> name[i] == '.'
    ensures forall k :: i < k < |name| ==> name[k] != '.'
  {
    if |name| == 0 then -1
    else if name[|name| - 1] == '.' then |name| - 1
    else LastDot(name[..|name| - 1])
  }

  /** `pathlib`'s `stem` as of Python 3.13: the name without its final
      suffix. A dot that starts the name or ends it does not begin a suffix. */
  function Stem(name: string): (r: string)
    ensures r <= name
    ensures r != name ==>
              && 0 < |r| < |name| - 1
              && name[|r|] == '.'
              && forall k :: |r| < k < |name| ==> name[k] != '.'
    ensures r == name && |name| > 0 && name[|name| - 1] != '.' ==>
              forall k :: 0 < k < |name| ==> name[k] != '.'
  {
    var i := LastDot(name);
    if 0 < i < |name| - 1 then name[..i] else name
  }

  /** The dataset id of a `*.csv` file is its name without `.csv`; only the
      bare name `.csv` keeps its dot, because a leading dot starts no
      suffix. */
  lemma {:induction false} StemOfCsvName(name: string)
    requires IsCsvName(name)
    ensures |name| > |CsvSuffix| ==> Stem(name) + CsvSuffix == name
    ensures |name| == |CsvSuffix| ==> Stem(name) == name
  {
    var n := |name|;
    assert name[n - 4] == '.' && name[n - 3] == 'c' && name[n - 2] == 's' && name[n - 1] == 'v' by {
      assert name[n - 4..][0] == '.';
      assert name[n - 4..][1] == 'c';
      assert name[n - 4..][2] == 's';
      assert name[n - 4..][3] == 'v';
    }
    if n > 4 {
      assert Stem(name) == name[..n - 4];
      assert name[..n - 4] + name[n - 4..] == name;
    }
  }

  lemma SampleStem()
    ensures Stem("sample.csv") == "sample"
  {
    StemOfCsvName("sample.csv");
  }

}
