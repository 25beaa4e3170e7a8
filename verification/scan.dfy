/** Enumeration of the candidate files: `sorted(data_dir.glob("*.csv"))`. */
module Scan {
  import opened Text
  import opened Paths
  import opened FileSystem

  /** The entries whose names match `*.csv`, in enumeration order. */
  function CsvEntries(entries: seq<Entry>): (r: seq<Entry>)
    ensures forall e :: multiset(r)[e] == if IsCsvName(e.name) then multiset(entries)[e] else 0
  {
    if |entries| == 0 then []
    else
      assert entries == [entries[0]] + entries[1..];
      (if IsCsvName(entries[0].name) then [entries[0]] else []) + CsvEntries(entries[1..])
  }

  predicate SortedByName(s: seq<Entry>) {
    forall i, j :: 0 <= i < j < |s| ==> NameLe(s[i].name, s[j].name)
  }

  /** Places `e` before the first entry whose name is not smaller. */
  function Insert(e: Entry, s: seq<Entry>): (r: seq<Entry>)
    ensures multiset(r) == multiset(s) + multiset{e}
  {
    if |s| == 0 then [e]
    else if NameLe(e.name, s[0].name) then [e] + s
    else
      assert s == [s[0]] + s[1..];
      [s[0]] + Insert(e, s[1..])
  }

  /** Putting an entry in front of a sorted sequence keeps it sorted when
      the entry's name is not above any name already there. */
  lemma {:induction false} SortedCons(x: Entry, t: seq<Entry>)
    requires SortedByName(t)
    requires forall j :: 0 <= j < |t| ==> NameLe(x.name, t[j].name)
    ensures SortedByName([x] + t)
  {
    var r := [x] + t;
    forall i, j | 0 <= i < j < |r| ensures NameLe(r[i].name, r[j].name) {
      assert r[j] == t[j - 1];
      if i > 0 {
        assert r[i] == t[i - 1];
      }
    }
  }

  lemma {:induction false} InsertKeepsSorted(e: Entry, s: seq<Entry>)
    requires SortedByName(s)
    ensures SortedByName(Insert(e, s))
  {
    if |s| == 0 {
    } else if NameLe(e.name, s[0].name) {
      forall j | 0 <= j < |s| ensures NameLe(e.name, s[j].name) {
        if j > 0 {
          NameLeTransitive(e.name, s[0].name, s[j].name);
        }
      }
      SortedCons(e, s);
    } else {
      NameLeTotal(e.name, s[0].name);
      var t := Insert(e, s[1..]);
      InsertKeepsSorted(e, s[1..]);
      forall j | 0 <= j < |t| ensures NameLe(s[0].name, t[j].name) {
        assert t[j] in multiset(t);
        if t[j] != e {
          assert t[j] in multiset(s[1..]);
          var k :| 0 <= k < |s[1..]| && s[1..][k] == t[j];
          assert s[k + 1] == t[j];
        }
      }
      SortedCons(s[0], t);
    }
  }

  /** Python's `sorted` on the entries, by name. */
  function SortByName(s: seq<Entry>): (r: seq<Entry>)
    ensures SortedByName(r)
    ensures multiset(r) == multiset(s)
  {
    if |s| == 0 then []
    else
      assert s == [s[0]] + s[1..];
      var t := SortByName(s[1..]);
      InsertKeepsSorted(s[0], t);
      Insert(s[0], t)
  }

  /** The files both `list_datasets` and `readiness_check` visit, in the
      order they visit them. */
  function CsvFiles(entries: seq<Entry>): (r: seq<Entry>)
    ensures SortedByName(r)
    ensures forall e :: multiset(r)[e] == if IsCsvName(e.name) then multiset(entries)[e] else 0
  {
    SortByName(CsvEntries(entries))
  }

  /** A value held at two indices is counted at least twice. */
  lemma {:induction false} TwiceCounted(s: seq<Entry>, i: nat, j: nat)
    requires i < j < |s|
    ensures s[i] == s[j] ==> multiset(s)[s[i]] >= 2
  {
    assert s == s[..j] + s[j..];
    assert s[..j][i] == s[i];
    assert s[j..][0] == s[j];
  }

  /** Entries with distinct names are each held once. */
  lemma {:induction false} DistinctCountedOnce(s: seq<Entry>)
    requires DistinctNames(s)
    ensures forall x :: multiset(s)[x] <= 1
  {
    if |s| > 0 {
      assert s == [s[0]] + s[1..];
      DistinctCountedOnce(s[1..]);
      assert forall k :: 0 <= k < |s[1..]| ==> s[1..][k] != s[0];
      assert s[0] !in s[1..];
    }
  }

  /** Taking some of the entries of a directory, in any order, keeps their
      names distinct. */
  lemma {:induction false} SubMultisetKeepsDistinct(a: seq<Entry>, b: seq<Entry>)
    requires multiset(b) <= multiset(a) && DistinctNames(a)
    ensures DistinctNames(b)
  {
    DistinctCountedOnce(a);
    forall i, j | 0 <= i < j < |b| ensures b[i].name != b[j].name {
      TwiceCounted(b, i, j);
      assert b[i] in multiset(a) && b[j] in multiset(a);
    }
  }

  /** Two sorted arrangements of one collection of distinctly named entries
      start with the same entry. */
  lemma {:induction false} SortedHeadsAgree(a: seq<Entry>, b: seq<Entry>)
    requires SortedByName(a) && SortedByName(b) && DistinctNames(a)
    requires multiset(a) == multiset(b) && |a| > 0
    ensures |b| > 0 && a[0] == b[0]
  {
    assert a[0] in multiset(b) && b[0] in multiset(a);
    var j :| 0 <= j < |b| && b[j] == a[0];
    var k :| 0 <= k < |a| && a[k] == b[0];
    NameLeReflexive(a[0].name);
    assert NameLe(a[0].name, a[k].name) && NameLe(b[0].name, b[j].name);
    NameLeAntisymmetric(a[0].name, b[0].name);
    assert k == 0;
  }

  /** With distinct names, there is exactly one sorted arrangement of a
      collection of entries. */
  lemma {:induction false} SortedUnique(a: seq<Entry>, b: seq<Entry>)
    requires SortedByName(a) && SortedByName(b) && DistinctNames(a)
    requires multiset(a) == multiset(b)
    ensures a == b
  {
    if |a| == 0 {
      assert |multiset(b)| == 0;
    } else {
      SortedHeadsAgree(a, b);
      assert a == [a[0]] + a[1..] && b == [b[0]] + b[1..];
      assert multiset(a[1..]) == multiset(b[1..]) by {
        assert multiset(a) == multiset{a[0]} + multiset(a[1..]);
        assert multiset(b) == multiset{a[0]} + multiset(b[1..]);
        forall y ensures multiset(a[1..])[y] == multiset(b[1..])[y] {
          assert multiset(a)[y] == multiset{a[0]}[y] + multiset(a[1..])[y];
          assert multiset(b)[y] == multiset{a[0]}[y] + multiset(b[1..])[y];
        }
      }
      assert SortedByName(a[1..]) && SortedByName(b[1..]) && DistinctNames(a[1..]) by {
        forall i, j | 0 <= i < j < |a| - 1 ensures NameLe(a[1..][i].name, a[1..][j].name) && a[1..][i].name != a[1..][j].name {
          assert a[1..][i] == a[i + 1] && a[1..][j] == a[j + 1];
        }
        forall i, j | 0 <= i < j < |b| - 1 ensures NameLe(b[1..][i].name, b[1..][j].name) {
          assert b[1..][i] == b[i + 1] && b[1..][j] == b[j + 1];
        }
      }
      SortedUnique(a[1..], b[1..]);
    }
  }

  /** With distinct names, the candidate files are in strictly increasing
      name order. */
  lemma {:induction false} CsvFilesStrictlySorted(entries: seq<Entry>)
    requires DistinctNames(entries)
    ensures forall i, j :: 0 <= i < j < |CsvFiles(entries)| ==> NameLt(CsvFiles(entries)[i].name, CsvFiles(entries)[j].name)
  {
    var r := CsvFiles(entries);
    assert multiset(r) <= multiset(entries);
    SubMultisetKeepsDistinct(entries, r);
  }

  /** The visiting order does not depend on the order in which the operating
      system enumerates the directory. */
  lemma {:induction false} CsvFilesOrderIndependent(e1: seq<Entry>, e2: seq<Entry>)
    requires multiset(e1) == multiset(e2) && DistinctNames(e1)
    ensures CsvFiles(e1) == CsvFiles(e2)
  {
    var r1, r2 := CsvFiles(e1), CsvFiles(e2);
    assert forall x :: multiset(r1)[x] == multiset(r2)[x];
    assert multiset(r1) == multiset(r2);
    assert forall x :: multiset(r1)[x] <= multiset(e1)[x];
    assert multiset(r1) <= multiset(e1);
    SubMultisetKeepsDistinct(e1, r1);
    SortedUnique(r1, r2);
  }

  /** Exactly the `*.csv` entries are visited. */
  lemma {:induction false} CsvFilesMembers(entries: seq<Entry>, e: Entry)
    ensures e in CsvFiles(entries) <==> e in entries && IsCsvName(e.name)
  {
    assert e in CsvFiles(entries) <==> e in multiset(CsvFiles(entries));
    assert e in entries <==> e in multiset(entries);
  }

}
