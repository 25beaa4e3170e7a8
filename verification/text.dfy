/** Character-level behaviour of Python strings that the dataset service
    relies on: `str.strip()` with no argument, and the ordering `sorted`
    uses for file names. */
module Text {

  /** The characters for which Python's `str.isspace()` holds; these are the
      ones `str.strip()` removes when called without an argument. */
  predicate IsSpace(c: char) {
    || ('\t' <= c <= '\r')            // tab, line feed, vertical tab, form feed, carriage return
    || ('\U{1C}' <= c <= '\U{1F}')    // file, group, record and unit separators
    || c == ' '
    || c == '\U{85}'
    || c == '\U{A0}'
    || c == '\U{1680}'
    || ('\U{2000}' <= c <= '\U{200A}')
    || c == '\U{2028}'
    || c == '\U{2029}'
    || c == '\U{202F}'
    || c == '\U{205F}'
    || c == '\U{3000}'
  }

  ghost predicate AllSpace(s: string) {
    forall k :: 0 <= k < |s| ==> IsSpace(s[k])
  }

  /** Number of whitespace characters at the front of `s`. */
  function LeadingSpaces(s: string): (n: nat)
    ensures n <= |s|
    ensures AllSpace(s[..n])
    ensures n == |s| || !IsSpace(s[n])
  {
    if |s| > 0 && IsSpace(s[0]) then 1 + LeadingSpaces(s[1..]) else 0
  }

  /** Index where the run of whitespace at the end of `s` begins. */
  function TrailingStart(s: string): (n: nat)
    ensures n <= |s|
    ensures AllSpace(s[n..])
    ensures n == 0 || !IsSpace(s[n - 1])
  {
    if |s| > 0 && IsSpace(s[|s| - 1]) then TrailingStart(s[..|s| - 1]) else |s|
  }

  /** `r` is what remains of `s` once the whitespace at both ends is removed:
      a contiguous piece of `s`, bordered only by whitespace, that neither
      starts nor ends with whitespace. */
  ghost predicate IsStripOf(r: string, s: string) {
    && (r == [] || (!IsSpace(r[0]) && !IsSpace(r[|r| - 1])))
    && exists i, j :: 0 <= i <= j <= |s| && s[i..j] == r && AllSpace(s[..i]) && AllSpace(s[j..])
  }

  /** Python's `s.strip()`: `lstrip` followed by `rstrip`. */
  function Strip(s: string): (r: string)
    ensures IsStripOf(r, s)
  {
    var i := LeadingSpaces(s);
    var t := s[i..];
    var n := TrailingStart(t);
    assert s[i..i + n] == t[..n] && s[i + n..] == t[n..];
    t[..n]
  }

  lemma {:induction false} LeadingSpacesAt(s: string, i: nat)
    requires i <= |s| && AllSpace(s[..i])
    requires i == |s| || !IsSpace(s[i])
    ensures LeadingSpaces(s) == i
  {
    if i > 0 {
      assert s[..i][0] == s[0];
      assert s[1..][..i - 1] == s[..i][1..];
      LeadingSpacesAt(s[1..], i - 1);
    }
  }

  lemma {:induction false} TrailingStartAt(s: string, j: nat)
    requires j <= |s| && AllSpace(s[j..])
    requires j == 0 || !IsSpace(s[j - 1])
    ensures TrailingStart(s) == j
  {
    if j < |s| {
      assert s[j..][|s| - 1 - j] == s[|s| - 1];
      assert s[..|s| - 1][j..] == s[j..][..|s| - 1 - j];
      TrailingStartAt(s[..|s| - 1], j);
    }
  }

  /** A string that is whitespace on both sides of one point strips to
      nothing. */
  lemma {:induction false} StripOfAllSpace(s: string, i: nat)
    requires i <= |s| && AllSpace(s[..i]) && AllSpace(s[i..])
    ensures Strip(s) == []
  {
    assert AllSpace(s) by {
      forall k | 0 <= k < |s| ensures IsSpace(s[k]) {
        if k < i { assert s[..i][k] == s[k]; } else { assert s[i..][k - i] == s[k]; }
      }
    }
    assert s[..|s|] == s;
    LeadingSpacesAt(s, |s|);
    TrailingStartAt(s[|s|..], 0);
  }

  /** A non-empty piece bordered by whitespace, with no whitespace at its own
      ends, is the strip. */
  lemma {:induction false} StripOfPiece(s: string, i: nat, j: nat)
    requires i < j <= |s| && AllSpace(s[..i]) && AllSpace(s[j..])
    requires !IsSpace(s[i]) && !IsSpace(s[j - 1])
    ensures Strip(s) == s[i..j]
  {
    LeadingSpacesAt(s, i);
    var t := s[i..];
    assert t[j - i..] == s[j..] && t[j - i - 1] == s[j - 1];
    TrailingStartAt(t, j - i);
    assert t[..j - i] == s[i..j];
  }

  /** The characterisation is exact: `Strip(s)` is the one and only string
      that is the strip of `s`. */
  lemma {:induction false} StripCharacterized(s: string, r: string)
    ensures IsStripOf(r, s) <==> r == Strip(s)
  {
    if IsStripOf(r, s) {
      var i, j :| 0 <= i <= j <= |s| && s[i..j] == r && AllSpace(s[..i]) && AllSpace(s[j..]);
      StripOfBorders(s, r, i, j);
    }
  }

  /** A piece with whitespace borders and no whitespace at its own ends is
      the strip, whether it is empty or not. */
  lemma {:induction false} StripOfBorders(s: string, r: string, i: nat, j: nat)
    requires i <= j <= |s| && s[i..j] == r && AllSpace(s[..i]) && AllSpace(s[j..])
    requires r == [] || (!IsSpace(r[0]) && !IsSpace(r[|r| - 1]))
    ensures r == Strip(s)
  {
    if r == [] {
      StripOfAllSpace(s, i);
    } else {
      assert s[i] == r[0] && s[j - 1] == r[|r| - 1];
      StripOfPiece(s, i, j);
    }
  }

  /** A string without whitespace at either end is its own strip. */
  lemma {:induction false} StripOfTrimmed(s: string)
    requires s == [] || (!IsSpace(s[0]) && !IsSpace(s[|s| - 1]))
    ensures Strip(s) == s
  {
    assert IsStripOf(s, s) by {
      assert s[0..|s|] == s && s[..0] == [] && s[|s|..] == [];
    }
    StripCharacterized(s, s);
  }

  /** Stripping twice changes nothing. */
  lemma {:induction false} StripIdempotent(s: string)
    ensures Strip(Strip(s)) == Strip(s)
  {
    StripOfTrimmed(Strip(s));
  }

  /** Python's ordering of `str` values: code point by code point, a proper
      prefix sorting first. */
  predicate NameLe(a: string, b: string) {
    |a| == 0 || (|b| > 0 && (a[0] < b[0] || (a[0] == b[0] && NameLe(a[1..], b[1..]))))
  }

  predicate NameLt(a: string, b: string) {
    NameLe(a, b) && a != b
  }

  lemma {:induction false} NameLeReflexive(a: string)
    ensures NameLe(a, a)
  {
    if |a| > 0 {
      NameLeReflexive(a[1..]);
    }
  }

  lemma {:induction false} NameLeTotal(a: string, b: string)
    ensures NameLe(a, b) || NameLe(b, a)
  {
    if |a| > 0 && |b| > 0 && a[0] == b[0] {
      NameLeTotal(a[1..], b[1..]);
    }
  }

  lemma {:induction false} NameLeAntisymmetric(a: string, b: string)
    requires NameLe(a, b) && NameLe(b, a)
    ensures a == b
  {
    if |a| > 0 && |b| > 0 {
      NameLeAntisymmetric(a[1..], b[1..]);
      assert a == [a[0]] + a[1..] && b == [b[0]] + b[1..];
    }
  }

  lemma {:induction false} NameLeTransitive(a: string, b: string, c: string)
    requires NameLe(a, b) && NameLe(b, c)
    ensures NameLe(a, c)
  {
    if |a| > 0 && |b| > 0 && |c| > 0 && a[0] == b[0] && b[0] == c[0] {
      NameLeTransitive(a[1..], b[1..], c[1..]);
    }
  }

}
