/**
 * The course and section records of the bot and the order in which the
 * sections of one course are listed (models/course_types.go).
 */
module CourseTypes {
  import opened Strings

  /** One section of a course: its name (such as "2L" or "1PLB"), enrolment and capacity. */
  datatype Section = Section(sectionName: string, size: int, cap: int)

  /** A course with its sections in the order the spreadsheet lists them. */
  datatype Course = Course(fullName: string, abbrName: string, sections: seq<Section>)

  /** The characters `trimNumbersFromPrefix` strips: digits, spaces and hyphens. */
  predicate IsPrefixChar(c: char) { IsDigit(c) || c == ' ' || c == '-' }

  /**
   * `trimNumbersFromPrefix`: drops the longest prefix made of digits, spaces
   * and hyphens, so "2PLB" becomes "PLB" and "12-L" becomes "L".
   */
  function TrimNumbersFromPrefix(s: string): (r: string)
    ensures |r| <= |s|
    ensures r != [] ==> !IsPrefixChar(r[0])
  {
    if s != [] && IsPrefixChar(s[0]) then TrimNumbersFromPrefix(s[1..]) else s
  }

  /** The trimmed name is a suffix of the name, and everything dropped is a digit, space or hyphen. */
  lemma {:induction false} TrimNumbersFromPrefixDrops(s: string)
    ensures var r := TrimNumbersFromPrefix(s);
      r == s[|s| - |r|..] && forall i :: 0 <= i < |s| - |r| ==> IsPrefixChar(s[i])
  {
    if s != [] && IsPrefixChar(s[0]) {
      TrimNumbersFromPrefixDrops(s[1..]);
      var r := TrimNumbersFromPrefix(s);
      assert s[1..][|s| - 1 - |r|..] == s[|s| - |r|..];
      forall i | 0 <= i < |s| - |r| ensures IsPrefixChar(s[i]) {
        if i > 0 { assert s[i] == s[1..][i - 1]; }
      }
    }
  }

  lemma TrimNumbersFromPrefixIdempotent(s: string)
    ensures TrimNumbersFromPrefix(TrimNumbersFromPrefix(s)) == TrimNumbersFromPrefix(s)
  {
  }

  /** The value `getPrefixNumbers` computes: the leading digit run read in base 10, 0 when there is none. */
  function PrefixNumber(s: string): nat
  {
    DigitsValue(LeadingDigits(s))
  }

  /** `getPrefixNumbers`: accumulates the leading digits of `s` until the first non-digit. */
  method GetPrefixNumbers(s: string) returns (prefix: int)
    ensures prefix == PrefixNumber(s)
    ensures s == [] || !IsDigit(s[0]) ==> prefix == 0
  {
    prefix := 0;
    var i := 0;
    while i < |s| && IsDigit(s[i])
      invariant 0 <= i <= |s|
      invariant AllDigits(s[..i])
      invariant prefix == DigitsValue(s[..i])
    {
      assert s[..i + 1][..i] == s[..i];
      prefix := prefix * 10 + DigitValue(s[i]);
      i := i + 1;
    }
    assert s[..i] == LeadingDigits(s);
  }

  /**
   * Sections are ordered by the pair (trimmed name, prefix number),
   * lexicographically, with names compared byte-wise.
   */
  predicate KeyLess(a: Section, b: Section) {
    var at, bt := TrimNumbersFromPrefix(a.sectionName), TrimNumbersFromPrefix(b.sectionName);
    Compare(at, bt) < 0 || (at == bt && PrefixNumber(a.sectionName) < PrefixNumber(b.sectionName))
  }

  predicate SameKey(a: Section, b: Section) {
    TrimNumbersFromPrefix(a.sectionName) == TrimNumbersFromPrefix(b.sectionName)
    && PrefixNumber(a.sectionName) == PrefixNumber(b.sectionName)
  }

  /** The comparison function `SortSections` hands to `slices.SortFunc`. */
  function SectionCompare(a: Section, b: Section): (r: int)
    ensures -1 <= r <= 1
  {
    var at, bt := TrimNumbersFromPrefix(a.sectionName), TrimNumbersFromPrefix(b.sectionName);
    if at == bt then
      var an, bn := PrefixNumber(a.sectionName), PrefixNumber(b.sectionName);
      if an < bn then -1 else if an > bn then 1 else 0
    else
      Compare(at, bt)
  }

  /** The comparison is the lexicographic order on (trimmed name, prefix number). */
  lemma SectionCompareIsKeyOrder(a: Section, b: Section)
    ensures SectionCompare(a, b) == 0 <==> SameKey(a, b)
    ensures SectionCompare(a, b) < 0 <==> KeyLess(a, b)
  {
  }

  lemma SectionCompareAntisymmetric(a: Section, b: Section)
    ensures SectionCompare(a, b) == -SectionCompare(b, a)
  {
    CompareAntisymmetric(TrimNumbersFromPrefix(a.sectionName), TrimNumbersFromPrefix(b.sectionName));
  }

  lemma SectionCompareTransitive(a: Section, b: Section, c: Section)
    requires SectionCompare(a, b) <= 0 && SectionCompare(b, c) <= 0
    ensures SectionCompare(a, c) <= 0
  {
    var at, bt, ct := TrimNumbersFromPrefix(a.sectionName), TrimNumbersFromPrefix(b.sectionName), TrimNumbersFromPrefix(c.sectionName);
    CompareTransitive(at, bt, ct);
    if at == ct && at != bt {
      CompareAntisymmetric(at, bt);
    }
  }

  lemma TrimmedExamples()
    ensures TrimNumbersFromPrefix("2L") == "L" && TrimNumbersFromPrefix("10L") == "L"
  {
    var l: string := "L";
    assert !IsPrefixChar(l[0]);
    assert TrimNumbersFromPrefix(l) == l;
    assert "0L"[1..] == l;
    assert TrimNumbersFromPrefix("0L") == l;
    assert "10L"[1..] == "0L";
    assert "2L"[1..] == l;
  }

  lemma PrefixNumberExamples()
    ensures PrefixNumber("2L") == 2 && PrefixNumber("10L") == 10
  {
    assert "2L"[1..] == "L" && "10L"[1..] == "0L" && "0L"[1..] == "L";
    assert LeadingDigits("L") == [];
    assert LeadingDigits("2L") == "2";
    assert LeadingDigits("10L") == "10";
    assert DigitsValue("10") == 10 by {
      assert "10"[..1] == "1";
    }
  }

  /**
   * Sections of one trimmed name come out in ascending order of their
   * prefix numbers, read as numbers and not as text.
   */
  lemma NumericPrefixOrder(a: Section, b: Section)
    requires TrimNumbersFromPrefix(a.sectionName) == TrimNumbersFromPrefix(b.sectionName)
    requires PrefixNumber(a.sectionName) < PrefixNumber(b.sectionName)
    ensures SectionCompare(a, b) < 0 && SectionCompare(b, a) > 0
  {
  }

  /** "2L" sorts before "10L", although as text "10L" comes first. */
  lemma TwoBeforeTen()
    ensures Compare("10L", "2L") < 0
    ensures SectionCompare(Section("2L", 0, 0), Section("10L", 0, 0)) < 0
  {
    TrimmedExamples();
    PrefixNumberExamples();
    NumericPrefixOrder(Section("2L", 0, 0), Section("10L", 0, 0));
    assert "10L"[0] == '1' && "2L"[0] == '2';
  }

  /** The pair ending at index k compares at most 0 under `cmp`. */
  ghost predicate InOrderAt<T>(s: seq<T>, cmp: (T, T) -> int, k: int)
    requires 0 < k < |s|
  {
    cmp(s[k - 1], s[k]) <= 0
  }

  /** Every adjacent pair of `s[lo..hi]` compares at most 0 under `cmp`. */
  ghost predicate SortedBy<T>(s: seq<T>, cmp: (T, T) -> int, lo: int, hi: int)
    requires 0 <= lo <= hi <= |s|
  {
    forall k :: lo < k < hi ==> InOrderAt(s, cmp, k)
  }

  /** Exchanges two elements of `a`, keeping its multiset of elements. */
  method Swap<T>(a: array<T>, i: int, j: int)
    requires 0 <= i < j < a.Length
    modifies a
    ensures a[..] == old(a[..])[i := old(a[j])][j := old(a[i])]
    ensures multiset(a[..]) == old(multiset(a[..]))
  {
    a[i], a[j] := a[j], a[i];
  }

  /**
   * `slices.SortFunc`: sorts `a` in place so that every adjacent pair compares
   * at most 0, permuting its elements. An insertion sort stands for Go's
   * pattern-defeating quicksort; both meet this contract.
   */
  method SortFunc<T(!new)>(a: array<T>, cmp: (T, T) -> int)
    requires forall x, y :: cmp(x, y) > 0 ==> cmp(y, x) < 0
    modifies a
    ensures SortedBy(a[..], cmp, 0, a.Length)
    ensures multiset(a[..]) == old(multiset(a[..]))
  {
    if a.Length == 0 { return; }
    var i := 1;
    while i < a.Length
      invariant 1 <= i <= a.Length
      invariant SortedBy(a[..], cmp, 0, i)
      invariant multiset(a[..]) == old(multiset(a[..]))
    {
      InsertLast(a, i, cmp);
      i := i + 1;
    }
  }

  /** Moves `a[i]` down into the sorted prefix `a[..i]`, so that `a[..i + 1]` is sorted. */
  method InsertLast<T(!new)>(a: array<T>, i: int, cmp: (T, T) -> int)
    requires forall x, y :: cmp(x, y) > 0 ==> cmp(y, x) < 0
    requires 0 < i < a.Length
    requires SortedBy(a[..], cmp, 0, i)
    modifies a
    ensures SortedBy(a[..], cmp, 0, i + 1)
    ensures a[i + 1..] == old(a[i + 1..])
    ensures multiset(a[..]) == old(multiset(a[..]))
  {
    var j := i;
    while j > 0 && cmp(a[j - 1], a[j]) > 0
      invariant 0 <= j <= i
      invariant SortedBy(a[..], cmp, 0, j)
      invariant SortedBy(a[..], cmp, j, i + 1)
      invariant 0 < j < i ==> cmp(a[j - 1], a[j + 1]) <= 0
      invariant a[i + 1..] == old(a[i + 1..])
      invariant multiset(a[..]) == old(multiset(a[..]))
    {
      ghost var b := a[..];
      Swap(a, j - 1, j);
      forall k | 0 < k < j - 1
        ensures InOrderAt(a[..], cmp, k)
      {
        assert InOrderAt(b, cmp, k);
      }
      forall k | j - 1 < k < i + 1
        ensures InOrderAt(a[..], cmp, k)
      {
        if k > j + 1 {
          assert InOrderAt(b, cmp, k);
        }
      }
      if 1 < j < i + 1 {
        assert InOrderAt(b, cmp, j - 1);
      }
      j := j - 1;
    }
    if j > 0 {
      forall k | 0 < k < i + 1
        ensures InOrderAt(a[..], cmp, k)
      {
        if k < j {
          assert InOrderAt(a[..], cmp, k);
        } else if k > j {
          assert SortedBy(a[..], cmp, j, i + 1);
        }
      }
    }
  }

  /** Every adjacent pair of `s[lo..hi]` compares at most 0. */
  ghost predicate AdjacentSorted(s: seq<Section>, lo: int, hi: int)
    requires 0 <= lo <= hi <= |s|
  {
    SortedBy(s, SectionCompare, lo, hi)
  }

  /**
   * `SortSections`: sorts the sections in place with the comparison above.
   * The result is a permutation of the input in which every adjacent pair
   * compares at most 0.
   */
  method SortSections(a: array<Section>)
    modifies a
    ensures AdjacentSorted(a[..], 0, a.Length)
    ensures multiset(a[..]) == old(multiset(a[..]))
  {
    forall x, y | SectionCompare(x, y) > 0
      ensures SectionCompare(y, x) < 0
    {
      SectionCompareAntisymmetric(x, y);
    }
    SortFunc(a, SectionCompare);
  }

  /** In a list sorted pair by pair, every earlier section compares at most 0 with every later one. */
  lemma {:induction false} SortedPairwise(s: seq<Section>, i: int, j: int)
    requires AdjacentSorted(s, 0, |s|)
    requires 0 <= i <= j < |s|
    ensures SectionCompare(s[i], s[j]) <= 0
    decreases j - i
  {
    if i < j {
      SortedPairwise(s, i, j - 1);
      assert InOrderAt(s, SectionCompare, j);
      SectionCompareTransitive(s[i], s[j - 1], s[j]);
    }
  }

  /**
   * In a sorted list the sections that share a trimmed name are contiguous:
   * everything between two of them has that name too.
   */
  lemma SortedRunsContiguous(s: seq<Section>, i: int, k: int, j: int)
    requires AdjacentSorted(s, 0, |s|)
    requires 0 <= i <= k <= j < |s|
    requires TrimNumbersFromPrefix(s[i].sectionName) == TrimNumbersFromPrefix(s[j].sectionName)
    ensures TrimNumbersFromPrefix(s[k].sectionName) == TrimNumbersFromPrefix(s[i].sectionName)
  {
    var ti, tk := TrimNumbersFromPrefix(s[i].sectionName), TrimNumbersFromPrefix(s[k].sectionName);
    SortedPairwise(s, i, k);
    SortedPairwise(s, k, j);
    if ti != tk {
      CompareAntisymmetric(ti, tk);
    }
  }
}
