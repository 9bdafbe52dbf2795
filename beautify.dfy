/**
 * Normalisation of the course and section names users type, and the text
 * lines that show a section's enrolment (telegramfmt/beautify.go).
 */
module Beautify {
  import opened Wrappers
  import opened Strings
  import opened CourseTypes

  // ----- StandartizeCourseName -----

  /** The text with every ' ' removed (other white space stays). */
  function RemoveSpaces(s: string): (r: string)
    ensures |r| <= |s|
  {
    if s == [] then []
    else RemoveSpaces(s[..|s| - 1]) + (if s[|s| - 1] == ' ' then [] else [s[|s| - 1]])
  }

  /** The index of the first digit of `s`, or |s| when it has none. */
  function FirstDigit(s: string): (k: nat)
    ensures k <= |s|
    ensures forall j :: 0 <= j < k ==> !IsDigit(s[j])
    ensures k < |s| ==> IsDigit(s[k])
  {
    if s == [] || IsDigit(s[0]) then 0 else 1 + FirstDigit(s[1..])
  }

  /** `s` with one space inserted before its first digit, if it has one. */
  function SpaceBeforeFirstDigit(s: string): string
  {
    if s == [] then []
    else if IsDigit(s[0]) then " " + s
    else [s[0]] + SpaceBeforeFirstDigit(s[1..])
  }

  /** The space goes exactly at the index of the first digit. */
  lemma {:induction false} SpaceBeforeFirstDigitAt(s: string)
    ensures var k := FirstDigit(s);
      SpaceBeforeFirstDigit(s) == if k < |s| then s[..k] + " " + s[k..] else s
  {
    if s != [] && !IsDigit(s[0]) {
      SpaceBeforeFirstDigitAt(s[1..]);
      var k := FirstDigit(s[1..]);
      if k < |s| - 1 {
        assert s[..k + 1] == [s[0]] + s[1..][..k];
        assert s[k + 1..] == s[1..][k..];
      } else {
        assert s == [s[0]] + s[1..];
      }
    }
  }

  /**
   * What `StandartizeCourseName` yields: the upper-cased input without its
   * spaces, a space put before the first digit, then white space trimmed
   * and collapsed (`strings.Join(strings.Fields(..), " ")`).
   */
  function StandardCourseName(s: string): string
  {
    Join(Fields(SpaceBeforeFirstDigit(RemoveSpaces(ToUpper(s)))), " ")
  }

  lemma {:induction false} FirstDigitAppend(y: string, c: char)
    ensures FirstDigit(y) < |y| ==> FirstDigit(y + [c]) == FirstDigit(y)
    ensures FirstDigit(y) == |y| ==> FirstDigit(y + [c]) == |y| + (if IsDigit(c) then 0 else 1)
  {
    if y != [] {
      assert (y + [c])[0] == y[0];
      assert (y + [c])[1..] == y[1..] + [c];
      FirstDigitAppend(y[1..], c);
    }
  }

  lemma RemoveSpacesStep(u: string, i: int)
    requires 0 <= i < |u|
    ensures RemoveSpaces(u[..i + 1]) == RemoveSpaces(u[..i]) + (if u[i] == ' ' then [] else [u[i]])
  {
    assert u[..i + 1][..i] == u[..i];
  }

  lemma {:induction false} SpaceBeforeFirstDigitStepFound(y: string, c: char)
    requires FirstDigit(y) < |y|
    ensures SpaceBeforeFirstDigit(y + [c]) == SpaceBeforeFirstDigit(y) + [c]
  {
    assert (y + [c])[0] == y[0];
    if !IsDigit(y[0]) {
      assert (y + [c])[1..] == y[1..] + [c];
      SpaceBeforeFirstDigitStepFound(y[1..], c);
    }
  }

  lemma {:induction false} SpaceBeforeFirstDigitStepNone(y: string, c: char)
    requires FirstDigit(y) == |y|
    ensures SpaceBeforeFirstDigit(y) == y
    ensures SpaceBeforeFirstDigit(y + [c]) == y + (if IsDigit(c) then [' ', c] else [c])
  {
    if y == [] {
      assert y + [c] == [c];
    } else {
      assert (y + [c])[0] == y[0];
      assert (y + [c])[1..] == y[1..] + [c];
      SpaceBeforeFirstDigitStepNone(y[1..], c);
    }
  }

  /** The loop of `StandartizeCourseName`: drops spaces and puts one space before the first digit. */
  method MarkDigitStart(u: string) returns (result: string)
    ensures result == SpaceBeforeFirstDigit(RemoveSpaces(u))
  {
    result := [];
    var numStart := false;
    ghost var y: string := [];
    var i := 0;
    while i < |u|
      invariant 0 <= i <= |u|
      invariant y == RemoveSpaces(u[..i])
      invariant numStart <==> FirstDigit(y) < |y|
      invariant result == SpaceBeforeFirstDigit(y)
    {
      RemoveSpacesStep(u, i);
      if u[i] != ' ' {
        result, numStart := MarkChar(result, numStart, y, u[i]);
        y := y + [u[i]];
      }
      i := i + 1;
    }
    assert u[..|u|] == u;
  }

  /** One non-space character of that loop: a space goes before it when it is the first digit. */
  method MarkChar(result: string, numStart: bool, ghost y: string, c: char) returns (result': string, numStart': bool)
    requires numStart <==> FirstDigit(y) < |y|
    requires result == SpaceBeforeFirstDigit(y)
    ensures numStart' <==> FirstDigit(y + [c]) < |y| + 1
    ensures result' == SpaceBeforeFirstDigit(y + [c])
  {
    FirstDigitAppend(y, c);
    result', numStart' := result, numStart;
    if numStart {
      SpaceBeforeFirstDigitStepFound(y, c);
    } else {
      SpaceBeforeFirstDigitStepNone(y, c);
      if IsDigit(c) {
        result' := result' + [' '];
        numStart' := true;
      }
    }
    result' := result' + [c];
  }

  /** `StandartizeCourseName`: upper-case, then the digit pass, then trim and collapse white space. */
  method StandartizeCourseName(s: string) returns (r: string)
    ensures r == StandardCourseName(s)
  {
    var u := ToUpper(s);
    var result := MarkDigitStart(u);
    r := Join(Fields(result), " ");
  }

  // ----- facts about Fields on the shapes StandardCourseName produces -----

  lemma {:induction false} WordOfNoSpace(w: string)
    requires NoSpace(w)
    ensures Word(w) == w
  {
    if w != [] {
      WordOfNoSpace(w[1..]);
    }
  }

  lemma {:induction false} WordBeforeSpace(a: string, b: string)
    requires NoSpace(a)
    ensures Word(a + " " + b) == a
  {
    if a != [] {
      assert (a + " " + b)[1..] == a[1..] + " " + b;
      WordBeforeSpace(a[1..], b);
    } else {
      assert (a + " " + b)[0] == ' ';
    }
  }

  lemma FieldsOfWord(w: string)
    requires w != [] && NoSpace(w)
    ensures Fields(w) == [w]
  {
    WordOfNoSpace(w);
    assert w[|w|..] == [];
  }

  lemma FieldsOfTwoWords(a: string, b: string)
    requires a != [] && NoSpace(a) && b != [] && NoSpace(b)
    ensures Fields(a + " " + b) == [a, b]
  {
    var tail := [' '] + b;
    assert a + " " + b == a + tail;
    WordBeforeSpace(a, b);
    assert (a + tail)[|a|..] == tail;
    assert tail[1..] == b;
    FieldsOfWord(b);
  }

  lemma FieldsOfLeadingSpace(b: string)
    requires b != [] && NoSpace(b)
    ensures Fields(" " + b) == [b]
  {
    assert (" " + b)[1..] == b;
    FieldsOfWord(b);
  }

  // ----- shape and idempotence of StandardCourseName -----

  /** Only ' ' may act as white space in `s`. */
  predicate OnlyPlainSpaces(s: string) {
    forall i :: 0 <= i < |s| ==> IsSpace(s[i]) ==> s[i] == ' '
  }

  lemma {:induction false} RemoveSpacesNoSpace(s: string)
    requires OnlyPlainSpaces(s)
    ensures NoSpace(RemoveSpaces(s))
    ensures forall i :: 0 <= i < |RemoveSpaces(s)| ==> RemoveSpaces(s)[i] in s
  {
    if s != [] {
      RemoveSpacesNoSpace(s[..|s| - 1]);
    }
  }

  lemma {:induction false} RemoveSpacesOfSpaceFree(s: string)
    requires NoSpace(s)
    ensures RemoveSpaces(s) == s
  {
    if s != [] {
      RemoveSpacesOfSpaceFree(s[..|s| - 1]);
      assert s == s[..|s| - 1] + [s[|s| - 1]];
    }
  }

  lemma {:induction false} RemoveSpacesConcat(a: string, b: string)
    ensures RemoveSpaces(a + b) == RemoveSpaces(a) + RemoveSpaces(b)
    decreases |b|
  {
    if b == [] {
      assert a + b == a;
    } else {
      var b' := b[..|b| - 1];
      assert (a + b)[..|a + b| - 1] == a + b';
      RemoveSpacesConcat(a, b');
    }
  }

  lemma UpperCharIdempotent(c: char)
    ensures UpperChar(UpperChar(c)) == UpperChar(c)
  {
  }

  lemma OnlyPlainSpacesUpper(s: string)
    requires OnlyPlainSpaces(s)
    ensures OnlyPlainSpaces(ToUpper(s))
  {
    forall i | 0 <= i < |s| ensures IsSpace(ToUpper(s)[i]) ==> ToUpper(s)[i] == ' ' {
      assert ToUpper(s)[i] == UpperChar(s[i]);
    }
  }

  lemma JoinOne(a: string, sep: string)
    ensures Join([a], sep) == a
  {
  }

  lemma JoinTwo(a: string, b: string, sep: string)
    ensures Join([a, b], sep) == a + sep + b
  {
    assert [a, b][1..] == [b];
  }

  /** Trimming and collapsing white space after the digit pass, for text without white space. */
  lemma JoinFieldsOfSpaced(R: string)
    requires NoSpace(R)
    ensures var k := FirstDigit(R);
      Join(Fields(SpaceBeforeFirstDigit(R)), " ") == if 0 < k < |R| then R[..k] + " " + R[k..] else R
  {
    var k := FirstDigit(R);
    SpaceBeforeFirstDigitAt(R);
    if R == [] {
    } else if k == |R| {
      FieldsOfWord(R);
      JoinOne(R, " ");
    } else if k == 0 {
      assert R[..0] + " " + R[0..] == " " + R;
      FieldsOfLeadingSpace(R);
      JoinOne(R, " ");
    } else {
      assert NoSpace(R[..k]) && NoSpace(R[k..]);
      FieldsOfTwoWords(R[..k], R[k..]);
      JoinTwo(R[..k], R[k..], " ");
    }
  }

  /**
   * For input whose only white space is ' ', the standard name is the
   * upper-cased input without spaces, with a single space before its first
   * digit unless that digit comes first.
   */
  lemma StandardCourseNameShape(s: string)
    requires OnlyPlainSpaces(s)
    ensures var R := RemoveSpaces(ToUpper(s)); var k := FirstDigit(R);
      StandardCourseName(s) == if 0 < k < |R| then R[..k] + " " + R[k..] else R
  {
    OnlyPlainSpacesUpper(s);
    RemoveSpacesNoSpace(ToUpper(s));
    JoinFieldsOfSpaced(RemoveSpaces(ToUpper(s)));
  }

  /** Text made of upper-cased characters is its own upper-case form. */
  lemma UpperOfUpper(s: string, R: string)
    requires forall i :: 0 <= i < |R| ==> R[i] in ToUpper(s)
    ensures ToUpper(R) == R
  {
    forall i | 0 <= i < |R| ensures ToUpper(R)[i] == R[i] {
      assert R[i] in ToUpper(s);
      var j :| 0 <= j < |ToUpper(s)| && ToUpper(s)[j] == R[i];
      UpperCharIdempotent(s[j]);
    }
  }

  lemma UpperWithSpace(a: string, b: string)
    requires ToUpper(a) == a && ToUpper(b) == b
    ensures ToUpper(a + " " + b) == a + " " + b
  {
    var r := a + " " + b;
    forall i | 0 <= i < |r| ensures ToUpper(r)[i] == r[i] {
      if i < |a| { assert r[i] == a[i] && ToUpper(a)[i] == a[i]; }
      else if i > |a| { assert r[i] == b[i - |a| - 1] && ToUpper(b)[i - |a| - 1] == b[i - |a| - 1]; }
    }
  }

  lemma RemoveSpacesTrailingSpace(a: string)
    ensures RemoveSpaces(a + " ") == RemoveSpaces(a)
  {
    assert (a + " ")[..|a|] == a;
  }

  lemma RemoveSpacesAroundSpace(a: string, b: string)
    requires NoSpace(a) && NoSpace(b)
    ensures RemoveSpaces(a + " " + b) == a + b
  {
    RemoveSpacesConcat(a + " ", b);
    RemoveSpacesTrailingSpace(a);
    RemoveSpacesOfSpaceFree(a);
    RemoveSpacesOfSpaceFree(b);
  }

  lemma UpperOfParts(R: string, k: int)
    requires ToUpper(R) == R && 0 <= k <= |R|
    ensures ToUpper(R[..k]) == R[..k] && ToUpper(R[k..]) == R[k..]
  {
    assert forall i :: 0 <= i < |R| ==> UpperChar(R[i]) == R[i];
  }

  lemma RestandardiseTwoParts(a: string, b: string)
    requires NoSpace(a) && NoSpace(b) && ToUpper(a) == a && ToUpper(b) == b
    ensures OnlyPlainSpaces(a + " " + b) && RemoveSpaces(ToUpper(a + " " + b)) == a + b
  {
    UpperWithSpace(a, b);
    RemoveSpacesAroundSpace(a, b);
    var r := a + " " + b;
    forall i | 0 <= i < |r| ensures IsSpace(r[i]) ==> r[i] == ' ' {
      if i < |a| { assert r[i] == a[i]; }
      else if i > |a| { assert r[i] == b[i - |a| - 1]; }
    }
  }

  /** Standardising an already standard name gives back the same letters and digits. */
  lemma RestandardiseParts(R: string)
    requires NoSpace(R) && ToUpper(R) == R
    ensures var k := FirstDigit(R); var r := if 0 < k < |R| then R[..k] + " " + R[k..] else R;
      OnlyPlainSpaces(r) && RemoveSpaces(ToUpper(r)) == R
  {
    var k := FirstDigit(R);
    if 0 < k < |R| {
      assert R == R[..k] + R[k..];
      UpperOfParts(R, k);
      RestandardiseTwoParts(R[..k], R[k..]);
    } else {
      RemoveSpacesOfSpaceFree(R);
    }
  }

  /** For input whose only white space is ' ', standardising twice changes nothing more. */
  lemma StandardCourseNameIdempotent(s: string)
    requires OnlyPlainSpaces(s)
    ensures StandardCourseName(StandardCourseName(s)) == StandardCourseName(s)
  {
    var R := RemoveSpaces(ToUpper(s));
    StandardCourseNameShape(s);
    OnlyPlainSpacesUpper(s);
    RemoveSpacesNoSpace(ToUpper(s));
    UpperOfUpper(s, R);
    RestandardiseParts(R);
    StandardCourseNameShape(StandardCourseName(s));
  }

  // ----- StandartizeSectionName -----

  /** The index of the first entry of `list` equal to `t` up to case, or |list|. */
  function FirstFoldMatch(t: string, list: seq<string>): (k: nat)
    ensures k <= |list|
    ensures forall j :: 0 <= j < k ==> !EqualFold(t, list[j])
    ensures k < |list| ==> EqualFold(t, list[k])
  {
    if list == [] then 0
    else if EqualFold(t, list[0]) then 0
    else 1 + FirstFoldMatch(t, list[1..])
  }

  /**
   * `StandartizeSectionName`: succeeds exactly when the name without its
   * leading digits, spaces and hyphens equals some list entry up to case; the
   * result is the leading digit run followed by the first such entry as the
   * list spells it. None stands for ("", false).
   */
  function StandartizeSectionName(s: string, sectionAbbrList: seq<string>): (r: Option<string>)
    ensures r.Some? <==>
      exists i :: 0 <= i < |sectionAbbrList| && EqualFold(TrimNumbersFromPrefix(s), sectionAbbrList[i])
    ensures r.Some? ==>
      exists i :: 0 <= i < |sectionAbbrList|
        && EqualFold(TrimNumbersFromPrefix(s), sectionAbbrList[i])
        && (forall j :: 0 <= j < i ==> !EqualFold(TrimNumbersFromPrefix(s), sectionAbbrList[j]))
        && r.value == LeadingDigits(s) + sectionAbbrList[i]
  {
    var k := FirstFoldMatch(TrimNumbersFromPrefix(s), sectionAbbrList);
    if k < |sectionAbbrList| then Some(LeadingDigits(s) + sectionAbbrList[k]) else None
  }

  // ----- formatSection and FormatCourseSection -----

  /** fmt's `%-Ns`: pads on the right with spaces to width `w`. */
  function PadRight(s: string, w: nat): (r: string)
    ensures |r| == if |s| < w then w else |s|
    ensures r[..|s|] == s
  {
    if |s| < w then s + seq(w - |s|, _ => ' ') else s
  }

  const FullMarker: string := "\\[FULL\\]`\n"

  /** The text ends with the `[FULL]` marker of a full section's line. */
  predicate HasFullMarker(line: string) {
    |line| >= |FullMarker| && line[|line| - |FullMarker|..] == FullMarker
  }

  /** `formatSection`: one line of the course details; the [FULL] marker appears exactly when size >= cap. */
  function FormatSection(sectionName: string, size: int, cap: int, escape: string -> string): (r: string)
    ensures HasFullMarker(r) <==> size >= cap
  {
    var head := "• `" + PadRight(escape(sectionName), 7) + " \\(" + IntToString(size) + "/" + IntToString(cap) + "\\)";
    if size >= cap then
      var r := head + "   " + FullMarker;
      assert r[|r| - |FullMarker|..] == FullMarker;
      r
    else
      var r := head + "\n`";
      assert r[|r| - 1] == '`' && FullMarker[|FullMarker| - 1] == '\n';
      r
  }

  /** `FormatCourseSection`: one line of a user's subscription list; [FULL] exactly when size >= cap. */
  function FormatCourseSection(courseName: string, sectionName: string, size: int, cap: int,
                               escape: string -> string): (r: string)
    ensures HasFullMarker(r) <==> size >= cap
  {
    var head := "• `" + PadRight(escape(courseName), 10) + " " + PadRight(escape(sectionName), 6)
      + "\\(" + IntToString(size) + "/" + IntToString(cap) + "\\)";
    if size >= cap then
      var r := head + "  " + FullMarker;
      assert r[|r| - |FullMarker|..] == FullMarker;
      r
    else
      var r := head + "\n`";
      assert r[|r| - 1] == '`' && FullMarker[|FullMarker| - 1] == '\n';
      r
  }

  // ----- FormatCourseInDetails -----

  function Trimmed(sec: Section): string { TrimNumbersFromPrefix(sec.sectionName) }

  /**
   * A blank line goes before item i of a listing grouped by `key` when i is
   * not the first, its key differs from that of item i - 1, and that key is
   * not empty.
   */
  predicate GapAt<T>(xs: seq<T>, key: T -> string, i: int)
    requires 0 <= i < |xs|
  {
    i > 0 && key(xs[i]) != key(xs[i - 1]) && key(xs[i - 1]) != ""
  }

  /** Each item's line, preceded by a blank line where `GapAt` says so. */
  function Grouped<T>(xs: seq<T>, key: T -> string, line: T -> string): string
  {
    if xs == [] then ""
    else
      var n := |xs| - 1;
      Grouped(xs[..n], key, line) + (if GapAt(xs, key, n) then "\n" else "") + line(xs[n])
  }

  lemma GroupedStep<T>(xs: seq<T>, i: int, key: T -> string, line: T -> string)
    requires 0 <= i < |xs|
    ensures Grouped(xs[..i + 1], key, line) == Grouped(xs[..i], key, line)
      + (if GapAt(xs, key, i) then "\n" else "") + line(xs[i])
  {
    assert xs[..i + 1][..i] == xs[..i];
    assert xs[..i + 1][i] == xs[i];
    assert i > 0 ==> xs[..i + 1][i - 1] == xs[i - 1];
  }

  /**
   * The grouping loop of `FormatCourseInDetails`: remembers the previous key
   * and writes a blank line before each new key that follows a non-empty one.
   */
  method GroupLines<T>(xs: seq<T>, key: T -> string, line: T -> string) returns (body: string)
    ensures body == Grouped(xs, key, line)
  {
    body := "";
    var s := "";
    var i := 0;
    while i < |xs|
      invariant 0 <= i <= |xs|
      invariant s == if i == 0 then "" else key(xs[i - 1])
      invariant body == Grouped(xs[..i], key, line)
    {
      var gap := false;
      if s != key(xs[i]) {
        if s != "" {
          gap := true;
        }
        s := key(xs[i]);
      }
      GroupedStep(xs, i, key, line);
      body := body + (if gap then "\n" else "") + line(xs[i]);
      i := i + 1;
    }
    assert xs[..|xs|] == xs;
  }

  /** The line `formatSection` writes for one section. */
  function SectionLine(escape: string -> string): Section -> string
  {
    (sec: Section) => FormatSection(sec.sectionName, sec.size, sec.cap, escape)
  }

  /** A blank line goes before section i exactly where the Go loop writes one. */
  predicate GapBefore(ss: seq<Section>, i: int)
    requires 0 <= i < |ss|
  {
    GapAt(ss, Trimmed, i)
  }

  /**
   * `FormatCourseInDetails`: sorts the course's sections (the Go code sorts
   * the shared slice in place; `sorted` is that slice afterwards) and lists
   * them between the semester/course header and the update-time footer.
   * `lastUpdate` is the already formatted "Last Update on: ..." text.
   */
  method FormatCourseInDetails(course: Course, semesterName: string, lastUpdate: string,
                               escape: string -> string)
    returns (details: string, sorted: seq<Section>)
    ensures multiset(sorted) == multiset(course.sections)
    ensures AdjacentSorted(sorted, 0, |sorted|)
    ensures details == escape(semesterName) + "\n" + escape(course.abbrName) + ": " + escape(course.fullName) + "\n"
                       + Grouped(sorted, Trimmed, SectionLine(escape)) + "\n_" + escape(lastUpdate) + "_"
  {
    var a := new Section[|course.sections|](i requires 0 <= i < |course.sections| => course.sections[i]);
    assert a[..] == course.sections;
    SortSections(a);
    sorted := a[..];
    var body := GroupLines(sorted, Trimmed, SectionLine(escape));
    details := escape(semesterName) + "\n" + escape(course.abbrName) + ": " + escape(course.fullName) + "\n"
               + body + "\n_" + escape(lastUpdate) + "_";
  }

  lemma CompareWithEmpty(x: string)
    requires Compare(x, "") <= 0
    ensures x == ""
  {
  }

  /**
   * In a sorted listing whose first section does not trim to the empty name,
   * a blank line precedes exactly those sections that start a new run of
   * trimmed names; the first run gets none.
   */
  lemma SortedGapIffNewRun(ss: seq<Section>, i: int)
    requires AdjacentSorted(ss, 0, |ss|)
    requires 0 <= i < |ss|
    requires Trimmed(ss[0]) != ""
    ensures GapBefore(ss, i) <==> i > 0 && Trimmed(ss[i]) != Trimmed(ss[i - 1])
  {
    if i > 0 && Trimmed(ss[i - 1]) == "" {
      SortedPairwise(ss, 0, i - 1);
      CompareWithEmpty(Trimmed(ss[0]));
    }
  }
}
