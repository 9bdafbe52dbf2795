/**
 * The argument parser of /subscribe (`parseCommandArguments` in
 * handlers/handlers.go): a course name, possibly typed as two words, then
 * section names, where a word that does not start with a digit belongs to
 * the section before it; every section is then matched against the known
 * section abbreviations.
 */
module CommandArguments {
  import opened Wrappers
  import opened Strings
  import opened Beautify

  /** The two errors of handlers/errors.go. */
  datatype ParamError = ErrNotEnoughParams | InvalidParams

  predicate StartsWithDigit(f: string) {
    |f| > 0 && IsDigit(f[0])
  }

  /**
   * How many words the course name takes: the second word is glued on when
   * the first ends in a non-digit and the second starts with a digit
   * ("PHYS 161").
   */
  function CourseWords(fields: seq<string>): (n: nat)
    requires |fields| >= 1 && forall k :: 0 <= k < |fields| ==> fields[k] != []
    ensures 1 <= n <= |fields|
  {
    if |fields| >= 2 && !IsDigit(fields[0][|fields[0]| - 1]) && IsDigit(fields[1][0]) then 2 else 1
  }

  /** The course name as typed: the first word, or the first two joined. */
  function RawCourseName(fields: seq<string>): string
    requires |fields| >= 1 && forall k :: 0 <= k < |fields| ==> fields[k] != []
  {
    if CourseWords(fields) == 2 then fields[0] + fields[1] else fields[0]
  }

  /** All the words glued together. */
  function Concat(words: seq<string>): string {
    if words == [] then [] else Concat(words[..|words| - 1]) + words[|words| - 1]
  }

  /**
   * The section words grouped: a word starting with a digit opens a new
   * section, any other word is glued to the section before it, and a
   * first word that opens no section is an error.
   */
  function Grouped(words: seq<string>): (r: Result<seq<string>, ParamError>)
    ensures r.Err? ==> r.error == InvalidParams
    ensures r.Ok? ==> forall k :: 0 <= k < |r.value| ==> StartsWithDigit(r.value[k])
    ensures r.Ok? ==> |r.value| <= |words| && (words != [] ==> |r.value| > 0)
  {
    if words == [] then Ok([])
    else
      match Grouped(words[..|words| - 1])
      case Err(e) => Err(e)
      case Ok(acc) =>
        var w := words[|words| - 1];
        if !StartsWithDigit(w) then
          if acc == [] then Err(InvalidParams)
          else Ok(acc[..|acc| - 1] + [acc[|acc| - 1] + w])
        else Ok(acc + [w])
  }

  /** Every section standardised, or None as soon as one is not a known section. */
  function StandardizedAll(sections: seq<string>, sectionAbbrList: seq<string>): (r: Option<seq<string>>)
    ensures r.None? <==> exists k :: 0 <= k < |sections| && StandartizeSectionName(sections[k], sectionAbbrList).None?
    ensures r.Some? ==> |r.value| == |sections|
    ensures r.Some? ==> forall k :: 0 <= k < |sections| ==> StandartizeSectionName(sections[k], sectionAbbrList) == Some(r.value[k])
  {
    if sections == [] then Some([])
    else
      var n := |sections| - 1;
      match StandardizedAll(sections[..n], sectionAbbrList)
      case None => None
      case Some(done) =>
        match StandartizeSectionName(sections[n], sectionAbbrList)
        case None => None
        case Some(sec) => Some(done + [sec])
  }

  /**
   * What `parseCommandArguments` returns for the text of a message that
   * has at least one word (with none the source indexes past the end):
   * the standardised course name and sections, or the error.
   */
  function ParsedArguments(args: string, sectionAbbrList: seq<string>): Result<(string, seq<string>), ParamError>
    requires |Fields(args)| >= 1
  {
    var fields := Fields(args);
    var n := CourseWords(fields);
    if n == |fields| then Err(ErrNotEnoughParams)
    else
      match Grouped(fields[n..])
      case Err(e) => Err(e)
      case Ok(raw) =>
        match StandardizedAll(raw, sectionAbbrList)
        case None => Err(InvalidParams)
        case Some(sections) => Ok((StandardCourseName(RawCourseName(fields)), sections))
  }

  /** `parseCommandArguments`. */
  method ParseCommandArguments(args: string, sectionAbbrList: seq<string>)
    returns (r: Result<(string, seq<string>), ParamError>)
    requires |Fields(args)| >= 1
    ensures r == ParsedArguments(args, sectionAbbrList)
  {
    var fields := Fields(args);
    var courseName := fields[0];
    var ind := 1;
    if |fields| >= 2 && !IsDigit(courseName[|courseName| - 1]) && IsDigit(fields[1][0]) {
      courseName := courseName + fields[1];
      ind := ind + 1;
    }
    assert ind == CourseWords(fields) && courseName == RawCourseName(fields);
    if ind == |fields| {
      return Err(ErrNotEnoughParams);
    }
    var section := GroupSections(fields[ind..]);
    if section.Err? {
      return Err(section.error);
    }
    var sections := StandardizeSections(section.value, sectionAbbrList);
    if sections.None? {
      return Err(InvalidParams);
    }
    return Ok((StandardCourseName(courseName), sections.value));
  }

  /** The grouping loop of `parseCommandArguments`. */
  method GroupSections(words: seq<string>) returns (r: Result<seq<string>, ParamError>)
    ensures r == Grouped(words)
  {
    var section: seq<string> := [];
    for i := 0 to |words|
      invariant Grouped(words[..i]) == Ok(section)
    {
      assert words[..i + 1] == words[..i] + [words[i]];
      var next := GroupWord(section, words[..i], words[i]);
      if next.Err? {
        GroupedErrPersists(words, i + 1);
        return next;
      }
      section := next.value;
    }
    assert words[..|words|] == words;
    return Ok(section);
  }

  /** One word of that loop: it opens a section or is glued to the last one. */
  method GroupWord(section: seq<string>, ghost before: seq<string>, w: string) returns (r: Result<seq<string>, ParamError>)
    requires Grouped(before) == Ok(section)
    ensures r == Grouped(before + [w])
  {
    assert (before + [w])[..|before|] == before;
    if |w| == 0 || !IsDigit(w[0]) {
      if |section| == 0 {
        return Err(InvalidParams);
      }
      var last := |section| - 1;
      var glued := section[last := section[last] + w];
      assert glued == section[..last] + [section[last] + w];
      return Ok(glued);
    }
    return Ok(section + [w]);
  }

  /** The loop of `parseCommandArguments` that standardises each section in place. */
  method StandardizeSections(raw: seq<string>, sectionAbbrList: seq<string>) returns (r: Option<seq<string>>)
    ensures r == StandardizedAll(raw, sectionAbbrList)
  {
    var section := raw;
    for i := 0 to |section|
      invariant |section| == |raw| && forall k :: i <= k < |raw| ==> section[k] == raw[k]
      invariant StandardizedAll(raw[..i], sectionAbbrList) == Some(section[..i])
    {
      assert raw[..i + 1][..i] == raw[..i];
      var sec := StandartizeSectionName(section[i], sectionAbbrList);
      if sec.None? {
        return None;
      }
      section := section[i := sec.value];
      assert section[..i + 1] == section[..i] + [sec.value];
    }
    assert raw[..|raw|] == raw && section[..|section|] == section;
    return Some(section);
  }

  // ----- properties -----

  /** Once a prefix of the words fails to group, so do all the words. */
  lemma {:induction false} GroupedErrPersists(words: seq<string>, i: nat)
    requires i <= |words| && Grouped(words[..i]).Err?
    ensures Grouped(words) == Err(InvalidParams)
  {
    if i < |words| {
      var n := |words| - 1;
      assert words[..n][..i] == words[..i];
      GroupedErrPersists(words[..n], i);
    } else {
      assert words[..i] == words;
    }
  }

  /**
   * On success there is at least one section; each is a known section
   * abbreviation (as the list spells it) after the digits the user typed,
   * so it starts with a digit; the course is `StandartizeCourseName` of
   * the name as typed.
   */
  lemma ParsedArgumentsOk(args: string, sectionAbbrList: seq<string>)
    requires |Fields(args)| >= 1 && ParsedArguments(args, sectionAbbrList).Ok?
    ensures var (course, sections) := ParsedArguments(args, sectionAbbrList).value;
      && course == StandardCourseName(RawCourseName(Fields(args)))
      && |sections| >= 1
      && forall k :: 0 <= k < |sections| ==>
           StartsWithDigit(sections[k])
           && exists j, d :: 0 <= j < |sectionAbbrList| && AllDigits(d) && sections[k] == d + sectionAbbrList[j]
  {
    var fields := Fields(args);
    var raw := Grouped(fields[CourseWords(fields)..]).value;
    var sections := ParsedArguments(args, sectionAbbrList).value.1;
    forall k | 0 <= k < |sections|
      ensures StartsWithDigit(sections[k])
      ensures exists j, d :: 0 <= j < |sectionAbbrList| && AllDigits(d) && sections[k] == d + sectionAbbrList[j]
    {
      assert StartsWithDigit(raw[k]);
      var d := LeadingDigits(raw[k]);
      assert d != [] by {
        assert raw[k] == [raw[k][0]] + raw[k][1..];
      }
      var j :| 0 <= j < |sectionAbbrList| && sections[k] == d + sectionAbbrList[j];
      assert sections[k][0] == d[0];
    }
  }

  /** A course name and nothing after it is not enough. */
  lemma NotEnoughParams(args: string, sectionAbbrList: seq<string>)
    requires |Fields(args)| >= 1 && CourseWords(Fields(args)) == |Fields(args)|
    ensures ParsedArguments(args, sectionAbbrList) == Err(ErrNotEnoughParams)
  {
  }

  /** A first section word that does not start with a digit is invalid. */
  lemma FirstSectionWithoutDigit(args: string, sectionAbbrList: seq<string>)
    requires |Fields(args)| >= 1
    requires var fields := Fields(args); var n := CourseWords(fields);
      n < |fields| && !StartsWithDigit(fields[n])
    ensures ParsedArguments(args, sectionAbbrList) == Err(InvalidParams)
  {
    var fields := Fields(args);
    var n := CourseWords(fields);
    FirstWordDecides(fields[n..]);
  }

  /** Grouping fails exactly when the first word opens no section. */
  lemma {:induction false} FirstWordDecides(words: seq<string>)
    requires words != []
    ensures Grouped(words).Err? <==> !StartsWithDigit(words[0])
  {
    var n := |words| - 1;
    if n > 0 {
      FirstWordDecides(words[..n]);
      assert words[..n][0] == words[0];
    }
  }

  /** Grouping loses no character and keeps the typed order. */
  lemma {:induction false} GroupedKeepsText(words: seq<string>)
    requires Grouped(words).Ok?
    ensures Concat(Grouped(words).value) == Concat(words)
  {
    if words != [] {
      var n := |words| - 1;
      var w := words[n];
      GroupedKeepsText(words[..n]);
      var acc := Grouped(words[..n]).value;
      if !StartsWithDigit(w) {
        var m := |acc| - 1;
        var acc' := acc[..m] + [acc[m] + w];
        assert acc'[..m] == acc[..m];
        assert acc == acc[..m] + [acc[m]];
        assert Concat(acc) == Concat(acc[..m]) + acc[m];
        assert Concat(acc') == Concat(acc[..m]) + (acc[m] + w);
      } else {
        assert (acc + [w])[..|acc|] == acc;
      }
    }
  }
}
