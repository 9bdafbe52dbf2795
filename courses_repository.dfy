/**
 * The course snapshot (repositories/cources_repository.go): the rows of
 * the registrar's spreadsheet are folded into a map from course
 * abbreviation to course, and the repository keeps the last snapshot that
 * parsed, refreshing it when it is older than ten minutes.
 *
 * A spreadsheet row is a sequence of cells; a cell the reader cannot give
 * as text is None. Fetching and opening the workbook are summed up in a
 * `feed`: the rows of its first sheet, or the error that stopped them.
 */
module CoursesRepository {
  import opened Wrappers
  import opened Strings
  import opened CourseTypes

  type Row = seq<Option<string>>

  /** `row.GetCol(i)` read as text; a column past the end is an error too. */
  function Cell(row: Row, i: nat): Option<string> {
    if i < |row| then row[i] else None
  }

  const ColSemester: nat := 0
  const ColAbbr: nat := 2
  const ColSection: nat := 3
  const ColTitle: nat := 4
  const ColEnrolled: nat := 11
  const ColCapacity: nat := 12

  /** How long a snapshot is served before a lookup refreshes it: ten minutes. */
  const StaleAfter: int := 600

  /** The three maps `parseXLS` fills (the duplicate map's keys are a set). */
  datatype RowsState = RowsState(duplicates: set<string>, courses: map<string, Course>, sectionNames: set<string>)

  /** The key under which a row is checked for duplicates: abbreviation "_" section. */
  function RowKey(abbr: string, section: string): string {
    abbr + "_" + section
  }

  /** The duplicate key of a row that has a non-empty abbreviation and a readable section. */
  function KeyOf(row: Row): Option<string> {
    var abbr := Cell(row, ColAbbr);
    var section := Cell(row, ColSection);
    if abbr.None? || abbr.value == "" || section.None? then None
    else Some(RowKey(abbr.value, section.value))
  }

  /** One pass of the row loop of `parseXLS`. */
  function RowStep(st: RowsState, row: Row): RowsState {
    var abbr := Cell(row, ColAbbr);
    var section := Cell(row, ColSection);
    if abbr.None? || abbr.value == "" || section.None? then st
    else
      var key := RowKey(abbr.value, section.value);
      if key in st.duplicates then st
      else
        var st1 := st.(duplicates := st.duplicates + {key});
        var enrolled := Cell(row, ColEnrolled);
        var capacity := Cell(row, ColCapacity);
        if enrolled.None? || capacity.None? then st1
        else
          var enNum := ParseInt(enrolled.value);
          var enCap := ParseInt(capacity.value);
          if enNum.None? || enCap.None? then st1
          else if abbr.value !in st.courses && Cell(row, ColTitle).None? then st1
          else
            var crs := if abbr.value in st.courses then st.courses[abbr.value]
                       else Course(Cell(row, ColTitle).value, abbr.value, []);
            st1.(courses := st.courses[abbr.value := crs.(sections := crs.sections + [Section(section.value, enNum.value, enCap.value)])],
                 sectionNames := st.sectionNames + {TrimNumbersFromPrefix(section.value)})
  }

  /** The maps after the loop has seen `rows`, starting empty. */
  function ParseRowsSpec(rows: seq<Row>): RowsState {
    if rows == [] then RowsState({}, map[], {})
    else RowStep(ParseRowsSpec(rows[..|rows| - 1]), rows[|rows| - 1])
  }

  /** The row loop of `parseXLS`. */
  method ParseRows(rows: seq<Row>) returns (duplicates: set<string>, courses: map<string, Course>, sectionName: set<string>)
    ensures RowsState(duplicates, courses, sectionName) == ParseRowsSpec(rows)
  {
    duplicates, courses, sectionName := {}, map[], {};
    for i := 0 to |rows|
      invariant RowsState(duplicates, courses, sectionName) == ParseRowsSpec(rows[..i])
    {
      assert rows[..i + 1][..i] == rows[..i];
      var row := rows[i];
      var abbrName := Cell(row, ColAbbr);
      if abbrName.None? || abbrName.value == "" {
        continue;
      }
      var section := Cell(row, ColSection);
      if section.None? {
        continue;
      }
      var courseKey := RowKey(abbrName.value, section.value);
      if courseKey in duplicates {
        continue;
      }
      duplicates := duplicates + {courseKey};
      var enrolled := Cell(row, ColEnrolled);
      if enrolled.None? {
        continue;
      }
      var capacity := Cell(row, ColCapacity);
      if capacity.None? {
        continue;
      }
      var enNum := ParseInt(enrolled.value);
      if enNum.None? {
        continue;
      }
      var enCap := ParseInt(capacity.value);
      if enCap.None? {
        continue;
      }
      if abbrName.value !in courses {
        var fullName := Cell(row, ColTitle);
        if fullName.None? {
          continue;
        }
        courses := courses[abbrName.value := Course(fullName.value, abbrName.value, [])];
      }
      sectionName := sectionName + {TrimNumbersFromPrefix(section.value)};
      var crs := courses[abbrName.value];
      courses := courses[abbrName.value := crs.(sections := crs.sections + [Section(section.value, enNum.value, enCap.value)])];
    }
    assert rows[..|rows|] == rows;
  }

  // ----- what the row loop guarantees -----

  /** Every course is filed under its own abbreviation and has at least one section. */
  ghost predicate WellFormed(st: RowsState) {
    && (forall a :: a in st.courses ==> st.courses[a].abbrName == a && |st.courses[a].sections| > 0)
    && (forall a, i :: a in st.courses && 0 <= i < |st.courses[a].sections| ==>
          TrimNumbersFromPrefix(st.courses[a].sections[i].sectionName) in st.sectionNames)
  }

  /**
   * A row either changes nothing but the duplicate set, or appends one
   * section to the end of one course (creating the course from this row
   * when it is new) and records the section's trimmed name; every other
   * course stays as it was. An appended section carries the row's name and
   * its parsed enrolment and capacity, so both cells must have parsed.
   */
  lemma RowStepEffect(st: RowsState, row: Row)
    ensures var st' := RowStep(st, row);
      || (st'.courses == st.courses && st'.sectionNames == st.sectionNames)
      || (&& Cell(row, ColAbbr).Some? && Cell(row, ColSection).Some?
          && var a := Cell(row, ColAbbr).value;
             var before := if a in st.courses then st.courses[a].sections else [];
             && a in st'.courses
             && st'.courses == st.courses[a := st'.courses[a]]
             && (a in st.courses ==> st'.courses[a].fullName == st.courses[a].fullName)
             && |st'.courses[a].sections| == |before| + 1
             && st'.courses[a].sections[..|before|] == before
             && Cell(row, ColEnrolled).Some? && ParseInt(Cell(row, ColEnrolled).value).Some?
             && Cell(row, ColCapacity).Some? && ParseInt(Cell(row, ColCapacity).value).Some?
             && st'.courses[a].sections[|before|]
                == Section(Cell(row, ColSection).value, ParseInt(Cell(row, ColEnrolled).value).value,
                           ParseInt(Cell(row, ColCapacity).value).value)
             && st'.sectionNames == st.sectionNames + {TrimNumbersFromPrefix(Cell(row, ColSection).value)})
  {
  }

  lemma RowStepWellFormed(st: RowsState, row: Row)
    requires WellFormed(st)
    ensures WellFormed(RowStep(st, row))
  {
    var st' := RowStep(st, row);
    if st'.courses != st.courses {
      var a := Cell(row, ColAbbr).value;
      forall b, i | b in st'.courses && 0 <= i < |st'.courses[b].sections|
        ensures TrimNumbersFromPrefix(st'.courses[b].sections[i].sectionName) in st'.sectionNames
      {
        if b != a || (a in st.courses && i < |st.courses[a].sections|) {
          assert st'.courses[b].sections[i] == st.courses[b].sections[i];
        }
      }
    }
  }

  /**
   * Every course of the result has at least one section, is filed under
   * its abbreviation, and the trimmed name of each of its sections is in
   * the section-name set.
   */
  lemma {:induction false} ParseRowsWellFormed(rows: seq<Row>)
    ensures WellFormed(ParseRowsSpec(rows))
  {
    if rows != [] {
      ParseRowsWellFormed(rows[..|rows| - 1]);
      RowStepWellFormed(ParseRowsSpec(rows[..|rows| - 1]), rows[|rows| - 1]);
    }
  }

  /** The key of every keyed row is recorded, whatever happens to the row afterwards. */
  lemma RowStepRecordsKey(st: RowsState, row: Row)
    ensures st.duplicates <= RowStep(st, row).duplicates
    ensures KeyOf(row).Some? ==> KeyOf(row).value in RowStep(st, row).duplicates
  {
  }

  /** A row whose key is already recorded changes nothing. */
  lemma RowStepSkipsDuplicate(st: RowsState, row: Row)
    requires KeyOf(row).Some? && KeyOf(row).value in st.duplicates
    ensures RowStep(st, row) == st
  {
  }

  /**
   * A first row whose enrolment or capacity cell is unreadable or not a
   * number still records its key and adds no section.
   */
  lemma BadNumbersRecordKey(st: RowsState, row: Row)
    requires KeyOf(row).Some? && KeyOf(row).value !in st.duplicates
    requires || Cell(row, ColEnrolled).None? || ParseInt(Cell(row, ColEnrolled).value).None?
             || Cell(row, ColCapacity).None? || ParseInt(Cell(row, ColCapacity).value).None?
    ensures RowStep(st, row) == st.(duplicates := st.duplicates + {KeyOf(row).value})
  {
  }

  lemma {:induction false} DuplicatesGrow(rows: seq<Row>, i: int, j: int)
    requires 0 <= i <= j <= |rows|
    ensures ParseRowsSpec(rows[..i]).duplicates <= ParseRowsSpec(rows[..j]).duplicates
    decreases j - i
  {
    if i < j {
      DuplicatesGrow(rows, i, j - 1);
      assert rows[..j][..j - 1] == rows[..j - 1];
      RowStepRecordsKey(ParseRowsSpec(rows[..j - 1]), rows[j - 1]);
    }
  }

  /**
   * Only the first row of a key counts: a later row with the same key,
   * whatever its numbers, leaves the maps as they were.
   */
  lemma LaterDuplicateIgnored(rows: seq<Row>, i: int, j: int)
    requires 0 <= i < j < |rows|
    requires KeyOf(rows[i]).Some? && KeyOf(rows[j]) == KeyOf(rows[i])
    ensures ParseRowsSpec(rows[..j + 1]) == ParseRowsSpec(rows[..j])
  {
    assert rows[..i + 1][..i] == rows[..i];
    RowStepRecordsKey(ParseRowsSpec(rows[..i]), rows[i]);
    DuplicatesGrow(rows, i + 1, j);
    assert rows[..j + 1][..j] == rows[..j];
    RowStepSkipsDuplicate(ParseRowsSpec(rows[..j]), rows[j]);
  }

  // ----- the snapshot -----

  predicate NoDuplicates(list: seq<string>) {
    forall i, j :: 0 <= i < j < |list| ==> list[i] != list[j]
  }

  /** The section-name set as a list, in whatever order the map iteration gives. */
  method SetToList(names: set<string>) returns (list: seq<string>)
    ensures forall x :: x in list <==> x in names
    ensures NoDuplicates(list)
  {
    list := [];
    var rest := names;
    while rest != {}
      invariant rest <= names
      invariant forall x :: x in list <==> x in names && x !in rest
      invariant NoDuplicates(list)
      decreases rest
    {
      var x :| x in rest;
      list := list + [x];
      rest := rest - {x};
    }
  }

  /**
   * What `ParseCourses` yields for a feed: the semester name from the
   * first cell of the first row, the course map and the section names;
   * None when the feed failed or that first cell cannot be read.
   */
  function Fetched(feed: Result<seq<Row>, string>): Option<(string, map<string, Course>, set<string>)>
    requires feed.Ok? ==> |feed.value| > 0
  {
    if feed.Err? then None
    else
      var semesterName := Cell(feed.value[0], ColSemester);
      if semesterName.None? then None
      else
        var st := ParseRowsSpec(feed.value);
        Some((semesterName.value, st.courses, st.sectionNames))
  }

  /** The first section of the list with exactly that name. */
  function FindSection(sections: seq<Section>, name: string): (r: Option<Section>)
    ensures r.Some? ==> r.value.sectionName == name && r.value in sections
    ensures r.None? <==> forall i :: 0 <= i < |sections| ==> sections[i].sectionName != name
    ensures r.Some? ==> exists k :: 0 <= k < |sections| && sections[k] == r.value
                          && forall i :: 0 <= i < k ==> sections[i].sectionName != name
  {
    if sections == [] then None
    else if sections[0].sectionName == name then Some(sections[0])
    else
      var r := FindSection(sections[1..], name);
      assert r.Some? ==> forall i :: 0 <= i < |sections[1..]| && sections[1..][i] == r.value ==> sections[i + 1] == r.value;
      r
  }

  /**
   * The repository: the last snapshot that parsed, when it was taken (in
   * seconds), the semester it belongs to and the trimmed section names.
   */
  class CourseRepository {
    var courses: map<string, Course>
    var lastTimeParsed: int
    var semesterName: string
    var sectionAbbrList: seq<string>

    /** Holds the given snapshot. */
    constructor (courses: map<string, Course>, lastTimeParsed: int, semesterName: string, sectionAbbrList: seq<string>)
      ensures this.courses == courses && this.lastTimeParsed == lastTimeParsed
      ensures this.semesterName == semesterName && this.sectionAbbrList == sectionAbbrList
    {
      this.courses := courses;
      this.lastTimeParsed := lastTimeParsed;
      this.semesterName := semesterName;
      this.sectionAbbrList := sectionAbbrList;
    }

    /**
     * The fields hold the snapshot `snap` (semester, courses, trimmed
     * section names) taken at `now`; the list holds each name once.
     */
    ghost predicate Holds(snap: (string, map<string, Course>, set<string>), now: int)
      reads this
    {
      && courses == snap.1 && lastTimeParsed == now && semesterName == snap.0
      && (forall x :: x in sectionAbbrList <==> x in snap.2) && NoDuplicates(sectionAbbrList)
    }

    /**
     * `Parse` at time `now`: on failure the error is returned and the four
     * fields keep their values; on success all four are replaced together
     * (nothing of the old map survives).
     */
    method Parse(feed: Result<seq<Row>, string>, now: int) returns (err: bool)
      requires feed.Ok? ==> |feed.value| > 0
      modifies this
      ensures err <==> Fetched(feed).None?
      ensures err ==> unchanged(this)
      ensures !err ==> Holds(Fetched(feed).value, now)
    {
      if feed.Err? {
        return true;
      }
      var rows := feed.value;
      var sem := Cell(rows[0], ColSemester);
      if sem.None? {
        return true;
      }
      var _, cs, names := ParseRows(rows);
      var list := SetToList(names);
      courses := cs;
      lastTimeParsed := now;
      semesterName := sem.value;
      sectionAbbrList := list;
      return false;
    }

    /**
     * `GetCourse`: when the snapshot is more than ten minutes old it is
     * refreshed first (a failed refresh keeps the old one); the answer
     * comes from the snapshot held afterwards.
     */
    method GetCourse(name: string, feed: Result<seq<Row>, string>, now: int) returns (course: Option<Course>)
      requires feed.Ok? ==> |feed.value| > 0
      modifies this
      ensures now - old(lastTimeParsed) <= StaleAfter || Fetched(feed).None? ==> unchanged(this)
      ensures now - old(lastTimeParsed) > StaleAfter && Fetched(feed).Some? ==> Holds(Fetched(feed).value, now)
      ensures course == if name in courses then Some(courses[name]) else None
    {
      if now - lastTimeParsed > StaleAfter {
        var _ := Parse(feed, now);
      }
      course := if name in courses then Some(courses[name]) else None;
    }

    /**
     * `GetSection`: the same refresh, then the first section of the course
     * with exactly that name; not found when the course or the section is
     * missing.
     */
    method GetSection(courseName: string, sectionName: string, feed: Result<seq<Row>, string>, now: int)
      returns (section: Option<Section>)
      requires feed.Ok? ==> |feed.value| > 0
      modifies this
      ensures now - old(lastTimeParsed) <= StaleAfter || Fetched(feed).None? ==> unchanged(this)
      ensures now - old(lastTimeParsed) > StaleAfter && Fetched(feed).Some? ==> Holds(Fetched(feed).value, now)
      ensures section == if courseName in courses then FindSection(courses[courseName].sections, sectionName) else None
    {
      if now - lastTimeParsed > StaleAfter {
        var _ := Parse(feed, now);
      }
      if courseName !in courses {
        return None;
      }
      var sections := courses[courseName].sections;
      for i := 0 to |sections|
        invariant forall k :: 0 <= k < i ==> sections[k].sectionName != sectionName
      {
        if sections[i].sectionName == sectionName {
          FindSectionAt(sections, sectionName, i);
          return Some(sections[i]);
        }
      }
      return None;
    }
  }

  /** The first index holding the name is the one `FindSection` returns. */
  lemma {:induction false} FindSectionAt(sections: seq<Section>, name: string, k: int)
    requires 0 <= k < |sections| && sections[k].sectionName == name
    requires forall i :: 0 <= i < k ==> sections[i].sectionName != name
    ensures FindSection(sections, name) == Some(sections[k])
  {
    if k > 0 {
      FindSectionAt(sections[1..], name, k - 1);
    }
  }
}
