/**
 * One line of a crashed.nu schedule export as the file upload handler
 * (`HandleSubscribeFromCrashedNUFile` in handlers/handlers.go) reads it:
 * "COURSE: SECTION, SECTION, ...". Both ": " and ", " become '|', the line
 * is cut at every '|' and empty pieces are dropped; the first piece is the
 * course and the others are its sections, taken as they are.
 */
module CrashedNU {
  import opened Wrappers
  import opened Strings
  import opened Response
  import opened Subscriptions

  const CourseSep: string := ": "
  const SectionSep: string := ", "
  const Bar: char := '|'

  /** The pieces of a line. */
  function LineFields(line: string): (r: seq<string>)
    ensures forall k :: 0 <= k < |r| ==> r[k] != [] && Bar !in r[k]
  {
    FieldsOn(ReplaceAll(ReplaceAll(line, CourseSep, [Bar]), SectionSep, [Bar]), Bar)
  }

  /** The course and sections of a line, or None when it has fewer than two pieces. */
  function ParseLine(line: string): (r: Option<(string, seq<string>)>)
    ensures r.None? <==> |LineFields(line)| < 2
    ensures r.Some? ==> [r.value.0] + r.value.1 == LineFields(line) && |r.value.1| >= 1
  {
    var fields := LineFields(line);
    if |fields| < 2 then None
    else
      assert fields == [fields[0]] + fields[1..];
      Some((fields[0], fields[1..]))
  }

  /**
   * The export's own line format reads back as written: a non-empty course
   * and non-empty sections, none holding ':', ',' or '|', written as
   * "COURSE: S1, S2, ..." give exactly that course and those sections.
   */
  lemma ParseLineRoundTrip(course: string, sections: seq<string>)
    requires course != [] && ':' !in course && ',' !in course && Bar !in course
    requires |sections| >= 1
    requires forall k :: 0 <= k < |sections| ==>
      sections[k] != [] && ':' !in sections[k] && ',' !in sections[k] && Bar !in sections[k]
    ensures ParseLine(course + CourseSep + Join(sections, SectionSep)) == Some((course, sections))
  {
    var joined := Join(sections, SectionSep);
    NotInJoin(sections, SectionSep, ':');
    CourseSepReplaced(course, joined);
    SectionSepsReplaced(course, sections);
    CutAtBars(course, sections);
  }

  /** ": " after a course without ':', followed by text without ':', becomes one '|'. */
  lemma CourseSepReplaced(course: string, rest: string)
    requires ':' !in course && ':' !in rest
    ensures ReplaceAll(course + CourseSep + rest, CourseSep, [Bar]) == course + [Bar] + rest
  {
    assert CourseSep[0] == ':';
    assert course + CourseSep + rest == course + (CourseSep + rest);
    ReplaceAllSkip(course, CourseSep + rest, CourseSep, [Bar]);
    ReplaceAllAtPattern(CourseSep, rest, [Bar]);
    ReplaceAllAbsent(rest, CourseSep, [Bar]);
  }

  /** Every ", " between sections without ',' becomes '|'. */
  lemma SectionSepsReplaced(course: string, sections: seq<string>)
    requires ',' !in course && Bar != ','
    requires forall k :: 0 <= k < |sections| ==> ',' !in sections[k]
    ensures ReplaceAll(course + [Bar] + Join(sections, SectionSep), SectionSep, [Bar])
      == course + [Bar] + Join(sections, [Bar])
  {
    assert SectionSep[0] == ',';
    ReplaceAllSkip(course + [Bar], Join(sections, SectionSep), SectionSep, [Bar]);
    ReplaceAllOfJoin(sections, SectionSep, [Bar]);
  }

  /** Cutting the '|'-joined course and sections gives them back. */
  lemma CutAtBars(course: string, sections: seq<string>)
    requires course != [] && Bar !in course && |sections| >= 1
    requires forall k :: 0 <= k < |sections| ==> sections[k] != [] && Bar !in sections[k]
    ensures FieldsOn(course + [Bar] + Join(sections, [Bar]), Bar) == [course] + sections
  {
    var parts := [course] + sections;
    assert parts[1..] == sections;
    assert Join(parts, [Bar]) == course + [Bar] + Join(sections, [Bar]);
    forall k | 0 <= k < |parts|
      ensures parts[k] != [] && Bar !in parts[k]
    {
      if k > 0 {
        assert parts[k] == sections[k - 1];
      }
    }
    FieldsOnOfJoin(parts, Bar);
  }

  /** A line without ':' and ',' that is one piece (one word, say) is invalid. */
  lemma OnePieceInvalid(line: string)
    requires line != [] && ':' !in line && ',' !in line && Bar !in line
    ensures ParseLine(line).None?
  {
    assert CourseSep[0] == ':' && SectionSep[0] == ',';
    ReplaceAllAbsent(line, CourseSep, [Bar]);
    ReplaceAllAbsent(line, SectionSep, [Bar]);
    SplitWithoutSep(line, Bar);
    NonEmptyKeepsAll([line]);
  }

  // ----- the file -----

  const DownloadFailedText: string := "⚠️ Failed to download the file\\. Please try again later\\."

  function InvalidLineText(line: string): string {
    "⚠️ Invalid line format\\: " + line
  }

  function SubscribeFailedText(course: string): string {
    "⚠️ Failed to subscribe to " + course + "\\. Please try again\\."
  }

  function SubscribedText(line: string): string {
    "✅ Successfully subscribed to " + line + "\n"
  }

  /** The fault of the transaction of line `index`; lines not listed do not fail. */
  function FaultAt(faults: map<nat, Fault>, index: nat): Fault {
    if index in faults then faults[index] else NoFault
  }

  /**
   * The message the upload handler adds for line `index`. `check` stands
   * for the course repository's `CheckForValidness`: None when the course
   * and every section exist, otherwise the offending section.
   */
  function LineMessage(chatID: int, line: string, index: nat, check: (string, seq<string>) -> Option<string>,
                       faults: map<nat, Fault>, escape: string -> string): Message
  {
    match ParseLine(line)
    case None => Text(chatID, InvalidLineText(line), ParseMode, None)
    case Some((course, sections)) =>
      match check(course, sections)
      case Some(section) => Text(chatID, NotFoundCourseSectionText(escape, course, section), ParseMode, None)
      case None =>
        if Aborts(FaultAt(faults, index), |sections|) then Text(chatID, SubscribeFailedText(course), ParseMode, None)
        else Text(chatID, SubscribedText(line), ParseMode, None)
  }

  /** The subscriptions table after line `index`: its sections are subscribed when it parses, checks and commits. */
  function LineTable(t: Table, userID: int, line: string, index: nat, check: (string, seq<string>) -> Option<string>,
                     faults: map<nat, Fault>, now: int): Table
  {
    match ParseLine(line)
    case None => t
    case Some((course, sections)) =>
      if check(course, sections).None? && !Aborts(FaultAt(faults, index), |sections|)
      then Subscribed(t, userID, course, sections, now)
      else t
  }

  /** The messages for the lines, one per line, in order. */
  function FileMessages(chatID: int, lines: seq<string>, check: (string, seq<string>) -> Option<string>,
                        faults: map<nat, Fault>, escape: string -> string): (r: seq<Message>)
    ensures |r| == |lines|
  {
    if lines == [] then []
    else
      var n := |lines| - 1;
      FileMessages(chatID, lines[..n], check, faults, escape) + [LineMessage(chatID, lines[n], n, check, faults, escape)]
  }

  /** The table after the lines, in order. */
  function FileTable(t: Table, userID: int, lines: seq<string>, check: (string, seq<string>) -> Option<string>,
                     faults: map<nat, Fault>, now: int): Table
  {
    if lines == [] then t
    else
      var n := |lines| - 1;
      LineTable(FileTable(t, userID, lines[..n], check, faults, now), userID, lines[n], n, check, faults, now)
  }

  /** Every line is answered with exactly one message, the one for that line. */
  lemma {:induction false} OneMessagePerLine(chatID: int, lines: seq<string>, check: (string, seq<string>) -> Option<string>,
                                              faults: map<nat, Fault>, escape: string -> string, i: nat)
    requires i < |lines|
    ensures FileMessages(chatID, lines, check, faults, escape)[i] == LineMessage(chatID, lines[i], i, check, faults, escape)
  {
    var n := |lines| - 1;
    if i < n {
      OneMessagePerLine(chatID, lines[..n], check, faults, escape, i);
    }
  }

  /** An upload subscribes only its sender: every other user's rows are kept as they were. */
  lemma {:induction false} OthersUntouched(t: Table, userID: int, lines: seq<string>, check: (string, seq<string>) -> Option<string>,
                                            faults: map<nat, Fault>, now: int, k: SubKey)
    requires k.telegramID != userID
    ensures var t' := FileTable(t, userID, lines, check, faults, now);
      (k in t' <==> k in t) && (k in t ==> t'[k] == t[k])
  {
    if lines != [] {
      var n := |lines| - 1;
      var before := FileTable(t, userID, lines[..n], check, faults, now);
      OthersUntouched(t, userID, lines[..n], check, faults, now, k);
      match ParseLine(lines[n])
      case None =>
      case Some((course, sections)) =>
        SubscribedRows(before, userID, course, sections, now);
    }
  }

  /**
   * A line in the export's own format whose course and sections exist and
   * whose transaction commits subscribes exactly those sections and is
   * answered with the success message.
   */
  lemma ExportLineSubscribes(t: Table, userID: int, chatID: int, course: string, sections: seq<string>, index: nat,
                             check: (string, seq<string>) -> Option<string>, faults: map<nat, Fault>, now: int,
                             escape: string -> string)
    requires course != [] && ':' !in course && ',' !in course && Bar !in course
    requires |sections| >= 1
    requires forall k :: 0 <= k < |sections| ==>
      sections[k] != [] && ':' !in sections[k] && ',' !in sections[k] && Bar !in sections[k]
    requires check(course, sections).None? && !Aborts(FaultAt(faults, index), |sections|)
    ensures var line := course + CourseSep + Join(sections, SectionSep);
      && LineTable(t, userID, line, index, check, faults, now) == Subscribed(t, userID, course, sections, now)
      && LineMessage(chatID, line, index, check, faults, escape) == Text(chatID, SubscribedText(line), ParseMode, None)
  {
    ParseLineRoundTrip(course, sections);
  }
}
