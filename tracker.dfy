/**
 * One tick of the subscription tracker (service/tracker.go): every stored
 * subscription is compared with the current course snapshot; a change is
 * announced to the subscriber and, for a change of fullness, the stored
 * flag is rewritten. The outbound channel is the returned message list.
 */
module Tracker {
  import opened Wrappers
  import opened Strings
  import opened CourseTypes
  import opened Response
  import CR = CoursesRepository
  import opened Subscriptions

  /** What the comparison of one subscription with the snapshot finds. */
  datatype Verdict =
    | CourseGone
    | SectionGone
    | NowFree(size: int, cap: int)
    | NowFull(size: int, cap: int)
    | Steady

  /**
   * The subscribed section exists and the stored flag equals its
   * fullness (size >= cap).
   */
  predicate Agrees(sub: CourseSubscription, courses: map<string, Course>) {
    sub.course in courses &&
    match CR.FindSection(courses[sub.course].sections, sub.section)
    case None => false
    case Some(sect) => sub.isFull == (sect.size >= sect.cap)
  }

  /**
   * The course is looked up first, then the first section with the
   * subscribed name; a found section is compared with the stored flag.
   * Nothing is to be said exactly when the two agree.
   */
  function Judge(sub: CourseSubscription, courses: map<string, Course>): (v: Verdict)
    ensures v.CourseGone? <==> sub.course !in courses
    ensures v.SectionGone? <==> sub.course in courses && CR.FindSection(courses[sub.course].sections, sub.section).None?
    ensures v.Steady? <==> Agrees(sub, courses)
    ensures v.NowFree? ==> sub.isFull && v.size < v.cap
    ensures v.NowFull? ==> !sub.isFull && v.size >= v.cap
    ensures v.NowFree? || v.NowFull? ==>
      && sub.course in courses && CR.FindSection(courses[sub.course].sections, sub.section).Some?
      && v.size == CR.FindSection(courses[sub.course].sections, sub.section).value.size
      && v.cap == CR.FindSection(courses[sub.course].sections, sub.section).value.cap
  {
    if sub.course !in courses then CourseGone
    else match CR.FindSection(courses[sub.course].sections, sub.section)
      case None => SectionGone
      case Some(sect) => Compared(sub, sect)
  }

  /** The comparison of the stored flag with a found section. */
  function Compared(sub: CourseSubscription, sect: Section): Verdict {
    if sub.isFull && sect.size < sect.cap then NowFree(sect.size, sect.cap)
    else if !sub.isFull && sect.size >= sect.cap then NowFull(sect.size, sect.cap)
    else Steady
  }

  // ----- the messages -----

  function GoneText(sub: CourseSubscription): string {
    sub.course + " " + sub.section + " is not existent anymore"
  }

  function FreeText(sub: CourseSubscription, size: int, cap: int): string {
    "🔆 " + sub.course + " " + sub.section + " now has free places \\(" + IntToString(size) + "/" + IntToString(cap) + "\\)"
  }

  function FullText(sub: CourseSubscription, size: int, cap: int): string {
    "🚫 " + sub.course + " " + sub.section + " is full \\(" + IntToString(size) + "/" + IntToString(cap) + "\\)"
  }

  /** `immediateMessage`: a MarkdownV2 text message without keyboard. */
  function ImmediateMessage(chatID: int, text: string): Message {
    Text(chatID, text, ModeMarkdownV2, None)
  }

  /**
   * The messages sent for one verdict: a vanished course or section is
   * reported in HTML with "Ignore" / "Unsubscribe" buttons, a change of
   * fullness in MarkdownV2; a steady subscription is not mentioned. Every
   * message goes to the subscriber.
   */
  function Notice(sub: CourseSubscription, v: Verdict): (r: seq<Message>)
    ensures |r| == if v.Steady? then 0 else 1
    ensures |r| == 1 ==> r[0].Text? && r[0].chatID == sub.telegramID
    ensures |r| == 1 ==> (r[0].replyMarkup.Some? <==> v.CourseGone? || v.SectionGone?)
  {
    match v
    case CourseGone =>
      [Text(sub.telegramID, GoneText(sub), ParseMode, Some(IgnoreOrUnsubscribe(UnsubscribeCourseData(sub.course))))]
    case SectionGone =>
      [Text(sub.telegramID, GoneText(sub), ParseMode,
            Some(IgnoreOrUnsubscribe(UnsubscribeSectionData(sub.course, sub.section))))]
    case NowFree(size, cap) => [ImmediateMessage(sub.telegramID, FreeText(sub, size, cap))]
    case NowFull(size, cap) => [ImmediateMessage(sub.telegramID, FullText(sub, size, cap))]
    case Steady => []
  }

  /** The flag written back for a verdict, if any. */
  function NewFlag(v: Verdict): Option<bool> {
    match v
    case NowFree(_, _) => Some(false)
    case NowFull(_, _) => Some(true)
    case _ => None
  }

  /**
   * The table after the write-back for one subscription: only a change of
   * fullness writes, and a failing `Update` (its key in `updateFails`)
   * writes nothing.
   */
  function WriteBack(t: Table, sub: CourseSubscription, v: Verdict, now: int, updateFails: set<SubKey>): Table {
    match NewFlag(v)
    case None => t
    case Some(f) =>
      if KeyOf(sub) in updateFails || KeyOf(sub) !in t then t
      else t[KeyOf(sub) := t[KeyOf(sub)].(updatedAt := Some(now), isFull := f)]
  }

  /** The messages of a tick over `subs`, in their order. */
  function Notices(subs: seq<CourseSubscription>, courses: map<string, Course>): (r: seq<Message>)
    ensures |r| <= |subs|
  {
    if subs == [] then []
    else Notices(subs[..|subs| - 1], courses) + Notice(subs[|subs| - 1], Judge(subs[|subs| - 1], courses))
  }

  /** The table after the write-backs of a tick over `subs`. */
  function Written(t: Table, subs: seq<CourseSubscription>, courses: map<string, Course>, now: int,
                   updateFails: set<SubKey>): (r: Table)
    ensures r.Keys == t.Keys
  {
    if subs == [] then t
    else
      var sub := subs[|subs| - 1];
      WriteBack(Written(t, subs[..|subs| - 1], courses, now, updateFails), sub, Judge(sub, courses), now, updateFails)
  }

  /**
   * One tick. `getAllFails` makes the subscription query fail, `feed` is
   * what the course refresh fetches, `now` the clock, and `updateFails`
   * the keys whose `Update` fails. Returns the subscriptions walked, in
   * the order the query produced them, and the messages sent.
   */
  method Tick(courseRepo: CR.CourseRepository, subRepo: SubscriptionRepository, getAllFails: bool,
              feed: Result<seq<CR.Row>, string>, now: int, updateFails: set<SubKey>)
    returns (subs: seq<CourseSubscription>, outbox: seq<Message>)
    requires feed.Ok? ==> |feed.value| > 0
    modifies courseRepo, subRepo
    ensures getAllFails ==> subs == [] && outbox == [] && unchanged(courseRepo) && unchanged(subRepo)
    ensures !getAllFails ==> forall i :: 0 <= i < |subs| ==> RowOf(old(subRepo.table), subs[i])
    ensures !getAllFails ==> forall k :: k in old(subRepo.table) ==> Selected(k, old(subRepo.table)[k]) in subs
    ensures DistinctKeys(subs)
    ensures !getAllFails && CR.Fetched(feed).None? ==> unchanged(courseRepo)
    ensures !getAllFails && CR.Fetched(feed).Some? ==> courseRepo.Holds(CR.Fetched(feed).value, now)
    ensures outbox == Notices(subs, courseRepo.courses)
    ensures subRepo.table == Written(old(subRepo.table), subs, courseRepo.courses, now, updateFails)
  {
    var err;
    subs, err := subRepo.GetAll(getAllFails);
    outbox := [];
    if err {
      return;
    }
    var _ := courseRepo.Parse(feed, now);
    label parsed:
    ghost var courses := courseRepo.courses;
    ghost var t0 := subRepo.table;
    for i := 0 to |subs|
      invariant unchanged@parsed(courseRepo)
      invariant CR.Fetched(feed).None? || courseRepo.lastTimeParsed == now
      invariant outbox == Notices(subs[..i], courses)
      invariant subRepo.table == Written(t0, subs[..i], courses, now, updateFails)
    {
      assert subs[..i + 1][..i] == subs[..i];
      var sent := Check(courseRepo, subRepo, subs[i], feed, now, updateFails);
      outbox := outbox + sent;
    }
    assert subs[..|subs|] == subs;
  }

  /**
   * The body of the tick's loop for one subscription: looks the course
   * and the section up in the snapshot, answers with the notice of the
   * verdict and writes the flag back. The snapshot is fresh or the last
   * refresh failed, so the lookups do not refresh it again.
   */
  method Check(courseRepo: CR.CourseRepository, subRepo: SubscriptionRepository, sub: CourseSubscription,
               feed: Result<seq<CR.Row>, string>, now: int, updateFails: set<SubKey>)
    returns (sent: seq<Message>)
    requires feed.Ok? ==> |feed.value| > 0
    requires CR.Fetched(feed).None? || courseRepo.lastTimeParsed == now
    modifies courseRepo, subRepo
    ensures unchanged(courseRepo)
    ensures sent == Notice(sub, Judge(sub, courseRepo.courses))
    ensures subRepo.table == WriteBack(old(subRepo.table), sub, Judge(sub, courseRepo.courses), now, updateFails)
  {
    var course := courseRepo.GetCourse(sub.course, feed, now);
    if course.None? {
      sent := Gone(sub, false);
      return;
    }
    var sect := courseRepo.GetSection(sub.course, sub.section, feed, now);
    if sect.None? {
      sent := Gone(sub, true);
      return;
    }
    sent := Compare(subRepo, sub, sect.value, now, updateFails);
  }

  /**
   * The "not existent anymore" message for a vanished course, or for a
   * vanished section, with the matching "Unsubscribe" button.
   */
  method Gone(sub: CourseSubscription, sectionGone: bool) returns (sent: seq<Message>)
    ensures sent == Notice(sub, if sectionGone then SectionGone else CourseGone)
  {
    var mf := new MessageFormatter(sub.telegramID);
    mf.AddString(GoneText(sub));
    if sectionGone {
      mf.UnsubscribeOrIgnoreSection(sub.course, sub.section);
    } else {
      mf.UnsubscribeOrIgnoreCourse(sub.course);
    }
    var ms := mf.Messages();
    sent := [ms[0]];
  }

  /**
   * A found section against the stored flag: a change of fullness is
   * announced first and written back afterwards.
   */
  method Compare(subRepo: SubscriptionRepository, sub: CourseSubscription, s: Section, now: int,
                 updateFails: set<SubKey>)
    returns (sent: seq<Message>)
    modifies subRepo
    ensures sent == Notice(sub, Compared(sub, s))
    ensures subRepo.table == WriteBack(old(subRepo.table), sub, Compared(sub, s), now, updateFails)
  {
    sent := [];
    if sub.isFull && s.size < s.cap {
      sent := [ImmediateMessage(sub.telegramID, FreeText(sub, s.size, s.cap))];
      var _ := subRepo.Update(sub.(isFull := false), now, KeyOf(sub) in updateFails);
    } else if !sub.isFull && s.size >= s.cap {
      sent := [ImmediateMessage(sub.telegramID, FullText(sub, s.size, s.cap))];
      var _ := subRepo.Update(sub.(isFull := true), now, KeyOf(sub) in updateFails);
    }
  }

  // ----- properties of a tick -----

  /**
   * A tick over subscriptions that all agree with the snapshot sends
   * nothing and writes nothing.
   */
  lemma {:induction false} SteadyTickQuiet(t: Table, subs: seq<CourseSubscription>, courses: map<string, Course>,
                                           now: int, updateFails: set<SubKey>)
    requires forall i :: 0 <= i < |subs| ==> Judge(subs[i], courses).Steady?
    ensures Notices(subs, courses) == []
    ensures Written(t, subs, courses, now, updateFails) == t
  {
    if subs != [] {
      SteadyTickQuiet(t, subs[..|subs| - 1], courses, now, updateFails);
    }
  }

  /**
   * The write-back a tick leaves on the row of the i-th subscription is
   * that subscription's own (the keys are distinct, so no other one
   * touches the row).
   */
  lemma {:induction false} WrittenAt(t: Table, subs: seq<CourseSubscription>, courses: map<string, Course>,
                                     now: int, updateFails: set<SubKey>, i: int)
    requires DistinctKeys(subs) && 0 <= i < |subs| && KeyOf(subs[i]) in t
    ensures var k := KeyOf(subs[i]);
      Written(t, subs, courses, now, updateFails)[k] == WriteBack(t, subs[i], Judge(subs[i], courses), now, updateFails)[k]
  {
    var n := |subs| - 1;
    var k := KeyOf(subs[i]);
    if i < n {
      assert DistinctKeys(subs[..n]) by {
        assert forall p :: 0 <= p < n ==> subs[..n][p] == subs[p];
      }
      assert subs[..n][i] == subs[i];
      WrittenAt(t, subs[..n], courses, now, updateFails, i);
      assert KeyOf(subs[n]) != k;
    } else {
      WrittenUntouched(t, subs[..n], courses, now, updateFails, k);
    }
  }

  /** A row whose key none of the subscriptions carries is left alone. */
  lemma {:induction false} WrittenUntouched(t: Table, subs: seq<CourseSubscription>, courses: map<string, Course>,
                                            now: int, updateFails: set<SubKey>, k: SubKey)
    requires k in t && forall i :: 0 <= i < |subs| ==> KeyOf(subs[i]) != k
    ensures Written(t, subs, courses, now, updateFails)[k] == t[k]
  {
    if subs != [] {
      var n := |subs| - 1;
      assert forall i :: 0 <= i < n ==> subs[..n][i] == subs[i];
      WrittenUntouched(t, subs[..n], courses, now, updateFails, k);
    }
  }

  /**
   * A change of fullness is announced once: when the tick walked every
   * row of the table and no `Update` failed, every row afterwards agrees
   * with the snapshot (or its course or section is gone), so the next
   * tick over the same snapshot announces no change of fullness.
   */
  lemma ReportedOnce(t: Table, subs: seq<CourseSubscription>, courses: map<string, Course>, now: int,
                     updateFails: set<SubKey>)
    requires DistinctKeys(subs)
    requires forall i :: 0 <= i < |subs| ==> RowOf(t, subs[i]) && KeyOf(subs[i]) !in updateFails
    requires forall k :: k in t ==> Selected(k, t[k]) in subs
    ensures var t' := Written(t, subs, courses, now, updateFails);
      forall k :: k in t' ==> var v := Judge(Selected(k, t'[k]), courses); !v.NowFree? && !v.NowFull?
  {
    var t' := Written(t, subs, courses, now, updateFails);
    forall k | k in t'
      ensures var v := Judge(Selected(k, t'[k]), courses); !v.NowFree? && !v.NowFull?
    {
      var i :| 0 <= i < |subs| && subs[i] == Selected(k, t[k]);
      assert KeyOf(subs[i]) == k;
      WrittenAt(t, subs, courses, now, updateFails, i);
    }
  }

  /**
   * A failing `Update` leaves the stored flag as it was, so the next tick
   * over the same snapshot reaches the same verdict and sends the same
   * message again.
   */
  lemma ReportedAgainAfterFailedUpdate(t: Table, subs: seq<CourseSubscription>, courses: map<string, Course>,
                                       now: int, updateFails: set<SubKey>, i: int)
    requires DistinctKeys(subs) && 0 <= i < |subs| && RowOf(t, subs[i]) && KeyOf(subs[i]) in updateFails
    ensures var k := KeyOf(subs[i]); var t' := Written(t, subs, courses, now, updateFails);
      k in t' && Judge(Selected(k, t'[k]), courses) == Judge(subs[i], courses)
  {
    WrittenAt(t, subs, courses, now, updateFails, i);
    var k := KeyOf(subs[i]);
    assert Selected(k, Written(t, subs, courses, now, updateFails)[k]) == subs[i];
  }

  /**
   * A vanished course or section is reported on every tick and never
   * written: the row stays as it was, so the verdict stays the same.
   */
  lemma GoneNeverWritten(t: Table, subs: seq<CourseSubscription>, courses: map<string, Course>,
                         now: int, updateFails: set<SubKey>, i: int)
    requires DistinctKeys(subs) && 0 <= i < |subs| && RowOf(t, subs[i])
    requires Judge(subs[i], courses).CourseGone? || Judge(subs[i], courses).SectionGone?
    ensures var k := KeyOf(subs[i]); Written(t, subs, courses, now, updateFails)[k] == t[k]
    ensures |Notice(subs[i], Judge(subs[i], courses))| == 1
  {
    WrittenAt(t, subs, courses, now, updateFails, i);
  }

  /**
   * A subscription row is created with is_full FALSE, so subscribing to a
   * section that is already full makes the next tick report "is full".
   */
  lemma FreshSubscriptionToFullSection(t: Table, telegramID: int, course: string, sections: seq<string>, now: int,
                                       courses: map<string, Course>, s: string, sect: Section)
    requires s in sections && course in courses
    requires CR.FindSection(courses[course].sections, s) == Some(sect) && sect.size >= sect.cap
    ensures var t' := Subscribed(t, telegramID, course, sections, now); var k := SubKey(telegramID, course, s);
      k in t' && Judge(Selected(k, t'[k]), courses) == NowFull(sect.size, sect.cap)
  {
    SubscribedRows(t, telegramID, course, sections, now);
  }
}
