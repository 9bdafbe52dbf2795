/**
 * The callback data of inline buttons as `HandleCallback`
 * (handlers/handlers.go) reads it: commands separated by ';', each a
 * name and its arguments separated by '_'. "delete" deletes the message
 * the button hangs under; "unsubscribe" with one argument unsubscribes a
 * course, with two a section of it; anything else is skipped.
 */
module Callback {
  import opened Wrappers
  import opened Strings
  import opened Response
  import opened Subscriptions

  /** What one command of callback data asks for. */
  datatype Action =
    | DeleteMessage
    | UnsubscribeCourse(course: string)
    | UnsubscribeSection(course: string, section: string)

  /** The action of one command, or None when it is skipped. */
  function CommandAction(cmd: string): Option<Action> {
    var args := Split(cmd, '_');
    if args[0] == "delete" then Some(DeleteMessage)
    else if args[0] == "unsubscribe" then
      if |args| == 2 then Some(UnsubscribeCourse(args[1]))
      else if |args| == 3 then Some(UnsubscribeSection(args[1], args[2]))
      else None
    else None
  }

  /** The actions of a list of commands, in order. */
  function ActionsOf(cmds: seq<string>): (r: seq<Action>)
    ensures |r| <= |cmds|
  {
    if cmds == [] then []
    else
      var n := |cmds| - 1;
      ActionsOf(cmds[..n]) + match CommandAction(cmds[n]) case Some(a) => [a] case None => []
  }

  /** The actions that callback data asks for. */
  function Actions(data: string): seq<Action> {
    ActionsOf(Split(data, ';'))
  }

  /** The deletions of the callback's message, one per "delete" action. */
  function Deletions(chatID: int, messageID: int, actions: seq<Action>): (r: seq<Message>)
    ensures |r| <= |actions|
    ensures forall k :: 0 <= k < |r| ==> r[k] == Delete(chatID, messageID)
  {
    if actions == [] then []
    else
      var n := |actions| - 1;
      Deletions(chatID, messageID, actions[..n]) + if actions[n].DeleteMessage? then [Delete(chatID, messageID)] else []
  }

  /**
   * The subscriptions table after the course unsubscriptions of the
   * actions, in order; one whose course is in `fails` fails and changes
   * nothing.
   */
  function AfterUnsubscribing(t: Table, userID: int, actions: seq<Action>, fails: set<string>): Table {
    if actions == [] then t
    else
      var n := |actions| - 1;
      var before := AfterUnsubscribing(t, userID, actions[..n], fails);
      if actions[n].UnsubscribeCourse? && actions[n].course !in fails
      then Unsubscribed(before, userID, actions[n].course)
      else before
  }

  /** The (course, section) pairs of the section unsubscriptions, in order. */
  function SectionRequests(actions: seq<Action>): (r: seq<(string, string)>)
    ensures |r| <= |actions|
  {
    if actions == [] then []
    else
      var n := |actions| - 1;
      SectionRequests(actions[..n])
        + if actions[n].UnsubscribeSection? then [(actions[n].course, actions[n].section)] else []
  }

  // ----- properties -----

  /**
   * A course unsubscription gives back exactly the argument it was written
   * with: the command is "unsubscribe_" and the course, which holds no '_'.
   */
  lemma CourseCommandInverse(cmd: string, course: string)
    requires CommandAction(cmd) == Some(UnsubscribeCourse(course))
    ensures cmd == "unsubscribe_" + course && '_' !in course
  {
    var args := Split(cmd, '_');
    assert args[0] == "unsubscribe" && args[1] == course;
    assert '_' !in args[1];
    JoinOfSplit(cmd, '_');
    JoinTwo(args, "_");
    var name := "unsubscribe" + "_";
    assert name == "unsubscribe_";
    assert cmd == name + course;
  }

  /**
   * A section unsubscription gives back exactly the arguments it was
   * written with, joined with '_' after "unsubscribe_"; neither holds a '_'.
   */
  lemma SectionCommandInverse(cmd: string, course: string, section: string)
    requires CommandAction(cmd) == Some(UnsubscribeSection(course, section))
    ensures cmd == "unsubscribe_" + course + "_" + section && '_' !in course && '_' !in section
  {
    var args := Split(cmd, '_');
    assert args[0] == "unsubscribe" && args[1] == course && args[2] == section;
    assert '_' !in args[1] && '_' !in args[2];
    JoinOfSplit(cmd, '_');
    JoinThree(args, "_");
    var name := "unsubscribe" + "_";
    assert name == "unsubscribe_";
    assert cmd == name + course + "_" + section;
  }

  /** The command names hold neither separator. */
  lemma NamesHaveNoSeparator()
    ensures ';' !in "delete" && '_' !in "delete"
    ensures ';' !in "unsubscribe" && '_' !in "unsubscribe"
  {
    assert "delete" == ['d', 'e', 'l', 'e', 't', 'e'];
    assert "unsubscribe" == ['u', 'n', 's', 'u', 'b', 's', 'c', 'r', 'i', 'b', 'e'];
  }

  /** "unsubscribe_" and a course without '_' is that course's unsubscription. */
  lemma CourseCommand(course: string)
    requires '_' !in course
    ensures CommandAction("unsubscribe_" + course) == Some(UnsubscribeCourse(course))
  {
    NamesHaveNoSeparator();
    assert "unsubscribe_" + course == "unsubscribe" + ['_'] + course;
    SplitTwo("unsubscribe", course, '_');
  }

  /** "unsubscribe_", a course, '_' and a section, neither with '_', is that section's unsubscription. */
  lemma SectionCommand(course: string, section: string)
    requires '_' !in course && '_' !in section
    ensures CommandAction("unsubscribe_" + course + "_" + section) == Some(UnsubscribeSection(course, section))
  {
    NamesHaveNoSeparator();
    assert "unsubscribe_" + course + "_" + section == "unsubscribe" + ['_'] + course + ['_'] + section;
    SplitThree("unsubscribe", course, section, '_');
  }

  /** "delete" deletes. */
  lemma DeleteCommand()
    ensures CommandAction("delete") == Some(DeleteMessage)
  {
    NamesHaveNoSeparator();
    SplitWithoutSep("delete", '_');
  }

  /** A command without ';' followed by ";delete" is two commands. */
  lemma ThenDelete(cmd: string)
    requires ';' !in cmd
    ensures Split(cmd + ";delete", ';') == [cmd, "delete"]
  {
    var tail := [';'] + "delete";
    assert ";delete" == tail;
    assert cmd + tail == cmd + [';'] + "delete";
    NamesHaveNoSeparator();
    SplitTwo(cmd, "delete", ';');
  }

  /** The actions of two understood commands are theirs, in order. */
  lemma ActionsOfTwo(a: string, b: string)
    requires CommandAction(a).Some? && CommandAction(b).Some?
    ensures ActionsOf([a, b]) == [CommandAction(a).value, CommandAction(b).value]
  {
    assert [a, b][..1] == [a] && [a][..0] == [];
  }

  /** The actions of one more command are those of the earlier commands followed by its own. */
  lemma ActionsStep(cmds: seq<string>, i: nat)
    requires i < |cmds|
    ensures ActionsOf(cmds[..i + 1])
      == ActionsOf(cmds[..i]) + match CommandAction(cmds[i]) case Some(a) => [a] case None => []
  {
    assert cmds[..i + 1][..i] == cmds[..i];
  }

  /** The effects of one more action follow those of the earlier ones. */
  lemma EffectsStep(chatID: int, messageID: int, t: Table, userID: int, actions: seq<Action>, a: Action, fails: set<string>)
    ensures Deletions(chatID, messageID, actions + [a])
      == Deletions(chatID, messageID, actions) + if a.DeleteMessage? then [Delete(chatID, messageID)] else []
    ensures AfterUnsubscribing(t, userID, actions + [a], fails)
      == if a.UnsubscribeCourse? && a.course !in fails
         then Unsubscribed(AfterUnsubscribing(t, userID, actions, fails), userID, a.course)
         else AfterUnsubscribing(t, userID, actions, fails)
    ensures SectionRequests(actions + [a])
      == SectionRequests(actions) + if a.UnsubscribeSection? then [(a.course, a.section)] else []
  {
    assert (actions + [a])[..|actions|] == actions;
  }

  /** The "Ignore" button only deletes the message. */
  lemma IgnoreDataRoundTrip()
    ensures Actions(IgnoreData) == [DeleteMessage]
  {
    SplitWithoutSep(IgnoreData, ';');
    SplitWithoutSep(IgnoreData, '_');
    assert [IgnoreData][..0] == [];
  }

  /**
   * The "Unsubscribe" button of a course whose name holds neither '_' nor
   * ';' unsubscribes exactly that course, then deletes the message.
   */
  lemma CourseDataRoundTrip(course: string)
    requires '_' !in course && ';' !in course
    ensures Actions(UnsubscribeCourseData(course)) == [UnsubscribeCourse(course), DeleteMessage]
  {
    var cmd := "unsubscribe_" + course;
    assert ';' !in cmd by {
      assert ';' !in "unsubscribe_";
    }
    ThenDelete(cmd);
    CourseCommand(course);
    DeleteCommand();
    ActionsOfTwo(cmd, "delete");
  }

  /**
   * The "Unsubscribe" button of a section, when neither name holds '_' or
   * ';', asks to unsubscribe exactly that section, then deletes the message.
   */
  lemma SectionDataRoundTrip(course: string, section: string)
    requires '_' !in course && ';' !in course && '_' !in section && ';' !in section
    ensures Actions(UnsubscribeSectionData(course, section)) == [UnsubscribeSection(course, section), DeleteMessage]
  {
    var cmd := "unsubscribe_" + course + "_" + section;
    assert ';' !in cmd by {
      assert ';' !in "unsubscribe_" && ';' !in "_";
    }
    ThenDelete(cmd);
    SectionCommand(course, section);
    DeleteCommand();
    ActionsOfTwo(cmd, "delete");
  }

  /** Course unsubscriptions of a callback touch only the pressing user's rows. */
  lemma {:induction false} OthersUntouched(t: Table, userID: int, actions: seq<Action>, fails: set<string>, k: SubKey)
    requires k.telegramID != userID
    ensures var t' := AfterUnsubscribing(t, userID, actions, fails);
      (k in t' <==> k in t) && (k in t ==> t'[k] == t[k])
  {
    if actions != [] {
      OthersUntouched(t, userID, actions[..|actions| - 1], fails, k);
    }
  }
}
