/**
 * The message handler (handlers/handlers.go): routes each update to a
 * sub-handler and keeps the one-shot conversational state of every chat.
 * A command such as /subscribe stores the state "subscribe", and the next
 * plain message is read as the command's argument and clears the state
 * again. Which sub-handler answers is returned as a `Route`; the texts
 * and the work of the routed sub-handlers are not part of this model.
 */
module Handlers {
  import opened Wrappers
  import opened Strings
  import opened Response
  import opened Subscriptions
  import opened Middlewares
  import SR = StateRepository
  import ST = StatisticsRepository
  import C = Callback
  import N = CrashedNU

  /** The commands the bot knows (`knownCommands`). */
  const KnownCommands: seq<string> := ["start", "subscribe", "unsubscribe", "list", "donate", "faq", "parsestat", "nextupdatetime"]

  /** The counter every update bumps. */
  const TotalRequests: string := "Total_Request_Number"

  /** Which answer a handler gives. */
  datatype Route =
    | UnknownCommand(command: string)   // "❌ Unknown command …"
    | Welcome                           // the welcome text (`HandleCommandStart`)
    | ListSubscriptions
    | Donate
    | Faq
    | NextUpdateTime
    | ParseStat                         // the statistics flush, meant for admins but open to all
    | AskCourseAndSections              // the prompt after /subscribe
    | AskCourse                         // the prompt after /unsubscribe
    | StateNotRead                      // "⚠️ Failed to retrieve your state …"
    | StateNotCleared                   // "⚠️ Failed to clear your state …"
    | CourseCode                        // `HandleCourseCode`: the text is a course to look up
    | Subscribe                         // `HandleSubscribe`: the text is /subscribe's argument
    | Unsubscribe                       // `HandleUnsubscribe`: the text is /unsubscribe's argument
    | UnknownState                      // `HandleCommandUnknown`
    | Silent                            // nothing at all (`AuthAdmin`'s guard)

  // ----- the state machine -----

  /** The states a chat can be left in by the handlers. */
  predicate Reachable(state: string) {
    state == "" || state == "subscribe" || state == "unsubscribe"
  }

  predicate AllReachable(states: map<int, string>) {
    forall id :: id in states ==> Reachable(states[id])
  }

  /** How `HandleCommand` answers a command. */
  function CommandRoute(command: string): Route {
    if command !in KnownCommands then UnknownCommand(command)
    else if command == "start" then Welcome
    else if command == "list" then ListSubscriptions
    else if command == "donate" then Donate
    else if command == "faq" then Faq
    else if command == "nextupdatetime" then NextUpdateTime
    else if command == "parsestat" then ParseStat
    else if command == "subscribe" then AskCourseAndSections
    else if command == "unsubscribe" then AskCourse
    else UnknownState
  }

  /**
   * The state table after `HandleCommand`: an unknown command leaves it
   * alone; a known one clears the chat's state, and /subscribe and
   * /unsubscribe then store their own name. Either write may fail, and
   * then it changes nothing.
   */
  function CommandStates(states: map<int, string>, id: int, command: string, clearFails: bool, setFails: bool)
    : map<int, string>
  {
    if command !in KnownCommands then states
    else
      var cleared := if clearFails then states else states[id := ""];
      if (command == "subscribe" || command == "unsubscribe") && !setFails then cleared[id := command] else cleared
  }

  /** How `HandleMessage` answers a plain message, given the state read. */
  function MessageRoute(state: string): Route {
    if state == "" then CourseCode
    else if state == "start" then Welcome
    else if state == "subscribe" then Subscribe
    else if state == "unsubscribe" then Unsubscribe
    else if state == "list" then ListSubscriptions
    else UnknownState
  }

  /** The state table after `HandleMessage`: the chat's state is cleared once it was read. */
  function MessageStates(states: map<int, string>, id: int, getFails: bool, clearFails: bool): map<int, string> {
    if getFails || clearFails then states else states[id := ""]
  }

  /** The answer of `HandleMessage`. */
  function MessageAnswer(states: map<int, string>, id: int, getFails: bool, clearFails: bool): Route {
    if getFails then StateNotRead
    else if clearFails then StateNotCleared
    else MessageRoute(SR.StateOf(states, id))
  }

  // ----- properties of the state machine -----

  /** Every known command has an answer of its own: `HandleCommand`'s last fallback is dead. */
  lemma KnownCommandsAnswered(command: string)
    ensures CommandRoute(command) != UnknownState
    ensures CommandRoute(command).UnknownCommand? <==> command !in KnownCommands
  {
  }

  /**
   * What a command leaves in the chat's state: nothing changes for an
   * unknown command; otherwise "subscribe" or "unsubscribe" after those two
   * commands and "" after the others, as far as the writes succeed. Other
   * chats keep their state.
   */
  lemma CommandSetsState(states: map<int, string>, id: int, command: string, clearFails: bool, setFails: bool, other: int)
    ensures var after := SR.StateOf(CommandStates(states, id, command, clearFails, setFails), id);
      && (command !in KnownCommands ==> after == SR.StateOf(states, id))
      && (command in KnownCommands && (command == "subscribe" || command == "unsubscribe") && !setFails ==> after == command)
      && (command in KnownCommands && command != "subscribe" && command != "unsubscribe" && !clearFails ==> after == "")
    ensures other != id ==>
      SR.StateOf(CommandStates(states, id, command, clearFails, setFails), other) == SR.StateOf(states, other)
  {
  }

  /** The handlers only ever store "", "subscribe" or "unsubscribe". */
  lemma ReachableKept(states: map<int, string>, id: int, command: string, clearFails: bool, setFails: bool, getFails: bool)
    requires AllReachable(states)
    ensures AllReachable(CommandStates(states, id, command, clearFails, setFails))
    ensures AllReachable(MessageStates(states, id, getFails, clearFails))
  {
    var after := CommandStates(states, id, command, clearFails, setFails);
    forall i | i in after
      ensures Reachable(after[i])
    {
      if i != id {
        assert after[i] == states[i];
      }
    }
  }

  /**
   * In a state table the handlers produced, a plain message goes to the
   * course lookup, /subscribe's or /unsubscribe's argument handler, or an
   * error answer: the "start", "list" and unknown-state cases of
   * `HandleMessage` are dead.
   */
  lemma MessageRouteOfReachable(states: map<int, string>, id: int, getFails: bool, clearFails: bool)
    requires AllReachable(states)
    ensures var r := MessageAnswer(states, id, getFails, clearFails);
      r == CourseCode || r == Subscribe || r == Unsubscribe || r == StateNotRead || r == StateNotCleared
  {
  }

  /**
   * The one-shot protocol: after /subscribe (or /unsubscribe) the next
   * message is its argument, and the message after that is a course
   * lookup again, when no write fails.
   */
  lemma OneShot(states: map<int, string>, id: int, command: string)
    requires command == "subscribe" || command == "unsubscribe"
    ensures var s1 := CommandStates(states, id, command, false, false);
      && MessageAnswer(s1, id, false, false) == (if command == "subscribe" then Subscribe else Unsubscribe)
      && MessageAnswer(MessageStates(s1, id, false, false), id, false, false) == CourseCode
  {
    var s1 := CommandStates(states, id, command, false, false);
    assert SR.StateOf(s1, id) == command;
  }

  /**
   * A failed clear after reading the state leaves the state in place, so
   * the next message is routed the same way again.
   */
  lemma FailedClearRepeats(states: map<int, string>, id: int)
    ensures MessageStates(states, id, false, true) == states
    ensures MessageAnswer(MessageStates(states, id, false, true), id, false, false)
         == MessageRoute(SR.StateOf(states, id))
  {
  }

  // ----- updates -----

  /** An incoming update: a button press, a message (a command when `command` is given), or anything else. */
  datatype Incoming =
    | CallbackQuery(fromID: int, messageID: int, data: string)
    | MessageUpdate(fromID: int, command: Option<string>)
    | Other

  /** How a message is answered: as a command when it is one, otherwise by the chat's state. */
  function MessageUpdateRoute(states: map<int, string>, id: int, command: Option<string>, getFails: bool, clearFails: bool)
    : Route
  {
    if command.Some? then CommandRoute(command.value) else MessageAnswer(states, id, getFails, clearFails)
  }

  /** The state table after a message. */
  function MessageUpdateStates(states: map<int, string>, id: int, command: Option<string>,
                               getFails: bool, clearFails: bool, setFails: bool): map<int, string>
  {
    if command.Some? then CommandStates(states, id, command.value, clearFails, setFails)
    else MessageStates(states, id, getFails, clearFails)
  }

  /** The counters after a message: a known command is counted under "command" and its name. */
  function CommandCounted(stats: map<string, int>, command: Option<string>): map<string, int> {
    if command.Some? && command.value in KnownCommands then ST.Bumped(stats, "command" + command.value) else stats
  }

  /** What `HandleUpdate` answers. */
  datatype Reply =
    | Sent(messages: seq<Message>, sectionRequests: seq<(string, string)>)
    | Routed(route: Route)
    | NoReply

  /** A button press is answered with the deletions and section requests of its data, after unsubscribing its courses. */
  predicate CallbackAnswered(reply: Reply, table: Table, table0: Table, fromID: int, messageID: int, data: string,
                             unsubscribeFails: set<string>)
  {
    var actions := C.Actions(data);
    && reply == Sent(C.Deletions(fromID, messageID, actions), C.SectionRequests(actions))
    && table == C.AfterUnsubscribing(table0, fromID, actions, unsubscribeFails)
  }

  class MessageHandler {
    const stateRepo: SR.StateRepository
    const statsRepo: ST.StatisticsRepository
    const subRepo: SubscriptionRepository
    const private: bool
    const adminID: seq<int>

    /** `NewMessageHandler`. */
    constructor (stateRepo: SR.StateRepository, statsRepo: ST.StatisticsRepository, subRepo: SubscriptionRepository,
                 private: bool, adminID: seq<int>)
      ensures this.stateRepo == stateRepo && this.statsRepo == statsRepo && this.subRepo == subRepo
      ensures this.private == private && this.adminID == adminID
    {
      this.stateRepo := stateRepo;
      this.statsRepo := statsRepo;
      this.subRepo := subRepo;
      this.private := private;
      this.adminID := adminID;
    }

    /**
     * `HandleCommand`: an unknown command is answered and changes nothing;
     * a known one is counted, clears the chat's state (a failure is
     * ignored) and, for /subscribe and /unsubscribe, stores the command as
     * the state (again ignoring a failure).
     */
    method HandleCommand(fromID: int, command: string, clearFails: bool, setFails: bool) returns (route: Route)
      modifies stateRepo, statsRepo
      ensures route == CommandRoute(command)
      ensures stateRepo.states == CommandStates(old(stateRepo.states), fromID, command, clearFails, setFails)
      ensures statsRepo.stats == if command in KnownCommands then ST.Bumped(old(statsRepo.stats), "command" + command)
        else old(statsRepo.stats)
      ensures statsRepo.table == old(statsRepo.table)
    {
      if command !in KnownCommands {
        return UnknownCommand(command);
      }
      statsRepo.AddOne("command" + command);
      var _ := stateRepo.Upsert(fromID, "", clearFails);
      if command == "start" {
        return Welcome;
      } else if command == "list" {
        return ListSubscriptions;
      } else if command == "donate" {
        return Donate;
      } else if command == "faq" {
        return Faq;
      } else if command == "nextupdatetime" {
        return NextUpdateTime;
      } else if command == "parsestat" {
        return ParseStat;
      }
      var _ := stateRepo.Upsert(fromID, command, setFails);
      if command == "subscribe" {
        return AskCourseAndSections;
      } else if command == "unsubscribe" {
        return AskCourse;
      } else {
        return UnknownState;
      }
    }

    /**
     * `HandleMessage`: reads the chat's state, clears it, then answers as
     * that state says; a failing read or clear is answered with an error.
     */
    method HandleMessage(fromID: int, getFails: bool, clearFails: bool) returns (route: Route)
      modifies stateRepo
      ensures route == MessageAnswer(old(stateRepo.states), fromID, getFails, clearFails)
      ensures stateRepo.states == MessageStates(old(stateRepo.states), fromID, getFails, clearFails)
    {
      var state, err := stateRepo.GetState(fromID, getFails);
      if err {
        return StateNotRead;
      }
      err := stateRepo.Upsert(fromID, "", clearFails);
      if err {
        return StateNotCleared;
      }
      if state == "" {
        route := CourseCode;
      } else if state == "start" {
        route := Welcome;
      } else if state == "subscribe" {
        route := Subscribe;
      } else if state == "unsubscribe" {
        route := Unsubscribe;
      } else if state == "list" {
        route := ListSubscriptions;
      } else {
        route := UnknownState;
      }
    }

    /**
     * `HandleCallback`: walks the commands of the button's data. "delete"
     * adds the deletion of the message the button hangs under,
     * "unsubscribe" with a course unsubscribes the user from it (a failure,
     * for a course in `unsubscribeFails`, is only logged) and with a
     * section asks the repository's `UnSubscribeSection`, whose requests are
     * returned in order; other commands are skipped.
     */
    method HandleCallback(fromID: int, messageID: int, data: string, unsubscribeFails: set<string>)
      returns (sent: seq<Message>, sectionRequests: seq<(string, string)>)
      modifies subRepo
      ensures sent == C.Deletions(fromID, messageID, C.Actions(data))
      ensures sectionRequests == C.SectionRequests(C.Actions(data))
      ensures subRepo.table == C.AfterUnsubscribing(old(subRepo.table), fromID, C.Actions(data), unsubscribeFails)
    {
      var mf := new MessageFormatter(fromID);
      var cmds := Split(data, ';');
      ghost var table0 := subRepo.table;
      sectionRequests := [];
      for i := 0 to |cmds|
        invariant mf.chatID == fromID
        invariant mf.messages == C.Deletions(fromID, messageID, C.ActionsOf(cmds[..i]))
        invariant sectionRequests == C.SectionRequests(C.ActionsOf(cmds[..i]))
        invariant subRepo.table == C.AfterUnsubscribing(old(subRepo.table), fromID, C.ActionsOf(cmds[..i]), unsubscribeFails)
      {
        C.ActionsStep(cmds, i);
        sectionRequests := RunCommand(mf, messageID, cmds[i], C.ActionsOf(cmds[..i]), sectionRequests,
                                      table0, unsubscribeFails);
      }
      assert cmds[..|cmds|] == cmds;
      sent := mf.Messages();
    }

    /** The body of the callback loop for one command, after the commands `done`. */
    method RunCommand(mf: MessageFormatter, messageID: int, cmd: string, ghost done: seq<C.Action>,
                      requests: seq<(string, string)>, ghost table0: Table, unsubscribeFails: set<string>)
      returns (sectionRequests: seq<(string, string)>)
      requires requests == C.SectionRequests(done)
      requires mf.messages == C.Deletions(mf.chatID, messageID, done)
      requires subRepo.table == C.AfterUnsubscribing(table0, mf.chatID, done, unsubscribeFails)
      modifies mf, subRepo
      ensures var all := done + match C.CommandAction(cmd) case Some(a) => [a] case None => [];
        && mf.messages == C.Deletions(mf.chatID, messageID, all)
        && sectionRequests == C.SectionRequests(all)
        && subRepo.table == C.AfterUnsubscribing(table0, mf.chatID, all, unsubscribeFails)
    {
      sectionRequests := requests;
      var args := Split(cmd, '_');
      if args[0] == "delete" {
        C.EffectsStep(mf.chatID, messageID, table0, mf.chatID, done, C.DeleteMessage, unsubscribeFails);
        mf.Add(Delete(mf.chatID, messageID));
      } else if args[0] == "unsubscribe" {
        if |args| == 2 {
          C.EffectsStep(mf.chatID, messageID, table0, mf.chatID, done, C.UnsubscribeCourse(args[1]), unsubscribeFails);
          var _ := subRepo.UnSubscribe(mf.chatID, args[1], args[1] in unsubscribeFails);
        } else if |args| == 3 {
          C.EffectsStep(mf.chatID, messageID, table0, mf.chatID, done, C.UnsubscribeSection(args[1], args[2]), unsubscribeFails);
          sectionRequests := sectionRequests + [(args[1], args[2])];
        } else {
          assert done + [] == done;
        }
      } else {
        assert done + [] == done;
      }
    }

    /**
     * `HandleSubscribeFromCrashedNUFile`: answers a failed download with
     * one message; otherwise reads the file line by line and adds one
     * message per line, subscribing the sections of every line that parses,
     * passes `check` (`CheckForValidness`) and whose transaction commits.
     */
    method HandleSubscribeFromCrashedNUFile(fromID: int, file: Option<string>,
                                            check: (string, seq<string>) -> Option<string>,
                                            faults: map<nat, Fault>, now: int, escape: string -> string)
      returns (sent: seq<Message>)
      modifies subRepo
      ensures file.None? ==> sent == [Text(fromID, N.DownloadFailedText, ParseMode, None)]
                             && subRepo.table == old(subRepo.table)
      ensures file.Some? ==> sent == N.FileMessages(fromID, Split(file.value, '\n'), check, faults, escape)
      ensures file.Some? ==> subRepo.table == N.FileTable(old(subRepo.table), fromID, Split(file.value, '\n'), check, faults, now)
    {
      var mf := new MessageFormatter(fromID);
      if file.None? {
        sent := mf.ImmediateMessage(N.DownloadFailedText);
        return;
      }
      sent := AddLines(mf, Split(file.value, '\n'), check, faults, now, escape);
    }

    /** The upload loop: one message and one transaction per line, in order. */
    method AddLines(mf: MessageFormatter, lines: seq<string>, check: (string, seq<string>) -> Option<string>,
                    faults: map<nat, Fault>, now: int, escape: string -> string)
      returns (sent: seq<Message>)
      requires mf.messages == []
      modifies mf, subRepo
      ensures sent == N.FileMessages(mf.chatID, lines, check, faults, escape)
      ensures subRepo.table == N.FileTable(old(subRepo.table), mf.chatID, lines, check, faults, now)
    {
      for i := 0 to |lines|
        invariant mf.messages == N.FileMessages(mf.chatID, lines[..i], check, faults, escape)
        invariant subRepo.table == N.FileTable(old(subRepo.table), mf.chatID, lines[..i], check, faults, now)
      {
        assert lines[..i + 1][..i] == lines[..i];
        AddLine(mf, lines[i], i, check, faults, now, escape);
      }
      assert lines[..|lines|] == lines;
      sent := mf.Messages();
    }

    /** The body of the upload loop for one line. */
    method AddLine(mf: MessageFormatter, line: string, index: nat, check: (string, seq<string>) -> Option<string>,
                   faults: map<nat, Fault>, now: int, escape: string -> string)
      modifies mf, subRepo
      ensures mf.messages == old(mf.messages) + [N.LineMessage(mf.chatID, line, index, check, faults, escape)]
      ensures subRepo.table == N.LineTable(old(subRepo.table), mf.chatID, line, index, check, faults, now)
    {
      var fields := N.LineFields(line);
      if |fields| < 2 {
        mf.AddString(N.InvalidLineText(line));
        return;
      }
      var courseName := fields[0];
      var section := fields[1..];
      assert N.ParseLine(line) == Some((courseName, section));
      var invalid := check(courseName, section);
      if invalid.Some? {
        mf.AddNotFoundCourseSection(courseName, invalid.value, escape);
        return;
      }
      var err := subRepo.Subscribe(mf.chatID, courseName, section, now, N.FaultAt(faults, index));
      if err {
        mf.AddString(N.SubscribeFailedText(courseName));
        return;
      }
      mf.AddString(N.SubscribedText(line));
    }

    /**
     * `HandleUpdate`: counts the update, then hands a button press to
     * `HandleCallback` and a message to `HandleIncomingMessage`.
     */
    method HandleUpdate(update: Incoming, getFails: bool, clearFails: bool, setFails: bool, unsubscribeFails: set<string>)
      returns (reply: Reply)
      modifies stateRepo, statsRepo, subRepo
      ensures update.CallbackQuery? ==>
        && CallbackAnswered(reply, subRepo.table, old(subRepo.table), update.fromID, update.messageID, update.data, unsubscribeFails)
        && stateRepo.states == old(stateRepo.states)
        && statsRepo.stats == ST.Bumped(old(statsRepo.stats), TotalRequests)
      ensures update.Other? ==>
        && reply == NoReply
        && stateRepo.states == old(stateRepo.states)
        && statsRepo.stats == ST.Bumped(old(statsRepo.stats), TotalRequests)
      ensures update.MessageUpdate? ==>
        && reply == Routed(MessageUpdateRoute(old(stateRepo.states), update.fromID, update.command, getFails, clearFails))
        && stateRepo.states == MessageUpdateStates(old(stateRepo.states), update.fromID, update.command, getFails, clearFails, setFails)
        && statsRepo.stats == CommandCounted(ST.Bumped(old(statsRepo.stats), TotalRequests), update.command)
      ensures !update.CallbackQuery? ==> subRepo.table == old(subRepo.table)
    {
      statsRepo.AddOne(TotalRequests);
      match update
      case CallbackQuery(fromID, messageID, data) =>
        var sent, sectionRequests := HandleCallback(fromID, messageID, data, unsubscribeFails);
        reply := Sent(sent, sectionRequests);
        assert CallbackAnswered(reply, subRepo.table, old(subRepo.table), fromID, messageID, data, unsubscribeFails);
      case Other =>
        reply := NoReply;
      case MessageUpdate(fromID, command) =>
        var route := HandleIncomingMessage(fromID, command, getFails, clearFails, setFails);
        reply := Routed(route);
    }

    /**
     * The message part of `HandleUpdate`: a command goes to `HandleCommand`,
     * any other message to `HandleMessage`. In private mode both are
     * wrapped in `AuthAdmin`, whose guard never holds, so the answer does
     * not depend on `private`.
     */
    method HandleIncomingMessage(fromID: int, command: Option<string>, getFails: bool, clearFails: bool, setFails: bool)
      returns (route: Route)
      modifies stateRepo, statsRepo
      ensures route == MessageUpdateRoute(old(stateRepo.states), fromID, command, getFails, clearFails)
      ensures stateRepo.states == MessageUpdateStates(old(stateRepo.states), fromID, command, getFails, clearFails, setFails)
      ensures statsRepo.stats == CommandCounted(old(statsRepo.stats), command)
      ensures statsRepo.table == old(statsRepo.table)
    {
      NeverBlocked(adminID, fromID);
      if private && Blocked(adminID, fromID) {
        return Silent;
      }
      if command.Some? {
        route := HandleCommand(fromID, command.value, clearFails, setFails);
      } else {
        route := HandleMessage(fromID, getFails, clearFails);
      }
    }
  }
}
