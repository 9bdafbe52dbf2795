/**
 * The outgoing message list a handler builds for one chat
 * (telegramfmt/response.go): an append-only buffer of messages whose last
 * element can be patched with an inline keyboard.
 */
module Response {
  import opened Wrappers

  /** Telegram parse modes, as the bot API spells them. */
  const ModeHTML: string := "HTML"
  const ModeMarkdownV2: string := "MarkdownV2"

  /** The parse mode every formatter message carries (`ParseMode`). */
  const ParseMode: string := ModeHTML

  /** An inline keyboard button and the callback data it sends back. */
  datatype Button = Button(text: string, callbackData: string)

  type Keyboard = seq<seq<Button>>

  /**
   * The two kinds of `tapi.Chattable` the bot sends: a text message
   * (`MessageConfig`) and the deletion of a message the chat already holds.
   */
  datatype Message =
    | Text(chatID: int, text: string, parseMode: string, replyMarkup: Option<Keyboard>)
    | Delete(chatID: int, messageID: int)

  // ----- callback data -----

  /** The data of the "Ignore" button: just delete the notification. */
  const IgnoreData: string := "delete"

  /** The data of "Unsubscribe" from a whole course, then delete the notification. */
  function UnsubscribeCourseData(courseAbbr: string): string {
    "unsubscribe_" + courseAbbr + ";delete"
  }

  /** The data of "Unsubscribe" from one section, then delete the notification. */
  function UnsubscribeSectionData(courseAbbr: string, section: string): string {
    "unsubscribe_" + courseAbbr + "_" + section + ";delete"
  }

  /** One row holding the "Ignore" and "Unsubscribe" buttons. */
  function IgnoreOrUnsubscribe(unsubscribeData: string): Keyboard {
    [[Button("Ignore", IgnoreData), Button("Unsubscribe", unsubscribeData)]]
  }

  // ----- message texts -----

  function NotFoundCourseText(escape: string -> string, courseAbbr: string): string {
    "❌ Course <b>" + escape(courseAbbr) + "</b> not found"
  }

  function NotFoundCourseSectionText(escape: string -> string, courseAbbr: string, section: string): string {
    "❌ Course <b>" + escape(courseAbbr) + "</b> Section <b>" + escape(section) + "</b> not found"
  }

  /**
   * Collects the messages of one reply to the chat `chatID`. The escape
   * function stands for `tapi.EscapeText(ParseMode, ·)`.
   */
  class MessageFormatter {
    const chatID: int
    var messages: seq<Message>

    /** `NewMessageFormatter`: an empty list for the chat. */
    constructor (chatID: int)
      ensures this.chatID == chatID && messages == []
    {
      this.chatID := chatID;
      messages := [];
    }

    /** The messages collected so far, in the order they were added. */
    method Messages() returns (r: seq<Message>)
      ensures r == messages
    {
      r := messages;
    }

    /** Appends a ready-made message. */
    method Add(m: Message)
      modifies this
      ensures messages == old(messages) + [m]
    {
      messages := messages + [m];
    }

    /** Appends one HTML text message for the chat; earlier messages stay as they were. */
    method AddString(text: string)
      modifies this
      ensures messages == old(messages) + [Text(chatID, text, ParseMode, None)]
    {
      messages := messages + [Text(chatID, text, ParseMode, None)];
    }

    /** Appends one text message and answers with everything collected. */
    method ImmediateMessage(text: string) returns (r: seq<Message>)
      modifies this
      ensures messages == old(messages) + [Text(chatID, text, ParseMode, None)]
      ensures r == messages
    {
      AddString(text);
      r := messages;
    }

    /**
     * Puts the keyboard on the last message. The list must not be empty
     * and its last element must be a text message (the source panics
     * otherwise); only the reply markup of that message changes.
     */
    method AddKeyboardToLastMessage(keyboard: Keyboard)
      requires |messages| > 0 && messages[|messages| - 1].Text?
      modifies this
      ensures |messages| == |old(messages)|
      ensures messages[..|messages| - 1] == old(messages)[..|messages| - 1]
      ensures messages[|messages| - 1] == old(messages)[|messages| - 1].(replyMarkup := Some(keyboard))
    {
      var last := |messages| - 1;
      messages := messages[last := messages[last].(replyMarkup := Some(keyboard))];
    }

    /**
     * A one-message answer that a course was not found (for `action`); the
     * formatter's own list is not touched.
     */
    method ImmediateNotFoundCourse(courseAbbr: string, action: string, escape: string -> string)
      returns (r: seq<Message>)
      ensures |r| == 1
      ensures r[0] == Text(chatID, NotFoundCourseText(escape, courseAbbr) + " " + escape(action), ParseMode, None)
    {
      r := [Text(chatID, NotFoundCourseText(escape, courseAbbr) + " " + escape(action), ParseMode, None)];
    }

    /** Appends the message that a course was not found. */
    method AddNotFoundCourse(courseAbbr: string, escape: string -> string)
      modifies this
      ensures messages == old(messages) + [Text(chatID, NotFoundCourseText(escape, courseAbbr), ParseMode, None)]
    {
      messages := messages + [Text(chatID, NotFoundCourseText(escape, courseAbbr), ParseMode, None)];
    }

    /**
     * A one-message answer that a section of a course was not found; the
     * formatter's own list is not touched.
     */
    method ImmediateNotFoundCourseSection(courseAbbr: string, section: string, action: string, escape: string -> string)
      returns (r: seq<Message>)
      ensures |r| == 1
      ensures r[0] == Text(chatID, NotFoundCourseSectionText(escape, courseAbbr, section) + " " + escape(action),
                           ParseMode, None)
    {
      r := [Text(chatID, NotFoundCourseSectionText(escape, courseAbbr, section) + " " + escape(action), ParseMode, None)];
    }

    /** Appends the message that a section of a course was not found. */
    method AddNotFoundCourseSection(courseAbbr: string, section: string, escape: string -> string)
      modifies this
      ensures messages == old(messages) + [Text(chatID, NotFoundCourseSectionText(escape, courseAbbr, section), ParseMode, None)]
    {
      messages := messages + [Text(chatID, NotFoundCourseSectionText(escape, courseAbbr, section), ParseMode, None)];
    }

    /** Offers "Ignore" / "Unsubscribe from this section" under the last message. */
    method UnsubscribeOrIgnoreSection(courseAbbr: string, section: string)
      requires |messages| > 0 && messages[|messages| - 1].Text?
      modifies this
      ensures |messages| == |old(messages)|
      ensures messages[..|messages| - 1] == old(messages)[..|messages| - 1]
      ensures messages[|messages| - 1] == old(messages)[|messages| - 1].(
        replyMarkup := Some(IgnoreOrUnsubscribe(UnsubscribeSectionData(courseAbbr, section))))
    {
      AddKeyboardToLastMessage(IgnoreOrUnsubscribe(UnsubscribeSectionData(courseAbbr, section)));
    }

    /** Offers "Ignore" / "Unsubscribe from this course" under the last message. */
    method UnsubscribeOrIgnoreCourse(courseAbbr: string)
      requires |messages| > 0 && messages[|messages| - 1].Text?
      modifies this
      ensures |messages| == |old(messages)|
      ensures messages[..|messages| - 1] == old(messages)[..|messages| - 1]
      ensures messages[|messages| - 1] == old(messages)[|messages| - 1].(
        replyMarkup := Some(IgnoreOrUnsubscribe(UnsubscribeCourseData(courseAbbr))))
    {
      AddKeyboardToLastMessage(IgnoreOrUnsubscribe(UnsubscribeCourseData(courseAbbr)));
    }
  }
}
