# Course-seat notification bot: a Dafny model

This project models the core of a Telegram bot that watches a university's
course-enrolment spreadsheet and tells subscribed students when a course section
becomes full or has free places again. It also models the bot's conversation
with a user. The model covers:

- **Tracker** (`Tracker`): one tick of the notification loop. It walks every
  subscription, compares the stored "is full" flag with the current snapshot and
  sends one message per change ("now has free places", "is full", or "not
  existent anymore" with Ignore/Unsubscribe buttons). A change of fullness is
  written back.
- **Dynamic ticker** (`Ticker`): how the polling wait is chosen. Each
  registration deadline is expanded into four windows (30, 15, 5 and 1 minute
  polling during the last hour), and `getDuration` picks the next wait.
- **Course repository** (`CoursesRepository`): the spreadsheet row filter of
  `parseXLS`, the snapshot cache that keeps the old data when a refresh fails,
  and the lookups that refresh a snapshot older than ten minutes.
- **Subscription, chat-state and statistics stores** (`Subscriptions`,
  `StateRepository`, `StatisticsRepository`): SQLite tables modelled as maps
  keyed by their primary keys, with `INSERT OR REPLACE` / `ON CONFLICT`
  semantics and transactions that commit entirely or not at all.
- **Message handler** (`Handlers`, `CommandArguments`, `Callback`, `CrashedNU`):
  - the one-shot conversational state machine;
  - the `/subscribe` argument parser;
  - the inline-button callback data;
  - the crashed.nu schedule-file import.
- **Formatting helpers** (`Beautify`, `Response`, `CourseTypes`):
  - course and section name standardisation;
  - section ordering;
  - the [FULL] marker;
  - the grouped course listing;
  - the outgoing message buffer and the callback data of its buttons.
- **Configuration and middleware** (`Config`, `Middlewares`): the admin-id list
  parser and the two authorisation wrappers.

Time is an integer number of seconds, and every operation takes the clock as a
parameter `now`. Database failures, fetch results and the file download are
parameters too. `tapi.EscapeText` is an uninterpreted `string -> string`
function. Strings are ASCII, so `ToUpper` and `EqualFold` work byte by byte.
The Go standard-library functions the core relies on are in `Strings`:

- `strings.Fields`, `Split`, `FieldsFunc`, `ReplaceAll`, `Join`, `Compare`,
  `ToUpper` and `EqualFold`;
- `strconv.ParseInt`.

## Model

| member | source | states |
|---|---|---|
| Tracker.Judge | internal/service/tracker.go:47-88 | The verdict for a subscription is "course gone" exactly when its course is missing and "section gone" exactly when the course exists but no section has its name. It is "steady" exactly when the stored flag equals size >= cap. "Now free" needs a stored full flag and size < cap; "now full" needs the opposite. Both carry the size and capacity of the section found. |
| Tracker.Notice | internal/service/tracker.go:47-88 | A steady subscription gets no message. Any other verdict gets exactly one text message to the subscriber. That message has an Ignore/Unsubscribe keyboard exactly when the course or section is gone. |
| Tracker.Notices | internal/service/tracker.go:45-89 | A tick sends at most one message per subscription. |
| Tracker.Written | internal/service/tracker.go:65-88 | The write-backs of a tick never add or remove a row. |
| Tracker.Tick | internal/service/tracker.go:37-89 | If `GetAll` fails, the tick sends nothing, writes nothing and does not refresh. Otherwise it walks every row of the table once, in the query's order. A failed refresh keeps the snapshot, and a successful one replaces it, section-name list included. The messages are those of the walked subscriptions, in order. The table is the result of their write-backs. |
| Tracker.Check | internal/service/tracker.go:46-88 | For one subscription, the snapshot is unchanged, the messages are those of its verdict and the table gets that verdict's write-back. |
| Tracker.Gone | internal/service/tracker.go:47-63 | A vanished course or section gets the "not existent anymore" message with the button that unsubscribes from the course or from the section. |
| Tracker.Compare | internal/service/tracker.go:65-88 | A found section is compared with the stored flag. A change is announced first and then written back, and a failed `Update` leaves the row as it was. |
| Tracker.SteadyTickQuiet | internal/service/tracker.go:65-88 | When every subscription agrees with the snapshot, a tick sends nothing and writes nothing. |
| Tracker.WrittenAt | internal/service/tracker.go:70-87 | After a tick, the row of each subscription holds that subscription's own write-back. |
| Tracker.WrittenUntouched | internal/service/tracker.go:70-87 | A row that no walked subscription names is left as it was. |
| Tracker.ReportedOnce | internal/service/tracker.go:65-88 | After a tick over every row with no failing `Update`, no row is "now free" or "now full" against the same snapshot. A change of fullness is therefore reported once. |
| Tracker.ReportedAgainAfterFailedUpdate | internal/service/tracker.go:71-75 | When `Update` fails, the row keeps its old flag, so the next tick reaches the same verdict and sends the same message again. |
| Tracker.GoneNeverWritten | internal/service/tracker.go:47-63 | A vanished course or section is reported with one message on every tick, and its row is never written. |
| Tracker.FreshSubscriptionToFullSection | internal/repositories/subscription_repository_sqlite.go:53-57 | A new row starts with is_full false, so subscribing to a section that is already full makes the next tick report "is full". |
| Ticker.ParseTimeConfig | internal/ticker/dynamic_ticker.go:121-154 | The loop appends the four windows of each deadline, in input order. |
| Ticker.WindowsShape | internal/ticker/dynamic_ticker.go:124-150 | The four windows of a deadline D start at D-60m, follow each other without a gap and end exactly at D. Each carries the deadline's label. They poll every 30, 15, 5 and 1 minute, strictly faster each time, and no interval is longer than its window. |
| Ticker.ExpandLayout | internal/ticker/dynamic_ticker.go:121-154 | The expansion has 4n windows, and deadline i owns windows 4i to 4i+3. |
| Ticker.GetDuration | internal/ticker/dynamic_ticker.go:104-115 | The loop returns the wait of scanning all windows in list order, starting from the default. |
| Ticker.NoWindowKeepsDefault | internal/ticker/dynamic_ticker.go:105-114 | When no window holds `now` or `now + default`, the wait is the default. |
| Ticker.ContainingWindowSets | internal/ticker/dynamic_ticker.go:106-108 | A window that holds `now` sets the wait to its interval. At a shared boundary the later window therefore wins. |
| Ticker.LookAheadNeverShortens | internal/ticker/dynamic_ticker.go:109-110 | When no window holds `now`, the look-ahead never makes the wait shorter than the default. |
| Ticker.DurationPositive | internal/ticker/dynamic_ticker.go:105-112 | With a positive default and positive intervals, the wait is positive. |
| Ticker.WindowJumpedOver | internal/ticker/dynamic_ticker.go:105-110 | For all inputs: when no window holds `now`, every window lying strictly between `now` and `now + default` has ended before the next tick, because only the landing instant is tested. |
| Ticker.BoundaryOfDeadline | internal/ticker/dynamic_ticker.go:106-110 | At D-30m the 15-minute window beats the 30-minute one. The look-ahead then stretches the wait to the deadline itself. |
| Ticker.OvershootAtDeadline | internal/ticker/dynamic_ticker.go:109-110 | As written: decided at T-31m with a 30-minute default, the wait is 31 minutes and the next tick lands exactly at T. |
| Ticker.IntendedNeverSkips | internal/ticker/dynamic_ticker.go:109-110 | With the look-ahead cut at a window's start and no window holding `now`, the wait is positive and never jumps past the start of a later window. |
| Ticker.IntendedAtDeadline | internal/ticker/dynamic_ticker.go:109-110 | With the intended look-ahead at T-31m, the wait is one minute and the tick lands at T-30m. |
| CoursesRepository.ParseRows | internal/repositories/cources_repository.go:211-271 | The row loop computes the duplicate set, the course map and the trimmed section names of the row-by-row specification. |
| CoursesRepository.RowStepEffect | internal/repositories/cources_repository.go:214-271 | A row either changes only the duplicate set, or appends one section to the end of one course and records its trimmed name. The appended section has the row's section name and its parsed enrolment and capacity, so both numeric cells parsed. A new course is created from that row, and every other course stays as it was. |
| CoursesRepository.ParseRowsWellFormed | internal/repositories/cources_repository.go:251-270 | Every resulting course is filed under its abbreviation and has at least one section. Each section's trimmed name is in the name set. |
| CoursesRepository.RowStepRecordsKey | internal/repositories/cources_repository.go:225-230 | The key of every row with an abbreviation and a section is recorded before anything else is checked. |
| CoursesRepository.RowStepSkipsDuplicate | internal/repositories/cources_repository.go:226-229 | A row whose key is already recorded changes nothing. |
| CoursesRepository.BadNumbersRecordKey | internal/repositories/cources_repository.go:230-250 | A first row whose enrolment or capacity cell is unreadable or not a number records its key and adds no section. |
| CoursesRepository.DuplicatesGrow | internal/repositories/cources_repository.go:226-230 | The duplicate set only grows along the rows. |
| CoursesRepository.LaterDuplicateIgnored | internal/repositories/cources_repository.go:225-230 | A later row with the key of an earlier row leaves every map as it was, whatever its numbers. |
| CoursesRepository.SetToList | internal/repositories/cources_repository.go:273-276 | The section-name list holds exactly the set's names, each once. |
| CoursesRepository.FindSection | internal/repositories/cources_repository.go:154-159 | The lookup finds a section with the queried name, present in the list, and finds none exactly when no section has that name. |
| CoursesRepository.FindSectionAt | internal/repositories/cources_repository.go:154-158 | The section found is the first one with the name. |
| CoursesRepository.CourseRepository.Parse | internal/repositories/cources_repository.go:63-83 | A failed fetch returns an error and leaves all four fields unchanged. A successful one replaces all four together: the courses, the semester, time set to `now`, and a list holding each parsed section name once. |
| CoursesRepository.CourseRepository.GetCourse | internal/repositories/cources_repository.go:123-136 | The snapshot is refreshed only when it is more than ten minutes old and the refresh succeeds, and then all four fields hold the new one, section-name list included. The answer comes from the snapshot held afterwards. |
| CoursesRepository.CourseRepository.GetSection | internal/repositories/cources_repository.go:138-160 | The refresh is the same, section-name list included. The answer is the first section of the course with exactly that name, and none when the course or the section is missing. |
| Subscriptions.Unsubscribed | internal/repositories/subscription_repository_sqlite.go:78-90 | Exactly the user's rows for the course are deleted. Every other row is kept with its values. |
| Subscriptions.SubscribedRows | internal/repositories/subscription_repository_sqlite.go:53-76 | After subscribing, the user has exactly one fresh row per given section: not full, never updated, added now. No other row changes and no other row appears. |
| Subscriptions.SubscribeTwice | internal/repositories/subscription_repository_sqlite.go:53-57 | Subscribing twice leaves the same keys as subscribing once, and resets every flag. |
| Subscriptions.SubscriptionRepository.Subscribe | internal/repositories/subscription_repository_sqlite.go:53-76 | The transaction fails exactly when its begin, one of its inserts or its commit fails, and then the table is unchanged. Otherwise every section is written. |
| Subscriptions.SubscriptionRepository.UnSubscribe | internal/repositories/subscription_repository_sqlite.go:78-90 | On success the user's rows for the course are deleted and nothing else. On failure nothing changes. |
| Subscriptions.SubscriptionRepository.ClearSubscriptions | internal/repositories/subscription_repository_sqlite.go:92-104 | On success exactly the user's rows are deleted, and every other row keeps its values. |
| Subscriptions.SubscriptionRepository.Update | internal/repositories/subscription_repository_sqlite.go:156-171 | Only is_full and updated_at of the row with exactly the subscription's key change. A missing row is not inserted. |
| Subscriptions.SubscriptionRepository.GetAll | internal/repositories/subscription_repository_sqlite.go:132-154 | The result holds every row of the table exactly once, read from that row. A failing query gives nothing. |
| Subscriptions.SubscriptionRepository.GetSubscriptions | internal/repositories/subscription_repository_sqlite.go:106-130 | The result holds exactly the user's rows, each once, newest added_at first. A failing query gives nothing. |
| StateRepository.StateRepository.Upsert | internal/repositories/state_repository.go:34-44 | The chat's single row is replaced and other chats are untouched. A failing statement changes nothing. |
| StateRepository.StateRepository.GetState | internal/repositories/state_repository.go:46-60 | The result is the stored state, or "" with no error for a chat with no row. A failing query gives "" and an error. |
| StateRepository.UpsertThenGet | internal/repositories/state_repository.go:34-60 | After an upsert the chat reads back what was written, and every other chat reads what it read before. Repeating the upsert changes nothing. |
| StatisticsRepository.StatisticsRepository.AddOne | internal/repositories/statistics_repository.go:33-35 | The in-memory counters gain one for the action, and the table is untouched. |
| StatisticsRepository.BumpedCounts | internal/repositories/statistics_repository.go:33-35 | The action's count goes up by exactly one, to 1 when new. Every other count stays the same. |
| StatisticsRepository.StatisticsRepository.Upsert | internal/repositories/statistics_repository.go:57-83 | The flush fails exactly when its begin, an insert or its commit fails, and then the table is unchanged. Otherwise every in-memory count is added into the table. The in-memory counts are never cleared. |
| StatisticsRepository.MergedCounts | internal/repositories/statistics_repository.go:59-77 | After a flush, each action's row is its old count plus its in-memory count. The table gains exactly the new actions. |
| StatisticsRepository.MergedOnStep | internal/repositories/statistics_repository.go:69-77 | Adding one more action's count changes that action's row only. |
| StatisticsRepository.FlushTwice | internal/repositories/statistics_repository.go:57-83 | Because the counters are not cleared, a second flush adds the same totals again. |
| StatisticsRepository.StatisticsRepository.UpsertAndReset | internal/repositories/statistics_repository.go:57-83 | As intended: the same all-or-nothing flush, and the counters are empty once it commits. A failed flush keeps both the table and the counters. |
| StatisticsRepository.EachPeriodFlushedOnce | internal/repositories/statistics_repository.go:57-83 | With the counters reset after each flush, the counts of two periods each reach the table exactly once. |
| StatisticsRepository.FlushNothing | internal/repositories/statistics_repository.go:69-82 | With no in-memory counts, a flush leaves the table unchanged. |
| CommandArguments.CourseWords | internal/handlers/handlers.go:238-243 | The course name takes one word, or two when the first ends in a non-digit and the second starts with a digit. |
| CommandArguments.Grouped | internal/handlers/handlers.go:249-259 | Grouping fails only with InvalidParams. On success every section starts with a digit, there are no more sections than words, and there is at least one when there are words. |
| CommandArguments.StandardizedAll | internal/handlers/handlers.go:260-266 | Standardisation fails exactly when some section fails. Otherwise the result has one standardised name per section, in order. |
| CommandArguments.ParseCommandArguments | internal/handlers/handlers.go:235-270 | The parser returns the course and sections, or the error, that the specification function gives. |
| CommandArguments.GroupSections | internal/handlers/handlers.go:249-259 | The grouping loop computes `Grouped`, including its early InvalidParams return. |
| CommandArguments.GroupWord | internal/handlers/handlers.go:251-258 | One word either opens a section or is glued to the last one. |
| CommandArguments.StandardizeSections | internal/handlers/handlers.go:260-266 | The in-place standardisation loop computes `StandardizedAll`. |
| CommandArguments.GroupedErrPersists | internal/handlers/handlers.go:251-254 | Once a prefix of the words fails to group, so do all the words. |
| CommandArguments.ParsedArgumentsOk | internal/handlers/handlers.go:260-268 | On success there is at least one section. Each is the user's leading digits followed by a list entry as the list spells it, so it starts with a digit. The course is the standardised name as typed. |
| CommandArguments.NotEnoughParams | internal/handlers/handlers.go:245-247 | Text with nothing after the course name gives ErrNotEnoughParams. |
| CommandArguments.FirstSectionWithoutDigit | internal/handlers/handlers.go:251-254 | A first section word that does not start with a digit gives InvalidParams. |
| CommandArguments.FirstWordDecides | internal/handlers/handlers.go:250-258 | Grouping fails exactly when the first word does not start with a digit. |
| CommandArguments.GroupedKeepsText | internal/handlers/handlers.go:250-258 | Grouping loses no character and keeps the typed order. |
| Callback.ActionsOf | internal/handlers/handlers.go:376-403 | There is at most one action per command. |
| Callback.Deletions | internal/handlers/handlers.go:380-382 | Every message produced deletes the callback's own message, and there are no more of them than actions. |
| Callback.SectionRequests | internal/handlers/handlers.go:391-397 | There is at most one section unsubscription per action. |
| Callback.CourseCommandInverse | internal/handlers/handlers.go:383-390 | A command read as a course unsubscription is exactly "unsubscribe_" followed by that course, and the course holds no '_'. |
| Callback.SectionCommandInverse | internal/handlers/handlers.go:391-397 | A command read as a section unsubscription is exactly "unsubscribe_" + course + "_" + section, and neither name holds '_'. |
| Callback.CourseCommand | internal/handlers/handlers.go:383-390 | "unsubscribe_" followed by a course without '_' is that course's unsubscription. |
| Callback.SectionCommand | internal/handlers/handlers.go:391-397 | "unsubscribe_", a course, '_' and a section, neither with '_', is that section's unsubscription. |
| Callback.DeleteCommand | internal/handlers/handlers.go:380-382 | "delete" deletes. |
| Callback.ActionsStep | internal/handlers/handlers.go:376-403 | The actions of one more command are those of the earlier commands followed by its own. |
| Callback.EffectsStep | internal/handlers/handlers.go:376-403 | The deletions, the table and the section requests after one more action follow from those before it. |
| Callback.IgnoreDataRoundTrip | internal/telegramfmt/response.go:97 | The data of the "Ignore" button reads back as one deletion. |
| Callback.CourseDataRoundTrip | internal/telegramfmt/response.go:96-104 | When the course holds neither '_' nor ';', the course's "Unsubscribe" button data reads back as exactly one unsubscription of that course followed by one deletion. |
| Callback.SectionDataRoundTrip | internal/telegramfmt/response.go:85-94 | When neither name holds '_' or ';', the section's "Unsubscribe" button data reads back as exactly one unsubscription of that section followed by one deletion. |
| Callback.OthersUntouched | internal/handlers/handlers.go:383-390 | A callback's unsubscriptions touch only the pressing user's rows. |
| CrashedNU.LineFields | internal/handlers/handlers.go:207-211 | The pieces of a line are non-empty and hold no '\|'. |
| CrashedNU.ParseLine | internal/handlers/handlers.go:207-218 | A line is invalid exactly when it has fewer than two pieces. Otherwise the course is the first piece and the sections are the rest, with at least one section. |
| CrashedNU.ParseLineRoundTrip | internal/handlers/handlers.go:206-218 | The export's own format "COURSE: S1, S2, ..." reads back as exactly that course and those sections. This needs non-empty names without ':', ',' or '\|'. |
| CrashedNU.CutAtBars | internal/handlers/handlers.go:209-211 | Cutting the '\|'-joined course and sections at every '\|' gives them back. |
| CrashedNU.OnePieceInvalid | internal/handlers/handlers.go:212-215 | A line without ':' and ',' that is one piece is reported invalid. |
| CrashedNU.FileMessages | internal/handlers/handlers.go:206-230 | A file gets exactly one message per line. |
| CrashedNU.OneMessagePerLine | internal/handlers/handlers.go:206-230 | Message i is the message of line i. |
| CrashedNU.OthersUntouched | internal/handlers/handlers.go:224 | An upload subscribes only its sender, and every other user's rows are kept. |
| CrashedNU.ExportLineSubscribes | internal/handlers/handlers.go:206-229 | A line in the export's format whose course and sections exist and whose transaction commits subscribes exactly those sections. It is answered with the success message. |
| Handlers.KnownCommandsAnswered | internal/handlers/handlers.go:94-123 | Only an unknown command gets the unknown-command answer, and no command reaches the last fallback. |
| Handlers.CommandSetsState | internal/handlers/handlers.go:94-115 | An unknown command leaves the state alone. After /subscribe or /unsubscribe the state is the command's name, and after every other known command it is "", as far as the writes succeed. Other chats keep their state. |
| Handlers.ReachableKept | internal/handlers/handlers.go:91-156 | The handlers only ever store "", "subscribe" or "unsubscribe". |
| Handlers.MessageRouteOfReachable | internal/handlers/handlers.go:142-155 | In a table the handlers produced, a plain message goes to the course lookup, to /subscribe's or /unsubscribe's argument handler, or to an error answer. The "start", "list" and unknown-state branches are dead. |
| Handlers.OneShot | internal/handlers/handlers.go:115-150 | After /subscribe or /unsubscribe, the next message is the command's argument and the message after that is a course lookup again. |
| Handlers.FailedClearRepeats | internal/handlers/handlers.go:136-140 | A failed clear after reading leaves the state in place, so the next message is routed the same way. |
| Handlers.MessageHandler.HandleCommand | internal/handlers/handlers.go:91-124 | An unknown command is answered and changes nothing. A known one is counted under "command" + name, and its states follow `CommandStates`. |
| Handlers.MessageHandler.HandleMessage | internal/handlers/handlers.go:126-156 | The state is read, then cleared, then the answer follows the state read. A failed read or clear is answered with an error, and the state is cleared only when both succeed. |
| Handlers.MessageHandler.HandleCallback | internal/handlers/handlers.go:371-406 | The messages are the deletions of the data's actions, and the table is the result of its course unsubscriptions, whose failures are ignored. The section unsubscriptions are returned as requests, in order. |
| Handlers.MessageHandler.RunCommand | internal/handlers/handlers.go:377-402 | One command adds its own action's effects to those of the earlier commands. |
| Handlers.MessageHandler.HandleSubscribeFromCrashedNUFile | internal/handlers/handlers.go:195-233 | A failed download is answered with one message and changes nothing. Otherwise the answer is one message per line, and the table is the result of subscribing each valid line. |
| Handlers.MessageHandler.AddLines | internal/handlers/handlers.go:206-232 | The upload loop gives the file's messages and table. |
| Handlers.MessageHandler.AddLine | internal/handlers/handlers.go:207-229 | One line adds its message and its subscription. |
| Handlers.MessageHandler.HandleUpdate | internal/handlers/handlers.go:52-74 | Every update is counted. A button press is answered as `HandleCallback` answers it, and the chat state is not touched. Anything else that is not a message gets no answer. A message is answered as a command or by the chat's state. |
| Handlers.MessageHandler.HandleIncomingMessage | internal/handlers/handlers.go:62-72 | Private mode makes no difference, because the wrappers always forward. A command goes to `HandleCommand` and any other message to `HandleMessage`. |
| Middlewares.NeverBlocked | internal/handlers/middlewares.go:13 | No group and no sender satisfy the guard: an empty group holds no one. |
| Middlewares.AuthAdmin | internal/handlers/middlewares.go:11-19 | The wrapped handler answers every message exactly as the inner handler does. |
| Middlewares.AuthAllowed | internal/handlers/middlewares.go:21-29 | Same as `AuthAdmin`: the wrapper always forwards. |
| Middlewares.AuthIntended | internal/handlers/middlewares.go:11-29 | As intended: an empty group lets everyone through. A configured group answers its members as the inner handler does and everyone else with nothing. |
| Middlewares.OutsiderAnswered | internal/handlers/middlewares.go:13 | Sender 2 against the group [1] gets the inner handler's answer from the wrapper as written, and nothing from the intended one. |
| Beautify.MarkDigitStart | internal/telegramfmt/beautify.go:66-77 | The rune loop drops every space and puts one space before the first digit. |
| Beautify.MarkChar | internal/telegramfmt/beautify.go:69-76 | One non-space character extends that result. |
| Beautify.StandartizeCourseName | internal/telegramfmt/beautify.go:63-79 | The result is the specification of the standard course name. |
| Beautify.StandardCourseNameShape | internal/telegramfmt/beautify.go:63-79 | When the only white space is ' ', the result is the upper-cased input without spaces. It has a single space before its first digit, unless that digit comes first. |
| Beautify.StandardCourseNameIdempotent | internal/telegramfmt/beautify.go:63-79 | When the only white space is ' ', standardising twice changes nothing more. |
| Beautify.StandartizeSectionName | internal/telegramfmt/beautify.go:81-89 | The result succeeds exactly when the name without its leading digits, spaces and hyphens matches a list entry up to case. It is then the leading digit run followed by the first such entry, as the list spells it. |
| Strings.LeadingDigits | internal/telegramfmt/beautify.go:91-98 | The result is the longest prefix made of digits: the whole string when it is all digits. |
| Beautify.FormatSection | internal/telegramfmt/beautify.go:38-45 | The [FULL] marker appears exactly when size >= cap. |
| Beautify.FormatCourseSection | internal/telegramfmt/beautify.go:47-55 | The [FULL] marker appears exactly when size >= cap. |
| Beautify.GroupLines | internal/telegramfmt/beautify.go:21-31 | The grouping loop writes each section's line, with a blank line before each new key that follows a non-empty one. |
| Beautify.FormatCourseInDetails | internal/telegramfmt/beautify.go:12-36 | The sections are sorted (a permutation, with every adjacent pair in order) and listed in groups between the header and the update-time footer. |
| Beautify.SortedGapIffNewRun | internal/telegramfmt/beautify.go:21-31 | In a sorted listing whose first name is not empty, a blank line comes exactly before each section that starts a new run of trimmed names, and never before the first. |
| CourseTypes.TrimNumbersFromPrefix | internal/models/course_types.go:39-43 | The result never starts with a digit, space or hyphen, and it is no longer than the input. |
| CourseTypes.TrimNumbersFromPrefixDrops | internal/models/course_types.go:39-43 | The result is a suffix of the input, and everything dropped is a digit, space or hyphen. |
| CourseTypes.TrimNumbersFromPrefixIdempotent | internal/models/course_types.go:39-43 | Trimming twice is trimming once. |
| CourseTypes.GetPrefixNumbers | internal/models/course_types.go:45-55 | The loop returns the decimal value of the leading digit run, or 0 when the name does not start with a digit. |
| CourseTypes.SectionCompare | internal/models/course_types.go:22-35 | The comparison returns -1, 0 or 1. |
| CourseTypes.SectionCompareIsKeyOrder | internal/models/course_types.go:22-35 | The comparison is 0 exactly when the trimmed names and the prefix numbers are equal. It is negative exactly when (trimmed name, prefix number) is lexicographically smaller. |
| CourseTypes.SectionCompareAntisymmetric | internal/models/course_types.go:22-35 | Swapping the arguments negates the comparison. |
| CourseTypes.SectionCompareTransitive | internal/models/course_types.go:22-35 | "At most 0" is transitive. |
| CourseTypes.NumericPrefixOrder | internal/models/course_types.go:24-30 | Of two sections with the same trimmed name, the one with the smaller prefix number compares below the other, in both argument orders. |
| CourseTypes.TwoBeforeTen | internal/models/course_types.go:24-30 | "2L" sorts before "10L", although "10L" comes first as text. |
| CourseTypes.SortFunc | internal/models/course_types.go:22 | The sort permutes the array in place, and every adjacent pair then compares at most 0. |
| CourseTypes.SortSections | internal/models/course_types.go:21-37 | The sections are sorted in place: a permutation in which every adjacent pair compares at most 0. |
| CourseTypes.SortedPairwise | internal/models/course_types.go:21-37 | In the sorted list, every earlier section compares at most 0 with every later one. |
| CourseTypes.SortedRunsContiguous | internal/models/course_types.go:21-37 | Sections that share a trimmed name are contiguous in the sorted list. |
| Response.MessageFormatter.AddString | internal/telegramfmt/response.go:30-34 | Exactly one HTML text message for the formatter's chat is appended, and earlier messages are unchanged. |
| Response.MessageFormatter.Add | internal/telegramfmt/response.go:26-28 | The message is appended. |
| Response.MessageFormatter.Messages | internal/telegramfmt/response.go:22-24 | The result is the collected messages, in order. |
| Response.MessageFormatter.ImmediateMessage | internal/telegramfmt/response.go:36-39 | The result is every earlier message followed by the new one. |
| Response.MessageFormatter.AddKeyboardToLastMessage | internal/telegramfmt/response.go:41-49 | Only the reply markup of the last message changes, and the length stays the same. |
| Response.MessageFormatter.ImmediateNotFoundCourse | internal/telegramfmt/response.go:51-58 | The result is a one-message answer, and the formatter's list is not touched. |
| Response.MessageFormatter.AddNotFoundCourse | internal/telegramfmt/response.go:60-64 | The "course not found" message is appended. |
| Response.MessageFormatter.ImmediateNotFoundCourseSection | internal/telegramfmt/response.go:66-74 | The result is a one-message answer, and the formatter's list is not touched. |
| Response.MessageFormatter.AddNotFoundCourseSection | internal/telegramfmt/response.go:76-83 | The "section not found" message is appended. |
| Response.MessageFormatter.UnsubscribeOrIgnoreSection | internal/telegramfmt/response.go:85-94 | The last message gets the Ignore ("delete") and Unsubscribe ("unsubscribe_C_S;delete") buttons, and nothing else changes. |
| Response.MessageFormatter.UnsubscribeOrIgnoreCourse | internal/telegramfmt/response.go:96-105 | The last message gets the Ignore ("delete") and Unsubscribe ("unsubscribe_C;delete") buttons, and nothing else changes. |
| Config.MustInt64 | internal/config/config.go:77-83 | A value exists only for a non-empty base-10 text in the int64 range. Everything else is where the source panics. |
| Config.MustInt64Rejects | internal/config/config.go:77-83 | An empty field, or one with a space, makes the source panic. |
| Config.AppendParsed | internal/config/config.go:88-90 | The loop succeeds exactly when every field parses. It appends the parsed values in order after the prefix. |
| Config.ParseInt64Array | internal/config/config.go:85-92 | As written, n fields give 2n values: n zeros followed by the parsed values in order. |
| Config.ParsedNeverEmpty | internal/config/config.go:68-71 | A successful parse is never empty, so the length-zero check cannot fire. The list always contains 0. |
| Config.DuplicateIdsKept | internal/config/config.go:85-92 | Repeated ids are kept: for "5,5" the list as written is exactly [0, 0, 5, 5], and the list as intended is exactly [5, 5]. |
| Config.ParseAdminIDs | internal/config/config.go:85-92 | As intended, the result has one parsed id per field, in input order, and nothing else. |

## Left out

- Goroutines, channels and contexts are left out. This covers the ticker's `run`/`Stop`, the select loop of `Tracker.Start`, the bot's workers, `StatisticsRepository.Run` and `main`. A tick is one method call, and the outgoing channel is the returned message list.
- The unsynchronised `Stats` map is written from several workers. The model runs one handler at a time, so that race is not captured.
- The wall clock is a parameter. In each iteration, `getDuration` reads the clock three times: `time.Now()` twice and `time.Until` once. The lookups call `time.Since`. The model reads one `now` per decision, so it does not capture the clock moving between those reads.
- Fetching the spreadsheet, the xls reader and `ParseExampleData` are left out. A fetch result is a parameter: failed, or rows of optional cell texts.
- CoursesRepository.CourseRepository.Parse: `fetch` panics when the HTTP request itself fails (internal/repositories/cources_repository.go:180-183), and nothing recovers, so a network failure stops the bot. A failed feed (`Err`) stands only for the errors `ParseCourses` returns: a non-200 status, an unreadable workbook or sheet. The model does not capture the crash.
- Tracker.Tick: the lookups in the loop do not refresh again within the tick, because one feed is passed per tick and the snapshot it gives is held throughout.
- `DownloadFile` is left out. The downloaded file is an `Option<string>` parameter.
- The SQL driver, table creation and `Close` are left out. Tables are maps keyed by their primary key, and a failing statement is a parameter.
- `time.Now()` is passed as an extra argument to the DELETE statements. The model performs the intended delete.
- `CheckForValidness` is a function parameter that gives the offending section, if any. `NextTimeToParse` and the `CourseSubscriptionRepository` interface are not part of this model.
- Handlers.MessageHandler.HandleCallback: `UnSubscribeSection` is returned as a list of requests rather than performed, because its implementation is not part of this model.
- Handlers.MessageHandler.HandleCommand: the texts and the work of the routed sub-handlers are returned as a `Route` and not modelled. This covers the welcome, FAQ and donate texts, `ListSubscriptions`, `HandleCourseCode`, `HandleSubscribe`, `HandleUnsubscribe`, `Clear` and `parsestat`.
- Handlers.MessageHandler.HandleUpdate: `Message.IsCommand` and `Command()` come from the Telegram library. An update carries the command name already extracted, or none.
- Message texts are not modelled character for character, and `fmt` width padding is only specified by length. `tapi.EscapeText` is an uninterpreted function.
- CourseTypes.GetPrefixNumbers: the leading digits are read as an unbounded natural number. Go's `int` wrap-around on more than 18 digits is not modelled.
- CoursesRepository.CourseRepository.Parse: the source reads `rows[0]` unconditionally, so a sheet without rows panics. Callers must pass a non-empty sheet.
- CommandArguments.ParseCommandArguments: the source indexes `fields[0]` unconditionally, so text without a word panics. Callers must pass at least one word.
- Response.MessageFormatter.AddKeyboardToLastMessage: the source indexes the last message unconditionally and then asserts it is a text message. An empty formatter panics, and so does one whose last message is not text. Callers must hold a text message last.
- Beautify.FormatCourseInDetails: the source sorts the sections of the course pointer it is handed. That pointer is the repository's own map entry, so every detail view reorders the repository's stored sections in place. The model returns the sorted sections without writing them back, so the stored order is not captured. Section names within a course are unique, so `FindSection` answers the same either way.
- The ticker's test file (internal/ticker/dynamic_ticker_test.go:25-55) expects five windows per deadline: a 1-minute window from D-5m to D+5m, then a 3-minute one. `ParseTimeConfig` builds four windows ending at D, and the model follows that code.
- CourseTypes.SortFunc: an insertion sort stands for Go's `slices.SortFunc`. Only its contract is claimed: sorted pair by pair, and a permutation. The stability and the exact order of equal elements are not.
- Unicode is not modelled. Strings are ASCII, so `ToUpper`, `EqualFold` and the rune loops work byte by byte.
- The files of older revisions are not modelled. These are `internal/telegram`, `internal/repo`, `internal/courses`, `internal/models/section.go`, `internal/handlers/beautify.go` and `internal/handlers/response.go`, plus the duplicate repository files.

## Findings

| source | as written | input that shows it | evidently intended | confidence | as-written member | corrected member |
|---|---|---|---|---|---|---|
| internal/ticker/dynamic_ticker.go:109-110 | When `now + cur` lands in a window, the wait becomes `Till - now`, which reaches the end of that window. | Deadline T, default 30m, decided at T-31m: the 30-minute window sets 30m, T-1m lies in the last window, and the wait becomes 31m. The next tick is at T, so the 15-, 5- and 1-minute windows are never polled. | The wait is cut so that the tick lands on the start of the window it would otherwise jump into, and a window is never skipped. | not executed | Ticker.OvershootAtDeadline | Ticker.IntendedNeverSkips |
| internal/config/config.go:87-89 | `make([]int64, len(fields))` already holds one zero per field, and the loop appends after them. | "5" gives [0, 5]. Every admin list contains the id 0 and is twice as long as the input. | One parsed id per field, and nothing else. | not executed | Config.ParseInt64Array | Config.ParseAdminIDs |
| internal/handlers/middlewares.go:13 | The guard blocks only when the group is empty and yet holds the sender, which can never happen. Both wrappers therefore forward every message. | Group [1], sender 2: the wrapper answers with the inner handler's messages. | A configured group blocks every sender it does not hold, and an empty group lets everyone through. | not executed | Middlewares.OutsiderAnswered | Middlewares.AuthIntended |
| internal/repositories/statistics_repository.go:57-83 | A successful flush adds every in-memory count into the table, but never clears the counters. | Two flushes with one action counted once: the table gains 2 for that action (`FlushTwice`). Every 6-hour flush re-adds the cumulative totals. | The counters restart after a committed flush, so each event is added once. | not executed | StatisticsRepository.FlushTwice | StatisticsRepository.StatisticsRepository.UpsertAndReset |
