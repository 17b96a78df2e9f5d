# Quiz app core, modelled in Dafny

This project models the logic of a quiz web application. Each Dafny module follows one source file:

- **Question bank loading** (`lib/csvParser.ts`) is split in two:
  - `CsvParser` is the quote-aware line splitter `parseCSVLine`.
  - `QuizLoader` covers `parseCSVToQuizzes` and `getCategoryFromTopic`: it drops the header, keeps rows with eight fields, groups them by topic in order of first appearance, and numbers the quizzes.
- **Sign-in** (`lib/auth.ts`, module `Auth`): a fixed list of three accounts. The email is compared case-insensitively and the password exactly.
- **Quiz session** (`app/page.tsx`, module `Session`):
  - login, which restores stored progress;
  - logout;
  - starting a catalog quiz or a custom quiz;
  - grading and crediting a submitted attempt;
  - the answer sheet;
  - the profile average.
- **Legacy shell** (`components/quiz-app.tsx`, module `LegacyApp`):
  - the mock login;
  - the multi-type scoring, which compares lists by their sorted copies;
  - the checkbox toggle.
- **Lobby**, under `components/lobby/`:
  - `LobbyTypes` holds the records of `types.ts`.
  - `LobbyUtils` covers the helpers of `utils.ts`: room codes, player counts, avatars, message sanitising, message ages, and the countdown display and colour.
  - `LobbyHooks` writes each state update of the hooks in `hooks.ts` as a pure step: players, chat, countdown, dialogs, fun facts and practice question.
  - `MockData` holds the fixed data and the random pickers of `mockData.ts`.
  - `LobbyScreen` models the handlers of `LobbyScreen.tsx`, including the start rule and the countdown that starts the quiz.
  - `CreateQuizModal`, `SettingsModal`, `PlayerListPanel` and `ChatBox` model the dialogs and panels of the same names.
- **Shared pieces**:
  - `Basics`: `Option`, `Result`, `Map`, `Filter`, `CountWhere`.
  - `Text`: JavaScript's `trim` and `toLowerCase` on ASCII, decimal numerals, `padStart`.

How the environment is modelled:

- Randomness, clocks and generated ids become parameters. `Math.random()` draws are reals in `[0, 1)`. `Date.now()` becomes `now` or an age in milliseconds.
- Each timer callback is one explicit step, such as `Tick`.
- A stored callback becomes an action token, and the step reports when the token runs.
- `localStorage` progress is a map from user id to the stored pair.

## Model

| member | source | states |
|---|---|---|
| CsvParser.ParseLine | lib/csvParser.ts:98-118 | a line yields one more field than it has commas outside quotes; every field is trimmed and contains no quote character |
| CsvParser.SplitAtUnquotedComma | lib/csvParser.ts:106-110 | a comma preceded by an even number of quotes separates independent parts: the fields of `a,b` are those of `a` followed by those of `b` |
| CsvParser.SingleField | lib/csvParser.ts:103-116 | a line with no separating comma is one field: its text with the quotes deleted, then trimmed |
| CsvParser.ScanWithoutSeparator | lib/csvParser.ts:103-114 | while no separating comma has been read, nothing is pushed and the pending field is the input minus its quote characters |
| CsvParser.RowRoundTrip | lib/csvParser.ts:98-118 | a row written cell by cell (bare cells, or quoted cells that may hold commas) parses back to the cells' texts, trimmed |
| CsvParser.QuotedQuestionRow | app/page.tsx:28 | a row shaped like the bank's quoted-question row parses to its eight fields, the quoted question kept whole with its commas, for any trimmed question without quotes |
| CsvParser.SuperconductorLineFields | app/page.tsx:28 | the bank's line `Physics,"In superconductors, resistance becomes:",Infinite,Zero,Constant,Double,Zero,Hard` parses to eight fields, the question whole with its comma and without its quotes |
| QuizLoader.RowOf | lib/csvParser.ts:41-53 | a parsed line becomes a row exactly when it has at least eight fields; the columns map in order to topic, question, options A-D, correct answer and difficulty |
| QuizLoader.DataRowsSingle | lib/csvParser.ts:40-54 | one data line contributes a row exactly when it has at least seven separating commas, and that row is the one its fields describe |
| QuizLoader.DataRowsAppend | lib/csvParser.ts:40-54 | lines are read independently: the rows of two blocks of lines are the rows of each block, concatenated |
| QuizLoader.GroupByTopicMatches | lib/csvParser.ts:57-64 | the topic map holds one group per distinct topic, in order of first appearance, and each group holds all of its topic's rows in row order, compared against independent reference definitions |
| QuizLoader.CategoryOf | lib/csvParser.ts:125-140 | the category is one of the seven table values; a topic outside the ten-entry table gets "General" |
| QuizLoader.CategoryLookupAsWritten | lib/csvParser.ts:139 | as written, a topic naming an inherited object member yields that member and not a category string; every other topic yields the intended category |
| QuizLoader.CategoryLookupCounterexample | lib/csvParser.ts:139 | the topic `constructor` receives a non-string category, where the table's default would be "General" |
| QuizLoader.MakeQuestion | lib/csvParser.ts:77-83 | the k-th question of a group has id q(k+1), the row's question and correct answer, and options A-D in column order |
| QuizLoader.MakeQuiz | lib/csvParser.ts:71-84 | a quiz has the topic as title, the fixed description, 30 seconds a question but never under 180, the intended table category (see Findings), and one question per row |
| QuizLoader.QuizzesSpec | lib/csvParser.ts:66-90 | the loaded quizzes are one per distinct topic, in first-appearance order, numbered "1", "2", …; each holds exactly its topic's rows, in order, with all fields filled as above (the category being the intended one, see Findings) |
| QuizLoader.QuizzesDistinctIds | lib/csvParser.ts:68-87 | no two loaded quizzes share an id |
| QuizLoader.QuizzesTitles | lib/csvParser.ts:70-73 | the quiz titles are the distinct topics, in order of first appearance |
| QuizLoader.QuizzesDistinctTitles | lib/csvParser.ts:57-73 | no topic is split over two quizzes |
| QuizLoader.QuizzesCover | lib/csvParser.ts:59-73 | every kept row has a quiz titled with its topic |
| QuizLoader.DataLines | lib/csvParser.ts:34-40 | the data lines are the trimmed bank's lines after the first: one per line break, none holding a line break |
| Text.SplitOnJoin | lib/csvParser.ts:34 | `split('\n')` recovers the lines a bank was written from: splitting a join of break-free lines gives those lines back |
| QuizLoader.ParseQuizzesLines | lib/csvParser.ts:33-91 | a bank whose trimmed text is a header line followed by data lines loads exactly the quizzes of those lines' rows, whatever the header holds |
| QuizLoader.HeaderOnly | lib/csvParser.ts:34-40 | an empty bank, or one that is only a header line, loads no quizzes |
| Auth.FindMatch | lib/auth.ts:38-41 | the scan returns the first matching account at or after the start, or the end when none matches |
| Auth.ValidateCredentials | lib/auth.ts:37-44 | an account is returned exactly when some account matches; the returned account is listed and matches |
| Auth.AnyEmail | lib/auth.ts:52 | the `some` scan from a position reports exactly whether an account at or after it has the email, up to case |
| Auth.IsAuthorizedEmail | lib/auth.ts:51-53 | the scan over all accounts is true exactly when some account's email equals the input up to case |
| Auth.ValidImpliesAuthorized | lib/auth.ts:37-53 | credentials that validate always belong to an authorized email |
| Auth.EmailsDistinct | lib/auth.ts:10-29 | the stored emails are pairwise distinct even after lowercasing |
| Auth.AtMostOneMatch | lib/auth.ts:38-41 | no two accounts match the same credentials, so the first match found is the only one |
| Auth.EmailCaseInsensitive | lib/auth.ts:39 | lowercasing the email never changes the outcome |
| Auth.PasswordCaseSensitive | lib/auth.ts:40 | the shared password validates, but its upper-case variant is refused |
| Auth.PaddedEmailRejected | lib/auth.ts:39 | emails are not trimmed: an email with whitespace at either end neither validates nor counts as authorized |
| Session.OrZero | app/page.tsx:210-211 | a stored number is read back when it is present and non-zero; missing values and zeros read as 0 |
| Session.SignedIn | app/page.tsx:197-213 | the signed-in user takes the account's id, name and email, and takes the stored progress when there is some (zero otherwise) |
| Session.Login | app/page.tsx:192-220 | login succeeds exactly when the credentials validate; a failure changes nothing; a success replaces only the user |
| Session.Logout | app/page.tsx:222-226 | logout clears the user, the running quiz and the last attempt, and keeps the stored progress |
| Session.FindQuiz | app/page.tsx:229 | the lookup returns the first catalog quiz with the id, or the end of the catalog |
| Session.StartQuiz | app/page.tsx:228-231 | an unknown id is ignored; a known id makes a catalog quiz with that id the running one; nothing else changes |
| Session.StartCustomQuiz | app/page.tsx:233-235 | the given quiz runs, whatever was running before; user, attempt and store are kept |
| Session.GradeCounts | app/page.tsx:240-246 | the score equals the number of questions whose answer is present, non-empty and equal to the correct answer after trimming both |
| Session.EmptyAnswerNeverCorrect | app/page.tsx:243 | a missing or empty answer never scores |
| Session.GradingCaseSensitive | app/page.tsx:243 | grading ignores surrounding whitespace (" Paris " scores) but not case ("paris" does not) |
| Session.SubmitQuiz | app/page.tsx:237-275 | with no running quiz the result is the error "No active quiz". Otherwise the attempt records the quiz, the answers, the completion time and the count of correct answers (at most the question count); the quiz is cleared; a signed-in user gains one completed quiz and 10 points per correct answer, and that pair is stored |
| Session.SubmitThenLoginKeepsProgress | app/page.tsx:197-271 | progress saved by a submit is read back unchanged when the same user logs out and in again |
| Session.PlayKeepsProgress | app/page.tsx:197-271 | over any number of rounds of starting and submitting a quiz, with or without logging out and in between, the score grows by ten per correct answer and the completed count by one per round |
| Session.RecordAnswer | app/page.tsx:599-601 | recording an answer sets that question's entry and leaves every other entry untouched |
| Session.RecordAnswerLastWins | app/page.tsx:599-601 | when the same question is recorded twice, the second value wins |
| Session.AverageScore | app/page.tsx:743 | the profile average is the score per quiz rounded to nearest with halves up, and 0 before the first quiz |
| LegacyApp.LocalPart | components/quiz-app.tsx:174 | the display name is the longest prefix of the email without `@`; it stops just before the first `@` |
| LegacyApp.Login | components/quiz-app.tsx:171-179 | any credentials sign in as user "1" with the email's local part as name, 850 points and 12 quizzes; quiz and attempt are kept |
| LegacyApp.Logout | components/quiz-app.tsx:181-185 | logout clears user, quiz and attempt |
| LegacyApp.Sort | components/quiz-app.tsx:199 | sorting yields a sorted permutation of the list under code-unit order |
| LegacyApp.SortedUnique | components/quiz-app.tsx:199 | two sorted lists with the same elements, counted with multiplicity, are equal |
| LegacyApp.SortedEqualIffPermutation | components/quiz-app.tsx:199 | sorted copies agree exactly when the lists are permutations of each other |
| LegacyApp.IsCorrectSpec | components/quiz-app.tsx:196-206 | a list answer scores exactly when it is a permutation of the correct list; a string scores when equal after lowercasing and trimming; mixed kinds and missing answers never score |
| LegacyApp.GradeCounts | components/quiz-app.tsx:195-207 | the score equals the number of correctly answered questions |
| LegacyApp.SubmitQuiz | components/quiz-app.tsx:192-229 | "No active quiz" without a running quiz; otherwise the attempt holds the correct count and the completion time, the quiz is cleared, and a signed-in user gains one quiz and 10 points per correct answer |
| LegacyApp.RemoveAll | components/quiz-app.tsx:482 | unticking deletes every copy of the option and keeps all other elements with their multiplicities and in their order: the result is the order-keeping filter of the list |
| LegacyApp.RemoveAllAppend | components/quiz-app.tsx:482 | unticking distributes over concatenation, so the entries that stay keep their relative order |
| LegacyApp.ToggleOption | components/quiz-app.tsx:480-484 | ticking appends the option to the ticked list; unticking removes all its copies and keeps the other entries in order and number (the order-keeping filter); other questions are untouched |
| LegacyApp.TickUntick | components/quiz-app.tsx:480-484 | ticking and then unticking an option that was not ticked restores the ticked list |
| LobbyUtils.MatchRoomCodeChars | components/lobby/utils.ts:92 | matching `[A-Z0-9]{n}$` succeeds exactly on strings of length n made of upper-case letters and digits |
| LobbyUtils.IsValidRoomCode | components/lobby/utils.ts:91-93 | a valid room code is exactly six upper-case letters or digits |
| LobbyUtils.RoomCodeCaseMatters | components/lobby/utils.ts:92 | the pattern is case-sensitive: "ABC123" is valid and "abc123" is not |
| LobbyUtils.ReadyPlayerCount | components/lobby/utils.ts:98-100 | the ready count counts every ready player, online or not |
| LobbyUtils.OnlinePlayerCount | components/lobby/utils.ts:105-107 | the online count counts the online players |
| LobbyUtils.ReadyCountIgnoresPresence | components/lobby/utils.ts:98-107 | an offline ready player counts as ready even when nobody is online |
| LobbyUtils.AreAllPlayersReady | components/lobby/utils.ts:112-115 | all are ready exactly when someone is online and every online player is ready; offline players are ignored |
| LobbyUtils.GenerateAvatar | components/lobby/utils.ts:120-124 | the avatar is always one of the ten avatars |
| LobbyUtils.AvatarByLength | components/lobby/utils.ts:120-124 | the avatar is indexed by the name's length modulo ten: the empty name gets the first avatar, a one-letter name the second, a ten-letter name the first again |
| LobbyUtils.AvatarsDistinct | components/lobby/utils.ts:121 | the ten avatars are pairwise different |
| LobbyUtils.SameAvatarIff | components/lobby/utils.ts:120-124 | two usernames get the same avatar exactly when their lengths agree modulo ten |
| LobbyUtils.SanitizeMessage | components/lobby/utils.ts:129-134 | a sanitised message has at most 200 characters and no angle bracket |
| LobbyUtils.SanitizeKeepsInputChars | components/lobby/utils.ts:129-134 | sanitising introduces no character: everything in the output was in the input and is not a bracket |
| LobbyUtils.SanitizeFixedPoint | components/lobby/utils.ts:129-134 | sanitising leaves a message unchanged exactly when it is trimmed, at most 200 characters long, and bracket-free |
| LobbyUtils.SanitizeNotIdempotent | components/lobby/utils.ts:129-134 | sanitising twice can differ from sanitising once: "< a" becomes " a", then "a" |
| LobbyUtils.FormatMessageTime | components/lobby/utils.ts:63-86 | "Just now" exactly under a minute, including future times; the date exactly from a day on; minutes below an hour and hours below a day otherwise |
| LobbyUtils.FormatMessageTimeAmount | components/lobby/utils.ts:63-86 | any amount a relative label shows is the age rounded down, in whole minutes from 1 to 59 or whole hours from 1 to 23 |
| LobbyUtils.FormatCountdownTime | components/lobby/utils.ts:146-153 | the display is "0:00" when no time is left, and otherwise digits, a colon and two digits |
| LobbyUtils.PaddedSecondsValue | components/lobby/utils.ts:152 | seconds below 60, padded, are two digits that read back as the seconds |
| LobbyUtils.FormatCountdownTimeReadsBack | components/lobby/utils.ts:146-153 | a positive time's display has no leading zero in the minutes and seconds below 60, and 60·minutes + seconds read back is the time |
| LobbyUtils.FormatCountdownTimeInjective | components/lobby/utils.ts:146-153 | different positive times never share a display |
| LobbyUtils.GetCountdownColor | components/lobby/utils.ts:158-164 | green above 60 % of the total, yellow above 30 %, red otherwise, stated with integers for either sign of the total; a zero total gives green for positive time left and red otherwise |
| LobbyUtils.CountdownColorMonotone | components/lobby/utils.ts:158-164 | with a fixed positive total, less time left never gives a colour nearer to green |
| LobbyHooks.UpdatePlayerReady | components/lobby/hooks.ts:39-43 | exactly the players with the id have `isReady` flipped; nothing else and no order changes |
| LobbyHooks.UpdatePlayerReadyInvolution | components/lobby/hooks.ts:39-43 | toggling the same player twice restores the list |
| LobbyHooks.UpdatePlayerReadyCount | components/lobby/hooks.ts:39-43 | with unique ids, toggling an online player moves the online-and-ready count by exactly one |
| LobbyHooks.SimulateReadyChanges | components/lobby/hooks.ts:23-37 | a player's readiness flips exactly when the round's draw exceeds 0.8, the player is not the host, and the player's own draw exceeds 0.7; nothing else changes |
| LobbyHooks.SimulationSparesHosts | components/lobby/hooks.ts:28 | the simulation never changes a host |
| LobbyHooks.KickPlayer | components/lobby/hooks.ts:45-47 | after a kick, exactly the players without that id remain |
| LobbyHooks.KickPlayerAppend | components/lobby/hooks.ts:46 | kicking works element by element, so the remaining players keep their order |
| LobbyHooks.KickPlayerAbsent | components/lobby/hooks.ts:46 | kicking an id nobody has changes nothing |
| LobbyHooks.KickPlayerCount | components/lobby/hooks.ts:46 | the list shrinks by exactly the number of players with that id |
| LobbyHooks.AddChatMessage | components/lobby/hooks.ts:49-56 | one message with the sender, content, type, id and time is appended, and earlier messages stay as they were |
| LobbyHooks.StartCountdown | components/lobby/hooks.ts:78-82 | the countdown runs and is not complete; a truthy duration replaces the time, any other keeps it |
| LobbyHooks.StopCountdown | components/lobby/hooks.ts:84-90 | the countdown pauses and keeps its time and completion flag |
| LobbyHooks.ResetCountdown | components/lobby/hooks.ts:92-96 | the countdown is stopped, not complete, and set to the truthy duration, or else to the initial time |
| LobbyHooks.Tick | components/lobby/hooks.ts:98-120 | without a running countdown with time left nothing happens; from one second or less the countdown ends at zero, inactive and complete; otherwise it loses one second |
| LobbyHooks.TicksStayNonNegative | components/lobby/hooks.ts:101-108 | ticking never drives a non-negative time below zero or raises it |
| LobbyHooks.CountdownCompletes | components/lobby/hooks.ts:98-120 | a running countdown from t seconds counts down one per tick and completes after exactly t ticks |
| LobbyHooks.OpenSettingsModal | components/lobby/hooks.ts:173 | the settings dialog shows and the other dialogs are unaffected |
| LobbyHooks.CloseSettingsModal | components/lobby/hooks.ts:174 | the settings dialog hides and the other dialogs are unaffected |
| LobbyHooks.OpenRulesModal | components/lobby/hooks.ts:176 | the rules dialog shows and the other dialogs are unaffected |
| LobbyHooks.CloseRulesModal | components/lobby/hooks.ts:177 | the rules dialog hides and the other dialogs are unaffected |
| LobbyHooks.OpenThenCloseRestores | components/lobby/hooks.ts:173-177 | opening a closed dialog and closing it again restores every dialog; opening settings and opening rules commute |
| LobbyHooks.OpenConfirmModal | components/lobby/hooks.ts:179-182 | the confirm dialog shows with the given action stored; the other dialogs are kept |
| LobbyHooks.CloseConfirmModal | components/lobby/hooks.ts:184-187 | the confirm dialog hides and forgets its action; the other dialogs are kept |
| LobbyHooks.ExecuteConfirmAction | components/lobby/hooks.ts:189-194 | the stored action, if any, runs exactly once, and the dialog closes |
| LobbyHooks.ConfirmRunsAtMostOnce | components/lobby/hooks.ts:189-194 | confirming twice runs the stored action at most once in total |
| LobbyHooks.NextFactIndex | components/lobby/hooks.ts:216-224 | with facts present the index always stays in range; with none no timer runs and the index stays |
| LobbyHooks.RotateFromStart | components/lobby/hooks.ts:220 | after n firings from the start, the index is n modulo the number of facts |
| LobbyHooks.CurrentFact | components/lobby/hooks.ts:227 | the shown fact is the one at the index, or "" when the index names no fact |
| LobbyHooks.SelectAnswer | components/lobby/hooks.ts:278-282 | a selection is ignored once the question is answered, and otherwise replaces the previous one |
| LobbyHooks.SubmitAnswer | components/lobby/hooks.ts:284-289 | a submit takes effect only with a non-empty selection and before an answer, and then marks the question answered and shows the result |
| LobbyHooks.ResetPractice | components/lobby/hooks.ts:291-295 | a reset clears the selection, the result and the answered flag |
| LobbyHooks.PracticeRunValid | components/lobby/hooks.ts:273-305 | after any sequence of events the result shows exactly when the question is answered, and an answered question has a selection |
| LobbyHooks.AnsweredIsFrozen | components/lobby/hooks.ts:278-289 | once answered, no sequence of selections and submits changes anything |
| MockData.MockPlayersWellFormed | components/lobby/mockData.ts:6-39 | the mock players have distinct ids, only the first is the host, and every avatar is one `generateAvatar` can produce |
| MockData.MockChatMessages | components/lobby/mockData.ts:42-83 | the five mock messages have strictly increasing times, all before now, and each is sent by a mock player under that player's name |
| MockData.MockLeaderboardConsistent | components/lobby/mockData.ts:96-118 | the leaderboard is ranked 1, 2, 3 by strictly falling score, and each entry names a mock player with that player's name and avatar |
| MockData.PracticeAnswersListed | components/lobby/mockData.ts:121-148 | every practice question lists its correct answer among its options |
| MockData.PickIndex | components/lobby/mockData.ts:188 | `Math.floor(r * n)` for a draw in [0, 1) is a valid index, the floor of the scaled draw |
| MockData.PickIndexCovers | components/lobby/mockData.ts:188 | every index is reached by some draw |
| MockData.RoomCodeAlphabetIsClass | components/lobby/mockData.ts:185 | the generator's 36-character alphabet is exactly the character class the validator accepts |
| MockData.GenerateRoomCode | components/lobby/mockData.ts:184-191 | the generated code always passes `isValidRoomCode`, and character i is the one picked by draw i |
| MockData.DrawFor | components/lobby/mockData.ts:188 | every room-code character has a draw in [0, 1) that picks it |
| MockData.GeneratableIffValid | components/lobby/mockData.ts:184-191 | the codes the generator can produce are exactly the valid room codes |
| MockData.GetRandomPracticeQuestion | components/lobby/mockData.ts:194-196 | the pick is always one of the practice questions |
| MockData.GetRandomFunFact | components/lobby/mockData.ts:199-201 | the pick is always one of the fun facts |
| CreateQuizModal.AddQuestion | components/lobby/components/CreateQuizModal.tsx:24-33 | one blank question with the new id and four empty options is appended; earlier questions stay |
| CreateQuizModal.RemoveQuestion | components/lobby/components/CreateQuizModal.tsx:35-39 | a single question is never removed; otherwise exactly the questions with the id go, every other question stays as often as before, the list shrinks by their number, and the result is the order-keeping `filter` |
| CreateQuizModal.RemoveKeepsOne | components/lobby/components/CreateQuizModal.tsx:35-39 | with distinct ids, removing never empties the form |
| CreateQuizModal.RemoveWithDuplicateIds | components/lobby/components/CreateQuizModal.tsx:35-39 | when two questions share an id, removing that id empties the form |
| CreateQuizModal.UpdateQuestion | components/lobby/components/CreateQuizModal.tsx:41-45 | the edited field changes on the questions with the id; other fields and other questions are unchanged |
| CreateQuizModal.ReplaceOption | components/lobby/components/CreateQuizModal.tsx:50 | only the option at the index changes; an index out of range changes nothing |
| CreateQuizModal.UpdateOption | components/lobby/components/CreateQuizModal.tsx:47-53 | the option at the index changes on the questions with the id; everything else is unchanged |
| CreateQuizModal.TwoOptionsIff | components/lobby/components/CreateQuizModal.tsx:67-70 | the option check passes exactly when two different positions hold non-blank options |
| CreateQuizModal.CorrectAnswerNotTrimmed | components/lobby/components/CreateQuizModal.tsx:72 | the correct answer must equal an option exactly: " a" is refused against option "a" |
| CreateQuizModal.BlankQuestionInvalid | components/lobby/components/CreateQuizModal.tsx:13-21 | the blank starting question never validates |
| CreateQuizModal.CheckQuestion | components/lobby/components/CreateQuizModal.tsx:62-75 | checking a question keeps earlier errors and the title error, leaves the errors empty exactly when they were empty and the question is valid, flags each failing test, and adds no key other than those of the tests the question fails |
| CreateQuizModal.ValidateQuiz | components/lobby/components/CreateQuizModal.tsx:55-79 | the form passes exactly when the title is not blank and every question is valid, which is exactly when no error is recorded; the title error appears exactly for a blank title; every failing test of every question is flagged under its key, and every key is "title" or the key of a failing test |
| CreateQuizModal.HandleSave | components/lobby/components/CreateQuizModal.tsx:81-89 | a valid form hands over its title and all its questions and is reset; an invalid one hands over nothing, keeps its contents and shows errors: "title" exactly for a blank title, the key of every failing test, and no other key |
| CreateQuizModal.HandleClose | components/lobby/components/CreateQuizModal.tsx:91-102 | closing leaves an empty title, no errors and a single blank question "1", which is not valid |
| SettingsModal.ValidateSettings | components/lobby/components/SettingsModal.tsx:24-37 | there is one error per field out of range (5-50 questions, 10-300 seconds), with its message, and the settings pass exactly when there is none |
| SettingsModal.HandleSave | components/lobby/components/SettingsModal.tsx:39-43 | the draft is handed over exactly when both fields are in range; the errors found replace the old ones |
| SettingsModal.HandleInputChange | components/lobby/components/SettingsModal.tsx:45-51 | the edited field takes the new value and every other field keeps its own; only the edited field's error is cleared |
| SettingsModal.Open | components/lobby/components/SettingsModal.tsx:17-22 | opening shows the current settings with no errors |
| SettingsModal.ParseIntRoundTrip | components/lobby/components/SettingsModal.tsx:142 | a printed non-negative number parses back to itself |
| SettingsModal.ParseIntNoDigits | components/lobby/components/SettingsModal.tsx:142 | text that does not start with a space, sign or digit parses to NaN |
| SettingsModal.NumberOr | components/lobby/components/SettingsModal.tsx:142 | a parsed non-zero number is taken; NaN and zero fall back |
| SettingsModal.NumericFallbacks | components/lobby/components/SettingsModal.tsx:142-165 | an empty or zero input falls back to 10 questions and 30 seconds; a printed positive number is taken as typed |
| SettingsModal.FallbacksInRange | components/lobby/components/SettingsModal.tsx:142-165 | both fallbacks lie inside the accepted ranges |
| SettingsModal.EstimatedMinutes | components/lobby/components/SettingsModal.tsx:224 | the estimate is the least whole number of minutes covering all the questions' time |
| SettingsModal.EstimatedMinutesBounds | components/lobby/components/SettingsModal.tsx:224 | valid settings estimate between 1 and 250 minutes |
| PlayerListPanel.HandleReadyToggle | components/lobby/components/PlayerListPanel.tsx:14-18 | a click on another player's row does nothing; a click on the own row toggles only the current user |
| PlayerListPanel.ClickReadyButton | components/lobby/components/PlayerListPanel.tsx:113-116 | the ready button of an offline row is not rendered and that of another player's row is disabled, so such clicks change nothing |
| PlayerListPanel.ReadyClickGuard | components/lobby/components/PlayerListPanel.tsx:113-116 | a click on a listed player's ready button changes the list exactly when the button is rendered (online) and enabled (own row) |
| PlayerListPanel.HandleKickPlayer | components/lobby/components/PlayerListPanel.tsx:20-24 | only a host with a kick handler kicks; the current user is never removed |
| PlayerListPanel.KickGuardMatchesButton | components/lobby/components/PlayerListPanel.tsx:143 | a click removes the listed player exactly when that row shows a kick button |
| PlayerListPanel.OnlineStat | components/lobby/components/PlayerListPanel.tsx:30 | the header and statistics show the number of online players |
| PlayerListPanel.ReadyStat | components/lobby/components/PlayerListPanel.tsx:174 | the ready statistic counts the players who are both online and ready |
| PlayerListPanel.StatsOrdered | components/lobby/components/PlayerListPanel.tsx:174-180 | ready ≤ online ≤ listed; the panel's ready count never exceeds `getReadyPlayerCount` |
| PlayerListPanel.OwnToggleMovesReadyStat | components/lobby/components/PlayerListPanel.tsx:115-116 | with unique ids, an online user's own ready click moves the ready statistic by exactly one |
| ChatBox.HandleSendMessage | components/lobby/components/ChatBox.tsx:21-28 | a message is sent exactly when the trimmed input is non-empty and at most 200 characters; it is then sanitised and the input cleared; otherwise the input stays |
| ChatBox.SentIsTrimmedWithoutBrackets | components/lobby/components/ChatBox.tsx:22-24 | what is sent is the trimmed input with its brackets deleted; nothing is cut off |
| ChatBox.HandleEmojiClick | components/lobby/components/ChatBox.tsx:37-40 | picking an emoji hands it over unchanged and closes the picker, whatever its state |
| ChatBox.EmojiPickerCycle | components/lobby/components/ChatBox.tsx:37-40 | opening the picker and picking sends the emoji and leaves the picker closed, as a second press of the smiley button would |
| ChatBox.BracketsOnlySendsEmpty | components/lobby/components/ChatBox.tsx:23-24 | an input of only brackets passes the emptiness test and sends the empty string |
| LobbyScreen.ChooseRoomCode | components/lobby/LobbyScreen.tsx:35 | a non-empty code that is passed in is kept; otherwise a generated, valid one is used |
| LobbyScreen.OpenLobby | components/lobby/LobbyScreen.tsx:35-66 | the lobby opens with the mock players, an empty chat, the default settings, a stopped ten-second countdown and every dialog closed; those settings lie in the dialog's ranges and name a topic it offers |
| LobbyScreen.CanStartQuiz | components/lobby/LobbyScreen.tsx:111-112 | the quiz can start exactly when at least two players are online and one online player is ready |
| LobbyScreen.StartWithoutEveryoneReady | components/lobby/LobbyScreen.tsx:111-112 | the mock lobby can start although one online player is not ready |
| LobbyScreen.AllReadyCanStart | components/lobby/LobbyScreen.tsx:111-112 | when all online players are ready, two online players suffice to start |
| LobbyScreen.StartQuiz | components/lobby/LobbyScreen.tsx:76-78 | pressing start runs a fresh ten-second countdown and changes nothing else |
| LobbyScreen.TickLobby | components/lobby/LobbyScreen.tsx:69-73 | one second of the lobby starts the quiz exactly when the countdown's completion flag turns on |
| LobbyScreen.QuizStartsOnTenthTick | components/lobby/LobbyScreen.tsx:69-78 | after start, the quiz starts on the tenth second and on no earlier one |
| LobbyScreen.CancelCountdown | components/lobby/LobbyScreen.tsx:166 | the host's cancel pauses the countdown, keeping its time; anyone else has no cancel and changes nothing |
| LobbyScreen.EditSettings | components/lobby/LobbyScreen.tsx:80-82 | editing opens the settings dialog and changes nothing else |
| LobbyScreen.SaveSettings | components/lobby/LobbyScreen.tsx:88-91 | saving replaces the settings and closes only the settings dialog |
| LobbyScreen.Kick | components/lobby/LobbyScreen.tsx:84-86 | kicking removes exactly the players with the id and nothing else |
| LobbyScreen.SendMessage | components/lobby/LobbyScreen.tsx:93-100 | a text message from the current user is appended to the chat |
| LobbyScreen.SendEmoji | components/lobby/LobbyScreen.tsx:102-109 | an emoji message from the current user, with the emoji unchanged, is appended to the chat |
| LobbyScreen.EmojiClick | components/lobby/components/ChatBox.tsx:37-40 | picking an emoji posts the current user's emoji message, changes nothing else in the lobby, and closes the picker |
| LobbyScreen.PostedMessagesAreOwn | components/lobby/components/ChatBox.tsx:42 | what the current user posts, by text or emoji, counts as an own message for that user and for nobody else |
| LobbyScreen.ChatSendPostsSafeText | components/lobby/LobbyScreen.tsx:93-100 | the chat grows by one message exactly when the input is sendable; that message is the user's text message of at most 200 characters without brackets; otherwise nothing changes |

## Left out

- Browser and React plumbing is not modelled:
  - `localStorage` as a device, JSON encoding, `useEffect` scheduling and rendering;
  - JSX, routing between pages, and the animation variants;
  - the clipboard, share, debounce and scroll helpers of `utils.ts`, and the `useChatScroll` and `useClipboard` hooks. These need DOM elements, timers or browser APIs.
- The lobby components outside the core are not modelled: HostControls, CountdownTimer, RulesModal, RoomCodeCard, QuizInfoCard, FunFactWidget, LeaderboardSnapshot and MiniPracticeQuiz. Only their wiring into `LobbyScreen.tsx` is modelled: the kick handler and cancel button given only to the host, and the countdown.
- Randomness and time are parameters:
  - `Math.random()`, `Date.now()`, `new Date()` and the generated message ids (`generateMessageId`) are given by the caller. `submitQuiz` stamps the attempt with `new Date()`; the model stamps it with the `now` argument, in milliseconds.
  - `formatMessageTime` receives the age of the message rather than reading the clock.
  - Its date form (`toLocaleDateString`) depends on the locale and is kept abstract.
  - The ready simulation takes one draw per player position. The source draws only for non-hosts, because `!player.isHost && Math.random() > 0.7` short-circuits, so its k-th draw goes to the k-th non-host. The per-position draws are a re-indexing of those draws, and the draw at a host's position is unused.
- Strings are sequences of code points, while JavaScript counts UTF-16 code units. `trim` and `toLowerCase` are modelled on ASCII only, so non-ASCII whitespace and letters are not covered.
- Division and floating point:
  - `getCountdownColor` divides exact reals; the model does not round to binary64.
  - A zero total is modelled as the signed infinity or NaN comparison it produces.
- `parseInt` is modelled in base ten with optional leading whitespace and a sign. The `0x` prefix and other radix forms are not modelled.
- `Array.prototype.sort` in the legacy scoring sorts the answer arrays in place. The model compares sorted copies; the mutation of the stored answers is not modelled.
- Answer values in `app/page.tsx`:
  - The quiz page writes only strings there, so answers are a map to strings.
  - An array answer would make `.trim()` throw; that case is not modelled.
- QuizLoader.MakeQuiz: the category is the intended table lookup (`CategoryOf`). For a topic naming an inherited object member, such as `constructor`, the code as written stores that member instead; `CategoryLookupAsWritten` models that, see Findings.
- QuizLoader.QuizzesSpec: the same holds for the loaded quizzes' categories, and for `QuizzesOf`, `ParseQuizzes` and `ParseQuizzesLines`, which build on `MakeQuiz`.
- CreateQuizModal.CheckQuestion: it does not state the three error messages' texts ("Question n is required" and the other two). It only states which keys are present.
- CreateQuizModal.HandleClose: `handleClose` also calls the `onClose` callback, which is not modelled. A successful `HandleSave` resets the form through it.
- `LegacyApp`: `startQuiz` is the same as in `app/page.tsx`, which `Session.StartQuiz` models. The legacy results page and profile are not modelled.
- `SettingsModal`: the topic and difficulty inputs are free edits (`SetTopic`, `SetDifficulty`). The choice among `availableTopics` made by the select element is not enforced.
- `ChatBox`: the input's `maxLength={200}` attribute is not modelled; the model also handles longer inputs, which the send guard refuses. Enter without Shift (`handleKeyPress`) is the same send; refocusing the input and scrolling are not modelled.

## Findings

| source | as written | input that shows it | evidently intended | confidence | as-written member | corrected member |
|---|---|---|---|---|---|---|
| lib/csvParser.ts:139 | `categoryMap[topic] \|\| 'General'` reads through the object's prototype, so a topic naming an inherited member (`constructor`, `toString`, `__proto__`, …) yields that function or object as the quiz's category | a bank row whose topic is `constructor` | the table's categories, and "General" for every topic not in the table | medium, not executed | QuizLoader.CategoryLookupAsWritten | QuizLoader.CategoryOf |
