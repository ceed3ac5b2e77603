# Goblin AI bot: per-message bookkeeping in Dafny

This project models what the Goblin AI Telegram bot records and counts for each
message it handles:

- who may send, through the flood guard and the quota ledger;
- what gets filed, in the dialog store and the message log;
- how the model's context is assembled;
- how referral bonuses are credited;
- how reminder phrases are read and due reminders selected;
- how users and profiles are registered;
- what the admin reports count.

Every database table is an immutable sequence of records. Every service call is
a pure function from the tables (and a time `now`, in milliseconds) to the new
tables and the call's result. Calls that throw are modelled with a `Result`.
Where a call writes something and then throws, it returns the state as saved
together with the error.

The OpenAI calls and `JSON.stringify` are foreign code. They are the
function-valued fields of `Telegram.Env`: `chat` takes a context to a reply,
`describe` and `readText` take a file to a text, and `stringify` renders a
profile. The OpenAI wrappers catch every error and return a fallback text
(`chat` at src/modules/openai/openai.service.ts:14-30, `analyzeImage` at
32-65, `extractTextFromImage` at 67-100), so these functions are total.

Modules, one per service:

| module | file | models |
|---|---|---|
| `Base` | base.dfy | `Option`/`Result`; first-match lookup, filter and count; stable insertion sort; `String(n)`; JavaScript `parseInt`; `\s` and `\d` |
| `SpamGuard` | spam.dfy | `checkSpam` |
| `Quiz` | quiz.dfy | the quiz answer store |
| `Users` | users.dfy | `UsersService` |
| `Tariffs` | tariffs.dfy | `TariffsService` |
| `Dialogs` | dialogs.dfy | `DialogsService` |
| `Referrals` | referrals.dfy | `ReferralsService` |
| `Reminders` | reminders.dfy | `RemindersService` |
| `Admin` | admin.dfy | `AdminService` |
| `Telegram` | telegram.dfy | the `/start`, text, photo and document handlers |

Modelling conventions:

- **Ids.** Append-only tables use serial ids, so row `i` has id `i + 1`. Reminders can be deleted, so their table carries a next-id counter.
- **Query order.** `order: { created_at }` is taken to be log order. `Dialogs.DialogMessagesAscending` shows that log order is one order consistent with `ORDER BY created_at` whenever the log was written by a clock that never runs backwards; rows with equal timestamps may come back in another order (see "## Left out").
- **Prices.** Prices are integer cents.
- **Dates.** Day arithmetic (`setDate`, `setHours`) is done in UTC: a day is 86 400 000 ms and starts at a multiple of it (`Reminders.DayStart`).

## Model

| member | source | states |
|---|---|---|
| SpamGuard.CheckSpam | src/modules/telegram/telegram.service.ts:690-722 | A missing window, or one opened more than 60 000 ms ago, is replaced by a window of count 1 and the message is admitted; at exactly 60 000 ms the old window still applies. Within a window the count grows on every message, and the message is admitted iff the new count is at most 5. Each rejection adds one warning: rejections 1 and 2 get numbered warnings, every later one the ban notice. Admitting never resets the warnings. Other senders are untouched. |
| SpamGuard.BurstInOneWindow | src/modules/telegram/telegram.service.ts:695-721 | For any burst that opens a window and stays within 60 000 ms of its start: messages 1-5 are admitted and every later one is rejected. The window's count equals the burst length. The warnings grow by one per rejection from the sender's earlier total. |
| SpamGuard.EightMessagesInOneMinute | src/modules/telegram/telegram.service.ts:701-717 | Eight messages within one minute from a new sender: five admitted, then warning 1/3, warning 2/3, then the ban notice. |
| SpamGuard.AdmittedAfterBanNotice | src/modules/telegram/telegram.service.ts:695-714 | There is no ban state. A sender with three warnings is admitted again once the window has run out, and keeps the three warnings. |
| Quiz.StartQuiz | src/modules/telegram/telegram.service.ts:622-635 | Showing a question stores its correct answer for the sender, replacing any open one. Other senders' entries are kept. |
| Quiz.AnswerIndexOf | src/modules/telegram/telegram.service.ts:652-654 | Button data `quiz_answer_a`..`_d` maps to positions 0..3, and any other data to 3. |
| Quiz.HandleQuizAnswer | src/modules/telegram/telegram.service.ts:643-685 | With nothing stored the quiz has expired. Otherwise the answer is correct iff its position equals the stored one; a wrong answer reports the correct letter. Either way the sender's entry is deleted and no other entry changes. |
| Quiz.AnsweredOnce | src/modules/telegram/telegram.service.ts:645-650 | A second answer to the same question reports expiry, because the first answer consumed it. |
| Quiz.CorrectButtonWins | src/modules/telegram/telegram.service.ts:626-656 | Pressing the button of the shown question's correct answer is judged correct. |
| Users.FindById | src/modules/referrals/referrals.service.ts:83-84 | Lookup by primary key: a result is a stored user with that id, and no result means no user has it. |
| Users.FindOrCreate | src/modules/users/users.service.ts:16-27 | The returned user has the Telegram id and is stored. A known Telegram id returns the stored user: names are not updated and nothing is saved. An unknown one appends exactly one user with the given names. |
| Users.FindOrCreateIdempotent | src/modules/users/users.service.ts:17-26 | A second call with the same Telegram id, whatever names it passes, returns the same user and adds no record. |
| Users.FindOrCreatePreservesValid | src/modules/users/users.service.ts:16-27 | Find-or-create keeps ids serial and Telegram ids unique. |
| Users.GetProfile | src/modules/users/users.service.ts:29-31 | The user's profile if any: a stored profile of that user; no result iff the user has none. |
| Users.UpdateProfile | src/modules/users/users.service.ts:33-41 | Reading the profile back gives the saved one. With no profile, exactly one row is added, holding the patch's fields and null elsewhere. With a profile, the row count and id are kept, the fields present in the patch are overwritten and the rest kept. Other users' profiles are unchanged. |
| Users.Merge | src/modules/users/users.service.ts:37 | A field absent from the patch keeps its value; a present one, even a null, replaces it. |
| Users.MergeIdempotent | src/modules/users/users.service.ts:37 | Applying a patch twice is applying it once; of two patches, the later one wins where it has the field. |
| Tariffs.FindTariff | src/modules/tariffs/tariffs.service.ts:20 | Lookup by name: a result is a catalogue tariff of that name; no result iff there is none. |
| Tariffs.TariffById | src/modules/tariffs/tariffs.service.ts:47 | The tariff joined to a grant: a catalogue tariff with that id; no result iff there is none; with serial ids, the row at position id − 1. |
| Tariffs.SeedTariff | src/modules/tariffs/tariffs.service.ts:20-29 | Seeding a tariff appends it only when no tariff of its name exists. |
| Tariffs.SeedTariffLookup | src/modules/tariffs/tariffs.service.ts:20-41 | After seeding, the lookup of any name is unchanged, except that the seeded name now finds the seeded tariff when it found nothing before. The count of the seeded name becomes at least one; other counts are unchanged. |
| Tariffs.CreateDefaultTariffs | src/modules/tariffs/tariffs.service.ts:19-42 | Existing rows are kept as a prefix and at most two rows are added. |
| Tariffs.CreateDefaultTariffsFree | src/modules/tariffs/tariffs.service.ts:20-29 | Free is found as before, or as the seeded row (package, 10 messages, price 0) with the next id; its count becomes exactly one unless it was already higher. |
| Tariffs.CreateDefaultTariffsPremium | src/modules/tariffs/tariffs.service.ts:31-41 | Premium is found as before, or as the seeded last row (subscription, 1000 messages, 30 days, 9.99); its count becomes exactly one unless it was already higher. |
| Tariffs.SeedTwice | src/modules/tariffs/tariffs.service.ts:19-42 | Seeding Free and then Premium gives each of the two names the lookup and count above. |
| Tariffs.CreateDefaultTariffsIdempotent | src/modules/tariffs/tariffs.service.ts:19-42 | Running the seeding twice is running it once. |
| Tariffs.CreateDefaultTariffsFromEmpty | src/modules/tariffs/tariffs.service.ts:19-42 | An empty catalogue is seeded with exactly Free (id 1) and Premium (id 2). |
| Tariffs.GetUserTariff | src/modules/tariffs/tariffs.service.ts:44-49 | A result is one of the user's active grants; no result iff the user has none. |
| Tariffs.ExpiryIsPermanent | src/modules/tariffs/tariffs.service.ts:76 | A grant expired at one time stays expired later, and one without an end date never expires. |
| Tariffs.AssignFreeTariff | src/modules/tariffs/tariffs.service.ts:51-65 | Throws iff the catalogue has no Free tariff. Otherwise exactly one grant is appended: active, on Free, with Free's allotment, starting now and never ending. |
| Tariffs.NewGrant | src/modules/tariffs/tariffs.service.ts:57-62 | The saved grant takes the next serial id, is active for the user on the tariff with its full allotment from now, and is expired at once only if its end date is already past. |
| Tariffs.AssignFreeTariffFound | src/modules/tariffs/tariffs.service.ts:51-65 | For a user with no active grant, the new Free grant is the last row, holds Free's message limit, and is the one `getUserTariff` finds afterwards. |
| Tariffs.AssignFreeTariffPreservesValid | src/modules/tariffs/tariffs.service.ts:51-65 | Assigning Free to a user with no active grant keeps the ledger invariant. |
| Tariffs.Deactivate | src/modules/tariffs/tariffs.service.ts:77-78 | Saving one grant inactive changes that grant's flag and nothing else. |
| Tariffs.DeactivatePreservesValid | src/modules/tariffs/tariffs.service.ts:76-78 | Saving the user's active grant inactive keeps the ledger invariant and leaves the user with no active grant. |
| Tariffs.CanUserSendMessage | src/modules/tariffs/tariffs.service.ts:67-85 | With no active grant, a Free grant is created and the answer is yes (an error if Free is missing). An active grant whose end is strictly before now is deactivated first, then replaced the same way; a grant with no end never expires. A current grant changes nothing, and the answer is whether its balance is positive. The answer is "no" exactly when a current grant has run out. |
| Tariffs.DeductMessage | src/modules/tariffs/tariffs.service.ts:87-93 | Takes exactly one message off the active grant when its balance is positive. Otherwise nothing changes, and no other grant is touched. A non-negative balance never becomes negative. |
| Tariffs.GetUserTariffInfo | src/modules/tariffs/tariffs.service.ts:95-110 | Reads only. With no active grant it reports Free, 10 messages and no end date, without creating a grant. Otherwise it reports the grant's tariff name, balance and end date, and fails only when the grant's tariff row is missing. |
| Tariffs.TariffInfoOfValid | src/modules/tariffs/tariffs.service.ts:95-110 | On a ledger whose grants all refer to catalogue tariffs, the info always loads and reports a non-negative balance. |
| Tariffs.DeactivateAll | src/modules/tariffs/tariffs.service.ts:119-122 | The bulk update clears the active flag of exactly the user's grants. |
| Tariffs.DeactivateAllPreservesValid | src/modules/tariffs/tariffs.service.ts:118-122 | The bulk update keeps the ledger invariant and leaves the user with no active grant. |
| Tariffs.UpgradeToPremium | src/modules/tariffs/tariffs.service.ts:112-137 | Throws, saving nothing, iff Premium is missing. Otherwise all the user's active grants are deactivated and one active Premium grant is appended, with Premium's allotment, starting now and ending `duration_days` later. It is then the grant found for the user. Other users' grants are unchanged. |
| Tariffs.AddDays | src/modules/tariffs/tariffs.service.ts:125-126 | Adding days moves a time by a whole number of days, keeping its time of day. A null duration adds nothing, and a non-negative one never moves the time back. |
| Tariffs.OnlyActive | src/modules/tariffs/tariffs.service.ts:44-49 | Under the one-active-grant invariant, the grant found is the user's only active one. |
| Tariffs.AppendActivePreserves | src/modules/tariffs/tariffs.service.ts:57-64 | Appending an active grant for a user with none keeps at most one active grant per user. |
| Tariffs.CanUserSendMessagePreservesValid | src/modules/tariffs/tariffs.service.ts:67-85 | The quota check keeps the ledger invariant: at most one active grant per user, non-negative balances, every grant on a catalogue tariff. |
| Tariffs.AppendedGrantKeepsReferences | src/modules/tariffs/tariffs.service.ts:57-64 | A grant seeded from a catalogue tariff keeps balances non-negative and grants pointing at the catalogue. |
| Tariffs.DeductMessagePreservesValid | src/modules/tariffs/tariffs.service.ts:87-93 | The debit keeps the ledger invariant. |
| Tariffs.UpgradeToPremiumPreservesValid | src/modules/tariffs/tariffs.service.ts:112-137 | The upgrade keeps the ledger invariant. |
| Tariffs.CanUserSendMessageYes | src/modules/tariffs/tariffs.service.ts:67-85 | After a "yes" the user has an active grant. A grant that was current has messages left; when none was current, the new Free grant carries Free's full allotment. |
| Dialogs.FindDialog | src/modules/dialogs/dialogs.service.ts:25 | The dialog with that id and owner; no result iff the user owns no dialog with that id. |
| Dialogs.FindProject | src/modules/dialogs/dialogs.service.ts:51 | The project with that id; no result iff there is none. |
| Dialogs.ProjectSummary | src/modules/dialogs/dialogs.service.ts:50-55 | The project summary is shown iff the dialog's project id is truthy (set and not 0), the project exists, and its summary is truthy (non-empty). |
| Dialogs.Header | src/modules/dialogs/dialogs.service.ts:33-55 | The header is 1 to 4 system entries and starts with the fixed system prompt. |
| Dialogs.ProfileEntry | src/modules/dialogs/dialogs.service.ts:38-42 | The profile entry is at most one line, present iff the user has a profile. |
| Dialogs.DialogSummaryEntry | src/modules/dialogs/dialogs.service.ts:44-47 | The dialog summary entry is at most one line, present iff the summary is truthy (set and non-empty). |
| Dialogs.ProjectSummaryEntry | src/modules/dialogs/dialogs.service.ts:49-55 | The project summary entry is at most one line, present iff the dialog has a truthy project id and that project has a truthy summary. |
| Dialogs.EntrySlots | src/modules/dialogs/dialogs.service.ts:36-53 | Each header line is told apart by its label: the prompt is kind 0, the profile 1, the dialog summary 2, the project summary 3. |
| Dialogs.HeaderOrder | src/modules/dialogs/dialogs.service.ts:35-55 | The header starts with the prompt, and its lines are in strictly increasing kind order: prompt, profile, dialog summary, project summary, each at most once. |
| Dialogs.HeaderPresence | src/modules/dialogs/dialogs.service.ts:38-55 | The header holds a profile line iff a profile exists, a dialog-summary line iff the summary is truthy, and a project-summary line iff the project has a truthy summary. |
| Dialogs.HeaderContents | src/modules/dialogs/dialogs.service.ts:41-53 | Each optional line is its label followed by the profile rendering, the dialog summary or the project summary. |
| Dialogs.SlotOfLabelled | src/modules/dialogs/dialogs.service.ts:36-53 | The four header labels can be told apart, whatever text follows them. |
| Dialogs.SlottedConcat | src/modules/dialogs/dialogs.service.ts:36-55 | A prompt followed by at most one entry of each optional kind, in kind order: each kind is present iff its entry was given. |
| Dialogs.Turns | src/modules/dialogs/dialogs.service.ts:59-61 | Each message becomes a turn with its role and content copied verbatim. |
| Dialogs.BuildContext | src/modules/dialogs/dialogs.service.ts:24-64 | Fails iff the user owns no dialog with that id. Otherwise the result is the header followed by the turns of the dialog's last min(10, n) messages, oldest first, at most 14 entries in all, starting with the system prompt. |
| Dialogs.DialogMessagesAscending | src/modules/dialogs/dialogs.service.ts:28-31 | In a chronological log, a dialog's messages in log order are ascending by `created_at`. |
| Dialogs.AddMessage | src/modules/dialogs/dialogs.service.ts:66-77 | Exactly one message is appended, with the given dialog, user, role, content, tokens and time. Existing messages, dialogs and projects are unchanged. |
| Dialogs.AddMessageHistory | src/modules/dialogs/dialogs.service.ts:66-77 | The new message joins the end of its own dialog's history and of no other. |
| Dialogs.AddMessageChronological | src/modules/dialogs/dialogs.service.ts:66-77 | A message stamped no earlier than the rest keeps the log chronological. |
| Dialogs.ContextEndsWithNewTurn | src/modules/dialogs/dialogs.service.ts:58-61 | After a turn is added, the dialog's context ends with it, right after the turn that ended it before. |
| Dialogs.ContextAfterAdd | src/modules/dialogs/dialogs.service.ts:24-77 | Filing a message leaves the header of the dialog's context as it was and appends the message to the history the turns are taken from. |
| Dialogs.ContextIsHeaderAndRecent | src/modules/dialogs/dialogs.service.ts:33-63 | A context is its header followed by the turns of the dialog's last ten messages. |
| Dialogs.RecentAfterAppend | src/modules/dialogs/dialogs.service.ts:58-61 | The last ten turns after a message is appended end with that message, right after the turn that ended them before. |
| Dialogs.HistoryEndsWithTurn | src/modules/dialogs/dialogs.service.ts:57-63 | Any header followed by the recent turns of a history ending in a message ends with that message's turn. |
| Dialogs.HistoryKeepsLastTurn | src/modules/dialogs/dialogs.service.ts:57-63 | When the history was non-empty, the new turn comes right after the turn that ended the context before. |
| Dialogs.GetOrCreateDefaultDialog | src/modules/dialogs/dialogs.service.ts:79-93 | Returns a dialog of the user titled "Default". An existing one is returned and nothing is saved. Otherwise exactly one dialog is appended, with no project and no summary. |
| Dialogs.GetOrCreateDefaultDialogIdempotent | src/modules/dialogs/dialogs.service.ts:79-93 | Asking twice gives the same dialog and saves nothing the second time. |
| Dialogs.GetOrCreateDefaultDialogKeepsStore | src/modules/dialogs/dialogs.service.ts:79-93 | Keeps ids serial and at most one Default per user. The dialog returned is the one `buildContext` loads for its id and owner. |
| Dialogs.CreateDialog | src/modules/dialogs/dialogs.service.ts:95-102 | Always appends exactly one dialog, with the given owner, title and project, and no summary. |
| Dialogs.CreateDialogFound | src/modules/dialogs/dialogs.service.ts:95-102 | The created dialog is loadable by its owner. A title other than "Default" changes nobody's Default dialog. |
| Dialogs.FifteenTurnsWithProfileAndSummary | src/modules/dialogs/dialogs.service.ts:33-61 | Fifteen turns, a profile and a summary: 13 entries, namely the prompt, the profile, the summary, then turns 6 to 15. |
| Referrals.ProcessReferral | src/modules/referrals/referrals.service.ts:18-36 | A recorded pair changes nothing. A new pair is appended with the bonus not yet given. |
| Referrals.ProcessReferralIdempotent | src/modules/referrals/referrals.service.ts:18-36 | Recording a pair twice is recording it once. The ledger keeps at most one record per pair, and the pair is recorded afterwards. |
| Referrals.MarkGiven | src/modules/referrals/referrals.service.ts:53-56 | Every referral of the referrer is marked processed, and no other changes. |
| Referrals.GiveReferralBonus | src/modules/referrals/referrals.service.ts:38-58 | With nothing pending, nothing changes. Otherwise the referrer's active grant, if any, gains 5 messages per pending referral (all of them, not one per referee), no other grant changes, and the credit is lost when there is no active grant. Afterwards every referral of the referrer is processed, even without a grant. Flags only move from false to true, and other referrers' records are unchanged. |
| Referrals.NothingPendingAfterBonus | src/modules/referrals/referrals.service.ts:53-56 | No referral of the referrer is pending after the bonus run. |
| Referrals.GiveReferralBonusTwice | src/modules/referrals/referrals.service.ts:40-44 | A second bonus run straight after the first changes nothing. |
| Referrals.GiveReferralBonusRaises | src/modules/referrals/referrals.service.ts:46-50 | A bonus run only raises balances. Each grant keeps its owner, tariff, dates and state. |
| Referrals.GiveReferralBonusPreservesValid | src/modules/referrals/referrals.service.ts:46-50 | The bonus keeps the ledger invariant. |
| Referrals.GetReferralStats | src/modules/referrals/referrals.service.ts:60-76 | Counts only referrals where the user is the referrer, with processed ≤ total. The link is the bot's start link with payload `ref_<id>`. |
| Referrals.StatsAfterBonus | src/modules/referrals/referrals.service.ts:53-75 | After a bonus run the referrer's processed count equals the total, and the total is unchanged. |
| Base.FilterEqualAt | src/modules/referrals/referrals.service.ts:65-69 | Two tables that agree row by row on a predicate count the same matching rows. |
| Referrals.StartPayload | src/modules/referrals/referrals.service.ts:74 | The link's payload starts with `ref_`. |
| Referrals.GetReferrerFromStartParam | src/modules/referrals/referrals.service.ts:78-88 | A referrer is returned iff the payload starts with `ref_`, the rest reads as an integer under `parseInt`, and a user with that id exists. The result is that integer. |
| Referrals.ReferralLinkRoundTrip | src/modules/referrals/referrals.service.ts:74-84 | The payload of an existing user's referral link resolves back to that user. |
| Referrals.TrailingTextIgnored | src/modules/referrals/referrals.service.ts:80-84 | `parseInt` reads only leading digits, so text after the id still resolves to the referrer. |
| Referrals.ReferralLink | src/modules/referrals/referrals.service.ts:74 | The bot's start link followed by a payload starting with `ref_`. |
| Referrals.ReferralLinkInjective | src/modules/referrals/referrals.service.ts:74-80 | Different users get different links. |
| Base.ParseInt | src/modules/referrals/referrals.service.ts:80 | Blank text is NaN; the result is negative only after a leading minus, which applies to the literal after it. |
| Base.ParseIntOfNatToString | src/modules/referrals/referrals.service.ts:80 | `parseInt` of a decimal rendering, followed by anything that does not extend the literal, gives back the number. |
| Base.ParseIntOfHex | src/modules/referrals/referrals.service.ts:80 | After a `0x` prefix `parseInt` reads the leading hexadecimal digits in base 16, and gives NaN iff no such digit follows the prefix. |
| Base.ParseIntHexExample | src/modules/referrals/referrals.service.ts:80 | `parseInt("0x1F")` is 31. |
| Reminders.CreateReminder | src/modules/reminders/reminders.service.ts:28-35 | Appends exactly one unsent reminder with the next id, and keeps ids increasing. |
| Reminders.GetUserReminders | src/modules/reminders/reminders.service.ts:37-42 | Exactly the user's unsent reminders, as a permutation of the table's, ascending by `remind_at`. |
| Reminders.DeleteReminder | src/modules/reminders/reminders.service.ts:44-50 | Reports true iff a reminder with that id and owner existed. Exactly the rows with that id and owner are removed. |
| Reminders.DeletedCount | src/modules/reminders/reminders.service.ts:45-49 | Something is deleted iff some row is a target. |
| Reminders.DeleteReminderRemovesOne | src/modules/reminders/reminders.service.ts:44-50 | With serial ids, a successful delete removes exactly one row, and a failed one removes none. |
| Reminders.FilterStrictlyIncreasing | src/modules/reminders/reminders.service.ts:45-48 | Deleting rows keeps ids strictly increasing. |
| Reminders.FilterDropsOne | src/modules/reminders/reminders.service.ts:45-48 | When one row fails the predicate, the filter drops exactly that row. |
| Reminders.OnlyOneTarget | src/modules/reminders/reminders.service.ts:45-48 | With serial ids, at most one row matches an (id, owner) target. |
| Reminders.CheckAndSendReminders | src/modules/reminders/reminders.service.ts:52-74 | Notifies exactly the unsent reminders with `remind_at` strictly before now, in table order, and marks exactly those sent. Every other field and row is kept, and nothing due is left. |
| Reminders.CheckAndSendRemindersIdempotent | src/modules/reminders/reminders.service.ts:54-70 | A second run at the same time notifies nothing and changes nothing. |
| Reminders.OpenAfterCheckAreNotDue | src/modules/reminders/reminders.service.ts:37-70 | After a run, a user's open reminders are exactly their unsent ones that are not yet due. |
| Reminders.SkipSpaces | src/modules/reminders/reminders.service.ts:82 | `\s*` consumes exactly the run of white space. |
| Reminders.FirstNumber | src/modules/reminders/reminders.service.ts:82 | A position found is within the text and a match of `(\d+)\s*word` starts there. |
| Reminders.FirstNumberLeftmost | src/modules/reminders/reminders.service.ts:82 | The position found is the leftmost match; nothing is found iff no position matches. |
| Reminders.FirstClock | src/modules/reminders/reminders.service.ts:97 | The leftmost position where `(\d{1,2}):(\d{2})` matches; nothing iff no position matches. |
| Reminders.MatchClockAt | src/modules/reminders/reminders.service.ts:97-99 | The clock match is the one at the first position where a match starts. |
| Reminders.DigitRunAt | src/modules/reminders/reminders.service.ts:82 | Greedy `\d+` from the start of a digit run takes exactly the run. |
| Reminders.ParseReminderTime | src/modules/reminders/reminders.service.ts:76-107 | Null iff no branch applies: the text has no "завтра", and either no "через" or neither a minute nor an hour count. A time returned is never before now. When the "через" branch does not apply, the time lies no earlier than the start of the next calendar day. |
| Reminders.ThroughTime | src/modules/reminders/reminders.service.ts:81-91 | The "через" branch gives no time iff the text lacks "через" or has neither a minute nor an hour count; a time it gives is never before now. |
| Reminders.TomorrowTime | src/modules/reminders/reminders.service.ts:93-103 | The "завтра" branch: with a clock match (h, m), midnight of the next day plus h hours and m minutes, which for h < 24 and m < 60 lies in the next day at exactly that time of day; without one, exactly one day later at the same time of day. Never before the next day starts. |
| Reminders.MatchNumber | src/modules/reminders/reminders.service.ts:82-87 | No number iff `(\d+)\s*word` matches nowhere; otherwise the number captured at the leftmost match. |
| Reminders.MatchClock | src/modules/reminders/reminders.service.ts:97 | No clock iff `(\d{1,2}):(\d{2})` matches nowhere; otherwise hours and minutes of the leftmost match, each below 100. |
| Reminders.DayStart | src/modules/reminders/reminders.service.ts:94-99 | The midnight of a time's day: a multiple of one day, at or before the time and less than a day before it. |
| Reminders.TomorrowKeepsTimeOfDay | src/modules/reminders/reminders.service.ts:93-103 | "завтра" alone is exactly one day later. |
| Reminders.SkipSpacesTo | src/modules/reminders/reminders.service.ts:82 | `\s*` stops at the first non-space. |
| Reminders.NumberBeforeAt | src/modules/reminders/reminders.service.ts:82 | A match of `(\d+)\s*word` at a position captures the whole digit run there. |
| Reminders.NotContained | src/modules/reminders/reminders.service.ts:81 | A text lacking the keyword's first letter does not contain the keyword. |
| Reminders.MatchNumberAt | src/modules/reminders/reminders.service.ts:82 | The regex result is the first position where a match starts. |
| Reminders.NumberAfterRun | src/modules/reminders/reminders.service.ts:82 | In "… N word", the match at N's position captures N. |
| Reminders.NumberAfterPrefix | src/modules/reminders/reminders.service.ts:82 | After a digit-free prefix, "N word" is the leftmost match and captures N. |
| Reminders.MinutesBranch | src/modules/reminders/reminders.service.ts:81-85 | "через" with a minute count N gives now + N·60 000 ms. |
| Reminders.HoursBranch | src/modules/reminders/reminders.service.ts:87-90 | "через" with no minute count and an hour count N gives now + N·3 600 000 ms. |
| Reminders.ReadThroughPhrase | src/modules/reminders/reminders.service.ts:81-82 | "через N word" contains the keyword and reads N before the word. |
| Reminders.InMinutes | src/modules/reminders/reminders.service.ts:81-85 | "через N минут" is N minutes from now. |
| Reminders.NotOccursAt | src/modules/reminders/reminders.service.ts:82 | A word cannot occur where a different character stands. |
| Reminders.NoMatchInRun | src/modules/reminders/reminders.service.ts:82 | No match for another word starts inside a digit run followed by a space and a different letter. |
| Reminders.NoOtherUnit | src/modules/reminders/reminders.service.ts:82-87 | "через N w" has no count before a word that `w` does not start with. |
| Reminders.InHours | src/modules/reminders/reminders.service.ts:81-90 | "через N час" is N hours from now, because no minute count is present. |
| Reminders.NoMinutesInHours | src/modules/reminders/reminders.service.ts:82-87 | "через N час" has no minute count, so the hours branch is the one that applies. |
| Reminders.HoursPrefixShape | src/modules/reminders/reminders.service.ts:82 | The layout of "через A часа ": letters, a space, the digits of A, a space, letters. |
| Reminders.NoMatchBefore | src/modules/reminders/reminders.service.ts:82 | No minute count starts before B in "через A часа B минут". |
| Reminders.ReadHoursAndMinutes | src/modules/reminders/reminders.service.ts:82 | In "через A часа B минут" the leftmost minute count is B. |
| Reminders.MinutesWinOverHours | src/modules/reminders/reminders.service.ts:81-90 | Minutes take precedence: "через A часа B минут" is B minutes from now. |
| Reminders.TomorrowAt | src/modules/reminders/reminders.service.ts:93-100 | "завтра в HH:MM" is the next calendar day at HH:MM:00.000. |
| Reminders.DayStartShift | src/modules/reminders/reminders.service.ts:94-99 | The next day starts one day after today's start, and setting a time of day stays within that day. |
| Admin.GetDashboardStats | src/modules/admin/admin.service.ts:31-48 | Users, messages and payments are the table sizes. `activeUsers` is the number of active grants: at most the number of grants, and 0 iff no grant is active. |
| Admin.DashboardCountsUsers | src/modules/admin/admin.service.ts:33 | With at most one active grant per user, `activeUsers` equals the number of distinct users holding an active grant. |
| Admin.ActiveGrantsAreActiveUsers | src/modules/admin/admin.service.ts:33 | Under the one-active-grant invariant, the active-grant count equals the number of distinct users with an active grant. |
| Admin.ActiveIdsAppend | src/modules/admin/admin.service.ts:33 | A new grant adds its user to the users holding an active grant exactly when the grant is active. |
| Admin.ActiveCountsGrantsNotUsers | src/modules/admin/admin.service.ts:33 | Without the invariant they differ: two active grants of one user count as 2. |
| Admin.NewestFirst | src/modules/admin/admin.service.ts:55 | The user list reversed: row k is the k-th newest. |
| Admin.NewestFirstIsDescending | src/modules/admin/admin.service.ts:55 | With users stored in join order, the list is by `created_at` descending. |
| Admin.PageCount | src/modules/admin/admin.service.ts:62 | `totalPages` is ceil(total / limit): the least count of pages that covers all rows. |
| Admin.Window | src/modules/admin/admin.service.ts:53-54 | `skip`/`take`: the rows from `skip` on, at most `take` of them. |
| Admin.GetUsers | src/modules/admin/admin.service.ts:50-64 | Page 1 and limit 20 by default. Row k of the page is the user at newest-first position (page−1)·limit + k, with at most `limit` rows, fewer only on the last page. The page is echoed and the total is all users. |
| Admin.GetUsersPageCount | src/modules/admin/admin.service.ts:50-62 | `totalPages` pages of `limit` rows hold every user and one page fewer does not; a page has rows iff its number is at most `totalPages`. |
| Admin.WindowOfNewest | src/modules/admin/admin.service.ts:53-55 | Row k of a window of the newest-first list is the user `skip + k` places from the newest, and the window has `take` rows or as many as remain. |
| Admin.Skip | src/modules/admin/admin.service.ts:53 | The offset (p − 1)·limit is 0 exactly on the first page, and skips at least one row per earlier page. |
| Admin.SkipNext | src/modules/admin/admin.service.ts:53 | Page p + 1 starts `limit` rows after page p, p·limit rows in. |
| Admin.PageIsSlice | src/modules/admin/admin.service.ts:53-55 | Page n is the slice of the newest-first list from its offset to `limit` rows further, clamped to the table. |
| Admin.PageIsWindow | src/modules/admin/admin.service.ts:51-58 | Page n is the `limit` rows after its offset in the newest-first list. |
| Admin.PageHasRows | src/modules/admin/admin.service.ts:53-62 | A page is within `totalPages` iff its offset is below the total. |
| Admin.FirstPagesArePrefix | src/modules/admin/admin.service.ts:53-55 | The first n pages concatenated are the n·limit newest users, or all users when there are fewer. |
| Admin.PagesCoverUsers | src/modules/admin/admin.service.ts:50-64 | Pages 1..totalPages concatenated are every user exactly once, newest first, and the next page is empty. |
| Admin.LastPageReachesEnd | src/modules/admin/admin.service.ts:53-62 | The page after page `totalPages` starts at or past the end of the user list. |
| Admin.PastTheEndIsEmpty | src/modules/admin/admin.service.ts:53-54 | A page whose offset is at or past the end of the list is empty. |
| Admin.GetUserDetails | src/modules/admin/admin.service.ts:75-89 | Null iff no user has the id. Otherwise the user's grants, dialogs, and referrals given and received are exactly the rows related to them, and `messageCount` is the number of messages filed under the user's id: their texts and the bot's answers to them. |
| Dialogs.MessagesBy | src/modules/admin/admin.service.ts:83 | The count of a user's messages is at most the table size, and 0 iff no message is theirs. |
| Dialogs.MessageCountAfterAddMessage | src/modules/admin/admin.service.ts:83 | `messageCount` grows by one when a message is filed under the user's id, whoever wrote it, and not when one is filed under another id. |
| Telegram.ExchangeAddsTwoMessages | src/modules/admin/admin.service.ts:83 | An answered text raises the sender's `messageCount` by two, because the bot's answer is filed under the sender's id too (telegram.service.ts:431). |
| Admin.ReferrerIds | src/modules/admin/admin.service.ts:100 | `GROUP BY referrer_id`: each referrer appears exactly once. |
| Admin.ReferrerCounted | src/modules/admin/admin.service.ts:99-100 | Every referrer's group count is at least 1. |
| Admin.Groups | src/modules/admin/admin.service.ts:97-100 | One row per referrer, with its count of referrals. |
| Admin.RankedFacts | src/modules/admin/admin.service.ts:101 | Ordering by count descending is a permutation of the groups with non-increasing counts and distinct referrers. |
| Admin.TopFromGroups | src/modules/admin/admin.service.ts:101-102 | Each leaderboard entry is a group row, in ranked position. |
| Admin.TopCounts | src/modules/admin/admin.service.ts:96-103 | Each entry's count is its referrer's number of referrals, at least 1, and the referrer appears in the table. |
| Admin.TopDistinct | src/modules/admin/admin.service.ts:100-102 | No referrer is listed twice. |
| Admin.TopOrdered | src/modules/admin/admin.service.ts:101 | Counts are non-increasing. |
| Admin.TopBeatsRest | src/modules/admin/admin.service.ts:101-102 | A referrer left off the board means the board is full and every listed count is at least theirs. |
| Admin.TopBeatsAllLeftOut | src/modules/admin/admin.service.ts:101-102 | The same for every referrer left off. |
| Admin.TopReferrers | src/modules/admin/admin.service.ts:96-103 | At most 10 entries, each a real referrer with its true count (≥ 1), with no referrer repeated and counts non-increasing. Any referrer left off has a count no greater than every listed one, and the board is full. |
| Admin.Label | src/modules/admin/admin.service.ts:108-110 | "Unknown" iff no user has the referrer's id. |
| Admin.GetReferralReport | src/modules/admin/admin.service.ts:91-121 | The total is all referrals; processed is the number of referrals whose bonus was given, so processed ≤ total, with equality iff every referral is processed. At most 10 lines, with non-increasing counts, each line being the matching leaderboard entry with its label. |
| Admin.AllProcessed | src/modules/admin/admin.service.ts:92-93 | The processed count is at most the total, and equal iff every referral is processed. |
| Admin.ProcessedOmits | src/modules/admin/admin.service.ts:93 | One unprocessed referral makes the processed count fall short of the total. |
| Admin.LeaderboardAgreesWithReferrerStats | src/modules/admin/admin.service.ts:99 | Each leaderboard count equals the referrer's own referral total. |
| Telegram.HandleStart | src/modules/telegram/telegram.service.ts:163-173 | `/start` registers the sender through find-or-create and touches neither ledger, dialogs nor guard. |
| Telegram.HandleStartRecordsOnlyOthers | src/modules/telegram/telegram.service.ts:168-172 | A referral is recorded only when the payload resolves to an existing user other than the sender, and then the pair is on record. |
| Telegram.HandleStartIdempotent | src/modules/telegram/telegram.service.ts:163-173 | Sending the same `/start` twice is sending it once. |
| Telegram.PendingReferrers | src/modules/telegram/telegram.service.ts:437-439 | Exactly the referrers of the user's referrals whose bonus is still to give. |
| Telegram.BonusAll | src/modules/telegram/telegram.service.ts:441-445 | After the loop, every referral of a listed referrer is processed and flags only rise. Other referrers' records are unchanged, and every grant keeps its fields with a balance that does not drop. |
| Telegram.TextIgnoredByGuard | src/modules/telegram/telegram.service.ts:402-409 | The sender is registered before the flood guard runs. A text is ignored iff the guard rejects it, and then no turn is filed, nothing is debited and no bonus is paid. |
| Telegram.HandleText | src/modules/telegram/telegram.service.ts:397-454 | The sender is registered and the flood guard updated in every case. The text is ignored iff the guard rejects it. A text never gets a file reply. A text refused for quota files no turn and pays no bonus. |
| Telegram.Exchange | src/modules/telegram/telegram.service.ts:419-449 | Leaves users and the flood guard alone. Replies with the model's answer, or an apology that debits nothing and pays no bonus. |
| Telegram.TextRefusedForQuota | src/modules/telegram/telegram.service.ts:412-417 | A text refused for quota files nothing, debits nothing and pays nothing, and reports the current balance. It is refused when the sender's current grant has run out. |
| Telegram.ExchangeFindsDialog | src/modules/telegram/telegram.service.ts:420-427 | The Default dialog the text is filed in is loadable by its owner. |
| Telegram.ExchangeCompletes | src/modules/telegram/telegram.service.ts:420-445 | A completed exchange appends exactly two messages to the user's Default dialog: the user's text, then the reply. The quota is debited once, and every referral naming the user as referee is processed. |
| Telegram.TextAnswered | src/modules/telegram/telegram.service.ts:397-449 | Once the guard and the quota allow, the text is always answered, and two turns are filed. |
| Telegram.BonusAllKeepsPairs | src/modules/telegram/telegram.service.ts:441-445 | Paying bonuses keeps one record per pair. |
| Telegram.BonusAllKeepsLedger | src/modules/telegram/telegram.service.ts:441-445 | Paying bonuses keeps the ledger invariant. |
| Telegram.HandleTextPreservesValid | src/modules/telegram/telegram.service.ts:397-454 | A text message keeps every table invariant: serial ids, unique Telegram ids, one active grant and one Default dialog per user, one record per referral pair. |
| Telegram.ExchangePreservesValid | src/modules/telegram/telegram.service.ts:419-445 | Filing the text and the answer, the debit and the bonuses keep every table invariant. |
| Telegram.ExchangeKeepsRegistry | src/modules/telegram/telegram.service.ts:419-453 | The exchange leaves users and the flood guard alone and replies with the answer or the apology. |
| Telegram.ValidWith | src/modules/telegram/telegram.service.ts:397-417 | Replacing the users, the flood guard and the ledger with valid ones keeps the world valid. |
| Telegram.ActiveIndexKept | src/modules/tariffs/tariffs.service.ts:44-49 | A change that keeps owners and active flags keeps which grant is found. |
| Telegram.AnswerPaysReferrer | src/modules/telegram/telegram.service.ts:434-445 | A referred user's answered text takes one message off their grant and adds five to the referrer's, in the same exchange. |
| Telegram.ExchangeLedger | src/modules/telegram/telegram.service.ts:433-445 | The exchange's only ledger change is the debit followed by the bonus of each pending referrer. |
| Telegram.DebitAndBonus | src/modules/telegram/telegram.service.ts:433-445 | With one pending referral, the user's grant loses one message and the referrer's grant gains the referral bonus. |
| Telegram.NewcomerFirstText | src/modules/telegram/telegram.service.ts:397-454 | On a freshly seeded database a newcomer's first text registers user 1 and grants Free with 10 messages. It is answered, files two turns in a new Default dialog, and leaves 9 messages. |
| Telegram.LaunchedValid | src/modules/tariffs/tariffs.service.ts:19-42 | A freshly seeded database satisfies every table invariant and holds exactly Free (id 1) and Premium (id 2). |
| Telegram.NewcomerQuota | src/modules/tariffs/tariffs.service.ts:67-93 | The first user's quota check on a fresh database answers yes with a single active Free grant of 10 messages, and the debit leaves 9. |
| Telegram.FilesDebitOnlyWhenAnswered | src/modules/telegram/telegram.service.ts:296-368 | Photos and documents skip the flood guard and touch neither dialogs nor referrals. A photo is answered iff the quota allows; a document iff the quota allows and it is an image, otherwise it is turned away. One message is debited exactly when answered. |
| Telegram.FilesPreserveValid | src/modules/telegram/telegram.service.ts:296-368 | A photo or a document keeps every table's invariant: serial ids, unique Telegram ids, one active grant per user, valid tariff references and non-negative balances. |
| Telegram.HandlePhoto | src/modules/telegram/telegram.service.ts:296-329 | Touches neither dialogs, referrals nor the flood guard. Replies with an answer, a quota refusal or an apology, and the answer is the photo's description. |
| Telegram.HandleDocument | src/modules/telegram/telegram.service.ts:332-368 | Touches neither dialogs, referrals nor the flood guard. Only an image is answered, with its extracted text. Anything else is turned away. |

## Left out

- Telegraf wiring is left out: bot start-up, polling and webhooks, the controllers, and module wiring. These are I/O; each handler is a function of the state and the incoming update.
- Reply texts, keyboards, `editMessageText`, the loading message and its deletion, and the admin menu screens are left out; they are presentation. Replies are reduced to the `Telegram.Reply` kinds.
- The Telegram file-link and reply calls are assumed to succeed. Their failure would route a photo or document to the apology after the quota check, with nothing debited.
- Each handler runs with a single `now`, and the lookup, check and save steps are sequential. TypeORM gives no transactions, and races between concurrent updates are not modelled.
- Group replies are not modelled: they are chosen by `Math.random` and write nothing. The quiz question draw is the `pick` parameter of `Quiz.StartQuiz`.
- Voice messages are not modelled: they only send a fixed reply, and `transcribeAudio` is a placeholder.
- The `setTimeout` unban notice and the `setInterval` reminder poller are timers. Only the selection and marking rule of the poller is modelled.
- `getDashboardStats` revenue is left out. It sums amounts with `parseFloat`, which is floating point, and it sums every payment, including failed and pending ones. Prices are kept exactly in cents.
- Time zones and daylight saving are left out. `setDate` and `setHours` work in UTC, where every day is 86 400 000 ms long and starts at UTC midnight; the server's local zone is not modelled.
- The `getTariffs` and `updateTariff` admin calls and the payment and promo-code entities are left out. They fall outside per-message bookkeeping.
- Admin.GetUsers requires page and limit to be at least 1. Its only caller (src/modules/admin/admin.controller.ts:18) passes `parseInt` of the `page` query parameter and never a limit, so the limit is always 20. A page below 1 gives a negative offset and a non-numeric page gives NaN; what TypeORM and the database do with those is not modelled. A limit of 0 would not throw: `total / 0` is Infinity (NaN when the total is 0), and TypeORM reads `take: 0` as no limit, so every user would come back on one page. No caller passes a limit, so that case is left out.
- Admin.TopReferrers fixes the order of tied counts to the order of first appearance. SQL leaves tie order unspecified, so any tie order is possible in the source. The database also returns `COUNT` as a string; the model keeps it as a number.
- Admin.GetDashboardStats states the count fields only; `totalRevenue` is not in the model.
- The text handler is registered after a catch-all `message` handler that does not call `next`. The model takes the text handler as the one that runs for a private text message, as its code is written to do.
- Ties in `created_at` are ordered by the log. SQL leaves the order of rows with equal timestamps unspecified, and ties are routine: a text exchange stamps the user turn and the answer with the same `now`. The database may return such rows in either order, which changes the turn order in `buildContext` and which ten turns `slice(-10)` keeps; the same holds for `getUsers` under `created_at DESC`. The model fixes one of the allowed orders, the order of insertion.
- Reminders.GetUserReminders: reminders with equal `remind_at` come back in an order SQL leaves open; the contract promises only ascending times and a permutation of the user's open reminders, not where ties fall.
- Reminders.ParseReminderTime: numbers are not bounded as in JavaScript. The model's `parseInt` and reminder arithmetic are exact over unbounded integers; JavaScript loses integer precision above 2^53, and `new Date(now + N * 60000)` is an Invalid Date beyond ±8.64e15 ms, where `Reminders.ParseReminderTime` still returns a time.
- Users.UpdateProfile: the profile patch carries only `about`, `goals` and `preferences`, and a profile has no `updated_at`. `Partial<UserProfile>` could also carry `id`, `user_id` or `updated_at`, and a `user_id` in the patch would override the owner written by `create`; no caller passes such a patch. `JSON.stringify(profile)` also renders `updated_at`, which is inside the foreign `stringify` function here.
