# Reminder bot: a Dafny model

The system is a Telegram bot, kept in one file, `index.js`, that reminds users
of tasks. A user sends a task as text. The bot asks when to remind them and
offers four buttons: in one hour, in three hours, tomorrow at 9:00, or a custom
time. A custom time is typed as `HH:MM` for today or tomorrow, or as
`YYYY-MM-DD HH:MM`. When its timer goes off (at the set time, or almost at once for a time
more than about 24.8 days ahead; see "Left out"), the bot sends the reminder, drops it
from the chat's list and asks whether the task is done, with a "Mark as done"
and a "Remind me later" button. The reminders live in a table from chat id to
an ordered list of `{task, remindAt, timeoutId}`. The table is saved to a file
without the timer handles after every change, and is reloaded and re-armed at
start-up.

The model has six files:

- `options.dfy` (module `Options`): the `Option` type.
- `text.dfy` (module `Text`): the string operations the handlers use.
  - `trim`, `startsWith`, and the case-insensitive comparison with "cancel".
  - `parseInt(_, 10)`, and `split("_")[1]` on a delete payload.
  - The decimal numeral a position is written as.
- `clock_text.dfy` (module `ClockText`):
  - the `HH:MM` regular expression and its `parseInt` of both groups;
  - `parseCustomDate`'s shape check, and the ISO 8601 text it hands to the date library (a calendar date and a time of day, section 5.4 of ISO 8601).
- `reminders.dfy` (module `Reminders`): the reminder table as values. It holds:
  - the projection `saveReminders` writes and its inverse `loadReminders`;
  - appending, removing by position, removing by timer handle, and the restart filter;
  - the invariant that ties the table to the running timers, with one lemma per operation showing the operation keeps it;
  - the two loops of the save and restore code, as methods: `CleanReminders` and `ArmList`.
- `dialogue.dfy` (module `Dialogue`): the per-chat conversation (`userState`) as a state machine. It covers:
  - what the `message` handler does with a chat's state and a text (`OnText`, and `Respond` past the command and "cancel" checks);
  - what the `callback_query` handler does with a button (`OnButton`);
  - how a button payload is read (`Classify`).
- `bot.dfy` (module `Bot`): class `ReminderBot`. It holds the two maps the bot mutates in place, `reminders` and `userState`, plus the running timers, the next timer handle and the file contents. Its methods are the handlers and helpers:
  - `Load`, `Save`, `Restore`;
  - `Schedule`, `Fire`, `Delete`, `Reset`;
  - `HandleMessage`, `HandleButton`.

  Each method's contract ties the new state to the functions of `Reminders` and `Dialogue`.

Time is an integer count of milliseconds, and each event carries one `now`.

Timers are modelled as follows:
- A timer handle is a natural number taken from a counter.
- A running timer is an entry in the map `timers` from handle to the chat and task its callback captured.
- A timer going off is the method `Fire(h)`.

The date library (Luxon, zone `Asia/Jerusalem`) is the datatype `Calendar`. It has three function-valued fields, one per instant the code builds:
- `todayAt(now, hour, minute)`;
- `tomorrowAt(now, hour, minute)`;
- `fromIso(text)`, which returns `None` for an invalid date.

"In 1 hour" and "in 3 hours" are `now + 3600000` and `now + 3 * 3600000`, because the library adds hours as elapsed time.

Where the design one would expect and the code differ, the model follows the code:

- The `HH:MM` check is the regular expression and nothing else. "25:99" is accepted as hour 25, minute 99 (`ClockText.NoRangeCheck`).
- The welcome text (index.js:150) lists a `/cancel` command, but no handler exists for it. Text starting with "/" is ignored by the message handler, so "/cancel" changes nothing (`Dialogue.SlashCancelIgnored`). Only the bare word "cancel" resets a setup.
- The delete button leaves an empty list under the chat's key (index.js:348). The timer callbacks and the restart filter delete the key instead.
- A chat whose saved list is empty keeps its key after a restart, because `forEach` over `[]` visits nothing.
- A "today" time equal to `now` passes the handler's check, which rejects only earlier times. `scheduleReminder` then turns it down, because it needs a positive delay. The setup is marked completed anyway (`Dialogue.TodayAtNowCompletes`).
- Every caller ignores `scheduleReminder`'s result. The setup is marked completed whether or not a timer was started (`Bot.ReminderBot.HandleMessage`, `Bot.ReminderBot.HandleButton`).

## Model

| member | source | states |
|---|---|---|
| Text.Trim | index.js:198 | `trim` yields text that neither starts nor ends with white space (the JavaScript WhiteSpace and LineTerminator characters) |
| Text.TrimSpan | index.js:198 | what `trim` keeps is a contiguous part of the input, with only white space before and after it |
| Text.UnpaddedTrim | index.js:198 | text with no white space at either end is left as it is |
| Text.TrimIdempotent | index.js:503 | trimming already trimmed text changes nothing, so `parseCustomDate`'s second `trim` is harmless |
| Text.CancelWordLetters | index.js:202 | `toLowerCase() === "cancel"` holds exactly for the six letters of "cancel", each in lower or upper case; so "cancel!" and "/cancel" do not match |
| Text.DigitsValue | index.js:267-268 | the value of a run of k decimal digits is below 10^k |
| Text.NatToString | index.js:181-183 | the numeral written for a position is non-empty, all digits, and has no leading zero |
| Text.NatToStringValue | index.js:181-183 | reading the digits of the written numeral gives back the number |
| Text.LeadingDigits | index.js:341 | `parseInt` reads the longest run of digits at the start: all digits, and the next character is not one |
| Text.LeadingDigitsOfDigits | index.js:341 | on a string of digits only, that run is the whole string |
| Text.ParseDecimalOfNat | index.js:341 | `parseInt(String(n), 10)` is `n` for every position n |
| Text.ParseDecimalNaN | index.js:341 | `parseInt` is `NaN` exactly when no digit follows the leading white space and the optional sign |
| Text.ParseDecimalSkipsSpace | index.js:341 | `parseInt` ignores leading white space |
| Text.ParseDecimalSign | index.js:341 | a `+` before the digits leaves the value unchanged, and a `-` negates it |
| Text.SignedDigits | index.js:341 | the same, for the text past the white space |
| Text.FirstField | index.js:341 | `split("_")[1]` of `delete_<arg>` is the prefix of `arg` up to its first underscore, which it does not contain |
| Text.FirstFieldOfNumeral | index.js:341 | a numeral has no underscore, so the split keeps all of it |
| Text.FirstFieldUpTo | index.js:341 | text without an underscore survives the split whole, and the split of `a_b` keeps exactly `a` |
| ClockText.ParseClock | index.js:259-268 | the parse succeeds exactly when the text matches `^(\d{1,2}):(\d{2})$`; hour and minute are then below 100 |
| ClockText.ParseFormatClock | index.js:259-268 | any time with hour and minute below 100, written as `H:MM` or `HH:MM`, parses back to itself |
| ClockText.NoRangeCheck | index.js:259-268 | "25:99" parses as hour 25, minute 99: nothing checks the range |
| ClockText.PadHour | index.js:507 | `padStart(2, "0")` on a one-digit hour keeps the `HH:MM` shape and the same hour and minute |
| ClockText.IsoText | index.js:505-510 | the library text exists exactly when the trimmed input matches `^(\d{4}-\d{2}-\d{2})[ T](\d{1,2}):(\d{2})$`; it is 16 characters long, with the same date, a `T`, and the same hour and minute |
| ClockText.ParseCustomDate | index.js:502-515 | input that does not match the pattern yields null; input that matches yields exactly what the library makes of the built text (null for an invalid date) |
| ClockText.SpacedShortHourReachesLibrary | index.js:502-515 | the form users are told to type, `YYYY-MM-DD H:MM` with a space and a one-digit hour, reaches the library as `YYYY-MM-DDT0H:MM` |
| ClockText.CanonicalReachesLibrary | index.js:502-515 | input already in the form `YYYY-MM-DDTHH:MM` reaches the library unchanged |
| ClockText.CanonicalIsoText | index.js:507-510 | building the library text from `YYYY-MM-DDTHH:MM` gives the same text |
| Reminders.StripList | index.js:19-22 | the saved list has the same length, and each entry keeps exactly the task and time of the entry at the same position |
| Reminders.ThawList | index.js:36-40 | the loaded list has the same length, and each entry has the saved task and time and a null timer handle |
| Reminders.StripThaw | index.js:15-49 | saving what was just loaded writes the same snapshot back |
| Reminders.StripListAppend | index.js:19-22 | the projection of a concatenation is the concatenation of the projections |
| Reminders.CleanReminders | index.js:17-23 | the loop over the chats builds exactly the projection of the whole table |
| Reminders.Append | index.js:128-129 | the chat gets a list if it had none; the new reminder goes at the end; every other chat's list is unchanged |
| Reminders.RemoveAt | index.js:348 | `splice(k, 1)` shortens the list by one; entries before k stay, and those after k move down by one |
| Reminders.RemoveAtInverse | index.js:348 | putting the removed entry back at k gives the original list, so `splice(k, 1)` loses entry k and nothing else; a stand-alone fact about `splice` that no other proof relies on |
| Reminders.WithoutHandle | index.js:120-122 | the filter keeps only entries of the list, and none carrying the fired handle |
| Reminders.WithoutAbsentHandle | index.js:120-122 | a list with no entry carrying the handle is left unchanged |
| Reminders.WithoutHandleAt | index.js:120-122 | when handles are distinct, filtering out a handle is removing the one entry that carries it |
| Reminders.RemoveFired | index.js:119-125 | the fire callback's update leaves every other chat as it was; the chat keeps its key exactly when the filtered list is not empty, and then holds that list |
| Reminders.Future | index.js:54-84 | the restart filter never lengthens a list |
| Reminders.FutureMembers | index.js:54-84 | a reminder survives the restart filter exactly when it was in the list and its time is after now |
| Reminders.FutureAppend | index.js:54-84 | filtering a concatenation filters each part and keeps their order |
| Reminders.FutureOfPast | index.js:79-82 | a list whose reminders are all due drops to empty |
| Reminders.Restored | index.js:53-86 | the restart adds no chat, never lengthens a list, and a chat saved with an empty list keeps its key with an empty list |
| Reminders.RestoredContents | index.js:53-86 | after the restart a chat holds reminder x exactly when x was saved for it and is still in the future; a chat whose saved reminders have all passed loses its key |
| Reminders.FutureStep | index.js:55-83 | visiting the i-th reminder extends the kept list by that reminder exactly when it is still in the future |
| Reminders.KeptStep | index.js:57-82 | the same step, for the list with its timer handles: what is kept is the kept prefix plus the visited reminder, if due |
| Reminders.ArmList | index.js:55-83 | one chat's `forEach`: the kept reminders are exactly those still due, in order; the k-th gets the fresh handle `n0 + k` and a timer that will deliver its task to this chat; earlier timers are untouched |
| Reminders.AppendKeepsConsistent | index.js:104-131 | appending an entry with a fresh handle, and arming that handle for its chat and task, keeps every entry tracked and every timer owned |
| Reminders.RemoveAtKeepsConsistent | index.js:347-348 | clearing the timer of entry k and splicing it out keeps the invariant |
| Reminders.FireKeepsConsistent | index.js:119-125 | a running timer's entry is in its chat's list; removing that entry, and the chat when the list empties, keeps the invariant; the filter removes exactly that entry |
| Reminders.RestoredChatConsistent | index.js:55-83 | after one chat is restored, the invariant holds for that chat too |
| Reminders.RestoredOutsideStep | index.js:54-84 | one more chat restored extends "every visited chat is restored" |
| Reminders.RestoredAll | index.js:53-86 | when every chat is restored, the saved form of the table is the restart filter applied to the loaded snapshot |
| Dialogue.OnText | index.js:196-325 | the message handler keeps the state well formed and never removes an existing state; a scheduling request always uses the state's task and marks the setup completed |
| Dialogue.Respond | index.js:223-324 | past the command and "cancel" checks, a request completes the setup with the state's task; without a request, only `awaiting_task` changes state |
| Dialogue.Classify | index.js:335-368 | every payload reads as exactly one kind of button, checking `delete_`, `done_` and `remind_later_` in that order, and writing the button back gives the payload |
| Dialogue.FollowUpButtons | index.js:108-116 | the two buttons sent with a reminder read back as "done" and "later" with the reminder's task intact |
| Dialogue.DigitsPayload | index.js:341 | `parseInt` reads a run of digits as its decimal value, and the run has no underscore |
| Dialogue.PaddedPayloads | index.js:341 | for a run of digits: the index is its value with white space or a `+` in front of it, and with an underscore and anything after it |
| Dialogue.NegativePayload | index.js:341 | a `-` in front of the digits gives minus their value; a non-zero run is then negative and turned down by the range check at index.js:342, while `-0` selects position 0 |
| Dialogue.DeleteButtonSelects | index.js:181-183 | the button `/delete` draws for position n is a delete button that selects position n |
| Dialogue.OnButton | index.js:359-488 | the button handler keeps the state well formed and never removes an existing state; a scheduling request always uses the state's task and marks the setup completed |
| Dialogue.CommandTextIgnored | index.js:200 | text starting with "/" after trimming leaves the state unchanged and schedules nothing |
| Dialogue.SlashCancelIgnored | index.js:196-200 | "/cancel", which the welcome text at index.js:150 lists, is such text |
| Dialogue.CancelResets | index.js:202-217 | "cancel" in any case resets the state to `awaiting_task` exactly when a setup is under way; otherwise the state is unchanged, even when absent; nothing is scheduled |
| Dialogue.TextBecomesTask | index.js:219-241 | with no state, after a completed setup, or in `awaiting_task`, the trimmed text becomes the task and the step becomes `awaiting_time` |
| Dialogue.TextWhileChoosing | index.js:226-257 | in `awaiting_time` or `custom_choice` text changes nothing; `custom_choice` answers "not understood" and `awaiting_time` answers nothing |
| Dialogue.OnTextResponds | index.js:200-223 | text that is neither a command nor "cancel" is answered by the chat's step, after a fresh start when there was no state or the setup had completed |
| Dialogue.TodayReply | index.js:258-286 | in `custom_time_today` a request is made exactly when the text is `HH:MM` and that time today is not before now; otherwise the state is unchanged |
| Dialogue.TomorrowReply | index.js:287-308 | in `custom_time_tomorrow` a request for that time tomorrow is made exactly when the text is `HH:MM`, with no check against now; otherwise the state is unchanged |
| Dialogue.FullDateReply | index.js:309-324 | in `custom_time_full` a request is made exactly when `parseCustomDate` yields an instant, and it is for that instant; otherwise the state is unchanged |
| Dialogue.TodayAtNowCompletes | index.js:273-286 | a today time equal to now completes the setup with a request whose delay is not positive |
| Dialogue.DoneKeepsState | index.js:359-365 | "Mark as done" changes no state and schedules nothing |
| Dialogue.LaterReschedules | index.js:367-370 | "Remind me later" sets the state to `awaiting_time` with the button's task, whatever it was before |
| Dialogue.OptionSteps | index.js:390-488 | option buttons change nothing outside `awaiting_time` and `custom_choice`. There, `1h`/`3h`/`tomorrow` request now + 1 h, now + 3 h or tomorrow at 9:00 and complete the setup; `custom` and the three custom kinds move to their step; other tokens change nothing |
| Dialogue.TaskThenOneHour | index.js:399-411 | from no state, a text (index.js:219-255) and then "1 hour" request a reminder of that text one hour later and complete the setup |
| Bot.Select | index.js:335-343 | the delete button selects nothing exactly when the chat has no reminders; a selected position is in range and is the payload's number; an invalid one is NaN or out of range |
| Bot.ReminderBot.Load | index.js:30-51 | start-up holds the loaded snapshot with null handles, no timers and no conversations |
| Bot.ReminderBot.Save | index.js:15-28 | the file holds the table without timer handles |
| Bot.ReminderBot.Restore | index.js:53-86 | after the restart, every remaining reminder has its own running timer, the file is saved, and the saved table is the restart filter of the loaded snapshot |
| Bot.ReminderBot.RestoreChat | index.js:55-83 | one chat restored: its list becomes its due reminders, each armed; the key goes when all have passed; other chats are untouched |
| Bot.ReminderBot.Schedule | index.js:96-132 | a delay of zero or less returns false and changes nothing; otherwise one entry with a fresh handle goes at the end of the chat's list, its timer is armed, the table is saved, and true is returned |
| Bot.ReminderBot.Fire | index.js:104-126 | a timer delivers its own chat and task; exactly its entry leaves the list, the others keep their order, the key goes when the list empties, and a timer that is no longer running does nothing; the callbacks armed at restart (index.js:58-78) behave the same |
| Bot.ReminderBot.Delete | index.js:335-356 | no reminders, or a payload that is NaN or out of range, changes nothing; otherwise exactly entry k is removed, its timer is cleared, and the key stays |
| Bot.ReminderBot.Splice | index.js:347-349 | the entry's timer is cleared, exactly entry k is spliced out, the table is saved, and the removed task is returned |
| Bot.ReminderBot.Reset | index.js:92-94 | `resetUserState`, which `/start` calls at index.js:157, puts the chat back at `awaiting_task` without a task |
| Bot.ReminderBot.HandleMessage | index.js:196-325 | the chat's state moves as `OnText` says; the scheduling call it asks for is made, and its result does not affect the state |
| Bot.ReminderBot.HandleButton | index.js:329-489 | a delete button acts on the table alone; any other button moves the state as `OnButton` says and makes the scheduling call it asks for |

## Left out

- The Telegram transport is not modelled. That covers message texts, emoji and keyboards, `answerCallbackQuery`, the `polling_error` handler (index.js:493-499), and `/list` and the `/delete` keyboard (index.js:160-192). A reply is an abstract `Reply` value, and a delivered reminder is a `Delivery` value.
- `onText` dispatch by regular expression is not modelled. `/\/start/` matches anywhere in a message, so a text such as "buy /start" both reaches the message handler and resets the state. The model has `Reset` and `HandleMessage` as separate events.
- A message without text crashes the handler at `msg.text.trim()` (index.js:198). The model's text is always a string.
- File I/O and JSON are not modelled. `saved` is the snapshot the file would hold, and a failed read or write (the `catch` branches) is not modelled.
- `Date` objects are not modelled, nor the `null` a `Date` becomes in JSON. Times are integers.
- Real timers and the event loop are not modelled. A timer fires only when `Fire` is called, and nothing runs between the steps of one handler.
- Node's `setTimeout` treats a delay above 2147483647 ms (about 24.8 days) as 1 ms. A reminder set further ahead, by a full date (index.js:318) or re-armed at restart (index.js:58), is therefore delivered and removed almost at once. The model does not say when `Fire` is called, so it allows this early delivery but does not state it.
- Luxon and the time zone are kept abstract in `Calendar`, including DST. Luxon may reject an hour over 23 or a minute over 59 passed to `set` and produce an invalid date, and that path is not modelled: `todayAt` and `tomorrowAt` always return an instant.
- Bot.ReminderBot.RestoreChat: the restart loop's writes to the table happen once per chat in the model rather than once per reminder. Nothing can observe the difference, because no other code runs during the loop.
- Reminders.ArmList: the source removes a past reminder with `filter(r => r !== reminder)`, that is by object identity. The model builds the list of kept reminders, which gives the same result because the objects in a list are distinct.
- Bot.ReminderBot.Restore: `for...in` visits the chats in the JavaScript engine's key order. The model visits them in an arbitrary order. The result does not depend on the order, and the timer handle numbers are the only thing that does.
- Text.Trim: strings are sequences of Unicode code points, not UTF-16 code units. `toLowerCase` is modelled on the letters A to Z only, which is all the comparison with "cancel" needs.
- Text.ParseDecimalOfNat: in JavaScript `parseInt("-0")` is `-0`. In the model it is 0; both select position 0.
