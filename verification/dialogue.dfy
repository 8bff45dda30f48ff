/** The per-chat conversation: which step of setting up a reminder a chat is
    in, and how a text message or a button press moves it on. `OnText` and
    `OnButton` say what the two handlers do to one chat's state; the
    `ReminderBot` class applies them to its `userState` map and carries out
    the `scheduleReminder` call they ask for. */
module Dialogue {
  import opened Options
  import opened Text
  import opened ClockText

  datatype Step =
    | AwaitingTask | AwaitingTime | CustomChoice
    | CustomTimeToday | CustomTimeTomorrow | CustomTimeFull
    | Completed

  /** `userState[chatId]`: `{step, task}`, with no task right after a reset. */
  datatype Conversation = Conversation(step: Step, task: Option<string>)

  /** What `resetUserState` stores: `{step: "awaiting_task"}`. */
  const FRESH := Conversation(AwaitingTask, None)

  /** A chat has a task exactly when it is past `awaiting_task`; every handler keeps this. */
  predicate WellFormed(st: Option<Conversation>) {
    st.Some? ==> (st.value.step == AwaitingTask <==> st.value.task.None?)
  }

  /** A reset by "cancel" applies only in the middle of a setup. */
  predicate Active(st: Option<Conversation>) {
    st.Some? && st.value.step != AwaitingTask && st.value.step != Completed
  }

  const HOUR_MS := 3_600_000

  /** The instants the date library builds in the bot's fixed time zone from
      the current instant `now` (all in milliseconds): `todayAt(now, h, m)` is
      `now` with the hour and minute set and seconds cleared, `tomorrowAt(now,
      h, m)` the same one day later, and `fromIso(text)` the instant an ISO
      local date-time names, or `None` when the library finds it invalid. */
  datatype Calendar = Calendar(
    todayAt: (int, nat, nat) -> int,
    tomorrowAt: (int, nat, nat) -> int,
    fromIso: string -> Option<int>)

  /** A `scheduleReminder(chatId, task, at)` call a handler makes. */
  datatype Request = Request(task: string, at: int)

  /** What the bot sends back (the wording is not modelled). */
  datatype Reply =
    | Ignored            // text starting with "/": left to the command handlers
    | Canceled | NothingToCancel
    | NotUnderstood      // text while a button is expected
    | AskWhen            // the 1 hour / 3 hours / tomorrow / custom keyboard
    | Silent             // nothing is sent
    | BadClock | PassedToday | BadDateTime
    | Confirmed          // "I will remind you ...", sent whatever `scheduleReminder` decided
    | AskCustomKind | AskToday | AskTomorrow | AskFullDate
    | TaskFirst | UnknownOption
    | MarkedDone(task: string) | AskWhenAgain(task: string)
    | NoRemindersToDelete | InvalidSelection | Deleted(task: string)

  /** The chat's state afterwards (`None`: still no entry), the scheduling call
      made, if any, and the reply. */
  datatype Outcome = Outcome(next: Option<Conversation>, request: Option<Request>, reply: Reply)

  /** Schedule the chat's task at `at` and mark the setup `completed`. */
  function Complete(s: Conversation, at: int): Outcome
    requires s.task.Some?
  {
    Outcome(Some(s.(step := Completed)), Some(Request(s.task.value, at)), Confirmed)
  }

  /** What the `message` handler does with text `raw` for a chat whose state is `st`. */
  function OnText(st: Option<Conversation>, raw: string, now: int, cal: Calendar): (o: Outcome)
    requires WellFormed(st)
    ensures WellFormed(o.next)
    ensures st.Some? ==> o.next.Some?
    ensures o.request.Some? ==> && st.Some? && st.value.task == Some(o.request.value.task)
                                && o.next == Some(st.value.(step := Completed))
  {
    var text := Trim(raw);
    if StartsWith(text, "/") then Outcome(st, None, Ignored)
    else if IsCancelWord(text) then
      if Active(st) then Outcome(Some(FRESH), None, Canceled) else Outcome(st, None, NothingToCancel)
    else if st.None? || st.value.step == Completed then Respond(FRESH, text, now, cal)
    else Respond(st.value, text, now, cal)
  }

  /** The handler past the command and "cancel" checks, for a chat in state
      `s` (a fresh one when it had none or had completed a setup) and trimmed
      text `text`. */
  function Respond(s: Conversation, text: string, now: int, cal: Calendar): (o: Outcome)
    requires WellFormed(Some(s)) && s.step != Completed
    ensures WellFormed(o.next) && o.next.Some?
    ensures o.request.Some? ==> s.task == Some(o.request.value.task) && o.next == Some(s.(step := Completed))
    ensures o.request.None? && s.step != AwaitingTask ==> o.next == Some(s)
  {
    if s.step == CustomChoice then Outcome(Some(s), None, NotUnderstood)
    else
      match s.step
      case AwaitingTask => Outcome(Some(Conversation(AwaitingTime, Some(text))), None, AskWhen)
      case CustomTimeToday =>
        (match ParseClock(text)
         case None => Outcome(Some(s), None, BadClock)
         case Some(c) =>
           var at := cal.todayAt(now, c.hour, c.minute);
           if at < now then Outcome(Some(s), None, PassedToday) else Complete(s, at))
      case CustomTimeTomorrow =>
        (match ParseClock(text)
         case None => Outcome(Some(s), None, BadClock)
         case Some(c) => Complete(s, cal.tomorrowAt(now, c.hour, c.minute)))
      case CustomTimeFull =>
        (match ParseCustomDate(text, cal.fromIso)
         case None => Outcome(Some(s), None, BadDateTime)
         case Some(at) => Complete(s, at))
      case _ => Outcome(Some(s), None, Silent)
  }

  // ---------------------------------------------------------------------
  // Button payloads

  /** A `callback_data` string, by prefix, in the order the handler tests them. */
  datatype Button =
    | DeleteChoice(arg: string) | DoneChoice(task: string)
    | LaterChoice(task: string) | OptionChoice(token: string)

  function Payload(b: Button): string {
    match b
    case DeleteChoice(arg) => "delete_" + arg
    case DoneChoice(task) => "done_" + task
    case LaterChoice(task) => "remind_later_" + task
    case OptionChoice(token) => token
  }

  /** Every payload is read as exactly one kind of button, and nothing of it is lost. */
  function Classify(data: string): (b: Button)
    ensures Payload(b) == data
    ensures b.OptionChoice? <==> !StartsWith(data, "delete_") && !StartsWith(data, "done_")
                                 && !StartsWith(data, "remind_later_")
  {
    if StartsWith(data, "delete_") then DeleteChoice(data[7..])
    else if StartsWith(data, "done_") then DoneChoice(data[5..])
    else if StartsWith(data, "remind_later_") then LaterChoice(data[13..])
    else OptionChoice(data)
  }

  /** The two buttons sent after a reminder fires carry its task back intact. */
  lemma FollowUpButtons(task: string)
    ensures Classify("done_" + task) == DoneChoice(task)
    ensures Classify("remind_later_" + task) == LaterChoice(task)
  {
    var done, later := "done_" + task, "remind_later_" + task;
    assert done[1] == 'o' && later[0] == 'r';
    assert !StartsWith(done, "delete_") by {
      if |done| >= 7 { assert done[..7][1] != "delete_"[1]; }
    }
    assert !StartsWith(later, "delete_") by {
      assert later[..7][0] != "delete_"[0];
    }
    assert !StartsWith(later, "done_") by {
      assert later[..5][0] != "done_"[0];
    }
    assert done[..5] == "done_" && later[..13] == "remind_later_";
    assert ("done_" + task)[5..] == task;
    assert ("remind_later_" + task)[13..] == task;
  }

  /** `parseInt(data.split("_")[1], 10)` for a delete payload; `None` is `NaN`. */
  function SelectedIndex(arg: string): Option<int> {
    ParseDecimal(FirstField(arg))
  }

  /** `parseInt` reads a run of digits `ds` as its decimal value. */
  lemma DigitsPayload(ds: string)
    requires ds != [] && AllDigits(ds)
    ensures ParseDecimal(ds) == Some(DigitsValue(ds)) && '_' !in ds
  {
    DigitNotSpace(ds[0]);
    assert TrimStart(ds) == ds && SignStripped(ds) == ds;
    LeadingDigitsOfDigits(ds);
    assert forall i :: 0 <= i < |ds| ==> ds[i] != '_';
  }

  /** Payloads no button draws, as `parseInt` reads them: for a run of
      digits `ds`, white space and a plus sign before it are skipped, and the
      split stops at the next underscore. */
  lemma PaddedPayloads(ds: string, rest: string)
    requires ds != [] && AllDigits(ds)
    ensures SelectedIndex(ds) == Some(DigitsValue(ds))
    ensures SelectedIndex(" " + ds) == Some(DigitsValue(ds))
    ensures SelectedIndex("+" + ds) == Some(DigitsValue(ds))
    ensures SelectedIndex(ds + "_" + rest) == Some(DigitsValue(ds))
  {
    DigitsPayload(ds);
    FirstFieldUpTo(ds, rest);
    assert " " + ds == [' '] + ds;
    ParseDecimalSkipsSpace(' ', ds);
    FirstFieldUpTo(" " + ds, "");
    ParseDecimalSign(ds, DigitsValue(ds));
    FirstFieldUpTo("+" + ds, "");
  }

  /** A minus sign before the digits selects a negative index, which the
      range check then turns down. */
  lemma NegativePayload(ds: string)
    requires ds != [] && AllDigits(ds)
    ensures SelectedIndex("-" + ds).Some? && SelectedIndex("-" + ds).value + DigitsValue(ds) == 0
  {
    DigitsPayload(ds);
    ParseDecimalSign(ds, DigitsValue(ds));
    FirstFieldUpTo("-" + ds, "");
  }

  /** The button `/delete` draws for position `n` selects position `n`. */
  lemma DeleteButtonSelects(n: nat)
    ensures Classify("delete_" + NatToString(n)) == DeleteChoice(NatToString(n))
    ensures SelectedIndex(NatToString(n)) == Some(n)
  {
    var p := "delete_" + NatToString(n);
    assert p[..7] == "delete_";
    assert p[7..] == NatToString(n);
    FirstFieldOfNumeral(n);
    ParseDecimalOfNat(n);
  }

  /** What the `callback_query` handler does, for everything but a delete
      button, to a chat whose state is `st`. */
  function OnButton(st: Option<Conversation>, b: Button, now: int, cal: Calendar): (o: Outcome)
    requires !b.DeleteChoice? && WellFormed(st)
    ensures WellFormed(o.next)
    ensures st.Some? ==> o.next.Some?
    ensures o.request.Some? ==> && st.Some? && st.value.task == Some(o.request.value.task)
                                && o.next == Some(st.value.(step := Completed))
  {
    match b
    case DoneChoice(task) => Outcome(st, None, MarkedDone(task))
    case LaterChoice(task) => Outcome(Some(Conversation(AwaitingTime, Some(task))), None, AskWhenAgain(task))
    case OptionChoice(token) =>
      if st.None? || (st.value.step != AwaitingTime && st.value.step != CustomChoice) then
        Outcome(st, None, TaskFirst)
      else
        var s := st.value;
        if token == "1h" then Complete(s, now + HOUR_MS)
        else if token == "3h" then Complete(s, now + 3 * HOUR_MS)
        else if token == "tomorrow" then Complete(s, cal.tomorrowAt(now, 9, 0))
        else if token == "custom" then Outcome(Some(s.(step := CustomChoice)), None, AskCustomKind)
        else if token == "custom_today" then Outcome(Some(s.(step := CustomTimeToday)), None, AskToday)
        else if token == "custom_tomorrow" then Outcome(Some(s.(step := CustomTimeTomorrow)), None, AskTomorrow)
        else if token == "custom_full" then Outcome(Some(s.(step := CustomTimeFull)), None, AskFullDate)
        else Outcome(st, None, UnknownOption)
  }

  // ---------------------------------------------------------------------
  // Properties of the message handler

  /** Text starting with "/" never touches the state (the command handlers
      are separate). */
  lemma CommandTextIgnored(st: Option<Conversation>, raw: string, now: int, cal: Calendar)
    requires WellFormed(st) && StartsWith(Trim(raw), "/")
    ensures OnText(st, raw, now, cal) == Outcome(st, None, Ignored)
  {
  }

  /** "/cancel", which the welcome text lists as a command, is such text: no
      handler resets the state for it. */
  lemma SlashCancelIgnored(st: Option<Conversation>, now: int, cal: Calendar)
    requires WellFormed(st)
    ensures OnText(st, "/cancel", now, cal) == Outcome(st, None, Ignored)
  {
    assert !IsSpace('/') && !IsSpace('l');
    assert TrimStart("/cancel") == "/cancel";
    assert TrimEnd("/cancel") == "/cancel";
  }

  /** "cancel" in any case resets the chat to `awaiting_task` exactly when a
      setup is under way; otherwise the state stays as it is, even absent. */
  lemma CancelResets(st: Option<Conversation>, raw: string, now: int, cal: Calendar)
    requires WellFormed(st) && IsCancelWord(Trim(raw))
    ensures OnText(st, raw, now, cal).request.None?
    ensures OnText(st, raw, now, cal).next == if Active(st) then Some(FRESH) else st
  {
    assert !StartsWith(Trim(raw), "/") by {
      assert LowerChar(Trim(raw)[0]) == 'c';
    }
  }

  /** Other text with no state, or after a completed setup, starts a new one;
      in `awaiting_task` the trimmed text becomes the task and the chat moves
      to `awaiting_time`. */
  lemma TextBecomesTask(st: Option<Conversation>, raw: string, now: int, cal: Calendar)
    requires WellFormed(st) && !StartsWith(Trim(raw), "/") && !IsCancelWord(Trim(raw))
    requires st.None? || st.value.step == AwaitingTask || st.value.step == Completed
    ensures OnText(st, raw, now, cal) == Outcome(Some(Conversation(AwaitingTime, Some(Trim(raw)))), None, AskWhen)
  {
  }

  /** While a button is expected the state does not move: `custom_choice`
      answers that it did not understand, `awaiting_time` sends nothing. */
  lemma TextWhileChoosing(st: Option<Conversation>, raw: string, now: int, cal: Calendar)
    requires WellFormed(st) && !IsCancelWord(Trim(raw))
    requires st.Some? && (st.value.step == AwaitingTime || st.value.step == CustomChoice)
    ensures OnText(st, raw, now, cal).next == st && OnText(st, raw, now, cal).request.None?
    ensures !StartsWith(Trim(raw), "/") ==>
              OnText(st, raw, now, cal).reply == if st.value.step == AwaitingTime then Silent else NotUnderstood
  {
  }

  /** Text that is neither a command nor "cancel" is answered by the step the
      chat is in, after a fresh start when it had no state or had completed. */
  lemma OnTextResponds(st: Option<Conversation>, raw: string, now: int, cal: Calendar)
    requires WellFormed(st) && !StartsWith(Trim(raw), "/") && !IsCancelWord(Trim(raw))
    ensures OnText(st, raw, now, cal)
            == Respond(if st.None? || st.value.step == Completed then FRESH else st.value, Trim(raw), now, cal)
  {
  }

  /** `custom_time_today`: a time that does not match `HH:MM`, or one already
      earlier than now, leaves the state alone; any other completes the setup
      with a reminder at that time today. */
  lemma TodayReply(s: Conversation, text: string, now: int, cal: Calendar)
    requires WellFormed(Some(s)) && s.step == CustomTimeToday
    ensures var o := Respond(s, text, now, cal);
      && (o.request.Some? <==> (ParseClock(text).Some?
            && cal.todayAt(now, ParseClock(text).value.hour, ParseClock(text).value.minute) >= now))
      && (o.request.None? ==> o.next == Some(s))
      && (o.request.Some? ==>
            o.request.value.at == cal.todayAt(now, ParseClock(text).value.hour, ParseClock(text).value.minute))
  {
  }

  /** `custom_time_tomorrow`: any `HH:MM` text completes the setup with a
      reminder at that time tomorrow; there is no check against now. */
  lemma TomorrowReply(s: Conversation, text: string, now: int, cal: Calendar)
    requires WellFormed(Some(s)) && s.step == CustomTimeTomorrow
    ensures var o := Respond(s, text, now, cal);
      && (o.request.Some? <==> ParseClock(text).Some?)
      && (o.request.None? ==> o.next == Some(s))
      && (o.request.Some? ==>
            o.request.value.at == cal.tomorrowAt(now, ParseClock(text).value.hour, ParseClock(text).value.minute))
  {
  }

  /** `custom_time_full`: text that `parseCustomDate` rejects leaves the state
      alone; otherwise the setup completes with a reminder at that instant. */
  lemma FullDateReply(s: Conversation, text: string, now: int, cal: Calendar)
    requires WellFormed(Some(s)) && s.step == CustomTimeFull
    ensures var o := Respond(s, text, now, cal);
      && (o.request.Some? <==> ParseCustomDate(text, cal.fromIso).Some?)
      && (o.request.None? ==> o.next == Some(s))
      && (o.request.Some? ==> Some(o.request.value.at) == ParseCustomDate(text, cal.fromIso))
  {
  }

  /** A "today" time equal to now passes the handler's check (it only rejects
      earlier times), so the setup completes although `scheduleReminder`,
      which needs a positive delay, turns the reminder down. */
  lemma TodayAtNowCompletes(s: Conversation, text: string, now: int, cal: Calendar)
    requires WellFormed(Some(s)) && s.step == CustomTimeToday
    requires ParseClock(text).Some?
    requires cal.todayAt(now, ParseClock(text).value.hour, ParseClock(text).value.minute) == now
    ensures var o := Respond(s, text, now, cal);
      o.next.Some? && o.next.value.step == Completed && o.request.Some? && o.request.value.at - now <= 0
  {
    TodayReply(s, text, now, cal);
  }

  // ---------------------------------------------------------------------
  // Properties of the button handler

  /** "Mark as done" changes no state. */
  lemma DoneKeepsState(st: Option<Conversation>, task: string, now: int, cal: Calendar)
    requires WellFormed(st)
    ensures OnButton(st, DoneChoice(task), now, cal) == Outcome(st, None, MarkedDone(task))
  {
  }

  /** "Remind me later" puts the chat in `awaiting_time` with the task from the
      button, whatever its state was. */
  lemma LaterReschedules(st: Option<Conversation>, task: string, now: int, cal: Calendar)
    requires WellFormed(st)
    ensures OnButton(st, LaterChoice(task), now, cal).next == Some(Conversation(AwaitingTime, Some(task)))
  {
  }

  /** An option button does nothing unless the chat is in `awaiting_time` or
      `custom_choice`; there, the presets complete the setup, "custom" and the
      three custom kinds move to the matching step, and an unknown token
      changes nothing. */
  lemma OptionSteps(st: Option<Conversation>, token: string, now: int, cal: Calendar)
    requires WellFormed(st)
    ensures var o := OnButton(st, OptionChoice(token), now, cal);
      && (!(st.Some? && st.value.step in {AwaitingTime, CustomChoice}) ==> o == Outcome(st, None, TaskFirst))
      && (st.Some? && st.value.step in {AwaitingTime, CustomChoice} ==>
            && (token in {"1h", "3h", "tomorrow"} <==> o.request.Some?)
            && (token == "1h" ==> o.request.value.at == now + HOUR_MS)
            && (token == "3h" ==> o.request.value.at == now + 3 * HOUR_MS)
            && (token == "tomorrow" ==> o.request.value.at == cal.tomorrowAt(now, 9, 0))
            && o.next.Some?
            && o.next.value.task == st.value.task
            && o.next.value.step == (if token in {"1h", "3h", "tomorrow"} then Completed
                                     else if token == "custom" then CustomChoice
                                     else if token == "custom_today" then CustomTimeToday
                                     else if token == "custom_tomorrow" then CustomTimeTomorrow
                                     else if token == "custom_full" then CustomTimeFull
                                     else st.value.step))
  {
  }

  /** A whole setup from a chat with no state: the text becomes the task, and
      the "1 hour" button asks for a reminder of exactly that task one hour
      later and completes the setup. */
  lemma TaskThenOneHour(raw: string, now: int, cal: Calendar)
    requires !StartsWith(Trim(raw), "/") && !IsCancelWord(Trim(raw))
    ensures var o1 := OnText(None, raw, now, cal);
            var o2 := OnButton(o1.next, OptionChoice("1h"), now, cal);
            && o1.request.None?
            && o2.request == Some(Request(Trim(raw), now + HOUR_MS))
            && o2.next == Some(Conversation(Completed, Some(Trim(raw))))
  {
    TextBecomesTask(None, raw, now, cal);
  }
}
