/** The bot's state: the reminder table and the per-chat conversation map,
    which the handlers update in place, with the running timers and the
    reminders file beside them. Each method is one handler or helper of the
    bot; its contract states the new state in terms of the functions of
    `Reminders` and `Dialogue`, whose own lemmas say what those promise. */
module Bot {
  import opened Options
  import opened Reminders
  import opened Dialogue

  /** A reminder going out: the "Reminder: <task>" message and the follow-up
      question whose buttons carry `"done_" + task` and `"remind_later_" + task`. */
  datatype Delivery = Delivery(chat: ChatId, task: string)

  /** Why a delete button removes nothing, or which position it removes. */
  datatype Selection = NothingListed | Invalid | Position(k: nat)

  /** The delete button's checks: the chat must have a non-empty list, and the
      payload's number must be a position in it. */
  function Select(t: Table, chat: ChatId, arg: string): (r: Selection)
    ensures r.NothingListed? <==> chat !in t || t[chat] == []
    ensures r.Position? ==> chat in t && r.k < |t[chat]| && SelectedIndex(arg) == Some(r.k)
    ensures r.Invalid? ==> SelectedIndex(arg).None? || SelectedIndex(arg).value < 0
                           || SelectedIndex(arg).value >= |t[chat]|
  {
    if chat !in t || |t[chat]| == 0 then NothingListed
    else
      match SelectedIndex(arg)
      case None => Invalid
      case Some(i) => if i < 0 || i >= |t[chat]| then Invalid else Position(i)
  }

  ghost predicate StatesWellFormed(m: map<ChatId, Conversation>) {
    forall c :: c in m ==> WellFormed(Some(m[c]))
  }

  function Lookup(m: map<ChatId, Conversation>, c: ChatId): Option<Conversation> {
    if c in m then Some(m[c]) else None
  }

  /** Stores a handler's new state for the chat; `None` means the chat had no
      entry and still has none. */
  function Commit(m: map<ChatId, Conversation>, c: ChatId, next: Option<Conversation>): map<ChatId, Conversation> {
    if next.None? then m else m[c := next.value]
  }

  class ReminderBot {
    /** `reminders`: chat id to its pending reminders, in the order they were set. */
    var reminders: Table
    /** The timers that are running, by handle, with what each will deliver. */
    var timers: Timers
    /** The handle the next timer gets. */
    var nextTimer: Handle
    /** What the reminders file holds after the last save. */
    var saved: Snapshot
    /** `userState`: chat id to its conversation. */
    var userState: map<ChatId, Conversation>

    /** Every reminder has its own running timer and every running timer its
        reminder; the file holds the table; every conversation is well formed. */
    ghost predicate Valid()
      reads this
    {
      Consistent(reminders, timers, nextTimer) && saved == Strip(reminders) && StatesWellFormed(userState)
    }

    /** Just after loading: the table comes from the file and no timer runs yet. */
    ghost predicate Loaded()
      reads this
    {
      timers == map[] && saved == Strip(reminders) && StatesWellFormed(userState)
    }

    /** Start-up: `reminders = loadReminders()` from a file holding `file`
        (every handle `null`); no chat has a conversation yet. */
    constructor Load(file: Snapshot)
      ensures Loaded()
      ensures reminders == Thaw(file) && saved == file && userState == map[]
    {
      reminders := Thaw(file);
      timers := map[];
      nextTimer := 0;
      saved := file;
      userState := map[];
      StripThaw(file);
    }

    /** `saveReminders`: the file now holds the table without timer handles. */
    method Save()
      modifies this`saved
      ensures saved == Strip(reminders)
    {
      saved := CleanReminders(reminders);
    }

    /** `restoreAllReminders`: every loaded reminder whose delay `remindAt -
        now` is positive gets a running timer; every other one is dropped
        without being delivered, a chat whose reminders were all dropped loses
        its entry, and the result is saved. */
    method Restore(now: int)
      requires Loaded()
      modifies this`reminders, this`timers, this`nextTimer, this`saved
      ensures Valid()
      ensures Strip(reminders) == Restored(Strip(old(reminders)), now)
      ensures forall h :: h in timers ==> h >= old(nextTimer)
    {
      ghost var t0 := reminders;
      var pending := reminders.Keys;
      while pending != {}
        invariant pending <= reminders.Keys && reminders.Keys <= t0.Keys
        invariant forall c :: c in pending ==> reminders[c] == t0[c]
        invariant RestoredOutside(t0, reminders, pending, now)
        invariant ConsistentOutside(reminders, timers, nextTimer, pending)
        invariant nextTimer >= old(nextTimer) && forall h :: h in timers ==> h >= old(nextTimer)
        invariant userState == old(userState)
        decreases pending
      {
        NoMemberEmpty(pending);
        var c :| c in pending;
        ghost var before := reminders;
        RestoreChat(c, now, pending);
        RestoredOutsideStep(t0, before, reminders, pending, c, now);
        pending := pending - {c};
      }
      Save();
      RestoredAll(t0, reminders, now);
    }

    /** The `forEach` over one chat's loaded list: future reminders, in order,
        each get a timer with a fresh handle; past ones are filtered out, and
        the chat's key is deleted when the filter leaves nothing. */
    method RestoreChat(c: ChatId, now: int, ghost pending: set<ChatId>)
      requires c in pending && pending <= reminders.Keys
      requires ConsistentOutside(reminders, timers, nextTimer, pending)
      modifies this`reminders, this`timers, this`nextTimer
      ensures ConsistentOutside(reminders, timers, nextTimer, pending - {c})
      ensures nextTimer >= old(nextTimer) && forall h :: h in timers ==> h in old(timers) || h >= old(nextTimer)
      ensures (c in reminders && reminders == old(reminders)[c := reminders[c]]) || reminders == old(reminders) - {c}
      ensures c in reminders <==> KeepsKey(StripList(old(reminders)[c]), now)
      ensures c in reminders ==> StripList(reminders[c]) == Future(StripList(old(reminders)[c]), now)
    {
      var orig := reminders[c];
      var cur, armed := ArmList(c, orig, now, nextTimer, timers);
      var t := if |orig| > 0 && cur == [] then reminders - {c} else reminders[c := cur];
      RestoredChatConsistent(reminders, timers, nextTimer, pending, c, cur, armed, t);
      reminders, timers, nextTimer := t, armed, nextTimer + |cur|;
    }

    /** `scheduleReminder(chatId, task, at)` at instant `now`: a delay of zero
        or less is turned down and changes nothing; otherwise a timer with a
        fresh handle is started, the reminder is appended to the chat's list,
        and the table is saved. The conversation map is not touched. */
    method Schedule(chat: ChatId, task: string, at: int, now: int) returns (ok: bool)
      requires Valid()
      modifies this`reminders, this`timers, this`nextTimer, this`saved
      ensures Valid()
      ensures ok <==> at - now > 0
      ensures reminders == Scheduled(old(reminders), chat, task, at, now, old(nextTimer))
      ensures timers == if ok then old(timers)[old(nextTimer) := Armed(chat, task)] else old(timers)
      ensures nextTimer == if ok then old(nextTimer) + 1 else old(nextTimer)
      ensures !ok ==> saved == old(saved)
    {
      if at - now <= 0 {
        return false;
      }
      AppendKeepsConsistent(reminders, timers, nextTimer, chat, task, at);
      var h := nextTimer;
      timers := timers[h := Armed(chat, task)];
      nextTimer := nextTimer + 1;
      reminders := Append(reminders, chat, Reminder(task, at, Some(h)));
      Save();
      ok := true;
    }

    /** The timer with handle `h` fires. A timer that was cleared or has fired
        already does nothing. Otherwise its reminder is delivered, that one
        entry leaves the chat's list (the others keep their order), the chat
        loses its key when the list empties, and the table is saved. */
    method Fire(h: Handle) returns (d: Option<Delivery>)
      requires Valid()
      modifies this`reminders, this`timers, this`saved
      ensures Valid()
      ensures h !in timers
      ensures h !in old(timers) ==> d.None? && unchanged(this)
      ensures h in old(timers) ==>
                && d == Some(Delivery(old(timers)[h].chat, old(timers)[h].task))
                && timers == old(timers) - {h}
                && reminders == RemoveFired(old(reminders), old(timers)[h].chat, h)
                && exists k :: && 0 <= k < |old(reminders)[old(timers)[h].chat]|
                               && old(reminders)[old(timers)[h].chat][k].timer == Some(h)
                               && reminders == Settle(old(reminders), old(timers)[h].chat,
                                                      RemoveAt(old(reminders)[old(timers)[h].chat], k))
    {
      if h !in timers {
        return None;
      }
      var a := timers[h];
      var k := FireKeepsConsistent(reminders, timers, nextTimer, h);
      timers := timers - {h};
      d := Some(Delivery(a.chat, a.task));
      if a.chat in reminders {
        var rest := WithoutHandle(reminders[a.chat], h);
        reminders := if |rest| == 0 then reminders - {a.chat} else reminders[a.chat := rest];
        Save();
      }
    }

    /** The `delete_<n>` button: with no reminders, or a payload that is not a
        position in the list, nothing changes; otherwise that entry's timer is
        cleared, the entry is spliced out (the chat keeps its key, even with an
        empty list) and the table is saved. */
    method Delete(chat: ChatId, arg: string) returns (reply: Reply)
      requires Valid()
      modifies this`reminders, this`timers, this`saved
      ensures Valid()
      ensures var sel := Select(old(reminders), chat, arg);
        && (sel.NothingListed? ==> reply == NoRemindersToDelete && unchanged(this))
        && (sel.Invalid? ==> reply == InvalidSelection && unchanged(this))
        && (sel.Position? ==>
              var s := old(reminders)[chat];
              && reply == Deleted(s[sel.k].task)
              && reminders == old(reminders)[chat := RemoveAt(s, sel.k)]
              && s[sel.k].timer.Some?
              && timers == old(timers) - {s[sel.k].timer.value})
    {
      var sel := Select(reminders, chat, arg);
      if !sel.Position? {
        reply := if sel.NothingListed? then NoRemindersToDelete else InvalidSelection;
        return;
      }
      var task := Splice(chat, sel.k);
      reply := Deleted(task);
    }

    /** The delete button past its checks: clear the timer of entry `k`,
        splice it out of the chat's list and save. */
    method Splice(chat: ChatId, k: nat) returns (task: string)
      requires Valid() && chat in reminders && k < |reminders[chat]|
      modifies this`reminders, this`timers, this`saved
      ensures Valid()
      ensures var s := old(reminders)[chat];
        && task == s[k].task
        && reminders == old(reminders)[chat := RemoveAt(s, k)]
        && s[k].timer.Some?
        && timers == old(timers) - {s[k].timer.value}
    {
      var s := reminders[chat];
      RemoveAtKeepsConsistent(reminders, timers, nextTimer, chat, k);
      var h := s[k].timer.value;
      var t := reminders[chat := RemoveAt(s, k)];
      timers, reminders := timers - {h}, t;
      Save();
      task := s[k].task;
    }

    /** `resetUserState`, which `/start` calls: the chat starts over at
        `awaiting_task`, without a task. */
    method Reset(chat: ChatId)
      requires Valid()
      modifies this`userState
      ensures Valid()
      ensures userState == old(userState)[chat := FRESH]
    {
      userState := userState[chat := FRESH];
    }

    /** The `message` handler for text `raw` at instant `now`: the chat's state
        moves as `OnText` says, and the `scheduleReminder` call it asks for, if
        any, is made (`accepted` is its result, which the handler ignores). */
    method HandleMessage(chat: ChatId, raw: string, now: int, cal: Calendar) returns (reply: Reply, accepted: Option<bool>)
      requires Valid()
      modifies this
      ensures Valid()
      ensures var o := OnText(Lookup(old(userState), chat), raw, now, cal);
        && reply == o.reply
        && userState == Commit(old(userState), chat, o.next)
        && (o.request.None? ==> accepted.None? && unchanged(this`reminders, this`timers, this`nextTimer, this`saved))
        && (o.request.Some? ==>
              && accepted == Some(o.request.value.at - now > 0)
              && reminders == Scheduled(old(reminders), chat, o.request.value.task, o.request.value.at, now, old(nextTimer)))
    {
      var o := OnText(Lookup(userState, chat), raw, now, cal);
      accepted := None;
      if o.request.Some? {
        var ok := Schedule(chat, o.request.value.task, o.request.value.at, now);
        accepted := Some(ok);
      }
      userState := Commit(userState, chat, o.next);
      reply := o.reply;
    }

    /** The `callback_query` handler for payload `data` at instant `now`: a
        delete button acts on the table alone; any other button moves the
        chat's state as `OnButton` says and makes the scheduling call it asks for. */
    method HandleButton(chat: ChatId, data: string, now: int, cal: Calendar) returns (reply: Reply, accepted: Option<bool>)
      requires Valid()
      modifies this
      ensures Valid()
      ensures Classify(data).DeleteChoice? ==>
                var sel := Select(old(reminders), chat, Classify(data).arg);
                && accepted.None? && userState == old(userState) && nextTimer == old(nextTimer)
                && (sel.Position? <==> reply.Deleted?)
                && (sel.Position? ==> reminders == old(reminders)[chat := RemoveAt(old(reminders)[chat], sel.k)])
                && (!sel.Position? ==> reminders == old(reminders) && timers == old(timers))
      ensures !Classify(data).DeleteChoice? ==>
                var o := OnButton(Lookup(old(userState), chat), Classify(data), now, cal);
                && reply == o.reply
                && userState == Commit(old(userState), chat, o.next)
                && (o.request.None? ==> accepted.None? && unchanged(this`reminders, this`timers, this`nextTimer, this`saved))
                && (o.request.Some? ==>
                      && accepted == Some(o.request.value.at - now > 0)
                      && reminders == Scheduled(old(reminders), chat, o.request.value.task, o.request.value.at, now, old(nextTimer)))
    {
      var b := Classify(data);
      accepted := None;
      if b.DeleteChoice? {
        reply := Delete(chat, b.arg);
        return;
      }
      var o := OnButton(Lookup(userState, chat), b, now, cal);
      if o.request.Some? {
        var ok := Schedule(chat, o.request.value.task, o.request.value.at, now);
        accepted := Some(ok);
      }
      userState := Commit(userState, chat, o.next);
      reply := o.reply;
    }
  }
}
