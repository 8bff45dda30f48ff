/** The reminder table as values: each chat's ordered list of pending
    reminders, the timers that are running for them, and the snapshot the
    reminders file holds. The `ReminderBot` class keeps these in its fields;
    the functions here say what each operation makes of them, and the lemmas
    say which invariants the operations keep. */
module Reminders {
  import opened Options

  type ChatId = int
  type Handle = nat

  /** A pending reminder: the task text, the instant (milliseconds) and the
      handle of the timer that will deliver it; `None` is the `null` handle
      every reminder has between loading and restoring. */
  datatype Reminder = Reminder(task: string, remindAt: int, timer: Option<Handle>)

  /** A reminder as the reminders file holds it: no timer handle. */
  datatype Saved = Saved(task: string, remindAt: int)

  /** What a running timer delivers when it fires: the chat and the task its
      callback captured. */
  datatype Armed = Armed(chat: ChatId, task: string)

  type Table = map<ChatId, seq<Reminder>>
  type Snapshot = map<ChatId, seq<Saved>>
  type Timers = map<Handle, Armed>

  // ---------------------------------------------------------------------
  // Persistence projection

  /** The `map(({task, remindAt}) => ({task, remindAt}))` of `saveReminders`. */
  function StripList(s: seq<Reminder>): (r: seq<Saved>)
    ensures |r| == |s|
    ensures forall i {:trigger r[i]} :: 0 <= i < |s| ==> r[i] == Saved(s[i].task, s[i].remindAt)
  {
    if s == [] then [] else [Saved(s[0].task, s[0].remindAt)] + StripList(s[1..])
  }

  /** What `saveReminders` writes: every chat's list without timer handles. */
  function Strip(t: Table): Snapshot {
    map c | c in t :: StripList(t[c])
  }

  /** What `loadReminders` makes of one chat's saved list: the same reminders
      with a `null` timer handle. */
  function ThawList(ps: seq<Saved>): (s: seq<Reminder>)
    ensures |s| == |ps|
    ensures forall i :: 0 <= i < |ps| ==> s[i] == Reminder(ps[i].task, ps[i].remindAt, None)
  {
    if ps == [] then [] else [Reminder(ps[0].task, ps[0].remindAt, None)] + ThawList(ps[1..])
  }

  function Thaw(p: Snapshot): Table {
    map c | c in p :: ThawList(p[c])
  }

  /** Loading a snapshot and saving it again writes the same snapshot. */
  lemma StripThaw(p: Snapshot)
    ensures Strip(Thaw(p)) == p
  {
    forall c | c in p
      ensures StripList(ThawList(p[c])) == p[c]
    {
      var r := StripList(ThawList(p[c]));
      assert forall i :: 0 <= i < |r| ==> r[i] == p[c][i];
    }
  }

  lemma StripListAppend(a: seq<Reminder>, b: seq<Reminder>)
    ensures StripList(a + b) == StripList(a) + StripList(b)
  {
    var l, r := StripList(a + b), StripList(a) + StripList(b);
    assert forall i :: 0 <= i < |l| ==> l[i] == r[i];
  }

  // ---------------------------------------------------------------------
  // Scheduling, firing and deleting

  function ListOf(t: Table, c: ChatId): seq<Reminder> {
    if c in t then t[c] else []
  }

  /** `if (!reminders[chatId]) reminders[chatId] = []; reminders[chatId].push(r)`:
      the chat's list gains `r` at its end, and no other chat changes. */
  function Append(t: Table, c: ChatId, r: Reminder): (t': Table)
    ensures t'.Keys == t.Keys + {c}
    ensures t'[c] == ListOf(t, c) + [r] && t'[c][|t'[c]| - 1] == r
    ensures forall d :: d in t && d != c ==> t'[d] == t[d]
  {
    t[c := ListOf(t, c) + [r]]
  }

  /** `splice(k, 1)`: the list without its `k`-th element, the others in order. */
  function RemoveAt<T>(s: seq<T>, k: nat): (r: seq<T>)
    requires k < |s|
    ensures |r| == |s| - 1
    ensures forall i :: 0 <= i < k ==> r[i] == s[i]
    ensures forall i :: k <= i < |r| ==> r[i] == s[i + 1]
  {
    s[..k] + s[k + 1..]
  }

  /** Putting the removed element back where it was restores the list. */
  lemma RemoveAtInverse<T>(s: seq<T>, k: nat)
    requires k < |s|
    ensures RemoveAt(s, k)[..k] + [s[k]] + RemoveAt(s, k)[k..] == s
  {
    var r := RemoveAt(s, k);
    var u := r[..k] + [s[k]] + r[k..];
    assert forall i :: 0 <= i < |s| ==> u[i] == s[i];
  }

  /** `filter((r) => r.timeoutId !== timeoutId)`. */
  function WithoutHandle(s: seq<Reminder>, h: Handle): (r: seq<Reminder>)
    ensures |r| <= |s|
    ensures forall x :: x in r ==> x in s && x.timer != Some(h)
  {
    if s == [] then []
    else (if s[0].timer == Some(h) then [] else [s[0]]) + WithoutHandle(s[1..], h)
  }

  lemma {:induction false} WithoutAbsentHandle(s: seq<Reminder>, h: Handle)
    requires forall i :: 0 <= i < |s| ==> s[i].timer != Some(h)
    ensures WithoutHandle(s, h) == s
  {
    if s != [] {
      WithoutAbsentHandle(s[1..], h);
    }
  }

  ghost predicate DistinctTimers(s: seq<Reminder>) {
    forall i, j :: 0 <= i < j < |s| ==> s[i].timer != s[j].timer
  }

  /** When exactly one entry carries handle `h`, the filter removes that entry
      and keeps all the others in order. */
  lemma {:induction false} WithoutHandleAt(s: seq<Reminder>, h: Handle, k: nat)
    requires k < |s| && s[k].timer == Some(h) && DistinctTimers(s)
    ensures WithoutHandle(s, h) == RemoveAt(s, k)
  {
    if k == 0 {
      WithoutAbsentHandle(s[1..], h);
    } else {
      assert s[0].timer != Some(h);
      WithoutHandleAt(s[1..], h, k - 1);
      assert [s[0]] + RemoveAt(s[1..], k - 1) == RemoveAt(s, k);
    }
  }

  /** The table after a chat's list became `s`: `delete reminders[chatId]` when
      `s` is empty. */
  function Settle(t: Table, c: ChatId, s: seq<Reminder>): Table {
    if |s| == 0 then t - {c} else t[c := s]
  }

  /** The timer callback's table update: filter the fired entry out of the
      chat's list and drop the chat when nothing is left; nothing happens when
      the chat has no list. */
  function RemoveFired(t: Table, c: ChatId, h: Handle): (r: Table)
    ensures r - {c} == t - {c}
    ensures c in r <==> c in t && WithoutHandle(t[c], h) != []
    ensures c in r ==> r[c] == WithoutHandle(t[c], h)
  {
    if c in t then Settle(t, c, WithoutHandle(t[c], h)) else t
  }

  // ---------------------------------------------------------------------
  // Restoring after a restart

  /** The reminders whose delay `remindAt - now` is still positive, in order. */
  function Future(ps: seq<Saved>, now: int): (r: seq<Saved>)
    ensures |r| <= |ps|
  {
    if ps == [] then []
    else (if ps[0].remindAt - now > 0 then [ps[0]] else []) + Future(ps[1..], now)
  }

  /** Filtering a concatenation filters each part: the survivors keep their order. */
  lemma {:induction false} FutureAppend(a: seq<Saved>, b: seq<Saved>, now: int)
    ensures Future(a + b, now) == Future(a, now) + Future(b, now)
  {
    if a != [] {
      assert (a + b)[0] == a[0];
      assert (a + b)[1..] == a[1..] + b;
      FutureAppend(a[1..], b, now);
    } else {
      assert a + b == b;
    }
  }

  /** The filter keeps exactly the reminders that are still due: none is lost
      and none is made up. */
  lemma {:induction false} FutureMembers(ps: seq<Saved>, now: int, x: Saved)
    ensures x in Future(ps, now) <==> x in ps && x.remindAt > now
  {
    if ps != [] {
      FutureMembers(ps[1..], now, x);
      assert ps == [ps[0]] + ps[1..];
    }
  }

  /** Whether `restoreAllReminders` leaves a chat's key in place: its list was
      empty to begin with (nothing to visit), or a reminder survives. */
  predicate KeepsKey(ps: seq<Saved>, now: int) {
    ps == [] || Future(ps, now) != []
  }

  /** The snapshot after `restoreAllReminders`. */
  function Restored(p: Snapshot, now: int): (r: Snapshot)
    ensures r.Keys <= p.Keys
    ensures forall c :: c in p && p[c] == [] ==> c in r && r[c] == []
    ensures forall c :: c in r ==> |r[c]| <= |p[c]|
  {
    map c | c in p && KeepsKey(p[c], now) :: Future(p[c], now)
  }

  /** After restoring, a chat's list holds exactly its reminders that are still
      due, and a chat that had reminders but none still due has no entry. */
  lemma RestoredContents(p: Snapshot, now: int, c: ChatId, x: Saved)
    ensures c in Restored(p, now) && x in Restored(p, now)[c] <==> c in p && x in p[c] && x.remindAt > now
    ensures (c in p && p[c] != [] && forall i :: 0 <= i < |p[c]| ==> p[c][i].remindAt <= now)
              ==> c !in Restored(p, now)
  {
    if c in p {
      FutureMembers(p[c], now, x);
    }
    if c in p && forall i :: 0 <= i < |p[c]| ==> p[c][i].remindAt <= now {
      FutureOfPast(p[c], now);
    }
  }

  lemma {:induction false} FutureOfPast(ps: seq<Saved>, now: int)
    requires forall i :: 0 <= i < |ps| ==> ps[i].remindAt <= now
    ensures Future(ps, now) == []
  {
    if ps != [] {
      FutureOfPast(ps[1..], now);
    }
  }

  // ---------------------------------------------------------------------
  // The invariant tying the table to the running timers

  /** Entry `r` of chat `c` has a running timer that will deliver `r`'s task to `c`. */
  ghost predicate Tracked(timers: Timers, c: ChatId, r: Reminder) {
    r.timer.Some? && r.timer.value in timers && timers[r.timer.value] == Armed(c, r.task)
  }

  ghost predicate Holds(s: seq<Reminder>, h: Handle) {
    exists i :: 0 <= i < |s| && s[i].timer == Some(h)
  }

  /** The table and the timers agree, for every chat outside `pending`: each
      entry has its own running timer, and each running timer, which is
      younger than `next`, belongs to an entry of the chat it will deliver to. */
  ghost predicate ConsistentOutside(t: Table, timers: Timers, next: nat, pending: set<ChatId>) {
    && (forall h :: h in timers ==>
          h < next && timers[h].chat !in pending && timers[h].chat in t && Holds(t[timers[h].chat], h))
    && (forall c, i :: c in t && c !in pending && 0 <= i < |t[c]| ==> Tracked(timers, c, t[c][i]))
    && (forall c :: c in t && c !in pending ==> DistinctTimers(t[c]))
  }

  ghost predicate Consistent(t: Table, timers: Timers, next: nat) {
    ConsistentOutside(t, timers, next, {})
  }

  /** `scheduleReminder`'s accepted branch keeps the invariant: the new entry
      carries a fresh handle whose timer delivers its task to its chat. */
  lemma AppendKeepsConsistent(t: Table, timers: Timers, next: nat, c: ChatId, task: string, at: int)
    requires Consistent(t, timers, next)
    ensures Consistent(Append(t, c, Reminder(task, at, Some(next))), timers[next := Armed(c, task)], next + 1)
  {
    var t', timers' := Append(t, c, Reminder(task, at, Some(next))), timers[next := Armed(c, task)];
    forall h | h in timers'
      ensures timers'[h].chat in t' && Holds(t'[timers'[h].chat], h)
    {
      if h == next {
        assert t'[c][|t'[c]| - 1].timer == Some(h);
      } else {
        var d := timers[h].chat;
        var i :| 0 <= i < |t[d]| && t[d][i].timer == Some(h);
        assert t'[d][i] == t[d][i];
      }
    }
    forall d, i | d in t' && 0 <= i < |t'[d]|
      ensures Tracked(timers', d, t'[d][i])
    {
      if d != c || i < |t'[d]| - 1 {
        assert t'[d][i] == t[d][i];
        assert Tracked(timers, d, t[d][i]);
      }
    }
    forall d | d in t'
      ensures DistinctTimers(t'[d])
    {
      if d == c {
        forall i, j | 0 <= i < j < |t'[d]|
          ensures t'[d][i].timer != t'[d][j].timer
        {
          assert Tracked(timers, d, t[d][i]);
          if j < |t'[d]| - 1 {
            assert DistinctTimers(t[d]);
          }
        }
      }
    }
  }

  /** Clearing the timer of entry `k` and splicing it out keeps the invariant
      (the chat keeps its key, even when its list is now empty). */
  lemma RemoveAtKeepsConsistent(t: Table, timers: Timers, next: nat, c: ChatId, k: nat)
    requires Consistent(t, timers, next) && c in t && k < |t[c]|
    ensures t[c][k].timer.Some?
    ensures Consistent(t[c := RemoveAt(t[c], k)], timers - {t[c][k].timer.value}, next)
  {
    assert Tracked(timers, c, t[c][k]);
    var h := t[c][k].timer.value;
    var s := RemoveAt(t[c], k);
    var t', timers' := t[c := s], timers - {h};
    forall g | g in timers'
      ensures timers'[g].chat in t' && Holds(t'[timers'[g].chat], g)
    {
      var d := timers[g].chat;
      var i :| 0 <= i < |t[d]| && t[d][i].timer == Some(g);
      if d == c {
        assert i != k;
        if i < k { assert s[i] == t[c][i]; } else { assert s[i - 1] == t[c][i]; }
      }
    }
    forall d, i | d in t' && 0 <= i < |t'[d]|
      ensures Tracked(timers', d, t'[d][i])
    {
      if d == c {
        var j := if i < k then i else i + 1;
        assert t'[d][i] == t[c][j];
        assert Tracked(timers, c, t[c][j]);
        assert DistinctTimers(t[c]);
      } else {
        assert Tracked(timers, d, t[d][i]);
        assert timers[h].chat == c;
      }
    }
    forall d | d in t'
      ensures DistinctTimers(t'[d])
    {
      if d == c {
        assert DistinctTimers(t[c]);
        forall i, j | 0 <= i < j < |s|
          ensures s[i].timer != s[j].timer
        {
          var i0 := if i < k then i else i + 1;
          var j0 := if j < k then j else j + 1;
          assert s[i] == t[c][i0] && s[j] == t[c][j0];
        }
      }
    }
  }

  /** The timer with handle `h` is running: the entry it belongs to is the
      only one with that handle, and the fire callback's table update removes
      exactly that entry and keeps the invariant. */
  lemma FireKeepsConsistent(t: Table, timers: Timers, next: nat, h: Handle) returns (k: nat)
    requires Consistent(t, timers, next) && h in timers
    ensures timers[h].chat in t && k < |t[timers[h].chat]|
    ensures t[timers[h].chat][k] == Reminder(timers[h].task, t[timers[h].chat][k].remindAt, Some(h))
    ensures RemoveFired(t, timers[h].chat, h) == Settle(t, timers[h].chat, RemoveAt(t[timers[h].chat], k))
    ensures Consistent(RemoveFired(t, timers[h].chat, h), timers - {h}, next)
  {
    var c := timers[h].chat;
    k :| 0 <= k < |t[c]| && t[c][k].timer == Some(h);
    assert Tracked(timers, c, t[c][k]);
    WithoutHandleAt(t[c], h, k);
    RemoveAtKeepsConsistent(t, timers, next, c, k);
    var s := RemoveAt(t[c], k);
    if |s| == 0 {
      var t1 := t[c := s];
      assert Consistent(t1, timers - {h}, next);
      var t2 := t - {c};
      forall g | g in timers - {h}
        ensures (timers - {h})[g].chat in t2
      {
        var d := timers[g].chat;
        assert Holds(t1[d], g);
      }
    }
  }

  /** The effect of `scheduleReminder` on the table: with a positive delay the
      chat's list gains the reminder, carrying the new timer's handle `h`, at
      its end; otherwise nothing changes. */
  function Scheduled(t: Table, c: ChatId, task: string, at: int, now: int, h: Handle): Table {
    if at - now > 0 then Append(t, c, Reminder(task, at, Some(h))) else t
  }

  /** One chat restored: its list is now `cur`, the `k`-th entry armed with the
      fresh handle `n0 + k` (or, when nothing survived, the chat is gone), and
      the invariant extends to that chat. */
  lemma RestoredChatConsistent(t0: Table, timers0: Timers, n0: nat, pending: set<ChatId>,
                               c: ChatId, cur: seq<Reminder>, timers: Timers, t: Table)
    requires ConsistentOutside(t0, timers0, n0, pending) && c in pending && c in t0
    requires forall k :: 0 <= k < |cur| ==> cur[k].timer == Some(n0 + k)
    requires forall h :: h in timers <==> h in timers0 || n0 <= h < n0 + |cur|
    requires forall h :: h in timers0 ==> timers[h] == timers0[h]
    requires forall k :: 0 <= k < |cur| ==> timers[n0 + k] == Armed(c, cur[k].task)
    requires t == t0[c := cur] || (cur == [] && t == t0 - {c})
    ensures ConsistentOutside(t, timers, n0 + |cur|, pending - {c})
  {
    var rest := pending - {c};
    forall h | h in timers
      ensures h < n0 + |cur| && timers[h].chat !in rest && timers[h].chat in t && Holds(t[timers[h].chat], h)
    {
      if h in timers0 {
        var d := timers0[h].chat;
        assert Holds(t0[d], h);
        assert t[d] == t0[d];
      } else {
        var k := h - n0;
        assert timers[n0 + k] == Armed(c, cur[k].task);
        assert t[c] == cur && cur[k].timer == Some(h);
      }
    }
    forall d, i | d in t && d !in rest && 0 <= i < |t[d]|
      ensures Tracked(timers, d, t[d][i])
    {
      if d == c {
        assert t[d] == cur;
        assert timers[n0 + i] == Armed(c, cur[i].task);
      } else {
        assert t[d] == t0[d];
        assert Tracked(timers0, d, t0[d][i]);
      }
    }
    forall d | d in t && d !in rest
      ensures DistinctTimers(t[d])
    {
      if d != c {
        assert t[d] == t0[d];
      }
    }
  }

  /** Visiting one more loaded reminder extends the survivors by it exactly
      when its delay is positive. */
  lemma FutureStep(orig: seq<Reminder>, i: nat, now: int)
    requires i < |orig|
    ensures Future(StripList(orig[..i + 1]), now)
            == Future(StripList(orig[..i]), now)
               + (if orig[i].remindAt - now > 0 then [Saved(orig[i].task, orig[i].remindAt)] else [])
  {
    assert orig[..i + 1] == orig[..i] + [orig[i]];
    StripListAppend(orig[..i], [orig[i]]);
    FutureAppend(StripList(orig[..i]), StripList([orig[i]]), now);
    assert StripList([orig[i]]) == [Saved(orig[i].task, orig[i].remindAt)];
  }

  /** Every chat outside `pending` is restored as far as the saved contents
      go: it keeps its key exactly when `KeepsKey`, and then holds its
      reminders that are still due. */
  ghost predicate RestoredOutside(t0: Table, t: Table, pending: set<ChatId>, now: int) {
    && (forall c :: c in t0 && c !in pending ==> (c in t <==> KeepsKey(StripList(t0[c]), now)))
    && (forall c :: c in t && c in t0 && c !in pending ==> StripList(t[c]) == Future(StripList(t0[c]), now))
  }

  lemma RestoredOutsideStep(t0: Table, before: Table, after: Table, pending: set<ChatId>, c: ChatId, now: int)
    requires c in pending && before.Keys <= t0.Keys && c in before && before[c] == t0[c]
    requires RestoredOutside(t0, before, pending, now)
    requires (c in after && after == before[c := after[c]]) || after == before - {c}
    requires c in after <==> KeepsKey(StripList(before[c]), now)
    requires c in after ==> StripList(after[c]) == Future(StripList(before[c]), now)
    ensures RestoredOutside(t0, after, pending - {c}, now)
  {
    forall d | d in after && d in t0 && d !in pending - {c}
      ensures StripList(after[d]) == Future(StripList(t0[d]), now)
    {
      if d != c {
        assert after[d] == before[d];
      }
    }
  }

  /** With every chat restored, the table saves as `Restored` of the loaded snapshot. */
  lemma RestoredAll(t0: Table, t: Table, now: int)
    requires t.Keys <= t0.Keys && RestoredOutside(t0, t, {}, now)
    ensures Strip(t) == Restored(Strip(t0), now)
  {
    var p := Strip(t0);
    forall c | c in p
      ensures c in Strip(t) <==> c in Restored(p, now)
    {
      assert p[c] == StripList(t0[c]);
    }
    assert Strip(t).Keys == Restored(p, now).Keys;
    forall c | c in Strip(t)
      ensures Strip(t)[c] == Restored(p, now)[c]
    {
      assert p[c] == StripList(t0[c]);
    }
  }

  /** One step of the walk: the list kept so far grows by the visited
      reminder, with whatever timer handle it now carries, exactly when that
      reminder is still due. */
  lemma KeptStep(cur: seq<Reminder>, orig: seq<Reminder>, i: nat, now: int, r: Reminder)
    requires i < |orig| && r.task == orig[i].task && r.remindAt == orig[i].remindAt
    requires StripList(cur) == Future(StripList(orig[..i]), now)
    ensures StripList(cur + (if r.remindAt - now > 0 then [r] else [])) == Future(StripList(orig[..i + 1]), now)
  {
    FutureStep(orig, i, now);
    StripListAppend(cur, if r.remindAt - now > 0 then [r] else []);
  }

  /** The `forEach` of `restoreAllReminders` over one chat's loaded list
      `orig`: each reminder still due gets a timer, with the handles `n0`,
      `n0 + 1`, ... in list order, that will deliver its task to `c`; each
      other one is filtered out, so `cur` is what the chat's list holds when
      the walk is over. */
  method ArmList(c: ChatId, orig: seq<Reminder>, now: int, n0: Handle, timers: Timers)
    returns (cur: seq<Reminder>, armed: Timers)
    requires forall h :: h in timers ==> h < n0
    ensures StripList(cur) == Future(StripList(orig), now)
    ensures forall k :: 0 <= k < |cur| ==> cur[k].timer == Some(n0 + k)
    ensures forall h :: h in armed <==> h in timers || n0 <= h < n0 + |cur|
    ensures forall h :: h in timers ==> armed[h] == timers[h]
    ensures forall k :: 0 <= k < |cur| ==> armed[n0 + k] == Armed(c, cur[k].task)
  {
    cur, armed := [], timers;
    for i := 0 to |orig|
      invariant forall k :: 0 <= k < |cur| ==> cur[k].timer == Some(n0 + k)
      invariant forall h :: h in armed <==> h in timers || n0 <= h < n0 + |cur|
      invariant forall h :: h in timers ==> armed[h] == timers[h]
      invariant forall k :: 0 <= k < |cur| ==> armed[n0 + k] == Armed(c, cur[k].task)
      invariant StripList(cur) == Future(StripList(orig[..i]), now)
    {
      var r := orig[i];
      var armedR := r.(timer := Some(n0 + |cur|));
      KeptStep(cur, orig, i, now, armedR);
      if r.remindAt - now > 0 {
        armed := armed[n0 + |cur| := Armed(c, r.task)];
        cur := cur + [armedR];
      }
    }
    assert orig[..|orig|] == orig;
  }

  /** A set with no member is empty; the step that lets a loop over a table's
      keys pick the next chat. */
  lemma NoMemberEmpty(s: set<ChatId>)
    ensures (forall c :: c !in s) ==> s == {}
  {
    if forall c :: c !in s {
      assert s == {};
    }
  }

  /** Saving: the `cleanReminders` object `saveReminders` builds, one chat at a
      time, holding every chat's list without its timer handles. */
  method CleanReminders(t: Table) returns (clean: Snapshot)
    ensures clean == Strip(t)
  {
    clean := map[];
    var pending := t.Keys;
    while pending != {}
      invariant pending <= t.Keys
      invariant forall c :: c in clean <==> c in t && c !in pending
      invariant forall c :: c in clean ==> clean[c] == StripList(t[c])
      decreases pending
    {
      NoMemberEmpty(pending);
      var c :| c in pending;
      clean := clean[c := StripList(t[c])];
      pending := pending - {c};
    }
    assert forall c :: c in clean <==> c in t;
    assert forall c :: c in Strip(t) <==> c in t;
    assert clean.Keys == Strip(t).Keys;
    assert forall c :: c in clean ==> clean[c] == Strip(t)[c];
  }
}
