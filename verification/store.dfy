/**
 * The global store: the month on screen, the reminder index, and the two
 * browser-storage entries. Every mutation that changes the index writes it
 * through; an update of an unknown id changes and writes nothing, and only
 * `setMonthStart` writes the month. The storage is
 * modelled as the values last written under its two keys; JSON encoding is
 * taken to be faithful, so a stored index is the index itself.
 */
module Store {
  import opened Wrappers
  import opened Reminders
  import RI = ReminderIndex

  /** `monthStartISO` and `remindersByDate`. */
  datatype State = State(monthStart: string, index: RI.Index)

  /**
   * The two storage entries. `reminders` is `None` when the entry is missing
   * or does not parse to an object; `month` is `None` when it is missing.
   */
  datatype Storage = Storage(reminders: Option<RI.Index>, month: Option<string>)

  /** The store's five mutations. */
  datatype Action =
    | SetMonthStart(iso: string)
    | Add(r: Reminder)
    | Update(r: Reminder)
    | Delete(id: string)
    | ClearDay(dateISO: string)

  /**
   * The store as it starts: the stored month when it is a non-empty string,
   * otherwise `firstOfThisMonth` (the ISO string of the first day of the
   * current month, which the store reads from the clock); the stored index,
   * or none at all.
   */
  function Load(st: Storage, firstOfThisMonth: string): (s: State)
    ensures st.month.Some? && st.month.value != "" ==> s.monthStart == st.month.value
    ensures (st.month.None? || st.month.value == "") ==> s.monthStart == firstOfThisMonth
    ensures st.reminders.Some? ==> s.index == st.reminders.value
    ensures st.reminders.None? ==> s.index == RI.Empty
  {
    var month := match st.month
      case Some(m) => if m != "" then m else firstOfThisMonth
      case None => firstOfThisMonth;
    State(month, st.reminders.GetOr(RI.Empty))
  }

  /** The in-memory effect of one mutation. */
  function Next(s: State, a: Action): (n: State)
    ensures a.SetMonthStart? ==> n == State(a.iso, s.index)
    ensures !a.SetMonthStart? ==> n.monthStart == s.monthStart
  {
    match a
    case SetMonthStart(iso) => State(iso, s.index)
    case Add(r) => State(s.monthStart, RI.AddReminder(s.index, r))
    case Update(r) => State(s.monthStart, RI.UpdateReminder(s.index, r))
    case Delete(id) => State(s.monthStart, RI.DeleteReminder(s.index, id))
    case ClearDay(d) => State(s.monthStart, RI.ClearDay(s.index, d))
  }

  /** Whether a mutation writes to storage: all do except an update of an unknown id. */
  predicate Writes(s: State, a: Action) {
    !(a.Update? && !RI.Occurs(s.index, a.r.id))
  }

  /**
   * One mutation with its write-through. `stored` says whether the browser
   * accepted the write; a refused write is swallowed and the in-memory state
   * changes all the same.
   */
  function Apply(s: State, st: Storage, a: Action, stored: bool): (res: (State, Storage))
    ensures res.0 == Next(s, a)
    ensures !stored || !Writes(s, a) ==> res.1 == st
    ensures stored && a.SetMonthStart? ==> res.1 == st.(month := Some(a.iso))
    ensures stored && !a.SetMonthStart? && Writes(s, a) ==> res.1 == st.(reminders := Some(res.0.index))
  {
    var n := Next(s, a);
    if !stored || !Writes(s, a) then (n, st)
    else if a.SetMonthStart? then (n, st.(month := Some(a.iso)))
    else (n, st.(reminders := Some(n.index)))
  }

  /** Storage holds exactly what is in memory. */
  predicate Synced(s: State, st: Storage) {
    st.reminders == Some(s.index) && st.month == Some(s.monthStart)
  }

  /**
   * Write-through keeps storage in step with memory: every mutation either
   * writes the part it changed or, for an unknown id, changes nothing.
   */
  lemma ApplyKeepsSynced(s: State, st: Storage, a: Action)
    requires Synced(s, st)
    ensures Synced(Apply(s, st, a, true).0, Apply(s, st, a, true).1)
  {
    var res := Apply(s, st, a, true);
    if a.SetMonthStart? {
      assert res.1 == st.(month := Some(a.iso)) && res.0.index == s.index;
    } else if Writes(s, a) {
      assert res.1 == st.(reminders := Some(res.0.index)) && res.0.monthStart == s.monthStart;
    } else {
      assert RI.UpdateReminder(s.index, a.r) == s.index;
      assert res.0 == s && res.1 == st;
    }
  }

  /**
   * Reloading after a mutation gives back the state the mutation produced,
   * as long as storage was in step and the month is a non-empty string.
   */
  lemma LoadAfterApply(s: State, st: Storage, a: Action, firstOfThisMonth: string)
    requires Synced(s, st)
    requires Next(s, a).monthStart != ""
    ensures Load(Apply(s, st, a, true).1, firstOfThisMonth) == Apply(s, st, a, true).0
  {
    ApplyKeepsSynced(s, st, a);
  }

  /**
   * The reminders survive a reload whatever the month entry holds: the month
   * is written only by `setMonthStart`, so on a first start storage holds no
   * month, yet the index read back is the one the mutation produced. The
   * stored index may also be missing when the in-memory one is empty.
   */
  lemma LoadAfterApplyIndex(s: State, st: Storage, a: Action, firstOfThisMonth: string)
    requires st.reminders.GetOr(RI.Empty) == s.index
    ensures Load(Apply(s, st, a, true).1, firstOfThisMonth).index == Apply(s, st, a, true).0.index
  {
    if a.Update? && !RI.Occurs(s.index, a.r.id) {
      assert RI.UpdateReminder(s.index, a.r) == s.index;
    }
  }

  /** On a first start nothing is stored, so storage is not yet in step with memory. */
  lemma FirstStartNotSynced(firstOfThisMonth: string)
    ensures !Synced(Load(Storage(None, None), firstOfThisMonth), Storage(None, None))
  {
  }

  /** Empty storage starts on the current month with no reminders. */
  lemma LoadEmptyStorage(firstOfThisMonth: string)
    ensures Load(Storage(None, None), firstOfThisMonth) == State(firstOfThisMonth, RI.Empty)
  {
  }

  /** Updating an id that no day holds neither changes the state nor writes. */
  lemma UpdateUnknownIsSilent(s: State, st: Storage, r: Reminder, stored: bool)
    requires !RI.Occurs(s.index, r.id)
    ensures Apply(s, st, Update(r), stored) == (s, st)
  {
  }

  /** A mutation that adds no id already filed. */
  predicate Fresh(s: State, a: Action) {
    a.Add? ==> !RI.Occurs(s.index, a.r.id)
  }

  /**
   * Every mutation keeps the index sorted, free of empty days, filed by date
   * and free of duplicate ids, provided an added reminder's id is new.
   */
  lemma NextKeepsTidy(s: State, a: Action)
    requires RI.Tidy(s.index) && Fresh(s, a)
    ensures RI.Tidy(Next(s, a).index)
  {
    match a
    case SetMonthStart(_) =>
    case Add(r) => RI.AddKeepsTidy(s.index, r);
    case Update(r) => RI.UpdateKeepsTidy(s.index, r);
    case Delete(id) => RI.DeleteKeepsTidy(s.index, id);
    case ClearDay(d) => RI.ClearDayKeepsTidy(s.index, d);
  }

  /** The states a sequence of mutations passes through, ending with the last. */
  function Run(s: State, actions: seq<Action>): (n: State)
    ensures |actions| == 0 ==> n == s
    decreases |actions|
  {
    if |actions| == 0 then s else Run(Next(s, actions[0]), actions[1..])
  }

  /** Every step of a run adds only new ids. */
  predicate FreshRun(s: State, actions: seq<Action>)
    decreases |actions|
  {
    |actions| == 0 || (Fresh(s, actions[0]) && FreshRun(Next(s, actions[0]), actions[1..]))
  }

  /** The index invariants hold after any run of mutations that adds only new ids. */
  lemma {:induction false} RunKeepsTidy(s: State, actions: seq<Action>)
    requires RI.Tidy(s.index) && FreshRun(s, actions)
    ensures RI.Tidy(Run(s, actions).index)
    decreases |actions|
  {
    if |actions| > 0 {
      NextKeepsTidy(s, actions[0]);
      RunKeepsTidy(Next(s, actions[0]), actions[1..]);
    }
  }
}
