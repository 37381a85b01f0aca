/**
 * One day of the month grid: which of the day's reminders it lists, how
 * many it folds into "+N more", when it offers to clear the day, and the
 * tooltip and meta line of each listed reminder.
 */
module DayCell {
  import opened Wrappers
  import opened Reminders
  import RI = ReminderIndex

  /** The most reminders a cell lists before folding the rest. */
  const Shown := 3

  /** `reminders.slice(0, 3)`: the first three reminders, or all when fewer. */
  function Visible(list: seq<Reminder>): (v: seq<Reminder>)
    ensures |v| <= Shown && v <= list
    ensures |list| <= Shown ==> v == list
  {
    if |list| <= Shown then list else list[..Shown]
  }

  /** `list.length - visible.length`: how many reminders "+N more" stands for. */
  function Overflow(list: seq<Reminder>): (n: nat)
    ensures |Visible(list)| + n == |list|
    ensures n > 0 <==> |list| > Shown
  {
    |list| - |Visible(list)|
  }

  /** The listed reminders and the folded ones together are the whole day, in order. */
  lemma VisibleAndFolded(list: seq<Reminder>)
    ensures Visible(list) + list[|Visible(list)|..] == list
    ensures |list[|Visible(list)|..]| == Overflow(list)
  {
  }

  /** The clear-day button appears when the day has any reminder. */
  predicate ShowsClear(list: seq<Reminder>)
    ensures ShowsClear(list) <==> |Visible(list)| > 0
  {
    |list| > 0
  }

  /** `remindersByDate[key] ?? []` for a day cell; a blank cell has no reminders. */
  function CellReminders(ix: RI.Index, key: Option<string>): (list: seq<Reminder>)
    ensures key.None? ==> list == []
    ensures key.Some? && key.value !in ix.days ==> list == []
    ensures key.Some? && key.value in ix.days ==> list == ix.days[key.value]
  {
    match key
    case Some(k) => RI.Lookup(ix, k)
    case None => []
  }

  /**
   * In an index without empty days a cell offers to clear its day exactly
   * when the day has an entry; every listed reminder is filed under that
   * day; and the listed ones are the earliest, none due after any folded one.
   */
  lemma CellOfTidyIndex(ix: RI.Index, k: string)
    requires RI.NoEmptyDays(ix) && RI.SortedDays(ix) && RI.FiledByDate(ix)
    ensures ShowsClear(CellReminders(ix, Some(k))) <==> k in ix.days
    ensures forall i :: 0 <= i < |Visible(CellReminders(ix, Some(k)))| ==>
      DayKey(Visible(CellReminders(ix, Some(k)))[i].dateISO) == k
    ensures var list := CellReminders(ix, Some(k));
      forall i, j :: 0 <= i < |Visible(list)| <= j < |list| ==> TimeLe(list[i], list[j])
  {
  }

  /** After the day is cleared its cell lists nothing, folds nothing and offers no clearing. */
  lemma ClearedCell(ix: RI.Index, dateISO: string)
    ensures var list := CellReminders(RI.ClearDay(ix, dateISO), Some(DayKey(dateISO)));
      Visible(list) == [] && Overflow(list) == 0 && !ShowsClear(list)
  {
    RI.ClearDayThenRead(ix, dateISO);
  }

  /** JavaScript truthiness of an optional string: present and non-empty. */
  predicate Truthy(s: Option<string>) {
    s.Some? && s.value != ""
  }

  /** The tooltip `${time} ${text}${weather ? " • " + weather : ""}`. */
  function Title(r: Reminder): (t: string)
    ensures r.time + " " + r.text <= t
    ensures Truthy(r.weather) ==> t[|r.time| + 1 + |r.text|..] == " • " + r.weather.value
    ensures !Truthy(r.weather) ==> |t| == |r.time| + 1 + |r.text|
  {
    var head := r.time + " " + r.text;
    if Truthy(r.weather) then head + " • " + r.weather.value else head
  }

  /**
   * The meta line under a listed reminder: whether it is shown at all, and
   * whether it has the weather icon, the separator and the city.
   */
  datatype MetaRow = MetaRow(shown: bool, weather: bool, separator: bool, city: bool)

  function Meta(r: Reminder): (m: MetaRow)
    ensures m.shown <==> m.weather || m.city
    ensures m.separator <==> m.weather && m.city
    ensures m.weather <==> Truthy(r.weather)
    ensures m.city <==> r.city != ""
  {
    var w := Truthy(r.weather);
    var c := r.city != "";
    MetaRow(w || c, w, w && c, c)
  }
}
