/**
 * The reminder editor: the form it opens with, the `valid` test that
 * enables saving, the reminder a submit builds, and the store mutation the
 * app dispatches for it.
 */
module Editor {
  import opened Wrappers
  import opened Text
  import opened Reminders
  import RI = ReminderIndex
  import Store
  import Weather

  /**
   * `Partial<Reminder> & { dateISO: string }`: what the editor is opened
   * with. A fresh reminder carries only the day; an edited one carries all
   * its fields.
   */
  datatype Initial = Initial(
    id: Option<string>,
    text: Option<string>,
    city: Option<string>,
    dateISO: string,
    time: Option<string>,
    color: Option<string>)

  /** What the ＋ button of a day opens: nothing but the day's key. */
  function NewOn(dayKey: string): (i: Initial)
    ensures i.dateISO == dayKey && i.id.None?
  {
    Initial(None, None, None, dayKey, None, None)
  }

  /** What clicking a reminder opens: the reminder itself. */
  function Editing(r: Reminder): (i: Initial)
    ensures i.id == Some(r.id) && i.dateISO == r.dateISO
  {
    Initial(Some(r.id), Some(r.text), Some(r.city), r.dateISO, Some(r.time), Some(r.color))
  }

  /** The editor's five input fields. */
  datatype Form = Form(text: string, city: string, dateISO: string, time: string, color: string)

  const DefaultTime := "09:00"
  const DefaultColor := "#3b82f6"

  /**
   * The fields' starting values: each field of `initial` when present,
   * otherwise the defaults. `today` is the current UTC day, read from the
   * clock when the editor is opened without an initial value.
   */
  function OpenForm(initial: Option<Initial>, today: string): (f: Form)
    ensures initial.Some? ==> f.dateISO == initial.value.dateISO
    ensures initial.None? ==> f == Form("", "", today, DefaultTime, DefaultColor)
    ensures initial.Some? ==> (
      && f.text == initial.value.text.GetOr("")
      && f.city == initial.value.city.GetOr("")
      && f.time == initial.value.time.GetOr(DefaultTime)
      && f.color == initial.value.color.GetOr(DefaultColor))
  {
    match initial
    case None => Form("", "", today, DefaultTime, DefaultColor)
    case Some(i) =>
      Form(i.text.GetOr(""), i.city.GetOr(""), i.dateISO, i.time.GetOr(DefaultTime), i.color.GetOr(DefaultColor))
  }

  /** `valid`: a non-blank text of at most 30 characters and a non-blank city. */
  predicate Valid(f: Form)
    ensures Valid(f) ==> 0 < |f.text| <= 30 && 0 < |f.city|
  {
    |Trim(f.text)| > 0 && |f.text| <= 30 && |Trim(f.city)| > 0
  }

  /** `valid` holds exactly when text and city are not all whitespace and the text is short enough. */
  lemma ValidIff(f: Form)
    ensures Valid(f) <==> !AllWhitespace(f.text) && |f.text| <= 30 && !AllWhitespace(f.city)
  {
    TrimEmptyIffBlank(f.text);
    TrimEmptyIffBlank(f.city);
  }

  /** Opening an existing reminder shows its fields unchanged. */
  lemma EditShowsReminder(r: Reminder, today: string)
    ensures OpenForm(Some(Editing(r)), today) == Form(r.text, r.city, r.dateISO, r.time, r.color)
  {
  }

  /** A new reminder starts with blank text and city, so it cannot be saved as opened. */
  lemma NewFormInvalid(dayKey: string, today: string)
    ensures OpenForm(Some(NewOn(dayKey)), today).dateISO == dayKey
    ensures !Valid(OpenForm(Some(NewOn(dayKey)), today))
  {
  }

  /** `(initial as Reminder)?.id ?? uid()`: an empty id is kept, a missing one replaced. */
  function ReminderId(initial: Option<Initial>, freshId: string): (id: string)
    ensures initial.Some? && initial.value.id.Some? ==> id == initial.value.id.value
    ensures initial.None? || initial.value.id.None? ==> id == freshId
  {
    match initial
    case Some(i) => i.id.GetOr(freshId)
    case None => freshId
  }

  /**
   * `onSubmit`: nothing when the form is invalid; otherwise the reminder
   * with trimmed text and city, the date normalised by `toISO`
   * (`new Date(d).toISOString()`, `None` where it throws a `RangeError`, in
   * which case nothing is saved), and the weather summary fetched through
   * `wx` for the city as typed, untrimmed, and the raw date and time.
   * `freshId` is the id `uid()` would draw.
   */
  function Submit(initial: Option<Initial>, f: Form, freshId: string, toISO: string -> Option<string>,
                  wx: Weather.Services): (r: Option<Reminder>)
    ensures r.Some? <==> Valid(f) && toISO(f.dateISO).Some?
    ensures r.Some? ==> r.value == Reminder(ReminderId(initial, freshId), Trim(f.text), f.color,
                                            Trim(f.city), toISO(f.dateISO).value, f.time,
                                            Weather.GetWeatherSummary(wx, f.city, f.dateISO, f.time))
  {
    if !Valid(f) then None
    else match toISO(f.dateISO)
      case None => None
      case Some(iso) =>
        var weather := Weather.GetWeatherSummary(wx, f.city, f.dateISO, f.time);
        Some(Reminder(ReminderId(initial, freshId), Trim(f.text), f.color, Trim(f.city), iso, f.time, weather))
  }

  /**
   * What a submitted reminder is guaranteed to be: a non-blank text of at
   * most 30 characters, a non-blank city, neither with whitespace at either
   * end.
   */
  lemma SubmittedReminder(initial: Option<Initial>, f: Form, freshId: string, toISO: string -> Option<string>,
                          wx: Weather.Services, r: Reminder)
    requires Submit(initial, f, freshId, toISO, wx) == Some(r)
    ensures 0 < |r.text| <= 30 && |r.city| > 0
    ensures Trim(r.text) == r.text && Trim(r.city) == r.city
    ensures !AllWhitespace(r.text) && !AllWhitespace(r.city)
  {
    assert Valid(f);
    TrimmedField(f.text);
    TrimmedField(f.city);
  }

  /** A trimmed field is no longer than the field, trims to itself, and is blank only when empty. */
  lemma TrimmedField(s: string)
    ensures |Trim(s)| <= |s|
    ensures Trim(Trim(s)) == Trim(s)
    ensures AllWhitespace(Trim(s)) <==> |Trim(s)| == 0
  {
    TrimIdempotent(s);
    TrimEmptyIffBlank(Trim(s));
  }

  /** The sheet's heading: `initial?.id ? "Edit reminder" : "New reminder"`. */
  function Heading(initial: Option<Initial>): (h: string)
    ensures h == "Edit reminder" <==> initial.Some? && initial.value.id.Some? && initial.value.id.value != ""
  {
    if initial.Some? && initial.value.id.Some? && initial.value.id.value != "" then "Edit reminder"
    else "New reminder"
  }

  /**
   * `onSave`: an update when the editor was opened with a truthy id, an
   * add otherwise. The sheet is headed "Edit reminder" exactly when saving
   * updates.
   */
  function Save(initial: Option<Initial>, r: Reminder): (a: Store.Action)
    ensures a.Update? <==> Heading(initial) == "Edit reminder"
    ensures a.Update? || a.Add?
    ensures a.r == r
  {
    if initial.Some? && initial.value.id.Some? && initial.value.id.value != "" then Store.Update(r)
    else Store.Add(r)
  }

  /**
   * Editing a filed reminder and saving it replaces that reminder: the
   * action is an update of the same id, which the store files exactly once,
   * under the day of the new date.
   */
  lemma EditUpdatesSameId(s: Store.State, edited: Reminder, f: Form, toISO: string -> Option<string>,
                          freshId: string, wx: Weather.Services, r: Reminder)
    requires RI.UniqueIds(s.index) && RI.Occurs(s.index, edited.id) && edited.id != ""
    requires Submit(Some(Editing(edited)), f, freshId, toISO, wx) == Some(r)
    ensures r.id == edited.id
    ensures Save(Some(Editing(edited)), r) == Store.Update(r)
    ensures DayKey(r.dateISO) in Store.Next(s, Store.Update(r)).index.days
    ensures CountId(Store.Next(s, Store.Update(r)).index.days[DayKey(r.dateISO)], r.id) == 1
  {
    assert r.id == edited.id;
    UpdateFiledOnce(s, r);
  }

  /** An update of a filed id leaves it on exactly one day, the day of the new date. */
  lemma UpdateFiledOnce(s: Store.State, r: Reminder)
    requires RI.UniqueIds(s.index) && RI.Occurs(s.index, r.id)
    ensures DayKey(r.dateISO) in Store.Next(s, Store.Update(r)).index.days
    ensures CountId(Store.Next(s, Store.Update(r)).index.days[DayKey(r.dateISO)], r.id) == 1
  {
    assert Store.Next(s, Store.Update(r)).index == RI.UpdateReminder(s.index, r);
    RI.UpdateFilesOnce(s.index, r);
  }

  /**
   * Saving a new reminder under an id nobody holds keeps the store's index
   * sorted, free of empty days, filed by date and free of duplicate ids.
   */
  lemma NewReminderKeepsTidy(s: Store.State, dayKey: string, f: Form, toISO: string -> Option<string>,
                             freshId: string, wx: Weather.Services, r: Reminder)
    requires RI.Tidy(s.index) && !RI.Occurs(s.index, freshId)
    requires Submit(Some(NewOn(dayKey)), f, freshId, toISO, wx) == Some(r)
    ensures r.id == freshId
    ensures Save(Some(NewOn(dayKey)), r) == Store.Add(r)
    ensures RI.Tidy(Store.Next(s, Save(Some(NewOn(dayKey)), r)).index)
  {
    Store.NextKeepsTidy(s, Store.Add(r));
  }
}
