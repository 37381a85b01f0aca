/**
 * Concrete runs of the model: the add-a-reminder flow of the calendar's
 * own test, the order two reminders of one day end up in, how ties and
 * unknown codes are resolved in the weather lookup.
 */
module Scenarios {
  import opened Wrappers
  import opened Text
  import opened Reminders
  import RI = ReminderIndex
  import Store
  import Weather
  import Editor
  import DayCell

  const Day := "2024-03-01"
  const Midnight := "2024-03-01T00:00:00.000Z"

  /** The form the test fills in on the first day: "Buy milk" in London at 07:30. */
  const MilkForm := Editor.Form("Buy milk", "London", Day, "07:30", Editor.DefaultColor)

  /** The reminder that form saves when the forecast says "Rain" and `uid()` draws "m1". */
  const Milk := Reminder("m1", "Buy milk", Editor.DefaultColor, "London", Midnight, "07:30", Some("Rain"))

  lemma MilkDayKey()
    ensures DayKey(Midnight) == Day
  {
  }

  lemma MilkTextTrimmed()
    ensures Trim("Buy milk") == "Buy milk"
  {
    TrimOfInnerPiece("Buy milk");
  }

  lemma MilkCityTrimmed()
    ensures Trim("London") == "London"
  {
    TrimOfInnerPiece("London");
  }

  /** Neither the text nor the city of the form has anything to trim. */
  lemma MilkFieldsTrimmed()
    ensures Trim("Buy milk") == "Buy milk" && Trim("London") == "London"
  {
    MilkTextTrimmed();
    MilkCityTrimmed();
  }

  /** A valid form whose text and city need no trimming is saved field for field. */
  lemma SubmitCleanForm(initial: Option<Editor.Initial>, f: Editor.Form, freshId: string,
                        toISO: string -> Option<string>, wx: Weather.Services)
    requires Trim(f.text) == f.text && Trim(f.city) == f.city
    requires 0 < |f.text| <= 30 && |f.city| > 0 && toISO(f.dateISO).Some?
    ensures Editor.Submit(initial, f, freshId, toISO, wx)
      == Some(Reminder(Editor.ReminderId(initial, freshId), f.text, f.color, f.city, toISO(f.dateISO).value, f.time,
                       Weather.GetWeatherSummary(wx, f.city, f.dateISO, f.time)))
  {
    assert Editor.Valid(f);
    var r := Editor.Submit(initial, f, freshId, toISO, wx);
    assert r.Some?;
    assert r.value.text == f.text && r.value.city == f.city;
  }

  /** The form the test fills in can be saved. */
  lemma MilkFormValid()
    ensures Editor.Valid(MilkForm)
  {
    MilkFieldsTrimmed();
  }

  /** Saving a reminder opened from a day's ＋ button adds it. */
  lemma MilkAdded()
    ensures Editor.Save(Some(Editor.NewOn(Day)), Milk) == Store.Add(Milk)
  {
  }

  /** A day that held nothing holds just the added reminder. */
  lemma AddToEmptyDay(ix: RI.Index, r: Reminder)
    requires DayKey(r.dateISO) !in ix.days
    ensures RI.AddReminder(ix, r).days[DayKey(r.dateISO)] == [r]
  {
    var s := RI.AddReminder(ix, r).days[DayKey(r.dateISO)];
    assert multiset(s) == multiset{r};
    assert |s| == 1;
    assert s[0] in multiset(s);
  }

  /**
   * After the add, the first day's cell lists the reminder, with a tooltip
   * that starts "07:30 Buy milk" (what the test looks for), and folds nothing.
   */
  lemma MilkShownOnItsDay(monthStart: string)
    ensures var s := Store.Next(Store.State(monthStart, RI.Empty), Store.Add(Milk));
      && DayCell.CellReminders(s.index, Some(Day)) == [Milk]
      && DayCell.Overflow(DayCell.CellReminders(s.index, Some(Day))) == 0
      && "07:30 Buy milk" <= DayCell.Title(Milk)
  {
    MilkDayKey();
    AddToEmptyDay(RI.Empty, Milk);
    assert "07:30" + " " + "Buy milk" == "07:30 Buy milk";
  }

  /** Two reminders of one day, added later-first. */
  const Nine := Reminder("a", "Standup", Editor.DefaultColor, "London", Midnight, "09:00", None)
  const HalfSeven := Reminder("b", "Gym", Editor.DefaultColor, "London", Midnight, "07:30", None)

  lemma HalfSevenFirst()
    ensures TimeLe(HalfSeven, Nine) && !TimeLe(Nine, HalfSeven)
  {
  }

  /** A reminder due before the only one of its day goes in front of it. */
  lemma AddBeforeSingle(ix: RI.Index, a: Reminder, b: Reminder)
    requires RI.Lookup(ix, DayKey(b.dateISO)) == [a] && !TimeLe(a, b)
    ensures RI.Lookup(RI.AddReminder(ix, b), DayKey(b.dateISO)) == [b, a]
  {
    assert RI.Lookup(RI.AddReminder(ix, b), DayKey(b.dateISO)) == SortByTime([a] + [b]);
    SortLaterFirst(a, b);
  }

  /** Sorting a pair whose first reminder is due after the second swaps them. */
  lemma SortLaterFirst(a: Reminder, b: Reminder)
    requires !TimeLe(a, b)
    ensures SortByTime([a] + [b]) == [b, a]
  {
    var s := [a] + [b];
    assert s[..|s| - 1] == [a] && s[|s| - 1] == b;
    assert SortByTime([a]) == [a] by {
      assert [a][..0] == [];
    }
  }

  /** Adding 09:00 and then 07:30 lists 07:30 first. */
  lemma LaterFirstIsReordered()
    ensures RI.Lookup(RI.AddReminder(RI.AddReminder(RI.Empty, Nine), HalfSeven), Day) == [HalfSeven, Nine]
  {
    MilkDayKey();
    AddToEmptyDay(RI.Empty, Nine);
    HalfSevenFirst();
    AddBeforeSingle(RI.AddReminder(RI.Empty, Nine), Nine, HalfSeven);
  }

  /** Two hours equally far from the target: the first one wins. */
  lemma TieGoesToFirst()
    ensures Weather.Nearest([Some(60), Some(60)]) == 0
  {
  }

  /** Codes between the table's entries, past its end and below it are "Unknown". */
  lemma CodesOutsideTable()
    ensures Weather.WmoToText(4) == "Unknown"
    ensures Weather.WmoToText(100) == "Unknown"
    ensures Weather.WmoToText(-1) == "Unknown"
  {
  }
}
