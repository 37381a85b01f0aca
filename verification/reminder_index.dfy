/**
 * The reminder index: a JavaScript object from `YYYY-MM-DD` day keys to the
 * reminders of that day, and the four pure transformations the store applies
 * to it (add, update, delete, clear a day).
 *
 * A JavaScript object remembers the order its keys were inserted in, and
 * `Object.entries` enumerates them in that order; `updateReminder` looks for
 * the edited reminder in that order. So the index is the pair of its key
 * sequence and its map, kept consistent by the subset type `Index`.
 */
module ReminderIndex {
  import opened Wrappers
  import opened Reminders

  datatype DayMap = DayMap(keys: seq<string>, days: map<string, seq<Reminder>>)

  predicate DistinctKeys(keys: seq<string>) {
    forall i, j :: 0 <= i < j < |keys| ==> keys[i] != keys[j]
  }

  /** The key sequence lists each key of the map exactly once. */
  ghost predicate Consistent(m: DayMap) {
    DistinctKeys(m.keys) && forall k :: k in m.days <==> k in m.keys
  }

  type Index = m: DayMap | Consistent(m) witness DayMap([], map[])

  const Empty: Index := DayMap([], map[])

  /** `remindersByDate[k] ?? []`: the reminders of one day, none when the key is absent. */
  function Lookup(ix: Index, k: string): seq<Reminder> {
    if k in ix.days then ix.days[k] else []
  }

  /** The keys of `keys` that lie in `s`, in their original order. */
  function KeepKeys(keys: seq<string>, s: set<string>): (r: seq<string>)
    ensures forall x :: x in r <==> x in keys && x in s
    ensures DistinctKeys(keys) ==> DistinctKeys(r)
    ensures (forall x :: x in keys ==> x in s) ==> r == keys
  {
    if |keys| == 0 then []
    else
      var rest := KeepKeys(keys[1..], s);
      assert keys == [keys[0]] + keys[1..];
      if keys[0] in s then [keys[0]] + rest else rest
  }

  /** `{ ...ix, [k]: v }`: a new key goes last, an existing key keeps its place. */
  function Put(ix: Index, k: string, v: seq<Reminder>): (r: Index)
    ensures r.days == ix.days[k := v]
    ensures k in ix.days ==> r.keys == ix.keys
    ensures k !in ix.days ==> r.keys == ix.keys + [k]
  {
    if k in ix.days then DayMap(ix.keys, ix.days[k := v])
    else DayMap(ix.keys + [k], ix.days[k := v])
  }

  /** `delete ix[k]`, or `const { [k]: _, ...rest } = ix`. */
  function Remove(ix: Index, k: string): (r: Index)
    ensures r.days == ix.days - {k}
    ensures r.keys == KeepKeys(ix.keys, r.days.Keys)
    ensures k !in ix.days ==> r == ix
  {
    RemovalConsistent(ix, k);
    DayMap(KeepKeys(ix.keys, ix.days.Keys - {k}), ix.days - {k})
  }

  /**
   * The map without `k` and the keys kept from the rest form an index again,
   * and removing an absent key changes neither part.
   */
  lemma RemovalConsistent(ix: Index, k: string)
    ensures Consistent(DayMap(KeepKeys(ix.keys, ix.days.Keys - {k}), ix.days - {k}))
    ensures (ix.days - {k}).Keys == ix.days.Keys - {k}
    ensures k !in ix.days ==> KeepKeys(ix.keys, ix.days.Keys - {k}) == ix.keys && ix.days - {k} == ix.days
  {
  }

  // ---------------------------------------------------------------------
  // The invariants the store is meant to keep.

  predicate SortedDays(ix: Index) {
    forall k :: k in ix.days ==> Sorted(ix.days[k])
  }

  predicate NoEmptyDays(ix: Index) {
    forall k :: k in ix.days ==> |ix.days[k]| > 0
  }

  /**
   * A day lists reminders only when its key is in the index, and in an
   * index without empty days exactly then: `?? []` never hides a filed day.
   */
  lemma LookupNonEmptyIff(ix: Index, k: string)
    ensures |Lookup(ix, k)| > 0 ==> k in ix.days
    ensures NoEmptyDays(ix) ==> (|Lookup(ix, k)| > 0 <==> k in ix.days)
  {
  }

  /** Every reminder sits under the day key of its own date. */
  predicate FiledByDate(ix: Index) {
    forall k, i :: k in ix.days && 0 <= i < |ix.days[k]| ==> DayKey(ix.days[k][i].dateISO) == k
  }

  /** Some day holds a reminder with this id. */
  predicate Occurs(ix: Index, id: string) {
    exists k :: k in ix.days && CountId(ix.days[k], id) > 0
  }

  /** No id occurs twice in one day, nor in two different days. */
  ghost predicate UniqueIds(ix: Index) {
    && (forall k, id :: k in ix.days ==> CountId(ix.days[k], id) <= 1)
    && (forall k1, k2, id :: k1 in ix.days && k2 in ix.days && k1 != k2 && CountId(ix.days[k1], id) > 0
          ==> CountId(ix.days[k2], id) == 0)
  }

  ghost predicate Tidy(ix: Index) {
    SortedDays(ix) && NoEmptyDays(ix) && FiledByDate(ix) && UniqueIds(ix)
  }

  // ---------------------------------------------------------------------
  // addReminder

  /**
   * `addReminder`: files `r` under its day key and re-sorts that day. Every
   * other day is left alone and no check is made that `r.id` is new.
   */
  function AddReminder(ix: Index, r: Reminder): (res: Index)
    ensures res.days.Keys == ix.days.Keys + {DayKey(r.dateISO)}
    ensures multiset(res.days[DayKey(r.dateISO)]) == multiset(Lookup(ix, DayKey(r.dateISO))) + multiset{r}
    ensures Sorted(res.days[DayKey(r.dateISO)])
    ensures forall k' :: k' != DayKey(r.dateISO) && k' in ix.days ==> res.days[k'] == ix.days[k']
    ensures res.keys == if DayKey(r.dateISO) in ix.days then ix.keys else ix.keys + [DayKey(r.dateISO)]
  {
    var k := DayKey(r.dateISO);
    var v := SortByTime(Lookup(ix, k) + [r]);
    assert ix.days[k := v].Keys == ix.days.Keys + {k};
    Put(ix, k, v)
  }

  /**
   * On a day already in time order the new reminder is inserted after every
   * reminder due no later than it (the sort is stable) and before the rest.
   */
  lemma AddIntoSortedDay(ix: Index, r: Reminder)
    requires Sorted(Lookup(ix, DayKey(r.dateISO)))
    ensures var before := Lookup(ix, DayKey(r.dateISO));
      exists p :: 0 <= p <= |before|
        && AddReminder(ix, r).days[DayKey(r.dateISO)] == before[..p] + [r] + before[p..]
        && (forall i :: 0 <= i < p ==> TimeLe(before[i], r))
        && (forall i :: p <= i < |before| ==> !TimeLe(before[i], r))
  {
    var before := Lookup(ix, DayKey(r.dateISO));
    SortAppendOne(before, r);
    InsertKeepsOrder(before, r);
    InsertPosSplitsSorted(before, r);
  }

  /** How often `id` occurs on day `k` after adding `r`. */
  lemma CountIdAfterAdd(ix: Index, r: Reminder, id: string)
    ensures var k := DayKey(r.dateISO);
      CountId(AddReminder(ix, r).days[k], id) == CountId(Lookup(ix, k), id) + (if r.id == id then 1 else 0)
  {
    var k := DayKey(r.dateISO);
    CountIdSort(Lookup(ix, k) + [r], id);
    CountIdConcat(Lookup(ix, k), [r], id);
    assert [r][..0] == [];
  }

  /** How often any id occurs on any day after adding `r`. */
  lemma AddCounts(ix: Index, r: Reminder, k: string, id: string)
    requires k in AddReminder(ix, r).days
    ensures CountId(AddReminder(ix, r).days[k], id)
      == CountId(Lookup(ix, k), id) + (if k == DayKey(r.dateISO) && r.id == id then 1 else 0)
  {
    if k == DayKey(r.dateISO) {
      CountIdAfterAdd(ix, r, id);
    }
  }

  /** Adding a reminder with a fresh id keeps every invariant of the index. */
  lemma AddKeepsTidy(ix: Index, r: Reminder)
    requires Tidy(ix) && !Occurs(ix, r.id)
    ensures Tidy(AddReminder(ix, r))
  {
    AddKeepsFiled(ix, r);
    AddKeepsUniqueIds(ix, r);
  }

  lemma AddKeepsFiled(ix: Index, r: Reminder)
    requires SortedDays(ix) && NoEmptyDays(ix) && FiledByDate(ix)
    ensures SortedDays(AddReminder(ix, r)) && NoEmptyDays(AddReminder(ix, r))
    ensures FiledByDate(AddReminder(ix, r))
  {
    var res := AddReminder(ix, r);
    var nk := DayKey(r.dateISO);
    forall k | k in res.days
      ensures Sorted(res.days[k]) && |res.days[k]| > 0
      ensures forall i :: 0 <= i < |res.days[k]| ==> DayKey(res.days[k][i].dateISO) == k
    {
      if k == nk {
        AddedDayFiled(ix, r);
      } else {
        assert res.days[k] == ix.days[k];
      }
    }
  }

  /** Every reminder of `s` is dated on day `k`. */
  predicate AllOnDay(s: seq<Reminder>, k: string) {
    forall i :: 0 <= i < |s| ==> DayKey(s[i].dateISO) == k
  }

  /** Taking reminders out of a list, or reordering it, keeps them on their day. */
  lemma AllOnDaySubMultiset(a: seq<Reminder>, b: seq<Reminder>, k: string)
    requires AllOnDay(a, k) && multiset(b) <= multiset(a)
    ensures AllOnDay(b, k)
  {
    forall i | 0 <= i < |b| ensures DayKey(b[i].dateISO) == k {
      assert b[i] in multiset(a);
      var j :| 0 <= j < |a| && a[j] == b[i];
    }
  }

  /** Every reminder of the day `r` joins carries that day's key. */
  lemma AddedDayFiled(ix: Index, r: Reminder)
    requires FiledByDate(ix)
    ensures var k := DayKey(r.dateISO);
      forall i :: 0 <= i < |AddReminder(ix, r).days[k]| ==> DayKey(AddReminder(ix, r).days[k][i].dateISO) == k
  {
    var k := DayKey(r.dateISO);
    var before := Lookup(ix, k);
    assert AllOnDay(before + [r], k);
    AllOnDaySubMultiset(before + [r], AddReminder(ix, r).days[k], k);
  }

  lemma AddKeepsUniqueIds(ix: Index, r: Reminder)
    requires UniqueIds(ix) && !Occurs(ix, r.id)
    ensures UniqueIds(AddReminder(ix, r))
  {
    AddKeepsOncePerDay(ix, r);
    AddKeepsDaysApart(ix, r);
  }

  /** After adding a fresh id, no day holds an id twice. */
  lemma AddKeepsOncePerDay(ix: Index, r: Reminder)
    requires UniqueIds(ix) && !Occurs(ix, r.id)
    ensures var res := AddReminder(ix, r);
      forall k, id :: k in res.days ==> CountId(res.days[k], id) <= 1
  {
    var res := AddReminder(ix, r);
    forall k, id | k in res.days ensures CountId(res.days[k], id) <= 1 {
      AddCounts(ix, r, k, id);
    }
  }

  /** After adding a fresh id, no id is held by two days. */
  lemma AddKeepsDaysApart(ix: Index, r: Reminder)
    requires UniqueIds(ix) && !Occurs(ix, r.id)
    ensures var res := AddReminder(ix, r);
      forall k1, k2, id :: k1 in res.days && k2 in res.days && k1 != k2 && CountId(res.days[k1], id) > 0
        ==> CountId(res.days[k2], id) == 0
  {
    var res := AddReminder(ix, r);
    forall k1, k2, id | k1 in res.days && k2 in res.days && k1 != k2 && CountId(res.days[k1], id) > 0
      ensures CountId(res.days[k2], id) == 0
    {
      AddCounts(ix, r, k1, id);
      AddCounts(ix, r, k2, id);
    }
  }

  /**
   * `addReminder` performs no duplicate-id check: adding a reminder whose id
   * is already filed somewhere leaves that id twice in the index.
   */
  lemma AddDuplicateBreaksUniqueness(ix: Index, r: Reminder)
    requires Occurs(ix, r.id)
    ensures !UniqueIds(AddReminder(ix, r))
  {
    var res := AddReminder(ix, r);
    var k := DayKey(r.dateISO);
    var k0 :| k0 in ix.days && CountId(ix.days[k0], r.id) > 0;
    CountIdAfterAdd(ix, r, r.id);
    if k0 != k {
      assert CountId(res.days[k0], r.id) > 0 && CountId(res.days[k], r.id) > 0;
    } else {
      assert CountId(res.days[k], r.id) > 1;
    }
  }

  // ---------------------------------------------------------------------
  // updateReminder

  /**
   * The first day, in key order, holding a reminder with this id: the day of
   * the first match of `findIndex` over `Object.entries(...).flatMap(...)`.
   */
  function FirstDayWith(keys: seq<string>, days: map<string, seq<Reminder>>, id: string): (d: Option<string>)
    requires forall k :: k in keys ==> k in days
    ensures d.Some? ==> d.value in keys && CountId(days[d.value], id) > 0
    ensures d.None? ==> forall k :: k in keys ==> CountId(days[k], id) == 0
    ensures d.Some? ==> exists i :: 0 <= i < |keys| && keys[i] == d.value
                          && forall j :: 0 <= j < i ==> CountId(days[keys[j]], id) == 0
  {
    if |keys| == 0 then None
    else if CountId(days[keys[0]], id) > 0 then Some(keys[0])
    else
      assert forall k :: k in keys ==> k == keys[0] || k in keys[1..];
      var d := FirstDayWith(keys[1..], days, id);
      if d.Some? then FirstAfterHead(keys, days, id, d.value); d else d
  }

  /** A first holder among the keys after a head that lacks the id is a first holder among all keys. */
  lemma FirstAfterHead(keys: seq<string>, days: map<string, seq<Reminder>>, id: string, v: string)
    requires |keys| > 0 && forall k :: k in keys ==> k in days
    requires CountId(days[keys[0]], id) == 0
    requires exists i :: 0 <= i < |keys[1..]| && keys[1..][i] == v
                         && forall j :: 0 <= j < i ==> CountId(days[keys[1..][j]], id) == 0
    ensures exists i :: 0 <= i < |keys| && keys[i] == v
                        && forall j :: 0 <= j < i ==> CountId(days[keys[j]], id) == 0
  {
    var i :| 0 <= i < |keys[1..]| && keys[1..][i] == v
             && forall j :: 0 <= j < i ==> CountId(days[keys[1..][j]], id) == 0;
    assert keys[i + 1] == v;
    forall j | 0 <= j < i + 1 ensures CountId(days[keys[j]], id) == 0 {
      if j > 0 {
        assert keys[j] == keys[1..][j - 1];
      }
    }
  }

  /** The day `updateReminder` takes the edited reminder from. */
  function PreviousDay(ix: Index, id: string): (d: Option<string>)
    ensures d.Some? <==> Occurs(ix, id)
    ensures d.Some? ==> d.value in ix.days && CountId(ix.days[d.value], id) > 0
  {
    FirstDayWith(ix.keys, ix.days, id)
  }

  /** The list the edited reminder joins: its new day after the removal from `prev`. */
  function JoinedDay(ix: Index, prev: string, r: Reminder): seq<Reminder>
    requires prev in ix.days
  {
    var nk := DayKey(r.dateISO);
    if nk == prev then Without(ix.days[prev], r.id) else Lookup(ix, nk)
  }

  /** The first two steps of a move: filter the id out of `prev`, then file `r` in time order. */
  function Refile(ix: Index, prev: string, r: Reminder): (mid: Index)
    requires prev in ix.days
    ensures mid.days == ix.days[prev := Without(ix.days[prev], r.id)]
                               [DayKey(r.dateISO) := SortByTime(JoinedDay(ix, prev, r) + [r])]
    ensures mid.keys == if DayKey(r.dateISO) in ix.days then ix.keys else ix.keys + [DayKey(r.dateISO)]
  {
    var afterRemoval := Put(ix, prev, Without(ix.days[prev], r.id));
    assert Lookup(afterRemoval, DayKey(r.dateISO)) == JoinedDay(ix, prev, r);
    Put(afterRemoval, DayKey(r.dateISO), SortByTime(Lookup(afterRemoval, DayKey(r.dateISO)) + [r]))
  }

  /** `if (ix[k]?.length === 0) delete ix[k]`. */
  function DropIfEmpty(ix: Index, k: string): (res: Index)
    ensures res.days == if k in ix.days && |ix.days[k]| == 0 then ix.days - {k} else ix.days
    ensures res.keys == KeepKeys(ix.keys, res.days.Keys)
  {
    if k in ix.days && |ix.days[k]| == 0 then Remove(ix, k) else ix
  }

  /**
   * The body of `updateReminder` once the previous day `prev` is known:
   * filter the id out of `prev`, file `r` under its day in time order, then
   * drop `prev` if it is left empty. Only `prev` and the new day change.
   */
  function MoveReminder(ix: Index, prev: string, r: Reminder): (res: Index)
    requires prev in ix.days
    ensures var nk := DayKey(r.dateISO);
      && nk in res.days
      && res.days[nk] == SortByTime(JoinedDay(ix, prev, r) + [r])
      && (prev != nk ==> (prev in res.days <==> |Without(ix.days[prev], r.id)| > 0))
      && (prev != nk && prev in res.days ==> res.days[prev] == Without(ix.days[prev], r.id))
    ensures res.days - {prev, DayKey(r.dateISO)} == ix.days - {prev, DayKey(r.dateISO)}
  {
    MovedDays(ix, prev, r);
    MoveFrame(ix, prev, r);
    DropIfEmpty(Refile(ix, prev, r), prev)
  }

  /**
   * The key order after a move, as `{ ...remindersByDate }` leaves it:
   * existing keys stay in place, a new day's key is appended, and the
   * previous day's key goes when that day was emptied.
   */
  lemma MoveReminderKeys(ix: Index, prev: string, r: Reminder)
    requires prev in ix.days
    ensures var nk := DayKey(r.dateISO); var res := MoveReminder(ix, prev, r);
      res.keys == KeepKeys(if nk in ix.days then ix.keys else ix.keys + [nk], res.days.Keys)
  {
    MoveKeys(ix, prev, r);
  }

  /** What a move leaves on the new day and on the previous one. */
  lemma MovedDays(ix: Index, prev: string, r: Reminder)
    requires prev in ix.days
    ensures var nk := DayKey(r.dateISO); var res := DropIfEmpty(Refile(ix, prev, r), prev);
      && nk in res.days
      && res.days[nk] == SortByTime(JoinedDay(ix, prev, r) + [r])
      && (prev != nk ==> (prev in res.days <==> |Without(ix.days[prev], r.id)| > 0))
      && (prev != nk && prev in res.days ==> res.days[prev] == Without(ix.days[prev], r.id))
  {
    var nk := DayKey(r.dateISO);
    var joined := SortByTime(JoinedDay(ix, prev, r) + [r]);
    var mid := Refile(ix, prev, r);
    assert |joined| > 0;
    assert nk in mid.days && mid.days[nk] == joined;
  }

  /**
   * The key order after a move: the keys kept in place, a new day's key
   * appended, and the previous day's key gone when that day was emptied.
   */
  lemma MoveKeys(ix: Index, prev: string, r: Reminder)
    requires prev in ix.days
    ensures var nk := DayKey(r.dateISO); var res := DropIfEmpty(Refile(ix, prev, r), prev);
      res.keys == KeepKeys(if nk in ix.days then ix.keys else ix.keys + [nk], res.days.Keys)
  {
    var mid := Refile(ix, prev, r);
    assert DropIfEmpty(mid, prev).keys == KeepKeys(mid.keys, DropIfEmpty(mid, prev).days.Keys);
  }

  /** A move leaves every day but the previous and the new one alone. */
  lemma MoveFrame(ix: Index, prev: string, r: Reminder)
    requires prev in ix.days
    ensures var nk := DayKey(r.dateISO); var res := DropIfEmpty(Refile(ix, prev, r), prev);
      res.days - {prev, nk} == ix.days - {prev, nk}
  {
    var nk := DayKey(r.dateISO);
    var mid := Refile(ix, prev, r);
    StoreOutsidePair(ix.days, prev, nk, Without(ix.days[prev], r.id), SortByTime(JoinedDay(ix, prev, r) + [r]));
    RemoveInsidePair(mid.days, prev, nk);
  }

  /** Storing under two keys changes nothing outside those keys. */
  lemma StoreOutsidePair(m: map<string, seq<Reminder>>, a: string, b: string, va: seq<Reminder>, vb: seq<Reminder>)
    ensures m[a := va][b := vb] - {a, b} == m - {a, b}
  {
  }

  /**
   * Removing one of two keys changes nothing outside those keys: the frame
   * step a move needs after it takes the reminder off its previous day.
   */
  lemma RemoveInsidePair(m: map<string, seq<Reminder>>, a: string, b: string)
    ensures (m - {a}) - {a, b} == m - {a, b}
  {
  }

  /**
   * `updateReminder`: removes the reminder with `r.id` from the first day
   * found holding it, files `r` under its (possibly new) day in time order,
   * and drops the previous day if that left it empty. An unknown id changes
   * nothing.
   */
  function UpdateReminder(ix: Index, r: Reminder): (res: Index)
    ensures !Occurs(ix, r.id) ==> res == ix
    ensures Occurs(ix, r.id) ==> res == MoveReminder(ix, PreviousDay(ix, r.id).value, r)
  {
    match PreviousDay(ix, r.id)
    case None => ix
    case Some(prev) => MoveReminder(ix, prev, r)
  }

  /**
   * The key order after `updateReminder`: unchanged for an unknown id,
   * otherwise the order a move leaves, so a later search by id still sees
   * the days in this order.
   */
  lemma UpdateReminderKeys(ix: Index, r: Reminder)
    ensures var nk := DayKey(r.dateISO); var res := UpdateReminder(ix, r);
      res.keys == if !Occurs(ix, r.id) then ix.keys
                  else KeepKeys(if nk in ix.days then ix.keys else ix.keys + [nk], res.days.Keys)
  {
    if Occurs(ix, r.id) {
      MoveReminderKeys(ix, PreviousDay(ix, r.id).value, r);
    }
  }

  /**
   * When the reminder stays on its day, that day becomes the sorted list of
   * the others plus `r`, and is never dropped: the emptiness check runs after
   * the insertion.
   */
  lemma UpdateSameDay(ix: Index, r: Reminder)
    requires PreviousDay(ix, r.id) == Some(DayKey(r.dateISO))
    ensures var k := DayKey(r.dateISO);
      && k in UpdateReminder(ix, r).days
      && UpdateReminder(ix, r).days[k] == SortByTime(Without(ix.days[k], r.id) + [r])
  {
  }

  /**
   * An update that finds its reminder on day `prev` touches only `prev` and
   * the new day: `prev` is dropped exactly when filtering left it empty, and
   * every other day is kept as it was.
   */
  lemma UpdateTouchesTwoDays(ix: Index, r: Reminder, k: string)
    requires Occurs(ix, r.id)
    ensures var res := UpdateReminder(ix, r);
      var prev := PreviousDay(ix, r.id).value;
      var nk := DayKey(r.dateISO);
      && (prev != nk ==> (prev in res.days <==> |Without(ix.days[prev], r.id)| > 0))
      && (k != prev && k != nk ==> (k in res.days <==> k in ix.days))
      && (k != prev && k != nk && k in ix.days ==> res.days[k] == ix.days[k])
  {
    var prev := PreviousDay(ix, r.id).value;
    var nk := DayKey(r.dateISO);
    var res := MoveReminder(ix, prev, r);
    assert UpdateReminder(ix, r) == res;
    if k != prev && k != nk {
      OutsidePair(res.days, ix.days, prev, nk, k);
    }
  }

  /** Two maps that agree outside keys `a` and `b` agree on every other key. */
  lemma OutsidePair(m: map<string, seq<Reminder>>, n: map<string, seq<Reminder>>, a: string, b: string, k: string)
    requires m - {a, b} == n - {a, b} && k != a && k != b
    ensures k in m <==> k in n
    ensures k in n ==> m[k] == n[k]
  {
    assert k in m <==> k in m - {a, b};
    assert k in n <==> k in n - {a, b};
    if k in n {
      assert (m - {a, b})[k] == m[k];
      assert (n - {a, b})[k] == n[k];
    }
  }

  /** How often any id occurs on each day after moving the reminder away from `prev`. */
  lemma MoveCounts(ix: Index, prev: string, r: Reminder, k: string, id: string)
    requires prev in ix.days
    requires k in MoveReminder(ix, prev, r).days
    ensures var res := MoveReminder(ix, prev, r);
      var nk := DayKey(r.dateISO);
      && (k == nk ==>
            CountId(res.days[k], id)
              == (if nk == prev && id == r.id then 0 else CountId(Lookup(ix, nk), id))
                 + (if id == r.id then 1 else 0))
      && (k != nk ==>
            && k in ix.days
            && CountId(res.days[k], id)
               == (if k == prev && id == r.id then 0 else CountId(ix.days[k], id)))
  {
    var res := MoveReminder(ix, prev, r);
    var nk := DayKey(r.dateISO);
    if k == nk {
      NewDayCount(ix, prev, r, id);
    } else if k != prev {
      OutsidePair(res.days, ix.days, prev, nk, k);
    }
  }

  /** The new day counts each id of the list it joined, plus `r` itself. */
  lemma NewDayCount(ix: Index, prev: string, r: Reminder, id: string)
    requires prev in ix.days
    ensures var joined := JoinedDay(ix, prev, r);
      CountId(SortByTime(joined + [r]), id) == CountId(joined, id) + (if id == r.id then 1 else 0)
  {
    var joined := JoinedDay(ix, prev, r);
    CountIdSort(joined + [r], id);
    CountIdConcat(joined, [r], id);
    assert [r][..0] == [];
  }

  /**
   * With unique ids, after an update the id occurs exactly once, on the day
   * of `r`'s date, and that day is in time order.
   */
  lemma UpdateFilesOnce(ix: Index, r: Reminder)
    requires UniqueIds(ix) && Occurs(ix, r.id)
    ensures var res := UpdateReminder(ix, r); var nk := DayKey(r.dateISO);
      && nk in res.days
      && CountId(res.days[nk], r.id) == 1
      && Sorted(res.days[nk])
      && forall k :: k in res.days && k != nk ==> CountId(res.days[k], r.id) == 0
  {
    var prev := PreviousDay(ix, r.id).value;
    assert UpdateReminder(ix, r) == MoveReminder(ix, prev, r);
    MoveFilesOnce(ix, prev, r);
    MoveClearsOthers(ix, prev, r);
  }

  /** Moving a reminder whose id is unique leaves that id once on the new day, in time order. */
  lemma MoveFilesOnce(ix: Index, prev: string, r: Reminder)
    requires prev in ix.days && UniqueIds(ix) && CountId(ix.days[prev], r.id) > 0
    ensures var res := MoveReminder(ix, prev, r); var nk := DayKey(r.dateISO);
      nk in res.days && CountId(res.days[nk], r.id) == 1 && Sorted(res.days[nk])
  {
    var nk := DayKey(r.dateISO);
    MoveCounts(ix, prev, r, nk, r.id);
    if nk != prev && nk in ix.days {
      assert CountId(ix.days[nk], r.id) == 0;
    }
  }

  /** Moving a reminder whose id is unique leaves that id on no other day. */
  lemma MoveClearsOthers(ix: Index, prev: string, r: Reminder)
    requires prev in ix.days && UniqueIds(ix) && CountId(ix.days[prev], r.id) > 0
    ensures var res := MoveReminder(ix, prev, r); var nk := DayKey(r.dateISO);
      forall k :: k in res.days && k != nk ==> CountId(res.days[k], r.id) == 0
  {
    var res := MoveReminder(ix, prev, r);
    var nk := DayKey(r.dateISO);
    forall k | k in res.days && k != nk ensures CountId(res.days[k], r.id) == 0 {
      MoveCounts(ix, prev, r, k, r.id);
      if k != prev {
        assert CountId(ix.days[k], r.id) == 0;
      }
    }
  }

  /** Updating keeps every invariant of the index. */
  lemma UpdateKeepsTidy(ix: Index, r: Reminder)
    requires Tidy(ix)
    ensures Tidy(UpdateReminder(ix, r))
  {
    if Occurs(ix, r.id) {
      var prev := PreviousDay(ix, r.id).value;
      MoveKeepsSortedAndFiled(ix, prev, r);
      MoveKeepsUniqueIds(ix, prev, r);
    }
  }

  lemma MoveKeepsSortedAndFiled(ix: Index, prev: string, r: Reminder)
    requires prev in ix.days && Tidy(ix)
    ensures var res := MoveReminder(ix, prev, r);
      SortedDays(res) && NoEmptyDays(res) && FiledByDate(res)
  {
    var res := MoveReminder(ix, prev, r);
    var nk := DayKey(r.dateISO);
    forall k | k in res.days
      ensures Sorted(res.days[k]) && |res.days[k]| > 0 && AllOnDay(res.days[k], k)
    {
      if k == nk {
        MovedDayGood(ix, prev, r);
      } else if k == prev {
        PreviousDayGood(ix, prev, r);
      } else {
        OutsidePair(res.days, ix.days, prev, nk, k);
        assert AllOnDay(ix.days[k], k);
      }
    }
  }

  /** The new day of a moved reminder is sorted, non-empty and holds only reminders of that day. */
  lemma MovedDayGood(ix: Index, prev: string, r: Reminder)
    requires prev in ix.days && FiledByDate(ix)
    ensures var nk := DayKey(r.dateISO); var res := MoveReminder(ix, prev, r);
      Sorted(res.days[nk]) && |res.days[nk]| > 0 && AllOnDay(res.days[nk], nk)
  {
    var nk := DayKey(r.dateISO);
    var joined := JoinedDay(ix, prev, r);
    if nk == prev {
      assert AllOnDay(ix.days[prev], prev);
      AllOnDaySubMultiset(ix.days[prev], joined, nk);
    } else if nk in ix.days {
      assert AllOnDay(ix.days[nk], nk);
    }
    assert AllOnDay(joined + [r], nk);
    AllOnDaySubMultiset(joined + [r], SortByTime(joined + [r]), nk);
  }

  /** The day a reminder moved away from, when kept, is sorted, non-empty and still filed. */
  lemma PreviousDayGood(ix: Index, prev: string, r: Reminder)
    requires prev in ix.days && FiledByDate(ix) && SortedDays(ix)
    requires prev != DayKey(r.dateISO) && prev in MoveReminder(ix, prev, r).days
    ensures var res := MoveReminder(ix, prev, r);
      Sorted(res.days[prev]) && |res.days[prev]| > 0 && AllOnDay(res.days[prev], prev)
  {
    WithoutSorted(ix.days[prev], r.id);
    assert AllOnDay(ix.days[prev], prev);
    AllOnDaySubMultiset(ix.days[prev], Without(ix.days[prev], r.id), prev);
  }

  lemma MoveKeepsUniqueIds(ix: Index, prev: string, r: Reminder)
    requires prev in ix.days && CountId(ix.days[prev], r.id) > 0 && UniqueIds(ix)
    ensures UniqueIds(MoveReminder(ix, prev, r))
  {
    var res := MoveReminder(ix, prev, r);
    var nk := DayKey(r.dateISO);
    forall k, id | k in res.days ensures CountId(res.days[k], id) <= 1 {
      MoveCounts(ix, prev, r, k, id);
    }
    forall k1, k2, id | k1 in res.days && k2 in res.days && k1 != k2 && CountId(res.days[k1], id) > 0
      ensures CountId(res.days[k2], id) == 0
    {
      MoveCounts(ix, prev, r, k1, id);
      MoveCounts(ix, prev, r, k2, id);
    }
  }

  // ---------------------------------------------------------------------
  // deleteReminder and clearDay

  /**
   * `deleteReminder`: filters the id out of every day and keeps only the days
   * left non-empty, in their original key order.
   */
  function DeleteReminder(ix: Index, id: string): (res: Index)
    ensures forall k :: k in res.days <==> k in ix.days && |Without(ix.days[k], id)| > 0
    ensures forall k :: k in res.days ==> res.days[k] == Without(ix.days[k], id)
    ensures !Occurs(res, id)
    ensures NoEmptyDays(res)
    ensures res.keys == KeepKeys(ix.keys, res.days.Keys)
  {
    var days := map k | k in ix.days && |Without(ix.days[k], id)| > 0 :: Without(ix.days[k], id);
    DayMap(KeepKeys(ix.keys, days.Keys), days)
  }

  /** Deleting an id twice is deleting it once. */
  lemma DeleteIdempotent(ix: Index, id: string)
    ensures DeleteReminder(DeleteReminder(ix, id), id) == DeleteReminder(ix, id)
  {
    DeleteAbsentIsNoop(DeleteReminder(ix, id), id);
  }

  /** Deleting an id that no day holds changes nothing when no day is empty. */
  lemma DeleteAbsentIsNoop(ix: Index, id: string)
    requires !Occurs(ix, id) && NoEmptyDays(ix)
    ensures DeleteReminder(ix, id) == ix
  {
    var res := DeleteReminder(ix, id);
    DeleteAbsentKeepsDays(ix, id);
    assert forall x :: x in ix.keys ==> x in res.days.Keys;
    assert res.keys == KeepKeys(ix.keys, res.days.Keys);
  }

  lemma DeleteAbsentKeepsDays(ix: Index, id: string)
    requires !Occurs(ix, id) && NoEmptyDays(ix)
    ensures DeleteReminder(ix, id).days == ix.days
  {
    var res := DeleteReminder(ix, id);
    forall k | k in ix.days ensures k in res.days && res.days[k] == ix.days[k] {
      NotOccursOnDay(ix, id, k);
    }
    SameDays(res.days, ix.days);
  }

  /**
   * Two maps with the same keys and the same value under each key are
   * equal; the extensionality step that closes the idempotence proofs.
   */
  lemma SameDays(a: map<string, seq<Reminder>>, b: map<string, seq<Reminder>>)
    requires forall k :: k in a ==> k in b
    requires forall k :: k in b ==> k in a && a[k] == b[k]
    ensures a == b
  {
  }

  /** An id that occurs nowhere does not occur on any one day. */
  lemma NotOccursOnDay(ix: Index, id: string, k: string)
    requires !Occurs(ix, id) && k in ix.days
    ensures CountId(ix.days[k], id) == 0
  {
  }

  /** Deleting keeps every invariant of the index. */
  lemma DeleteKeepsTidy(ix: Index, id: string)
    requires Tidy(ix)
    ensures Tidy(DeleteReminder(ix, id))
  {
    var res := DeleteReminder(ix, id);
    forall k | k in res.days ensures Sorted(res.days[k]) && AllOnDay(res.days[k], k) {
      WithoutSorted(ix.days[k], id);
      assert AllOnDay(ix.days[k], k);
      AllOnDaySubMultiset(ix.days[k], res.days[k], k);
    }
    DeleteKeepsUniqueIds(ix, id);
  }

  lemma DeleteKeepsUniqueIds(ix: Index, id: string)
    requires UniqueIds(ix)
    ensures UniqueIds(DeleteReminder(ix, id))
  {
    var res := DeleteReminder(ix, id);
    forall k, id' | k in res.days ensures CountId(res.days[k], id') <= 1 {
      DeletedCount(ix, id, k, id');
    }
    forall k1, k2, id' | k1 in res.days && k2 in res.days && k1 != k2 && CountId(res.days[k1], id') > 0
      ensures CountId(res.days[k2], id') == 0
    {
      DeletedCount(ix, id, k1, id');
      DeletedCount(ix, id, k2, id');
    }
  }

  /** Deleting never makes an id more frequent on a day. */
  lemma DeletedCount(ix: Index, id: string, k: string, id': string)
    requires k in DeleteReminder(ix, id).days
    ensures k in ix.days && CountId(DeleteReminder(ix, id).days[k], id') <= CountId(ix.days[k], id')
  {
  }

  /**
   * `clearDay`: removes the day key of `dateISO`; every other day is left as
   * it was, and a day that is not present makes this a no-op.
   */
  function ClearDay(ix: Index, dateISO: string): (res: Index)
    ensures DayKey(dateISO) !in res.days
    ensures forall k :: k != DayKey(dateISO) ==> (k in res.days <==> k in ix.days)
    ensures forall k :: k != DayKey(dateISO) && k in ix.days ==> res.days[k] == ix.days[k]
    ensures DayKey(dateISO) !in ix.days ==> res == ix
    ensures res.keys == KeepKeys(ix.keys, res.days.Keys)
  {
    Remove(ix, DayKey(dateISO))
  }

  /** Clearing a day twice is clearing it once. */
  lemma ClearDayIdempotent(ix: Index, dateISO: string)
    ensures ClearDay(ClearDay(ix, dateISO), dateISO) == ClearDay(ix, dateISO)
  {
  }

  /** After clearing a day, reading it gives no reminders. */
  lemma ClearDayThenRead(ix: Index, dateISO: string)
    ensures Lookup(ClearDay(ix, dateISO), DayKey(dateISO)) == []
  {
  }

  /** Clearing a day keeps every invariant of the index. */
  lemma ClearDayKeepsTidy(ix: Index, dateISO: string)
    requires Tidy(ix)
    ensures Tidy(ClearDay(ix, dateISO))
  {
  }
}
