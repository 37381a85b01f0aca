/**
 * A reminder, its day key, and the per-day list operations the store uses:
 * filtering a reminder out by id and keeping a day's list in time order with
 * the stable sort that `Array.prototype.sort` performs.
 */
module Reminders {
  import opened Wrappers
  import Text

  /** One reminder; `weather` is `None` while absent or when no forecast was found. */
  datatype Reminder = Reminder(
    id: string,
    text: string,
    color: string,
    city: string,
    dateISO: string,
    time: string,
    weather: Option<string>)

  /** The day a reminder is filed under: the `YYYY-MM-DD` head of its date. */
  function DayKey(dateISO: string): (k: string)
    ensures |dateISO| >= 10 ==> k == dateISO[..10]
    ensures Text.Slice(k, 10) == k
  {
    Text.Slice(dateISO, 10)
  }

  /** How many reminders of `s` carry `id`. */
  function CountId(s: seq<Reminder>, id: string): nat {
    if |s| == 0 then 0
    else CountId(s[..|s| - 1], id) + (if s[|s| - 1].id == id then 1 else 0)
  }

  lemma {:induction false} CountIdConcat(a: seq<Reminder>, b: seq<Reminder>, id: string)
    ensures CountId(a + b, id) == CountId(a, id) + CountId(b, id)
    decreases |b|
  {
    if |b| > 0 {
      CountIdConcat(a, b[..|b| - 1], id);
      assert (a + b)[..|a + b| - 1] == a + b[..|b| - 1];
    } else {
      assert a + b == a;
    }
  }

  /** `CountId` is positive exactly when some reminder of `s` carries `id`. */
  lemma {:induction false} CountIdPositive(s: seq<Reminder>, id: string)
    ensures CountId(s, id) > 0 <==> exists i :: 0 <= i < |s| && s[i].id == id
    decreases |s|
  {
    if |s| > 0 {
      CountIdPositive(s[..|s| - 1], id);
      if exists i :: 0 <= i < |s| && s[i].id == id {
        var i :| 0 <= i < |s| && s[i].id == id;
        if i < |s| - 1 {
          assert s[..|s| - 1][i].id == id;
        }
      }
    }
  }

  /** `s.filter(x => x.id !== id)`. */
  function Without(s: seq<Reminder>, id: string): (r: seq<Reminder>)
    ensures CountId(r, id) == 0
    ensures forall other :: other != id ==> CountId(r, other) == CountId(s, other)
    ensures |r| == |s| - CountId(s, id)
    ensures multiset(r) <= multiset(s)
    ensures CountId(s, id) == 0 ==> r == s
  {
    if |s| == 0 then []
    else
      var init := Without(s[..|s| - 1], id);
      var last := s[|s| - 1];
      assert s == s[..|s| - 1] + [last];
      if last.id == id then init
      else
        assert (init + [last])[..|init + [last]| - 1] == init;
        init + [last]
  }

  /** Filtering a single reminder keeps it exactly when its id differs. */
  lemma WithoutSingle(x: Reminder, id: string)
    ensures Without([x], id) == if x.id == id then [] else [x]
  {
    assert [x][..0] == [];
  }

  /** Filtering a list with one more reminder at its end. */
  lemma WithoutSnoc(s: seq<Reminder>, x: Reminder, id: string)
    ensures Without(s + [x], id) == Without(s, id) + (if x.id == id then [] else [x])
  {
    assert (s + [x])[..|s + [x]| - 1] == s;
  }

  /**
   * Filtering distributes over concatenation: together with `WithoutSingle`
   * this says `Without` keeps the surviving reminders in their order.
   */
  lemma {:induction false} WithoutConcat(a: seq<Reminder>, b: seq<Reminder>, id: string)
    ensures Without(a + b, id) == Without(a, id) + Without(b, id)
    decreases |b|
  {
    if |b| == 0 {
      assert a + b == a;
    } else {
      var init := b[..|b| - 1];
      var x := b[|b| - 1];
      SplitLast(a, b);
      WithoutConcat(a, init, id);
      WithoutSnoc(a + init, x, id);
      WithoutSnoc(init, x, id);
      Regroup(Without(a, id), Without(init, id), if x.id == id then [] else [x]);
    }
  }

  /** `b` and `a + b` both end in the last reminder of `b`. */
  lemma SplitLast(a: seq<Reminder>, b: seq<Reminder>)
    requires |b| > 0
    ensures b == b[..|b| - 1] + [b[|b| - 1]]
    ensures a + b == (a + b[..|b| - 1]) + [b[|b| - 1]]
  {
  }

  /** Concatenation regrouped, the step from `init` to `init + [x]`. */
  lemma Regroup(u: seq<Reminder>, v: seq<Reminder>, w: seq<Reminder>)
    ensures u + v + w == u + (v + w)
  {
  }

  /** `a` is due no later than `b`: the comparison of their `HH:MM` strings. */
  predicate TimeLe(a: Reminder, b: Reminder) {
    Text.LexLe(a.time, b.time)
  }

  /** Non-decreasing in time of day. */
  predicate Sorted(s: seq<Reminder>) {
    forall i, j :: 0 <= i < j < |s| ==> TimeLe(s[i], s[j])
  }

  /**
   * Inserts `r` after every leading reminder not later than it: the step a
   * stable sort takes for an element that comes after `s`.
   */
  function Insert(s: seq<Reminder>, r: Reminder): (t: seq<Reminder>)
    ensures multiset(t) == multiset(s) + multiset{r}
    ensures |t| == |s| + 1
    ensures Sorted(s) ==> Sorted(t)
  {
    if |s| == 0 then [r]
    else if !TimeLe(s[0], r) then
      InsertFrontSorted(s, r);
      [r] + s
    else
      var rest := Insert(s[1..], r);
      assert s == [s[0]] + s[1..];
      InsertBehindSorted(s, r, rest);
      [s[0]] + rest
  }

  /** A reminder due before the head of a sorted list can go in front of it. */
  lemma InsertFrontSorted(s: seq<Reminder>, r: Reminder)
    requires |s| > 0 && !TimeLe(s[0], r)
    ensures Sorted(s) ==> Sorted([r] + s)
  {
    Text.LexLeTotal(s[0].time, r.time);
    var t := [r] + s;
    if Sorted(s) {
      forall i, j | 0 <= i < j < |t| ensures TimeLe(t[i], t[j]) {
        if i == 0 && j > 1 {
          Text.LexLeTransitive(r.time, s[0].time, s[j - 1].time);
        }
      }
    }
  }

  /** The head of a sorted list stays in front when `r`, not earlier, joins the tail. */
  lemma InsertBehindSorted(s: seq<Reminder>, r: Reminder, rest: seq<Reminder>)
    requires |s| > 0 && TimeLe(s[0], r)
    requires multiset(rest) == multiset(s[1..]) + multiset{r}
    requires Sorted(s[1..]) ==> Sorted(rest)
    ensures Sorted(s) ==> Sorted([s[0]] + rest)
  {
    var t := [s[0]] + rest;
    if Sorted(s) {
      forall j | 1 <= j < |t| ensures TimeLe(t[0], t[j]) {
        assert t[j] in multiset(rest);
        if t[j] != r {
          assert t[j] in multiset(s[1..]);
          var k :| 0 <= k < |s[1..]| && s[1..][k] == t[j];
          assert s[k + 1] == t[j];
        }
      }
    }
  }

  /** `CountId` after an insertion: one more for the inserted reminder's id. */
  lemma {:induction false} CountIdInsert(s: seq<Reminder>, r: Reminder, id: string)
    ensures CountId(Insert(s, r), id) == CountId(s, id) + (if r.id == id then 1 else 0)
    decreases |s|
  {
    if |s| == 0 {
      assert [r][..0] == [];
    } else if !TimeLe(s[0], r) {
      CountIdConcat([r], s, id);
      assert [r][..0] == [];
    } else {
      CountIdInsert(s[1..], r, id);
      CountIdConcat([s[0]], Insert(s[1..], r), id);
      CountIdConcat([s[0]], s[1..], id);
      assert s == [s[0]] + s[1..];
      assert [s[0]][..0] == [];
    }
  }

  /** The position `Insert` puts `r` at: before the first reminder strictly later. */
  function InsertPos(s: seq<Reminder>, r: Reminder): (p: nat)
    ensures p <= |s|
    ensures forall i :: 0 <= i < p ==> TimeLe(s[i], r)
    ensures p < |s| ==> !TimeLe(s[p], r)
  {
    if |s| == 0 || !TimeLe(s[0], r) then 0 else 1 + InsertPos(s[1..], r)
  }

  /**
   * Stability of the insertion: `s` keeps its order and `r` lands after every
   * reminder with a time not later than its own.
   */
  lemma {:induction false} InsertKeepsOrder(s: seq<Reminder>, r: Reminder)
    ensures Insert(s, r) == s[..InsertPos(s, r)] + [r] + s[InsertPos(s, r)..]
    decreases |s|
  {
    if |s| == 0 {
      assert Insert(s, r) == [r];
    } else if TimeLe(s[0], r) {
      InsertKeepsOrder(s[1..], r);
      assert Insert(s, r) == [s[0]] + Insert(s[1..], r);
      SplitAfterHead(s, InsertPos(s[1..], r), r);
    } else {
      assert Insert(s, r) == [r] + s;
      assert s[..0] == [] && s[0..] == s;
    }
  }

  /** Putting the head back in front of a split tail splits `s` one position later. */
  lemma SplitAfterHead(s: seq<Reminder>, p: nat, r: Reminder)
    requires 0 < |s| && p <= |s| - 1
    ensures [s[0]] + (s[1..][..p] + [r] + s[1..][p..]) == s[..p + 1] + [r] + s[p + 1..]
  {
    assert s[..p + 1] == [s[0]] + s[1..][..p];
    assert s[p + 1..] == s[1..][p..];
  }

  /** In a sorted list, everything from the insertion position on is strictly later than `r`. */
  lemma InsertPosSplitsSorted(s: seq<Reminder>, r: Reminder)
    requires Sorted(s)
    ensures forall i :: InsertPos(s, r) <= i < |s| ==> !TimeLe(s[i], r)
  {
    var p := InsertPos(s, r);
    forall i | p <= i < |s| ensures !TimeLe(s[i], r) {
      if TimeLe(s[i], r) {
        Text.LexLeTransitive(s[p].time, s[i].time, r.time);
      }
    }
  }

  /** A stable insertion sort by time of day. */
  function SortByTime(s: seq<Reminder>): (t: seq<Reminder>)
    ensures Sorted(t)
    ensures multiset(t) == multiset(s)
    ensures |t| == |s|
  {
    if |s| == 0 then []
    else
      assert s == s[..|s| - 1] + [s[|s| - 1]];
      Insert(SortByTime(s[..|s| - 1]), s[|s| - 1])
  }

  /** Sorting does not change how often an id occurs. */
  lemma {:induction false} CountIdSort(s: seq<Reminder>, id: string)
    ensures CountId(SortByTime(s), id) == CountId(s, id)
    decreases |s|
  {
    if |s| > 0 {
      CountIdSort(s[..|s| - 1], id);
      CountIdInsert(SortByTime(s[..|s| - 1]), s[|s| - 1], id);
    }
  }

  /** A list already in time order is left as it is. */
  lemma {:induction false} SortOfSorted(s: seq<Reminder>)
    requires Sorted(s)
    ensures SortByTime(s) == s
    decreases |s|
  {
    if |s| > 0 {
      var init := s[..|s| - 1];
      var last := s[|s| - 1];
      assert s == init + [last];
      SortOfSorted(init);
      InsertAtEnd(init, last);
    }
  }

  /** A reminder due no earlier than every one of the list goes at its end. */
  lemma InsertAtEnd(s: seq<Reminder>, r: Reminder)
    requires forall i :: 0 <= i < |s| ==> TimeLe(s[i], r)
    ensures Insert(s, r) == s + [r]
  {
    InsertKeepsOrder(s, r);
    assert InsertPos(s, r) == |s|;
    assert s[..|s|] == s && s[|s|..] == [];
  }

  /**
   * Sorting a sorted list with one reminder appended is inserting it:
   * what `[...list, r].sort(byTime)` computes for a day kept in order.
   */
  lemma SortAppendOne(s: seq<Reminder>, r: Reminder)
    requires Sorted(s)
    ensures SortByTime(s + [r]) == Insert(s, r)
  {
    assert (s + [r])[..|s + [r]| - 1] == s;
    SortOfSorted(s);
  }

  /** A filtered list keeps the order of the list it was taken from. */
  lemma {:induction false} WithoutSorted(s: seq<Reminder>, id: string)
    requires Sorted(s)
    ensures Sorted(Without(s, id))
    decreases |s|
  {
    if |s| > 0 {
      var init := s[..|s| - 1];
      var last := s[|s| - 1];
      WithoutSorted(init, id);
      var w := Without(init, id);
      if last.id != id {
        var t := w + [last];
        forall i | 0 <= i < |w| ensures TimeLe(t[i], last) {
          assert w[i] in multiset(init);
          var k :| 0 <= k < |init| && init[k] == w[i];
        }
      }
    }
  }
}
