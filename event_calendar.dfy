/**
 * The events page: which months have events, stepping between those
 * months, the category filter, the events shown for the displayed month,
 * the month first displayed, and the fallback list of categories.
 *
 * A JavaScript `Date` is modelled as an `Instant`: a year, a month index
 * (0 = January, as `getMonth` returns it) and the time elapsed since the
 * start of that month. Comparing two `Date`s compares these three
 * lexicographically.
 */
module EventCalendar {
  import opened Wrappers
  import opened Text
  import opened Seqs

  type MonthIndex = m: int | 0 <= m < 12

  datatype Instant = Instant(year: int, month: MonthIndex, offset: nat)

  /** `a < b` on `Date` values. */
  predicate Before(a: Instant, b: Instant) {
    a.year < b.year || (a.year == b.year && (a.month < b.month || (a.month == b.month && a.offset < b.offset)))
  }

  /** `new Date(year, month, 1)`: the first moment of the month of `d`. */
  function MonthStart(d: Instant): Instant {
    Instant(d.year, d.month, 0)
  }

  /** The first moment of the month after that of `d`. */
  function NextMonthStart(d: Instant): Instant {
    if d.month == 11 then Instant(d.year + 1, 0, 0) else Instant(d.year, d.month + 1, 0)
  }

  /** Months counted from year 0; one more for each calendar month. */
  function MonthNumber(d: Instant): int {
    d.year * 12 + d.month
  }

  lemma MonthNumberOrder(a: Instant, b: Instant)
    ensures MonthNumber(a) < MonthNumber(b) <==> a.year < b.year || (a.year == b.year && a.month < b.month)
    ensures MonthNumber(a) == MonthNumber(b) <==> a.year == b.year && a.month == b.month
  {
  }

  datatype Category = Category(id: int, name: string, color: string)

  datatype Event = Event(id: int, date: Instant, categories: Option<seq<Category>>)

  /** `isEventInMonth`: same month and same year as the displayed month. */
  function IsEventInMonth(eventDate: Instant, month: Instant): (r: bool)
    ensures r <==> MonthNumber(eventDate) == MonthNumber(month)
  {
    MonthNumberOrder(eventDate, month);
    eventDate.month == month.month && eventDate.year == month.year
  }

  /** An event is in the displayed month exactly when it falls between that month's first moment and the next month's. */
  lemma InMonthIffWithinBounds(eventDate: Instant, month: Instant)
    ensures IsEventInMonth(eventDate, month) <==>
      !Before(eventDate, MonthStart(month)) && Before(eventDate, NextMonthStart(month))
  {
    MonthNumberOrder(eventDate, month);
  }

  /** `isEventPast`: the event lies before the start of today. */
  function IsEventPast(eventDate: Instant, todayStart: Instant): (r: bool)
    ensures r <==> !(eventDate == todayStart || Before(todayStart, eventDate))
  {
    Before(eventDate, todayStart)
  }

  /** The list `getAllMonthsWithEvents` promises: first-of-month dates in strictly ascending order. */
  ghost predicate MonthList(months: seq<Instant>) {
    && (forall k :: 0 <= k < |months| ==> months[k].offset == 0)
    && (forall i, j :: 0 <= i < j < |months| ==> MonthNumber(months[i]) < MonthNumber(months[j]))
  }

  /**
   * `getAllMonthsWithEvents`: collect the distinct (year, month) keys of the
   * events in a set, in insertion order, turn each into the first of its
   * month and sort ascending.
   */
  method AllMonthsWithEvents(events: seq<Event>) returns (months: seq<Instant>)
    ensures MonthList(months)
    ensures forall e :: e in events ==> MonthStart(e.date) in months
    ensures forall m :: m in months ==> exists e :: e in events && MonthStart(e.date) == m
  {
    var keys: seq<Instant> := [];
    for i := 0 to |events|
      invariant NoDuplicates(keys)
      invariant forall k :: 0 <= k < |keys| ==> keys[k].offset == 0
      invariant forall e :: e in events[..i] ==> MonthStart(e.date) in keys
      invariant forall m :: m in keys ==> exists e :: e in events[..i] && MonthStart(e.date) == m
    {
      var key := MonthStart(events[i].date);
      assert events[..i + 1] == events[..i] + [events[i]];
      if key !in keys {
        keys := keys + [key];
      }
    }
    assert events[..|events|] == events;
    var a := new Instant[|keys|](k requires 0 <= k < |keys| => keys[k]);
    assert a[..] == keys;
    SortByKey(a, MonthNumber);
    months := a[..];
    PermutationNoDuplicates(months, keys);
    assert forall m :: m in months <==> m in keys by {
      forall m ensures m in months <==> m in keys {
        assert m in months <==> multiset(months)[m] > 0;
        assert m in keys <==> multiset(keys)[m] > 0;
      }
    }
    forall k | 0 <= k < |months| ensures months[k].offset == 0 {
      assert months[k] in keys;
    }
    forall i, j | 0 <= i < j < |months| ensures MonthNumber(months[i]) < MonthNumber(months[j]) {
      assert months[i] in keys && months[j] in keys;
      MonthNumberOrder(months[i], months[j]);
    }
  }

  /** `findIndex` of the entry in the same (year, month) as `start`, or -1. */
  function FindMonthIndex(months: seq<Instant>, start: Instant): (r: int)
    ensures -1 <= r < |months|
    ensures r >= 0 ==> MonthNumber(months[r]) == MonthNumber(start)
    ensures r >= 0 ==> forall k :: 0 <= k < r ==> MonthNumber(months[k]) != MonthNumber(start)
    ensures r == -1 ==> forall k :: 0 <= k < |months| ==> MonthNumber(months[k]) != MonthNumber(start)
  {
    if months == [] then -1
    else if MonthNumber(months[0]) == MonthNumber(start) then 0
    else
      var rest := FindMonthIndex(months[1..], start);
      if rest == -1 then -1 else rest + 1
  }

  function LaterThan(start: Instant): Instant -> bool {
    (m: Instant) => Before(start, m)
  }

  function EarlierThan(start: Instant): Instant -> bool {
    (m: Instant) => Before(m, start)
  }

  /**
   * `findNextMonthWithEvents`: with `direction == 1` the month after
   * `start` in the list (or the first listed month later than `start`),
   * otherwise the month before it (or the last listed month earlier than
   * `start`); `start` itself when there is no such month.
   */
  function FindNextMonthWithEvents(months: seq<Instant>, start: Instant, direction: int): (r: Instant)
    ensures months == [] ==> r == start
    ensures r == start || r in months
  {
    if |months| == 0 then start
    else
      var current := FindMonthIndex(months, start);
      if direction == 1 then
        if current >= 0 && current < |months| - 1 then months[current + 1]
        else
          var future := Filter(months, LaterThan(start));
          if |future| > 0 then future[0] else start
      else
        if current > 0 then months[current - 1]
        else
          var past := Filter(months, EarlierThan(start));
          if |past| > 0 then past[|past| - 1] else start
  }

  lemma ListedMonthOrder(m: Instant, start: Instant)
    requires m.offset == 0
    ensures Before(start, m) <==> MonthNumber(start) < MonthNumber(m)
    ensures Before(m, start) <==> MonthNumber(m) < MonthNumber(start) || (MonthNumber(m) == MonthNumber(start) && start.offset > 0)
  {
    MonthNumberOrder(m, start);
    MonthNumberOrder(start, m);
  }

  lemma MonthListSorted(months: seq<Instant>)
    requires MonthList(months)
    ensures SortedByKey(months, MonthNumber)
  {
  }

  /**
   * Where "next month" may land from `start`: on the earliest listed month
   * after the month of `start` when there is one, otherwise on `start`; in
   * either case never before `start`.
   */
  ghost predicate ForwardLanding(months: seq<Instant>, start: Instant, r: Instant) {
    && ((exists m :: m in months && MonthNumber(start) < MonthNumber(m)) ==>
          r in months && MonthNumber(start) < MonthNumber(r) &&
          forall m :: m in months && MonthNumber(start) < MonthNumber(m) ==> MonthNumber(r) <= MonthNumber(m))
    && ((forall m :: m in months ==> MonthNumber(m) <= MonthNumber(start)) ==> r == start)
    && !Before(r, start)
  }

  /** Forward from a listed month that has a successor in the list. */
  lemma ForwardFromListedMonth(months: seq<Instant>, start: Instant)
    requires MonthList(months)
    requires 0 <= FindMonthIndex(months, start) < |months| - 1
    ensures ForwardLanding(months, start, FindNextMonthWithEvents(months, start, 1))
  {
    var current := FindMonthIndex(months, start);
    var r := FindNextMonthWithEvents(months, start, 1);
    assert r == months[current + 1];
    forall m | m in months && MonthNumber(start) < MonthNumber(m) ensures MonthNumber(r) <= MonthNumber(m) {
      var k :| 0 <= k < |months| && months[k] == m;
    }
    ListedMonthOrder(r, start);
    MonthNumberOrder(r, start);
  }

  /** Forward from a month that is not listed, or is the last listed one. */
  lemma ForwardFromOtherMonth(months: seq<Instant>, start: Instant)
    requires MonthList(months) && months != []
    requires !(0 <= FindMonthIndex(months, start) < |months| - 1)
    ensures ForwardLanding(months, start, FindNextMonthWithEvents(months, start, 1))
  {
    var r := FindNextMonthWithEvents(months, start, 1);
    forall m | m in months ensures Before(start, m) <==> MonthNumber(start) < MonthNumber(m) {
      var k :| 0 <= k < |months| && months[k] == m;
      ListedMonthOrder(m, start);
    }
    var future := Filter(months, LaterThan(start));
    if |future| > 0 {
      MonthListSorted(months);
      FilterSortedHead(months, LaterThan(start), MonthNumber);
      ListedMonthOrder(r, start);
    } else {
      forall m | m in months ensures MonthNumber(m) <= MonthNumber(start) {
        assert !LaterThan(start)(m);
      }
    }
    MonthNumberOrder(r, start);
  }

  /**
   * Going forward lands on the earliest listed month after the month of
   * `start`, and stays on `start` when there is none; so it never moves
   * backwards.
   */
  lemma ForwardIsEarliestLaterMonth(months: seq<Instant>, start: Instant)
    requires MonthList(months)
    ensures var r := FindNextMonthWithEvents(months, start, 1);
      && ((exists m :: m in months && MonthNumber(start) < MonthNumber(m)) ==>
            r in months && MonthNumber(start) < MonthNumber(r) &&
            forall m :: m in months && MonthNumber(start) < MonthNumber(m) ==> MonthNumber(r) <= MonthNumber(m))
      && ((forall m :: m in months ==> MonthNumber(m) <= MonthNumber(start)) ==> r == start)
      && !Before(r, start)
  {
    if months == [] {
    } else if 0 <= FindMonthIndex(months, start) < |months| - 1 {
      ForwardFromListedMonth(months, start);
    } else {
      ForwardFromOtherMonth(months, start);
    }
  }

  /**
   * Where "previous month" may land from `start`: on the latest listed
   * month before the month of `start` when there is one, otherwise within
   * the month of `start`; in either case never after `start`.
   */
  ghost predicate BackwardLanding(months: seq<Instant>, start: Instant, r: Instant) {
    && ((exists m :: m in months && MonthNumber(m) < MonthNumber(start)) ==>
          r in months && MonthNumber(r) < MonthNumber(start) &&
          forall m :: m in months && MonthNumber(m) < MonthNumber(start) ==> MonthNumber(m) <= MonthNumber(r))
    && ((forall m :: m in months ==> MonthNumber(start) <= MonthNumber(m)) ==>
          r == start || r == MonthStart(start))
    && !Before(start, r)
  }

  /** Backward from a listed month that has a predecessor in the list. */
  lemma BackwardFromListedMonth(months: seq<Instant>, start: Instant)
    requires MonthList(months)
    requires FindMonthIndex(months, start) > 0
    ensures BackwardLanding(months, start, FindNextMonthWithEvents(months, start, -1))
  {
    var current := FindMonthIndex(months, start);
    var r := FindNextMonthWithEvents(months, start, -1);
    assert r == months[current - 1];
    forall m | m in months && MonthNumber(m) < MonthNumber(start) ensures MonthNumber(m) <= MonthNumber(r) {
      var k :| 0 <= k < |months| && months[k] == m;
    }
    ListedMonthOrder(r, start);
    MonthNumberOrder(r, start);
  }

  /** Backward from a month that is not listed, or is the first listed one. */
  lemma BackwardFromOtherMonth(months: seq<Instant>, start: Instant, direction: int)
    requires MonthList(months) && months != [] && direction != 1
    requires FindMonthIndex(months, start) <= 0
    ensures BackwardLanding(months, start, FindNextMonthWithEvents(months, start, direction))
  {
    var current := FindMonthIndex(months, start);
    var r := FindNextMonthWithEvents(months, start, direction);
    var past := Filter(months, EarlierThan(start));
    forall m | m in months
      ensures Before(m, start) ==> MonthNumber(m) < MonthNumber(start) || m == MonthStart(start)
      ensures MonthNumber(m) < MonthNumber(start) ==> Before(m, start)
    {
      ListedMonthOrder(m, start);
      MonthNumberOrder(m, start);
    }
    if current == 0 {
      forall m | m in months ensures MonthNumber(start) <= MonthNumber(m) {
        var k :| 0 <= k < |months| && months[k] == m;
      }
    }
    if |past| > 0 {
      MonthListSorted(months);
      FilterSortedLast(months, EarlierThan(start), MonthNumber);
      assert r == Last(past);
      ListedMonthOrder(r, start);
      if exists m :: m in months && MonthNumber(m) < MonthNumber(start) {
        var m :| m in months && MonthNumber(m) < MonthNumber(start);
        assert EarlierThan(start)(m);
      }
    } else {
      forall m | m in months ensures MonthNumber(start) <= MonthNumber(m) {
        assert !EarlierThan(start)(m);
      }
    }
  }

  /**
   * Going backward lands on the latest listed month before the month of
   * `start` when there is one; otherwise it stays within the month of
   * `start` (on `start` itself, or on the first of that month when that
   * month is listed). It never moves forwards.
   */
  lemma BackwardIsLatestEarlierMonth(months: seq<Instant>, start: Instant, direction: int)
    requires MonthList(months) && direction != 1
    ensures var r := FindNextMonthWithEvents(months, start, direction);
      && ((exists m :: m in months && MonthNumber(m) < MonthNumber(start)) ==>
            r in months && MonthNumber(r) < MonthNumber(start) &&
            forall m :: m in months && MonthNumber(m) < MonthNumber(start) ==> MonthNumber(m) <= MonthNumber(r))
      && ((forall m :: m in months ==> MonthNumber(start) <= MonthNumber(m)) ==>
            r == start || r == MonthStart(start))
      && !Before(start, r)
  {
    if months == [] {
    } else if FindMonthIndex(months, start) > 0 {
      BackwardFromListedMonth(months, start);
      assert FindNextMonthWithEvents(months, start, direction) == FindNextMonthWithEvents(months, start, -1);
    } else {
      BackwardFromOtherMonth(months, start, direction);
    }
  }

  /** `toggleCategory`: the selected category ids after clicking `categoryId`. */
  function ToggleCategory(selected: seq<int>, categoryId: int): (r: seq<int>)
    ensures categoryId in r <==> categoryId !in selected
    ensures forall id :: id != categoryId ==> (id in r <==> id in selected)
    ensures categoryId !in selected ==> r == selected + [categoryId]
    ensures categoryId in selected ==> SubseqOf(r, selected)
    ensures categoryId in selected ==> forall id :: multiset(r)[id] == if id == categoryId then 0 else multiset(selected)[id]
  {
    Toggle(selected, categoryId)
  }

  /** Toggling the same category twice restores the selection exactly, when it started unselected. */
  lemma ToggleCategoryTwice(selected: seq<int>, categoryId: int)
    requires categoryId !in selected
    ensures ToggleCategory(ToggleCategory(selected, categoryId), categoryId) == selected
  {
    ToggleTwiceRestores(selected, categoryId);
  }

  /** `event.categories && event.categories.some(cat => selectedCategories.includes(cat.id))`. */
  predicate HasSelectedCategory(e: Event, selected: seq<int>) {
    e.categories.Some? && exists c :: c in e.categories.value && c.id in selected
  }

  function InMonth(month: Instant): Event -> bool {
    (e: Event) => IsEventInMonth(e.date, month)
  }

  function MatchesSelection(selected: seq<int>): Event -> bool {
    (e: Event) => |selected| == 0 || HasSelectedCategory(e, selected)
  }

  /** `getEventsForMonth`. */
  function EventsForMonth(events: seq<Event>, month: Instant): seq<Event> {
    Filter(events, InMonth(month))
  }

  /**
   * `filteredEvents`: the displayed month's events, all of them when no
   * category is selected, otherwise those with a selected category, in
   * their original order.
   */
  function FilteredEvents(events: seq<Event>, displayMonth: Instant, selected: seq<int>): (r: seq<Event>)
    ensures forall e :: e in r ==> e in events && IsEventInMonth(e.date, displayMonth)
    ensures forall e :: e in r ==> selected == [] || HasSelectedCategory(e, selected)
    ensures forall e :: (e in events && IsEventInMonth(e.date, displayMonth) &&
      (selected == [] || HasSelectedCategory(e, selected))) ==> e in r
    ensures SubseqOf(r, events)
    ensures forall e :: multiset(r)[e] ==
              if IsEventInMonth(e.date, displayMonth) && (selected == [] || HasSelectedCategory(e, selected))
              then multiset(events)[e] else 0
  {
    var month := EventsForMonth(events, displayMonth);
    var r := Filter(month, MatchesSelection(selected));
    SubseqTransitive(r, month, events);
    FilterFilterMultiset(events, InMonth(displayMonth), MatchesSelection(selected));
    assert forall e :: e in r ==> MatchesSelection(selected)(e);
    r
  }

  /** `clearFilters`: with no category selected, the display month's events are all shown. */
  lemma ClearedFiltersShowWholeMonth(events: seq<Event>, displayMonth: Instant)
    ensures FilteredEvents(events, displayMonth, []) == EventsForMonth(events, displayMonth)
  {
    var month := EventsForMonth(events, displayMonth);
    assert forall e :: e in month ==> MatchesSelection([])(e);
  }

  /** The date of the earliest event on or after the start of today, if any. */
  function EarliestUpcoming(events: seq<Event>, todayStart: Instant): (r: Option<Instant>)
    ensures r.Some? ==> exists e :: e in events && e.date == r.value && !Before(e.date, todayStart)
    ensures r.Some? ==> forall e :: e in events && !Before(e.date, todayStart) ==> !Before(e.date, r.value)
    ensures r.None? ==> forall e :: e in events ==> Before(e.date, todayStart)
  {
    if events == [] then None
    else
      var rest := EarliestUpcoming(events[1..], todayStart);
      var e := events[0];
      assert events == [e] + events[1..];
      if Before(e.date, todayStart) then rest
      else if rest.None? || Before(e.date, rest.value) then Some(e.date)
      else rest
  }

  /**
   * The display month chosen once the events have loaded: the date of the
   * earliest event on or after today when there is one, otherwise the
   * display month is left as it was.
   */
  function InitialDisplayMonth(events: seq<Event>, todayStart: Instant, current: Instant): (r: Instant)
    ensures (exists e :: e in events && !Before(e.date, todayStart)) ==>
      (exists e :: e in events && e.date == r) && !Before(r, todayStart) &&
      forall e :: e in events && !Before(e.date, todayStart) ==> !Before(e.date, r)
    ensures (forall e :: e in events ==> Before(e.date, todayStart)) ==> r == current
  {
    if |events| > 0 then
      match EarliestUpcoming(events, todayStart)
      case Some(d) => d
      case None => current
    else current
  }

  /** `goToCurrentMonth`: as above, but falling back to today instead of keeping the display month. */
  function GoToCurrentMonth(events: seq<Event>, todayStart: Instant): (r: Instant)
    ensures (exists e :: e in events && !Before(e.date, todayStart)) ==>
      (exists e :: e in events && e.date == r) &&
      forall e :: e in events && !Before(e.date, todayStart) ==> !Before(e.date, r)
    ensures (forall e :: e in events ==> Before(e.date, todayStart)) ==> r == todayStart
    ensures !Before(r, todayStart)
  {
    match EarliestUpcoming(events, todayStart)
    case Some(d) => d
    case None => todayStart
  }

  /** The event the display month jumps to is never shown as past. */
  lemma InitialMonthEventNotPast(events: seq<Event>, todayStart: Instant, current: Instant)
    requires exists e :: e in events && !Before(e.date, todayStart)
    ensures !IsEventPast(InitialDisplayMonth(events, todayStart, current), todayStart)
  {
  }

  /** All categories attached to the events, in order of appearance. */
  function AllCategories(events: seq<Event>): seq<Category> {
    if events == [] then []
    else
      var last := events[|events| - 1];
      AllCategories(events[..|events| - 1]) + (if last.categories.Some? then last.categories.value else [])
  }

  function HasCategoryId(cats: seq<Category>, id: int): (r: bool)
    ensures r <==> exists c :: c in cats && c.id == id
  {
    if cats == [] then false
    else cats[0].id == id || HasCategoryId(cats[1..], id)
  }

  /** An id occurs in a concatenation exactly when it occurs in one of the parts. */
  lemma HasCategoryIdAppend(a: seq<Category>, b: seq<Category>, id: int)
    ensures HasCategoryId(a + b, id) <==> HasCategoryId(a, id) || HasCategoryId(b, id)
  {
    if HasCategoryId(a, id) {
      var c :| c in a && c.id == id;
      assert c in a + b;
    }
    if HasCategoryId(b, id) {
      var c :| c in b && c.id == id;
      assert c in a + b;
    }
  }

  /**
   * The categories of `cats` that are the first of their id, leaving out
   * every id already held by `seen`: `cats[i]` is kept exactly when its id
   * occurs neither in `seen` nor in `cats[..i]`.
   */
  ghost function NewPerId(seen: seq<Category>, cats: seq<Category>): seq<Category>
    decreases |cats|
  {
    if cats == [] then []
    else
      var init := cats[..|cats| - 1];
      var last := cats[|cats| - 1];
      NewPerId(seen, init) + (if HasCategoryId(seen + init, last.id) then [] else [last])
  }

  /** The first category of each id, in order of first appearance. */
  ghost function FirstPerId(cats: seq<Category>): seq<Category> {
    NewPerId([], cats)
  }

  /** Taking first-per-id over `a + b` takes it over `a`, then over `b` past everything in `a`. */
  lemma {:induction false} NewPerIdAppend(seen: seq<Category>, a: seq<Category>, b: seq<Category>)
    ensures NewPerId(seen, a + b) == NewPerId(seen, a) + NewPerId(seen + a, b)
    decreases |b|
  {
    if b == [] {
      assert a + b == a;
    } else {
      var init := b[..|b| - 1];
      var last := b[|b| - 1];
      assert (a + b)[..|a + b| - 1] == a + init;
      assert (a + b)[|a + b| - 1] == last;
      NewPerIdAppend(seen, a, init);
      ConcatAssoc(seen, a, init);
      ConcatAssoc(NewPerId(seen, a), NewPerId(seen + a, init),
        if HasCategoryId(seen + a + init, last.id) then [] else [last]);
    }
  }

  /** Only the ids held by `seen` matter, not which categories carry them. */
  lemma {:induction false} NewPerIdSameIds(s1: seq<Category>, s2: seq<Category>, cats: seq<Category>)
    requires forall id :: HasCategoryId(s1, id) <==> HasCategoryId(s2, id)
    ensures NewPerId(s1, cats) == NewPerId(s2, cats)
    decreases |cats|
  {
    if cats != [] {
      var init := cats[..|cats| - 1];
      var id := cats[|cats| - 1].id;
      NewPerIdSameIds(s1, s2, init);
      HasCategoryIdAppend(s1, init, id);
      HasCategoryIdAppend(s2, init, id);
    }
  }

  /** One more category of `cats` looked at: it is kept unless its id is already held. */
  lemma NewPerIdStep(seen: seq<Category>, cats: seq<Category>, j: nat)
    requires j < |cats|
    ensures NewPerId(seen, cats[..j + 1]) ==
      NewPerId(seen, cats[..j]) + (if HasCategoryId(seen + cats[..j], cats[j].id) then [] else [cats[j]])
  {
    assert cats[..j + 1][..j] == cats[..j];
  }

  /** First-per-id keeps exactly the ids it looked at. */
  lemma {:induction false} NewPerIdIds(seen: seq<Category>, cats: seq<Category>)
    ensures forall id :: HasCategoryId(seen + NewPerId(seen, cats), id) <==> HasCategoryId(seen + cats, id)
    decreases |cats|
  {
    if cats == [] {
      assert seen + [] == seen;
    } else {
      var init := cats[..|cats| - 1];
      var last := cats[|cats| - 1];
      var kept := NewPerId(seen, init);
      var tail := if HasCategoryId(seen + init, last.id) then [] else [last];
      NewPerIdIds(seen, init);
      ConcatAssoc(seen, kept, tail);
      assert cats == init + [last];
      ConcatAssoc(seen, init, [last]);
      forall id ensures HasCategoryId(seen + NewPerId(seen, cats), id) <==> HasCategoryId(seen + cats, id) {
        HasCategoryIdAppend(seen + kept, tail, id);
        HasCategoryIdAppend(seen + init, [last], id);
        assert HasCategoryId([last], id) <==> last.id == id by {
          assert last in [last];
        }
      }
    }
  }

  /** First-per-id keeps some of the categories it looked at, and no others. */
  lemma {:induction false} NewPerIdMembers(seen: seq<Category>, cats: seq<Category>)
    ensures forall c :: c in NewPerId(seen, cats) ==> c in cats
    ensures |NewPerId(seen, cats)| <= |cats|
    decreases |cats|
  {
    if cats != [] {
      var init := cats[..|cats| - 1];
      NewPerIdMembers(seen, init);
      assert cats == init + [cats[|cats| - 1]];
    }
  }

  /** First-per-id never repeats an id, nor one already held. */
  lemma {:induction false} NewPerIdDistinct(seen: seq<Category>, cats: seq<Category>)
    requires DistinctIds(seen)
    ensures DistinctIds(seen + NewPerId(seen, cats))
    decreases |cats|
  {
    if cats != [] {
      var init := cats[..|cats| - 1];
      var last := cats[|cats| - 1];
      var kept := NewPerId(seen, init);
      NewPerIdDistinct(seen, init);
      if !HasCategoryId(seen + init, last.id) {
        NewPerIdIds(seen, init);
        assert !HasCategoryId(seen + kept, last.id);
        ConcatAssoc(seen, kept, [last]);
        DistinctIdsAppend(seen + kept, last);
        assert NewPerId(seen, cats) == kept + [last];
      } else {
        assert NewPerId(seen, cats) == kept;
      }
    }
  }

  /** A category whose id is new can be appended. */
  lemma DistinctIdsAppend(cats: seq<Category>, c: Category)
    requires DistinctIds(cats) && !HasCategoryId(cats, c.id)
    ensures DistinctIds(cats + [c])
  {
    forall i, j | 0 <= i < j < |cats| + 1 ensures (cats + [c])[i].id != (cats + [c])[j].id {
      if j == |cats| {
        assert cats[i] in cats;
      }
    }
  }

  /** No two categories in `cats` share an id. */
  ghost predicate DistinctIds(cats: seq<Category>) {
    forall i, j :: 0 <= i < j < |cats| ==> cats[i].id != cats[j].id
  }

  /** Append to `unique` each category of `cats` whose id it does not hold yet. */
  method AddNewCategories(unique: seq<Category>, cats: seq<Category>) returns (r: seq<Category>)
    requires DistinctIds(unique)
    ensures DistinctIds(r)
    ensures unique <= r && |r| <= |unique| + |cats|
    ensures forall c :: c in r ==> c in unique || c in cats
    ensures forall c :: c in cats ==> HasCategoryId(r, c.id)
    ensures r == unique + NewPerId(unique, cats)
    ensures forall id :: HasCategoryId(r, id) <==> HasCategoryId(unique + cats, id)
  {
    r := unique;
    assert cats[..0] == [] && unique + [] == unique;
    for j := 0 to |cats|
      invariant r == unique + NewPerId(unique, cats[..j])
    {
      var cat := cats[j];
      NewPerIdStep(unique, cats, j);
      NewPerIdIds(unique, cats[..j]);
      if !HasCategoryId(r, cat.id) {
        ConcatAssoc(unique, NewPerId(unique, cats[..j]), [cat]);
        r := r + [cat];
      }
    }
    assert cats[..|cats|] == cats;
    NewPerIdIds(unique, cats);
    NewPerIdMembers(unique, cats);
    NewPerIdDistinct(unique, cats);
    forall c | c in cats ensures HasCategoryId(r, c.id) {
      assert c in unique + cats;
    }
  }

  /**
   * The fallback of `fetchCategories`: the categories of the given events,
   * one per id, in order of first appearance.
   */
  method DedupeCategories(events: seq<Event>) returns (unique: seq<Category>)
    ensures DistinctIds(unique) && |unique| <= |AllCategories(events)|
    ensures forall c :: c in unique ==> c in AllCategories(events)
    ensures forall c :: c in AllCategories(events) ==> HasCategoryId(unique, c.id)
    ensures unique == FirstPerId(AllCategories(events))
  {
    unique := [];
    for i := 0 to |events|
      invariant DistinctIds(unique) && |unique| <= |AllCategories(events[..i])|
      invariant forall c :: c in unique ==> c in AllCategories(events[..i])
      invariant forall c :: c in AllCategories(events[..i]) ==> HasCategoryId(unique, c.id)
      invariant unique == FirstPerId(AllCategories(events[..i]))
      invariant forall id :: HasCategoryId(unique, id) <==> HasCategoryId(AllCategories(events[..i]), id)
    {
      assert events[..i + 1][..i] == events[..i];
      ghost var before := AllCategories(events[..i]);
      var cats: seq<Category> := if events[i].categories.Some? then events[i].categories.value else [];
      assert AllCategories(events[..i + 1]) == before + cats;
      ghost var old_unique := unique;
      unique := AddNewCategories(unique, cats);
      NewPerIdSameIds(old_unique, before, cats);
      NewPerIdAppend([], before, cats);
      assert [] + before == before;
      forall id ensures HasCategoryId(unique, id) <==> HasCategoryId(before + cats, id) {
        HasCategoryIdAppend(old_unique, cats, id);
        HasCategoryIdAppend(before, cats, id);
      }
      forall c: Category | c in before + cats ensures HasCategoryId(unique, c.id) {
        if c in before {
          assert HasCategoryId(old_unique, c.id);
          var u :| u in old_unique && u.id == c.id;
          assert u in unique;
        }
      }
    }
    assert events[..|events|] == events;
  }

  /** The events array as it is when the mount effect runs: still the initial `[]`. */
  const EventsAtMount: seq<Event> := []

  /**
   * The fallback AS WRITTEN: `fetchCategories` is called from the mount
   * effect, so its `events.forEach` reads the `events` of the first render,
   * whatever the events request later returns.
   */
  method FallbackCategoriesAsWritten(loaded: seq<Event>) returns (cats: seq<Category>)
    ensures cats == []
    ensures forall c :: c in AllCategories(loaded) ==> !HasCategoryId(cats, c.id)
  {
    cats := DedupeCategories(EventsAtMount);
    assert AllCategories(EventsAtMount) == [];
  }

  /** The fallback as intended: the categories of the loaded events, one per id. */
  method FallbackCategories(loaded: seq<Event>) returns (cats: seq<Category>)
    ensures DistinctIds(cats)
    ensures forall c :: c in cats ==> c in AllCategories(loaded)
    ensures forall c :: c in AllCategories(loaded) ==> HasCategoryId(cats, c.id)
    ensures cats == FirstPerId(AllCategories(loaded))
  {
    cats := DedupeCategories(loaded);
  }
}
