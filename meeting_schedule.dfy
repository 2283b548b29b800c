/**
 * The meeting-type page: the meetings of one type are sorted newest first
 * and split into the "next" meeting, the historic meetings and the six most
 * recent ones. Dates are day numbers; "today" is a parameter.
 */
module MeetingSchedule {
  import opened Wrappers
  import opened Text
  import opened Seqs

  /** A meeting, reduced to what the partition looks at: an id and its day number. */
  datatype Meeting = Meeting(id: int, day: int)

  /** The `meetings` property of the API response: absent, not an array, or a list. */
  datatype MeetingsField = Absent | NotAnArray | List(items: seq<Meeting>)

  /** How many past meetings the "recent" list shows. */
  const RecentLimit: nat := 6

  /** The calendar entry assumes a two-hour meeting. */
  const MeetingDurationMs: int := 2 * 60 * 60 * 1000

  /** `responseData.meetings || []`, then `[]` again unless it is an array. */
  function MeetingList(field: MeetingsField): (r: seq<Meeting>)
    ensures !field.List? ==> r == []
    ensures field.List? ==> r == field.items
  {
    match field
    case List(items) => items
    case _ => []
  }

  /** The sort key giving newest-first order (the comparator `dateB - dateA`). */
  function NewestFirstKey(m: Meeting): int {
    -m.day
  }

  ghost predicate NewestFirst(s: seq<Meeting>) {
    forall i, j :: 0 <= i < j < |s| ==> s[i].day >= s[j].day
  }

  lemma SortedIsNewestFirst(s: seq<Meeting>)
    requires SortedByKey(s, NewestFirstKey)
    ensures NewestFirst(s)
  {
    forall i, j | 0 <= i < j < |s| ensures s[i].day >= s[j].day {
      assert NewestFirstKey(s[i]) <= NewestFirstKey(s[j]);
    }
  }

  function IsPast(today: int): Meeting -> bool {
    (m: Meeting) => m.day < today
  }

  /** The meetings dated strictly before today, in their given order. */
  function Past(s: seq<Meeting>, today: int): seq<Meeting> {
    Filter(s, IsPast(today))
  }

  /** `historic` holds exactly the meetings dated before today, in their sorted order. */
  lemma PastMembers(s: seq<Meeting>, today: int)
    ensures forall m :: m in Past(s, today) ==> m in s && m.day < today
    ensures forall m :: m in s && m.day < today ==> m in Past(s, today)
    ensures SubseqOf(Past(s, today), s)
  {
    var r := Filter(s, IsPast(today));
    assert forall m :: m in r ==> m in s && IsPast(today)(m);
  }

  /** The first meeting in `s` dated today or later. */
  function FirstUpcoming(s: seq<Meeting>, today: int): (r: Option<Meeting>)
    ensures r.Some? ==> r.value in s && r.value.day >= today
  {
    if s == [] then None
    else if s[0].day >= today then Some(s[0])
    else
      assert s == [s[0]] + s[1..];
      FirstUpcoming(s[1..], today)
  }

  /** There is no `next` meeting exactly when every meeting is in the past. */
  lemma {:induction false} FirstUpcomingNone(s: seq<Meeting>, today: int)
    ensures FirstUpcoming(s, today).None? <==> forall m :: m in s ==> m.day < today
  {
    if s != [] {
      FirstUpcomingNone(s[1..], today);
      assert s == [s[0]] + s[1..];
    }
  }

  lemma {:induction false} FirstUpcomingAppend(s: seq<Meeting>, m: Meeting, today: int)
    ensures FirstUpcoming(s + [m], today) ==
      if FirstUpcoming(s, today).Some? then FirstUpcoming(s, today)
      else if m.day >= today then Some(m) else None
  {
    if s != [] {
      assert (s + [m])[1..] == s[1..] + [m];
      FirstUpcomingAppend(s[1..], m, today);
    } else {
      assert [] + [m] == [m];
    }
  }

  /** In newest-first order, the first upcoming meeting is the LATEST upcoming one, not the soonest. */
  lemma FirstUpcomingIsLatest(s: seq<Meeting>, today: int)
    requires NewestFirst(s)
    requires FirstUpcoming(s, today).Some?
    ensures forall m :: m in s && m.day >= today ==> m.day <= FirstUpcoming(s, today).value.day
  {
    forall m | m in s ensures m.day <= s[0].day {
      var k :| 0 <= k < |s| && s[k] == m;
    }
  }

  /**
   * Because the list is newest first, the meeting the loop takes as `next`
   * is the latest upcoming one: with meetings on days 20 and 10 and today
   * day 0, `next` is the day-20 meeting although the day-10 one comes first.
   */
  lemma NextIsNotSoonest()
    ensures var s := [Meeting(1, 20), Meeting(2, 10)];
      && NewestFirst(s)
      && FirstUpcoming(s, 0) == Some(Meeting(1, 20))
      && Meeting(2, 10) in s && Meeting(2, 10).day >= 0
      && Meeting(2, 10).day < FirstUpcoming(s, 0).value.day
  {
    var s := [Meeting(1, 20), Meeting(2, 10)];
    assert s[1..] == [Meeting(2, 10)];
  }

  /** The intended "next meeting": the upcoming meeting with the earliest day. */
  function SoonestUpcoming(s: seq<Meeting>, today: int): (r: Option<Meeting>)
    ensures r.Some? ==> r.value in s && r.value.day >= today
    ensures r.Some? ==> forall m :: m in s && m.day >= today ==> r.value.day <= m.day
    ensures r.None? <==> forall m :: m in s ==> m.day < today
  {
    if s == [] then None
    else
      assert s == [s[0]] + s[1..];
      var rest := SoonestUpcoming(s[1..], today);
      if s[0].day < today then rest
      else if rest.Some? && rest.value.day < s[0].day then rest
      else Some(s[0])
  }

  /** With at most one upcoming meeting the loop's choice is the soonest one. */
  lemma NextIsSoonestWhenUnique(s: seq<Meeting>, today: int)
    requires forall i, j :: 0 <= i < j < |s| && s[i].day >= today ==> s[j].day < today
    ensures FirstUpcoming(s, today) == SoonestUpcoming(s, today)
  {
    if s != [] {
      assert s == [s[0]] + s[1..];
      NextIsSoonestWhenUnique(s[1..], today);
      if s[0].day >= today {
        assert SoonestUpcoming(s[1..], today).None? by {
          forall m | m in s[1..] ensures m.day < today {
            var k :| 0 <= k < |s[1..]| && s[1..][k] == m;
            assert s[k + 1] == m;
          }
        }
      }
    }
  }

  /** What one more meeting does to the partition of a prefix. */
  lemma PartitionStep(prefix: seq<Meeting>, m: Meeting, today: int)
    ensures FirstUpcoming(prefix + [m], today) ==
      if FirstUpcoming(prefix, today).Some? then FirstUpcoming(prefix, today)
      else if m.day >= today then Some(m) else None
    ensures Past(prefix + [m], today) == Past(prefix, today) + if m.day < today then [m] else []
  {
    FirstUpcomingAppend(prefix, m, today);
    FilterAppend(prefix, [m], IsPast(today));
    assert Filter([m], IsPast(today)) == if m.day < today then [m] else [];
  }

  lemma TakeAppend(s: seq<Meeting>, m: Meeting, n: nat)
    ensures Take(s + [m], n) == if |s| < n then Take(s, n) + [m] else Take(s, n)
  {
    if |s| >= n {
      assert (s + [m])[..n] == s[..n];
    }
  }

  /**
   * The loop of `fetchMeetingData` over the sorted meetings: the first
   * upcoming meeting becomes `next`, every past meeting is pushed onto
   * `historic` and, while fewer than six, onto `recent`; later upcoming
   * meetings are dropped.
   */
  method Partition(sorted: seq<Meeting>, today: int)
    returns (next: Option<Meeting>, historic: seq<Meeting>, recent: seq<Meeting>)
    ensures next == FirstUpcoming(sorted, today)
    ensures historic == Past(sorted, today)
    ensures recent == Take(historic, RecentLimit)
  {
    next := None;
    historic := [];
    recent := [];
    ghost var done: seq<Meeting> := [];
    for i := 0 to |sorted|
      invariant done == sorted[..i]
      invariant next == FirstUpcoming(done, today)
      invariant historic == Past(done, today)
      invariant recent == Take(historic, RecentLimit)
    {
      var meeting := sorted[i];
      assert sorted[..i + 1] == done + [meeting];
      PartitionStep(done, meeting, today);
      TakeAppend(historic, meeting, RecentLimit);
      if meeting.day >= today && next.None? {
        next := Some(meeting);
      } else if meeting.day < today {
        historic := historic + [meeting];
        if |recent| < RecentLimit {
          recent := recent + [meeting];
        }
      }
      done := sorted[..i + 1];
    }
    assert sorted[..|sorted|] == sorted;
  }

  /**
   * `fetchMeetingData` after the response has arrived: normalise the
   * `meetings` field, sort newest first in place, then partition.
   */
  method FetchMeetingData(field: MeetingsField, today: int)
    returns (next: Option<Meeting>, recent: seq<Meeting>, historic: seq<Meeting>)
    ensures var all := MeetingList(field);
      && (next.Some? <==> exists m :: m in all && m.day >= today)
      && (next.Some? ==> next.value in all && next.value.day >= today)
      && (next.Some? ==> forall m :: m in all && m.day >= today ==> m.day <= next.value.day)
      && multiset(historic) == multiset(Past(all, today))
      && NewestFirst(historic)
      && recent == Take(historic, RecentLimit)
  {
    var all := MeetingList(field);
    var a := new Meeting[|all|](i requires 0 <= i < |all| => all[i]);
    assert a[..] == all;
    SortByKey(a, NewestFirstKey);
    var sorted := a[..];
    SortedIsNewestFirst(sorted);
    next, historic, recent := Partition(sorted, today);
    FilterPermutation(sorted, all, IsPast(today));
    assert forall m :: m in sorted <==> m in all by {
      forall m ensures m in sorted <==> m in all {
        assert m in sorted <==> multiset(sorted)[m] > 0;
        assert m in all <==> multiset(all)[m] > 0;
      }
    }
    FirstUpcomingNone(sorted, today);
    if next.Some? {
      FirstUpcomingIsLatest(sorted, today);
    }
    PastMembers(sorted, today);
    SubseqNewestFirst(historic, sorted);
  }

  lemma {:induction false} SubseqNewestFirst(a: seq<Meeting>, b: seq<Meeting>)
    requires SubseqOf(a, b) && NewestFirst(b)
    ensures NewestFirst(a)
    decreases |b|
  {
    if a != [] {
      if a[0] == b[0] && SubseqOf(a[1..], b[1..]) {
        SubseqNewestFirst(a[1..], b[1..]);
        SubseqMembers(a[1..], b[1..]);
        forall j | 0 < j < |a| ensures a[0].day >= a[j].day {
          assert a[j] in a[1..];
          var k :| 0 <= k < |b[1..]| && b[1..][k] == a[j];
          assert b[k + 1] == a[j];
        }
      } else {
        SubseqNewestFirst(a, b[1..]);
      }
    }
  }

  /** A meeting counts as past only when it is not upcoming; upcoming ones other than `next` are in neither list. */
  lemma UpcomingNotHistoric(all: seq<Meeting>, today: int, m: Meeting)
    requires m in all && m.day >= today
    ensures m !in Past(all, today)
  {
    PastMembers(all, today);
  }

  /** `getButtonText`: "DOWNLOAD" exactly when a document URL is present. */
  function ButtonText(fileUrl: Option<string>): (r: string)
    ensures r == "DOWNLOAD" <==> Truthy(fileUrl)
    ensures r == "AVAILABLE SOON" <==> !Truthy(fileUrl)
  {
    if Truthy(fileUrl) then "DOWNLOAD" else "AVAILABLE SOON"
  }

  /** `getSummaryButtonText`: "OPEN SUMMARY PAGE" exactly when a summary URL is present. */
  function SummaryButtonText(summaryUrl: Option<string>): (r: string)
    ensures r == "OPEN SUMMARY PAGE" <==> Truthy(summaryUrl)
    ensures r == "AVAILABLE SOON" <==> !Truthy(summaryUrl)
  {
    if Truthy(summaryUrl) then "OPEN SUMMARY PAGE" else "AVAILABLE SOON"
  }

  /** Milliseconds since the epoch of `hours:minutes` on day `day` (local time, no DST). */
  function StartMs(day: int, hours: int, minutes: int): int {
    ((day * 24 + hours) * 60 + minutes) * 60 * 1000
  }

  /** `handleAddToCalendar`: the calendar entry ends two hours after it starts. */
  function CalendarEnd(start: int): (end: int)
    ensures end - start == MeetingDurationMs
  {
    start + MeetingDurationMs
  }

  /** On the clock face, the end is the same minute two hours later (same day when it starts before 22:00). */
  lemma CalendarEndOnClock(day: int, hours: int, minutes: int)
    ensures CalendarEnd(StartMs(day, hours, minutes)) == StartMs(day, hours + 2, minutes)
  {
  }
}
