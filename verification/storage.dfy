/** `MemStorage`: the in-memory store. Its four fields are the team
    directory, the booking ledger, the final schedule and the shared id
    counter; every method is proved to perform the transition `Engine`
    describes, so the lemmas there apply to the running store. */
module Storage {
  import opened Schema
  import opened Calendar
  import opened Directory
  import opened Ledger
  import opened Resolver
  import opened Invariants
  import opened Engine

  /** A call that may throw: its value, or the message of the error. */
  datatype Result<T> = Ok(value: T) | Err(message: string)

  const BookingNotFoundMessage := "Booking not found"

  /** The members `initializeTeamMembers` creates, in order. */
  const DefaultMembers: seq<InsertTeamMember> := [
    InsertTeamMember("Shrishti", 1, "purple", Some(true), "SHRISHTI_2025_SECURE"),
    InsertTeamMember("Aakash", 2, "blue", Some(true), "AAKASH_2025_SECURE"),
    InsertTeamMember("Ashish", 3, "green", Some(true), "ASHISH_2025_SECURE"),
    InsertTeamMember("Sahil", 4, "yellow", Some(true), "SAHIL_2025_SECURE")
  ]

  /** The record `createTeamMember` stores: the fields given, the next id,
      and `isActive` defaulting to true. */
  function NewMember(m: InsertTeamMember, id: int): TeamMember {
    TeamMember(id, m.name, m.priority, m.color, if m.isActive.Some? then m.isActive.value else true, m.accessKey)
  }

  /** The directory after the first `k` default members were created. */
  function Seeded(k: nat): (r: seq<TeamMember>)
    requires k <= |DefaultMembers|
    ensures |r| == k
    ensures forall i :: 0 <= i < k ==> r[i] == NewMember(DefaultMembers[i], i + 1)
  {
    if k == 0 then [] else Seeded(k - 1) + [NewMember(DefaultMembers[k - 1], k)]
  }

  /** The ledger while `resolveConflicts` walks the month's dates: the
      month's bookings on the dates in `done` carry their resolved flags. */
  function PartlyResolved(team: seq<TeamMember>, bs: seq<Booking>, month: string, done: seq<string>): (r: seq<Booking>)
    ensures |r| == |bs|
    ensures SameKeys(r, bs)
  {
    var mb := MonthBookings(bs, month);
    seq(|bs|, i requires 0 <= i < |bs| => if bs[i].month == month && bs[i].date in done then Resolve1(team, mb, bs[i]) else bs[i])
  }

  /** The ledger while one date is being settled: besides the dates in
      `done`, the first `n` bookings of the date's sorted group carry their
      resolved flags. */
  ghost function Settling(team: seq<TeamMember>, bs: seq<Booking>, month: string, done: seq<string>,
                          date: string, n: nat): (r: seq<Booking>)
    ensures |r| == |bs|
  {
    var mb := MonthBookings(bs, month);
    var sorted := SortGroup(team, OnDate(mb, date));
    var p := PartlyResolved(team, bs, month, done);
    var first := if n <= |sorted| then sorted[..n] else sorted;
    seq(|bs|, i requires 0 <= i < |bs| => if bs[i] in first then Resolve1(team, mb, bs[i]) else p[i])
  }

  lemma SettlingStart(team: seq<TeamMember>, bs: seq<Booking>, month: string, done: seq<string>, date: string)
    ensures Settling(team, bs, month, done, date, 0) == PartlyResolved(team, bs, month, done)
  {
  }

  /** Updating the `n`-th booking of the sorted group (the winner when `n`
      is 0, a loser otherwise) settles one more booking. */
  lemma SettlingStep(team: seq<TeamMember>, bs: seq<Booking>, month: string, done: seq<string>, date: string, n: nat)
    requires IdsAscending(bs)
    requires n < |OnDate(MonthBookings(bs, month), date)|
    ensures var sorted := SortGroup(team, OnDate(MonthBookings(bs, month), date));
            SetFlags(Settling(team, bs, month, done, date, n), sorted[n].id, n == 0, n != 0)
              == Settling(team, bs, month, done, date, n + 1)
  {
    var mb := MonthBookings(bs, month);
    var g := OnDate(mb, date);
    var sorted := SortGroup(team, g);
    var before := Settling(team, bs, month, done, date, n);
    var after := Settling(team, bs, month, done, date, n + 1);
    var x := sorted[n];
    GroupMember(team, bs, month, date, n);
    WinnerFlag(team, bs, month, date, n);
    PrefixStep(sorted, n);
    forall i | 0 <= i < |bs| ensures SetFlags(before, x.id, n == 0, n != 0)[i] == after[i] {
      SettlingKey(team, bs, month, done, date, n, i);
      if bs[i].id == x.id {
        IdIdentifies(bs, bs[i], x);
      }
    }
  }

  lemma PrefixStep(s: seq<Booking>, n: nat)
    requires n < |s|
    ensures forall y :: y in s[..n + 1] <==> y in s[..n] || y == s[n]
  {
    assert s[..n + 1] == s[..n] + [s[n]];
  }

  /** The `n`-th booking of a sorted group is a booking of the ledger on
      that date and month. */
  lemma GroupMember(team: seq<TeamMember>, bs: seq<Booking>, month: string, date: string, n: nat)
    requires n < |OnDate(MonthBookings(bs, month), date)|
    ensures var x := SortGroup(team, OnDate(MonthBookings(bs, month), date))[n];
            x in bs && x.month == month && x.date == date
  {
    var mb := MonthBookings(bs, month);
    var g := OnDate(mb, date);
    MonthBookingsMembers(bs, month);
    OnDateMembers(mb, date);
    assert SortGroup(team, g)[n] in multiset(g);
  }

  /** The `n`-th booking of a sorted group resolves to winning exactly when
      `n` is 0. */
  lemma WinnerFlag(team: seq<TeamMember>, bs: seq<Booking>, month: string, date: string, n: nat)
    requires IdsAscending(bs)
    requires n < |OnDate(MonthBookings(bs, month), date)|
    ensures var mb := MonthBookings(bs, month);
            var x := SortGroup(team, OnDate(mb, date))[n];
            Resolve1(team, mb, x) == x.(isConfirmed := n == 0, isConflicted := n != 0)
  {
    var mb := MonthBookings(bs, month);
    var g := OnDate(mb, date);
    GroupMember(team, bs, month, date, n);
    MonthBookingsAscending(bs, month);
    OnDateAscending(mb, date);
    SortGroupIdsDistinct(team, g);
  }

  /** Settling changes flags only. */
  lemma SettlingKey(team: seq<TeamMember>, bs: seq<Booking>, month: string, done: seq<string>, date: string, n: nat, i: int)
    requires 0 <= i < |bs|
    ensures SameKey(Settling(team, bs, month, done, date, n)[i], bs[i])
  {
    assert SameKey(PartlyResolved(team, bs, month, done)[i], bs[i]);
  }

  /** Once the whole sorted group is updated, the date is settled. */
  lemma SettlingDone(team: seq<TeamMember>, bs: seq<Booking>, month: string, done: seq<string>, date: string)
    ensures Settling(team, bs, month, done, date, |OnDate(MonthBookings(bs, month), date)|)
              == PartlyResolved(team, bs, month, done + [date])
  {
    var n := |OnDate(MonthBookings(bs, month), date)|;
    forall i | 0 <= i < |bs|
      ensures Settling(team, bs, month, done, date, n)[i] == PartlyResolved(team, bs, month, done + [date])[i]
    {
      SettlingDoneAt(team, bs, month, done, date, i);
    }
  }

  lemma SettlingDoneAt(team: seq<TeamMember>, bs: seq<Booking>, month: string, done: seq<string>, date: string, i: int)
    requires 0 <= i < |bs|
    ensures Settling(team, bs, month, done, date, |OnDate(MonthBookings(bs, month), date)|)[i]
              == PartlyResolved(team, bs, month, done + [date])[i]
  {
    var g := OnDate(MonthBookings(bs, month), date);
    var sorted := SortGroup(team, g);
    assert sorted[..|g|] == sorted;
    assert bs[i].date in done + [date] <==> bs[i].date in done || bs[i].date == date;
    InSortedGroup(team, bs, month, date, bs[i]);
  }

  /** A booking is in its date's sorted group exactly when it is a booking
      of that date and month. */
  lemma InSortedGroup(team: seq<TeamMember>, bs: seq<Booking>, month: string, date: string, b: Booking)
    requires b in bs
    ensures b in SortGroup(team, OnDate(MonthBookings(bs, month), date)) <==> b.month == month && b.date == date
  {
    var mb := MonthBookings(bs, month);
    var g := OnDate(mb, date);
    MonthBookingsMembers(bs, month);
    OnDateMembers(mb, date);
    assert b in SortGroup(team, g) <==> b in multiset(g);
  }

  /** Settling every date of the month is resolving the month. */
  lemma PartlyResolvedAll(team: seq<TeamMember>, bs: seq<Booking>, month: string)
    ensures PartlyResolved(team, bs, month, Dates(MonthBookings(bs, month))) == ResolvedBookings(team, bs, month)
  {
    MonthBookingsMembers(bs, month);
    forall i | 0 <= i < |bs| && bs[i].month == month ensures bs[i].date in Dates(MonthBookings(bs, month)) {
      assert bs[i] in MonthBookings(bs, month);
      DatesMember(MonthBookings(bs, month), bs[i].date);
    }
  }

  /** The grouping loop of `resolveConflicts`: each date of the month's
      bookings, in order of first appearance, with its bookings in ledger
      order. */
  method GroupByDate(monthBookings: seq<Booking>) returns (bookingsByDate: map<string, seq<Booking>>, dates: seq<string>)
    ensures dates == Dates(monthBookings)
    ensures forall d :: d in bookingsByDate <==> d in dates
    ensures forall d :: d in bookingsByDate ==> bookingsByDate[d] == OnDate(monthBookings, d)
  {
    bookingsByDate := map[];
    dates := [];
    var i := 0;
    while i < |monthBookings|
      invariant 0 <= i <= |monthBookings|
      invariant dates == Dates(monthBookings[..i])
      invariant Grouped(monthBookings[..i], bookingsByDate, dates)
    {
      var booking := monthBookings[i];
      ghost var byDate0, dates0 := bookingsByDate, dates;
      if booking.date !in bookingsByDate {
        bookingsByDate := bookingsByDate[booking.date := []];
        dates := dates + [booking.date];
      }
      bookingsByDate := bookingsByDate[booking.date := bookingsByDate[booking.date] + [booking]];
      GroupStep(monthBookings, i, byDate0, dates0, bookingsByDate, dates);
      i := i + 1;
    }
    assert monthBookings[..i] == monthBookings;
  }

  /** `byDate` and `dates` group `seen` by date. */
  ghost predicate Grouped(seen: seq<Booking>, byDate: map<string, seq<Booking>>, dates: seq<string>) {
    && (forall d :: d in byDate <==> d in dates)
    && (forall d :: d in byDate ==> byDate[d] == OnDate(seen, d))
  }

  /** One more booking seen by the grouping loop. */
  lemma GroupStep(bs: seq<Booking>, i: nat, byDate: map<string, seq<Booking>>, dates: seq<string>,
                  byDate1: map<string, seq<Booking>>, dates1: seq<string>)
    requires i < |bs| && Grouped(bs[..i], byDate, dates) && dates == Dates(bs[..i])
    requires var x := bs[i];
             x.date !in byDate ==> var m := byDate[x.date := []];
               dates1 == dates + [x.date] && byDate1 == m[x.date := m[x.date] + [x]]
    requires var x := bs[i];
             x.date in byDate ==> dates1 == dates && byDate1 == byDate[x.date := byDate[x.date] + [x]]
    ensures Grouped(bs[..i + 1], byDate1, dates1) && dates1 == Dates(bs[..i + 1])
  {
    var seen, x := bs[..i], bs[i];
    assert bs[..i + 1] == seen + [x];
    if x.date !in byDate {
      GroupedNew(seen, x, byDate, dates);
      DatesNew(seen, x, dates);
    } else {
      GroupedOld(seen, x, byDate, dates);
      DatesKept(seen, x, dates);
    }
  }

  /** One more booking seen by the grouping loop, for a date already seen. */
  lemma GroupedOld(seen: seq<Booking>, x: Booking, byDate: map<string, seq<Booking>>, dates: seq<string>)
    requires Grouped(seen, byDate, dates) && x.date in byDate
    ensures Grouped(seen + [x], byDate[x.date := byDate[x.date] + [x]], dates)
  {
    GroupEntries(seen, x, byDate);
    GroupKeys(byDate, dates, x.date, byDate[x.date] + [x]);
  }

  /** One more booking seen by the grouping loop, for a new date. */
  lemma GroupedNew(seen: seq<Booking>, x: Booking, byDate: map<string, seq<Booking>>, dates: seq<string>)
    requires Grouped(seen, byDate, dates) && dates == Dates(seen) && x.date !in byDate
    ensures var m1 := byDate[x.date := []];
            Grouped(seen + [x], m1[x.date := m1[x.date] + [x]], dates + [x.date])
  {
    NoBookingsOnDate(seen, x.date);
    var m1 := byDate[x.date := []];
    assert forall d :: d in m1 <==> d in dates + [x.date];
    GroupEntries(seen, x, m1);
    GroupKeys(m1, dates + [x.date], x.date, m1[x.date] + [x]);
  }

  lemma DatesKept(seen: seq<Booking>, x: Booking, dates: seq<string>)
    requires dates == Dates(seen) && x.date in dates
    ensures Dates(seen + [x]) == dates
  {
    DatesAppend(seen, x);
  }

  lemma DatesNew(seen: seq<Booking>, x: Booking, dates: seq<string>)
    requires dates == Dates(seen) && x.date !in dates
    ensures Dates(seen + [x]) == dates + [x.date]
  {
    DatesAppend(seen, x);
  }

  lemma GroupKeys(m1: map<string, seq<Booking>>, ds1: seq<string>, key: string, v: seq<Booking>)
    requires (forall d :: d in m1 <==> d in ds1) && key in m1
    ensures forall d :: d in m1[key := v] <==> d in ds1
  {
  }

  lemma DatesAppend(seen: seq<Booking>, x: Booking)
    ensures x.date in Dates(seen) ==> Dates(seen + [x]) == Dates(seen)
    ensures x.date !in Dates(seen) ==> Dates(seen + [x]) == Dates(seen) + [x.date]
  {
    assert (seen + [x])[..|seen|] == seen;
  }

  lemma GroupEntries(seen: seq<Booking>, x: Booking, m1: map<string, seq<Booking>>)
    requires x.date in m1
    requires forall d :: d in m1 ==> m1[d] == OnDate(seen, d)
    ensures var m2 := m1[x.date := m1[x.date] + [x]];
            forall d :: d in m2 ==> m2[d] == OnDate(seen + [x], d)
  {
    var m2 := m1[x.date := m1[x.date] + [x]];
    forall d | d in m2 ensures m2[d] == OnDate(seen + [x], d) {
      OnDateAppend(seen, x, d);
    }
  }

  /** A date that does not occur has no bookings. */
  lemma NoBookingsOnDate(bs: seq<Booking>, d: string)
    requires d !in Dates(bs)
    ensures OnDate(bs, d) == []
  {
    OnDateMembers(bs, d);
  }

  /** Every date of the month's bookings has at least one booking. */
  lemma DateHasBookings(mb: seq<Booking>, d: string)
    requires d in Dates(mb)
    ensures OnDate(mb, d) != []
  {
    OnDateMembers(mb, d);
    DatesMember(mb, d);
    var b :| b in mb && b.date == d;
    assert b in OnDate(mb, d);
  }

  /** One more date processed by the per-date loop of `resolveConflicts`:
      its schedule row is written with the next id. */
  lemma ScheduleStep(fs: map<string, FinalSchedule>, team: seq<TeamMember>, mb: seq<Booking>,
                     done: seq<string>, d: string, month: string, nextId: int,
                     before: map<string, FinalSchedule>, id: int, g: seq<Booking>, after: map<string, FinalSchedule>)
    requires before == ScheduleAfter(fs, team, mb, done, month, nextId)
    requires id == nextId + |done| && g == OnDate(mb, d)
    requires after == before[d := FinalSchedule(id, d, Assignee(team, g), month)]
    ensures after == ScheduleAfter(fs, team, mb, done + [d], month, nextId)
  {
    var ds := done + [d];
    assert ds[..|done|] == done && ds[|done|] == d && |ds| - 1 == |done|;
    ScheduleAfterSnoc(fs, team, mb, ds, month, nextId);
  }

  /** One more date processed: a conflict record is added when the date is
      contested. */
  lemma ConflictsStep(team: seq<TeamMember>, mb: seq<Booking>, done: seq<string>, d: string)
    ensures ConflictsAfter(team, mb, done + [d])
         == ConflictsAfter(team, mb, done) + (if |OnDate(mb, d)| > 1 then [Conflict(team, OnDate(mb, d), d)] else [])
  {
    assert (done + [d])[..|done|] == done;
  }

  lemma DatesSnoc(dates: seq<string>, k: nat)
    requires k < |dates|
    ensures dates[..k + 1] == dates[..k] + [dates[k]] && |dates[..k]| == k
  {
  }

  /** The store and records `resolveConflicts` ends with, component by component. */
  lemma ResolvedStoreIs(st: Store, month: string, st1: Store)
    requires var team := SortedTeam(st.members);
             var mb := MonthBookings(st.bookings, month);
             && st1.members == st.members
             && st1.bookings == ResolvedBookings(team, st.bookings, month)
             && st1.finalSchedule == ScheduleAfter(st.finalSchedule, team, mb, Dates(mb), month, st.currentId)
             && st1.currentId == st.currentId + |Dates(mb)|
    ensures st1 == AfterResolve(st, month).0
  {
  }

  lemma ResolvedRecordsAre(st: Store, month: string, conflicts: seq<ConflictResolution>)
    requires var mb := MonthBookings(st.bookings, month);
             conflicts == ConflictsAfter(SortedTeam(st.members), mb, Dates(mb))
    ensures conflicts == AfterResolve(st, month).1
  {
  }

  class MemStorage {
    /** `teamMembersMap`'s values in insertion order (the map is keyed by name). */
    var members: seq<TeamMember>
    /** `bookingsMap`'s values in insertion order (the map is keyed by id). */
    var bookings: seq<Booking>
    /** `finalScheduleMap`, keyed by date. */
    var finalSchedule: map<string, FinalSchedule>
    /** The next id; members, bookings and schedule rows all draw from it. */
    var currentId: int

    function Snapshot(): Store
      reads this
    {
      Store(members, bookings, finalSchedule, currentId)
    }

    ghost predicate Valid()
      reads this
    {
      WellFormed(Snapshot())
    }

    /** The empty store, seeded with the four default members. */
    constructor ()
      ensures Valid() && Sound(Snapshot())
      ensures members == [
                TeamMember(1, "Shrishti", 1, "purple", true, "SHRISHTI_2025_SECURE"),
                TeamMember(2, "Aakash", 2, "blue", true, "AAKASH_2025_SECURE"),
                TeamMember(3, "Ashish", 3, "green", true, "ASHISH_2025_SECURE"),
                TeamMember(4, "Sahil", 4, "yellow", true, "SAHIL_2025_SECURE")]
      ensures bookings == [] && finalSchedule == map[] && currentId == 5
    {
      members := [];
      bookings := [];
      finalSchedule := map[];
      currentId := 1;
      new;
      InitializeTeamMembers();
      EmptyConsistent(SortedTeam(members));
    }

    /** `initializeTeamMembers`: creates the default members in order. */
    method InitializeTeamMembers()
      requires Valid() && members == [] && currentId == 1
      modifies this
      ensures Valid()
      ensures members == Seeded(|DefaultMembers|)
      ensures currentId == 1 + |DefaultMembers|
      ensures bookings == old(bookings) && finalSchedule == old(finalSchedule)
    {
      var k := 0;
      while k < |DefaultMembers|
        invariant 0 <= k <= |DefaultMembers|
        invariant Valid()
        invariant members == Seeded(k)
        invariant currentId == k + 1
        invariant bookings == old(bookings) && finalSchedule == old(finalSchedule)
      {
        var member := DefaultMembers[k];
        assert forall x :: x in members ==> x.name != member.name;
        var _ := CreateTeamMember(member);
        k := k + 1;
      }
    }

    /** `createTeamMember`: stores the member under its name with the next id. */
    method CreateTeamMember(m: InsertTeamMember) returns (r: TeamMember)
      requires Valid()
      modifies this
      ensures Valid()
      ensures r == NewMember(m, old(currentId)) && currentId == old(currentId) + 1
      ensures members == Upsert(old(members), r)
      ensures bookings == old(bookings) && finalSchedule == old(finalSchedule)
    {
      r := NewMember(m, currentId);
      currentId := currentId + 1;
      UpsertKeepsNamesDistinct(members, r);
      members := Upsert(members, r);
    }

    /** `createBooking`: appends the booking with the next id; both flags
        default to false. */
    method CreateBooking(b: InsertBooking) returns (r: Booking)
      requires Valid()
      modifies this
      ensures Valid()
      ensures r == Booking(old(currentId), b.userId, b.date, b.month,
                           if b.isConfirmed.Some? then b.isConfirmed.value else false,
                           if b.isConflicted.Some? then b.isConflicted.value else false)
      ensures bookings == old(bookings) + [r] && currentId == old(currentId) + 1
      ensures members == old(members) && finalSchedule == old(finalSchedule)
    {
      r := Booking(currentId, b.userId, b.date, b.month,
                   if b.isConfirmed.Some? then b.isConfirmed.value else false,
                   if b.isConflicted.Some? then b.isConflicted.value else false);
      currentId := currentId + 1;
      bookings := bookings + [r];
    }

    /** `updateBooking(id, {isConfirmed, isConflicted})`: rewrites the two
        flags of the booking with that id, or fails when there is none. */
    method UpdateBooking(id: int, confirmed: bool, conflicted: bool) returns (r: Result<Booking>)
      requires Valid()
      modifies this
      ensures Valid()
      ensures bookings == SetFlags(old(bookings), id, confirmed, conflicted)
      ensures r.Err? <==> forall b :: b in old(bookings) ==> b.id != id
      ensures r.Err? ==> r.message == BookingNotFoundMessage && bookings == old(bookings)
      ensures r.Ok? ==> r.value in bookings && r.value.id == id
                        && r.value.isConfirmed == confirmed && r.value.isConflicted == conflicted
      ensures members == old(members) && finalSchedule == old(finalSchedule) && currentId == old(currentId)
    {
      var booking := FindById(bookings, id);
      SetFlagsSameKeys(bookings, id, confirmed, conflicted);
      SameKeysIds(SetFlags(bookings, id, confirmed, conflicted), bookings, currentId);
      if booking.None? {
        assert SetFlags(bookings, id, confirmed, conflicted) == bookings;
        return Err(BookingNotFoundMessage);
      }
      var updated := booking.value.(isConfirmed := confirmed, isConflicted := conflicted);
      var k :| 0 <= k < |bookings| && bookings[k] == booking.value;
      bookings := SetFlags(bookings, id, confirmed, conflicted);
      assert bookings[k] == updated;
      r := Ok(updated);
    }

    /** `deleteBooking(id)` */
    method DeleteBooking(id: int)
      requires Valid()
      modifies this
      ensures Valid()
      ensures bookings == Without(old(bookings), id)
      ensures members == old(members) && finalSchedule == old(finalSchedule) && currentId == old(currentId)
    {
      WithoutAscending(bookings, id);
      WithoutMembers(bookings, id);
      bookings := Without(bookings, id);
    }

    /** `setFinalSchedule`: writes the row for the date with the next id,
        replacing any row the date had. */
    method SetFinalSchedule(s: InsertFinalSchedule) returns (r: FinalSchedule)
      requires Valid()
      modifies this
      ensures Valid()
      ensures r == FinalSchedule(old(currentId), s.date, s.assignedTo, s.month)
      ensures finalSchedule == old(finalSchedule)[s.date := r] && currentId == old(currentId) + 1
      ensures members == old(members) && bookings == old(bookings)
    {
      r := FinalSchedule(currentId, s.date, s.assignedTo, s.month);
      currentId := currentId + 1;
      finalSchedule := finalSchedule[s.date := r];
    }

    /** `deleteFinalSchedule(date)` */
    method DeleteFinalSchedule(date: string)
      requires Valid()
      modifies this
      ensures Valid()
      ensures finalSchedule == old(finalSchedule) - {date}
      ensures members == old(members) && bookings == old(bookings) && currentId == old(currentId)
    {
      finalSchedule := finalSchedule - {date};
    }

    /** `processBookingRequest`: refuses a date that is not a Saturday or
        Sunday, a user who already holds two bookings in the month, and a
        second booking by the user for the date, each before any change;
        otherwise books the date with both flags false and resolves the
        month. */
    method ProcessBookingRequest(request: BookingRequest) returns (r: Outcome)
      requires Valid()
      modifies this
      ensures Valid()
      ensures Snapshot() == AfterRequest(old(Snapshot()), request).0
      ensures r == AfterRequest(old(Snapshot()), request).1
    {
      ghost var st0 := Snapshot();
      var userId, date := request.userId, request.date;
      var month := MonthOf(date);
      if !IsWeekend(date) {
        return Failure(NotWeekendMessage);
      }
      var userBookings := UserBookings(bookings, userId, month);
      if |userBookings| >= 2 {
        return Failure(LimitMessage);
      }
      var existingBooking := FindOnDate(userBookings, date);
      if existingBooking.Some? {
        return Failure(DuplicateMessage);
      }
      var _ := CreateBooking(InsertBooking(userId, date, month, Some(false), Some(false)));
      ghost var st1 := Snapshot();
      assert st1 == st0.(bookings := st0.bookings + [NewBooking(st0, request)], currentId := st0.currentId + 1);
      var conflicts := ResolveConflicts(month);
      r := Success(conflicts);
      RequestAccepted(st0, request, Snapshot(), conflicts);
    }

    /** `resolveConflicts(month)`: groups the month's bookings by date, then
        settles each date in order of first appearance. */
    method ResolveConflicts(month: string) returns (conflicts: seq<ConflictResolution>)
      requires Valid()
      modifies this
      ensures Valid()
      ensures Snapshot() == AfterResolve(old(Snapshot()), month).0
      ensures conflicts == AfterResolve(old(Snapshot()), month).1
    {
      ghost var st0 := Snapshot();
      var monthBookings := MonthBookings(bookings, month);
      var teamMembers := SortedTeam(members);
      var bookingsByDate, dates := GroupByDate(monthBookings);
      conflicts := SettleDates(teamMembers, month, monthBookings, bookingsByDate, dates);
      PartlyResolvedAll(teamMembers, st0.bookings, month);
      ResolvedStoreIs(st0, month, Snapshot());
      ResolvedRecordsAre(st0, month, conflicts);
    }

    /** The per-date loop of `resolveConflicts`. */
    method SettleDates(team: seq<TeamMember>, month: string, monthBookings: seq<Booking>,
                       bookingsByDate: map<string, seq<Booking>>, dates: seq<string>) returns (conflicts: seq<ConflictResolution>)
      requires Valid() && monthBookings == MonthBookings(bookings, month)
      requires dates == Dates(monthBookings)
      requires forall d :: d in bookingsByDate <==> d in dates
      requires forall d :: d in bookingsByDate ==> bookingsByDate[d] == OnDate(monthBookings, d)
      modifies this
      ensures Valid() && members == old(members)
      ensures bookings == PartlyResolved(team, old(bookings), month, dates)
      ensures finalSchedule == ScheduleAfter(old(finalSchedule), team, monthBookings, dates, month, old(currentId))
      ensures currentId == old(currentId) + |dates|
      ensures conflicts == ConflictsAfter(team, monthBookings, dates)
    {
      ghost var b0 := bookings;
      conflicts := [];
      var k := 0;
      while k < |dates|
        invariant 0 <= k <= |dates|
        invariant Valid() && members == old(members)
        invariant bookings == PartlyResolved(team, b0, month, dates[..k])
        invariant finalSchedule == ScheduleAfter(old(finalSchedule), team, monthBookings, dates[..k], month, old(currentId))
        invariant currentId == old(currentId) + k
        invariant conflicts == ConflictsAfter(team, monthBookings, dates[..k])
      {
        var date := dates[k];
        var dateBookings := bookingsByDate[date];
        DateHasBookings(monthBookings, date);
        ghost var done := dates[..k];
        DatesSnoc(dates, k);
        var c := SettleDate(team, month, date, dateBookings, b0, old(finalSchedule), old(currentId), done);
        if c.Some? {
          conflicts := conflicts + [c.value];
        }
        ConflictsStep(team, monthBookings, done, date);
        k := k + 1;
      }
      assert dates[..k] == dates;
    }

    /** One turn of the per-date loop of `resolveConflicts`. With two or more
        bookings the group is sorted by rank, the first is confirmed, the rest
        are marked conflicted, the winner is scheduled and a conflict record
        is returned; a single booking is confirmed and scheduled. */
    method SettleDate(team: seq<TeamMember>, month: string, date: string, dateBookings: seq<Booking>,
                      ghost b0: seq<Booking>, ghost fs0: map<string, FinalSchedule>, ghost id0: int,
                      ghost done: seq<string>) returns (c: Option<ConflictResolution>)
      requires Valid() && IdsAscending(b0)
      requires dateBookings == OnDate(MonthBookings(b0, month), date) && dateBookings != []
      requires bookings == PartlyResolved(team, b0, month, done)
      requires finalSchedule == ScheduleAfter(fs0, team, MonthBookings(b0, month), done, month, id0)
      requires currentId == id0 + |done|
      modifies this
      ensures Valid()
      ensures bookings == PartlyResolved(team, b0, month, done + [date])
      ensures finalSchedule == ScheduleAfter(fs0, team, MonthBookings(b0, month), done + [date], month, id0)
      ensures currentId == old(currentId) + 1 && members == old(members)
      ensures c == if |dateBookings| > 1 then Some(Conflict(team, dateBookings, date)) else None
    {
      SettlingStart(team, b0, month, done, date);
      SettlingDone(team, b0, month, done, date);
      ghost var fsBefore, idBefore := finalSchedule, currentId;
      if |dateBookings| > 1 {
        var r := SettleContested(team, month, date, dateBookings, b0, done);
        c := Some(r);
      } else if |dateBookings| == 1 {
        SettleSingle(team, month, date, dateBookings, b0, done);
        c := None;
      }
      ScheduleStep(fs0, team, MonthBookings(b0, month), done, date, month, id0, fsBefore, idBefore, dateBookings, finalSchedule);
    }

    /** A date with several bookings: confirm the best-ranked, mark the
        others conflicted, schedule the winner and report the conflict. */
    method SettleContested(team: seq<TeamMember>, month: string, date: string, dateBookings: seq<Booking>,
                           ghost b0: seq<Booking>, ghost done: seq<string>) returns (c: ConflictResolution)
      requires Valid() && IdsAscending(b0)
      requires dateBookings == OnDate(MonthBookings(b0, month), date) && |dateBookings| > 1
      requires bookings == Settling(team, b0, month, done, date, 0)
      modifies this
      ensures Valid()
      ensures bookings == Settling(team, b0, month, done, date, |dateBookings|)
      ensures finalSchedule == old(finalSchedule)[date := FinalSchedule(old(currentId), date, Assignee(team, dateBookings), month)]
      ensures currentId == old(currentId) + 1 && members == old(members)
      ensures c == Conflict(team, dateBookings, date)
    {
      var sortedBookings := SortGroup(team, dateBookings);
      var winner := sortedBookings[0];
      var losers := sortedBookings[1..];
      SettlingStep(team, b0, month, done, date, 0);
      var _ := UpdateBooking(winner.id, true, false);
      MarkLosers(team, month, date, dateBookings, b0, done);
      var _ := SetFinalSchedule(InsertFinalSchedule(date, winner.userId, month));
      c := ConflictResolution(date, winner.userId, UserIds(losers));
    }

    /** The loop over the losers of a contested date. */
    method MarkLosers(team: seq<TeamMember>, month: string, date: string, dateBookings: seq<Booking>,
                      ghost b0: seq<Booking>, ghost done: seq<string>)
      requires Valid() && IdsAscending(b0)
      requires dateBookings == OnDate(MonthBookings(b0, month), date) && dateBookings != []
      requires bookings == Settling(team, b0, month, done, date, 1)
      modifies this
      ensures Valid()
      ensures bookings == Settling(team, b0, month, done, date, |dateBookings|)
      ensures members == old(members) && finalSchedule == old(finalSchedule) && currentId == old(currentId)
    {
      var losers := SortGroup(team, dateBookings)[1..];
      var j := 0;
      while j < |losers|
        invariant 0 <= j <= |losers|
        invariant Valid()
        invariant bookings == Settling(team, b0, month, done, date, j + 1)
        invariant members == old(members) && finalSchedule == old(finalSchedule) && currentId == old(currentId)
      {
        SettlingStep(team, b0, month, done, date, j + 1);
        var _ := UpdateBooking(losers[j].id, false, true);
        j := j + 1;
      }
    }

    /** A date with one booking: confirm it and schedule its user. */
    method SettleSingle(team: seq<TeamMember>, month: string, date: string, dateBookings: seq<Booking>,
                        ghost b0: seq<Booking>, ghost done: seq<string>)
      requires Valid() && IdsAscending(b0)
      requires dateBookings == OnDate(MonthBookings(b0, month), date) && |dateBookings| == 1
      requires bookings == Settling(team, b0, month, done, date, 0)
      modifies this
      ensures Valid()
      ensures bookings == Settling(team, b0, month, done, date, 1)
      ensures finalSchedule == old(finalSchedule)[date := FinalSchedule(old(currentId), date, Assignee(team, dateBookings), month)]
      ensures currentId == old(currentId) + 1 && members == old(members)
    {
      var booking := dateBookings[0];
      assert SortGroup(team, dateBookings) == [booking];
      SettlingStep(team, b0, month, done, date, 0);
      var _ := UpdateBooking(booking.id, true, false);
      var _ := SetFinalSchedule(InsertFinalSchedule(date, booking.userId, month));
    }

    /** `getMonthlySchedule(month)`: the month's assignments as the schedule
        held them when the call began, then the conflicts of a fresh
        resolution and one status per member, in ascending priority, counted
        on the resolved ledger. In a sound store the assignments read before
        the resolution are the ones in force after it. */
    method GetMonthlySchedule(month: string) returns (s: MonthlySchedule)
      requires Valid()
      modifies this
      ensures Valid()
      ensures Snapshot() == AfterResolve(old(Snapshot()), month).0
      ensures s.month == month
      ensures s.assignments == MonthAssignments(old(finalSchedule), month)
      ensures s.conflicts == AfterResolve(old(Snapshot()), month).1
      ensures |s.userStatuses| == |SortedTeam(members)|
      ensures forall i :: 0 <= i < |SortedTeam(members)| ==>
                s.userStatuses[i] == StatusOf(bookings, SortedTeam(members)[i].name, month)
      ensures old(Sound(Snapshot())) ==> s.assignments == MonthAssignments(finalSchedule, month)
    {
      ghost var st0 := Snapshot();
      var teamMembers := SortedTeam(members);
      var assignments := CollectAssignments(finalSchedule, month);

      var conflicts := ResolveConflicts(month);

      var userStatuses := UserStatuses(teamMembers, bookings, month);
      s := MonthlySchedule(month, assignments, conflicts, userStatuses);
      if Sound(st0) {
        IdleAssignments(st0, month);
      }
    }
  }

  /** Re-resolving a sound store leaves every month's assignments as they were. */
  lemma IdleAssignments(st: Store, month: string)
    requires Sound(st)
    ensures forall m :: MonthAssignments(AfterResolve(st, month).0.finalSchedule, m) == MonthAssignments(st.finalSchedule, m)
  {
    ResolveOfSoundIsIdle(st, month);
  }

  /** The status loop of `getMonthlySchedule`: one status per member of
      `team`, in order. */
  method UserStatuses(team: seq<TeamMember>, bookings: seq<Booking>, month: string) returns (userStatuses: seq<UserBookingStatus>)
    ensures |userStatuses| == |team|
    ensures forall j :: 0 <= j < |team| ==> userStatuses[j] == StatusOf(bookings, team[j].name, month)
  {
    userStatuses := [];
    var i := 0;
    while i < |team|
      invariant 0 <= i <= |team|
      invariant |userStatuses| == i
      invariant forall j :: 0 <= j < i ==> userStatuses[j] == StatusOf(bookings, team[j].name, month)
    {
      var userBookings := UserBookings(bookings, team[i].name, month);
      var confirmedDays := CountConfirmed(userBookings);
      var conflictedDays := CountConflicted(userBookings);
      var shortfall := 2 - confirmedDays as int;
      var remainingDays: nat := if shortfall > 0 then shortfall else 0;
      userStatuses := userStatuses + [UserBookingStatus(team[i].name, confirmedDays, conflictedDays, remainingDays, userBookings)];
      i := i + 1;
    }
  }

  /** The assignments loop of `getMonthlySchedule`: every row of the month
      writes its date's user into the record. Dates are the schedule's keys,
      so the order of the rows does not matter. */
  method CollectAssignments(fs: map<string, FinalSchedule>, month: string) returns (assignments: map<string, string>)
    ensures assignments == MonthAssignments(fs, month)
  {
    assignments := map[];
    var rest := fs.Keys;
    while rest != {}
      invariant rest <= fs.Keys
      invariant assignments.Keys == set d | d in fs && d !in rest && fs[d].month == month
      invariant forall d :: d in assignments ==> assignments[d] == fs[d].assignedTo
      decreases |rest|
    {
      assert exists x :: x in rest by {
        if forall x :: x !in rest {
          assert false;
        }
      }
      var date :| date in rest;
      if fs[date].month == month {
        assignments := assignments[date := fs[date].assignedTo];
      }
      rest := rest - {date};
    }
  }

  /** The `assignments` record: each schedule row of the month, date to user. */
  function MonthAssignments(fs: map<string, FinalSchedule>, month: string): (r: map<string, string>)
    ensures r.Keys == set d | d in fs && fs[d].month == month
    ensures forall d :: d in r ==> r[d] == fs[d].assignedTo
  {
    map d | d in fs && fs[d].month == month :: fs[d].assignedTo
  }
}
