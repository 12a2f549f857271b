/** The store's transitions as functions of its state: resolving a month,
    a booking request, and the store-side part of a cancellation. The
    `MemStorage` class is proved to perform exactly these, and the lemmas
    here show what they preserve. */
module Engine {
  import opened Schema
  import opened Calendar
  import opened Directory
  import opened Ledger
  import opened Resolver
  import opened Invariants
  import opened Limits

  /** The four fields of `MemStorage` as one value. */
  datatype Store = Store(members: seq<TeamMember>, bookings: seq<Booking>,
                         finalSchedule: map<string, FinalSchedule>, currentId: int)

  /** What `processBookingRequest` resolves to: `{success: true, conflicts}`,
      or the message of the error it throws. */
  datatype Outcome = Success(conflicts: seq<ConflictResolution>) | Failure(message: string)

  const NotWeekendMessage := "Only weekend days can be booked"
  const LimitMessage := "User already has 2 bookings this month"
  const DuplicateMessage := "User already booked this day"

  /** The shape every reachable store has: names are keys, ids grow with
      insertion and stay below the counter, and schedule rows are keyed by
      their own date. */
  predicate WellFormed(st: Store) {
    && NamesDistinct(st.members)
    && IdsAscending(st.bookings)
    && IdsBelow(st.bookings, st.currentId)
    && forall d :: d in st.finalSchedule ==> st.finalSchedule[d].date == d
  }

  /** A store between requests: well formed, resolved and within the limits. */
  ghost predicate Sound(st: Store) {
    && WellFormed(st)
    && Consistent(SortedTeam(st.members), st.bookings, st.finalSchedule)
    && AtMostTwoPerMonth(st.bookings)
    && OnePerUserDate(st.bookings)
  }

  /** `resolveConflicts(month)`: the new store and the conflict records. */
  function AfterResolve(st: Store, month: string): (r: (Store, seq<ConflictResolution>))
    ensures r.0.members == st.members
    ensures SameKeys(r.0.bookings, st.bookings)
    ensures r.0.currentId == st.currentId + |Dates(MonthBookings(st.bookings, month))|
    ensures r.0.finalSchedule.Keys == st.finalSchedule.Keys + set b | b in MonthBookings(st.bookings, month) :: b.date
  {
    var team := SortedTeam(st.members);
    var mb := MonthBookings(st.bookings, month);
    var dates := Dates(mb);
    DatesMembers(mb);
    (st.(bookings := ResolvedBookings(team, st.bookings, month),
         finalSchedule := ScheduleAfter(st.finalSchedule, team, mb, dates, month, st.currentId),
         currentId := st.currentId + |dates|),
     ConflictsAfter(team, mb, dates))
  }

  /** The booking `processBookingRequest` creates for a request. */
  function NewBooking(st: Store, request: BookingRequest): Booking {
    Booking(st.currentId, request.userId, request.date, MonthOf(request.date), false, false)
  }

  /** `processBookingRequest(request)`: the three guards in order, then the
      insertion and the resolution of the request's month. */
  function AfterRequest(st: Store, request: BookingRequest): (r: (Store, Outcome))
    ensures r.1.Failure? ==> r.0 == st
    ensures r.1.Success? <==> IsWeekend(request.date) && RequestAllowed(st.bookings, request.userId, request.date)
    ensures !IsWeekend(request.date) ==> r.1 == Failure(NotWeekendMessage)
    ensures (IsWeekend(request.date) && |UserBookings(st.bookings, request.userId, MonthOf(request.date))| >= 2)
              ==> r.1 == Failure(LimitMessage)
    ensures (IsWeekend(request.date) && |UserBookings(st.bookings, request.userId, MonthOf(request.date))| < 2
             && FindOnDate(UserBookings(st.bookings, request.userId, MonthOf(request.date)), request.date).Some?)
              ==> r.1 == Failure(DuplicateMessage)
    ensures r.1.Success? ==> SameKeys(r.0.bookings, st.bookings + [NewBooking(st, request)])
    ensures r.0.members == st.members
  {
    var month := MonthOf(request.date);
    var userBookings := UserBookings(st.bookings, request.userId, month);
    if !IsWeekend(request.date) then (st, Failure(NotWeekendMessage))
    else if |userBookings| >= 2 then (st, Failure(LimitMessage))
    else if FindOnDate(userBookings, request.date).Some? then (st, Failure(DuplicateMessage))
    else
      var x := NewBooking(st, request);
      var res := AfterResolve(st.(bookings := st.bookings + [x], currentId := st.currentId + 1), month);
      (res.0, Success(res.1))
  }

  /** An accepted request ends with the store and records of resolving its
      month after the insertion. */
  lemma RequestAccepted(st: Store, request: BookingRequest, st1: Store, conflicts: seq<ConflictResolution>)
    requires var ub := UserBookings(st.bookings, request.userId, MonthOf(request.date));
             IsWeekend(request.date) && |ub| < 2 && FindOnDate(ub, request.date).None?
    requires var inserted := st.(bookings := st.bookings + [NewBooking(st, request)], currentId := st.currentId + 1);
             && st1 == AfterResolve(inserted, MonthOf(request.date)).0
             && conflicts == AfterResolve(inserted, MonthOf(request.date)).1
    ensures st1 == AfterRequest(st, request).0 && Success(conflicts) == AfterRequest(st, request).1
  {
  }

  /** What the cancel handler's store work comes to. */
  datatype CancelOutcome = Cancelled | NotFound

  /** The cancel handler after its identity check: find the user's booking
      for the date among their bookings of the date's month, delete it, drop
      the date's schedule row if it was confirmed, and resolve the month. */
  function AfterCancel(st: Store, userId: string, date: string): (r: (Store, CancelOutcome))
    ensures r.1 == NotFound <==> forall b :: b in st.bookings && b.userId == userId && b.month == MonthOf(date) ==> b.date != date
    ensures r.1 == NotFound ==> r.0 == st
    ensures r.0.members == st.members
  {
    var month := MonthOf(date);
    var userBookings := UserBookings(st.bookings, userId, month);
    UserBookingsMembers(st.bookings, userId, month);
    var found := FindOnDate(userBookings, date);
    if found.None? then (st, NotFound)
    else
      var b := found.value;
      var st1 := st.(bookings := Without(st.bookings, b.id));
      var st2 := if b.isConfirmed then st1.(finalSchedule := st1.finalSchedule - {date}) else st1;
      (AfterResolve(st2, month).0, Cancelled)
  }

  // ---------------------------------------------------------------------
  // Preservation

  lemma ResolveKeepsWellFormed(st: Store, month: string)
    requires WellFormed(st)
    ensures WellFormed(AfterResolve(st, month).0)
  {
    var r := AfterResolve(st, month).0;
    SameKeysIds(r.bookings, st.bookings, st.currentId);
    assert IdsBelow(r.bookings, r.currentId);
  }

  /** Resolving any month of a sound store leaves it sound. */
  lemma ResolveKeepsSound(st: Store, month: string)
    requires Sound(st)
    ensures Sound(AfterResolve(st, month).0)
  {
    ResolveKeepsWellFormed(st, month);
    var team := SortedTeam(st.members);
    ConsistentIsConsistentExcept(team, st.bookings, st.finalSchedule, month);
    ResolveRestoresConsistency(team, st.bookings, st.finalSchedule, month, st.currentId);
    ResolveKeepsLimits(team, st.bookings, month);
  }

  /** Every booking request, accepted or refused, leaves a sound store sound:
      in particular no user ever holds more than two bookings in a month. */
  lemma RequestKeepsSound(st: Store, request: BookingRequest)
    requires Sound(st)
    ensures Sound(AfterRequest(st, request).0)
  {
    var x := NewBooking(st, request);
    if IsWeekend(request.date) && RequestAllowed(st.bookings, request.userId, request.date) {
      AcceptedStore(st, request);
      AcceptedKeepsSound(st, x);
    } else {
      RefusedStore(st, request);
    }
  }

  /** An accepted request's store is the month resolved after the insertion. */
  lemma AcceptedStore(st: Store, request: BookingRequest)
    requires IsWeekend(request.date) && RequestAllowed(st.bookings, request.userId, request.date)
    ensures var x := NewBooking(st, request);
            AfterRequest(st, request).0 == AfterResolve(st.(bookings := st.bookings + [x], currentId := st.currentId + 1), x.month).0
  {
  }

  /** A refused request leaves the store as it was. */
  lemma RefusedStore(st: Store, request: BookingRequest)
    requires !(IsWeekend(request.date) && RequestAllowed(st.bookings, request.userId, request.date))
    ensures AfterRequest(st, request).0 == st
  {
  }

  lemma AcceptedKeepsSound(st: Store, x: Booking)
    requires Sound(st)
    requires x.id == st.currentId && x.month == MonthOf(x.date) && RequestAllowed(st.bookings, x.userId, x.date)
    ensures Sound(AfterResolve(st.(bookings := st.bookings + [x], currentId := st.currentId + 1), x.month).0)
  {
    var st1 := st.(bookings := st.bookings + [x], currentId := st.currentId + 1);
    var team := SortedTeam(st.members);
    assert WellFormed(st1);
    AddLeavesMonthStale(team, st.bookings, st.finalSchedule, x);
    ResolveKeepsWellFormed(st1, x.month);
    ResolveRestoresConsistency(team, st1.bookings, st1.finalSchedule, x.month, st1.currentId);
    RequestKeepsLimits(st.bookings, x);
    ResolveKeepsLimits(team, st1.bookings, x.month);
  }

  /** Every cancellation leaves a sound store sound. */
  lemma CancelKeepsSound(st: Store, userId: string, date: string)
    requires Sound(st)
    ensures Sound(AfterCancel(st, userId, date).0)
  {
    var month := MonthOf(date);
    var userBookings := UserBookings(st.bookings, userId, month);
    var found := FindOnDate(userBookings, date);
    if found.Some? {
      var b := found.value;
      UserBookingsMembers(st.bookings, userId, month);
      assert b in st.bookings && b.date == date && b.month == month;
      var st1 := st.(bookings := Without(st.bookings, b.id));
      var st2 := if b.isConfirmed then st1.(finalSchedule := st1.finalSchedule - {date}) else st1;
      assert AfterCancel(st, userId, date).0 == AfterResolve(st2, month).0;
      RemovedKeepsSound(st, b, st2);
    }
  }

  /** A cancellation removes exactly one booking, the one it found: every
      other booking is still there, under the same id, user, date and month. */
  lemma CancelRemovesOne(st: Store, userId: string, date: string)
    requires WellFormed(st) && AfterCancel(st, userId, date).1 == Cancelled
    ensures var bs1 := AfterCancel(st, userId, date).0.bookings;
            && |bs1| == |st.bookings| - 1
            && forall b :: b in st.bookings && !(b.userId == userId && b.date == date) ==>
                 exists c :: c in bs1 && SameKey(c, b)
  {
    var month := MonthOf(date);
    var ub := UserBookings(st.bookings, userId, month);
    UserBookingsMembers(st.bookings, userId, month);
    var x := FindOnDate(ub, date).value;
    assert x in st.bookings && x.userId == userId && x.date == date;
    var st1 := st.(bookings := Without(st.bookings, x.id));
    var st2 := if x.isConfirmed then st1.(finalSchedule := st1.finalSchedule - {date}) else st1;
    var bs1 := AfterCancel(st, userId, date).0.bookings;
    assert bs1 == AfterResolve(st2, month).0.bookings by {
      assert AfterCancel(st, userId, date).0 == AfterResolve(st2, month).0;
    }
    RemovedOne(st.bookings, x, bs1);
    forall b | b in st.bookings && !(b.userId == userId && b.date == date) ensures exists c :: c in bs1 && SameKey(c, b) {
      assert b != x;
    }
  }

  /** Re-flagging what is left after removing one booking keeps every other
      booking's keys. */
  lemma RemovedOne(bs: seq<Booking>, x: Booking, bs1: seq<Booking>)
    requires IdsAscending(bs) && x in bs && SameKeys(bs1, Without(bs, x.id))
    ensures |bs1| == |bs| - 1
    ensures forall b :: b in bs && b != x ==> exists c :: c in bs1 && SameKey(c, b)
  {
    var bs2 := Without(bs, x.id);
    WithoutMembers(bs, x.id);
    WithoutOne(bs, x);
    forall b | b in bs && b != x ensures exists c :: c in bs1 && SameKey(c, b) {
      if b.id == x.id {
        IdIdentifies(bs, b, x);
      }
      assert b in bs2;
      var i :| 0 <= i < |bs2| && bs2[i] == b;
      assert SameKey(bs1[i], b);
    }
  }

  /** Removing a booking of a sound store, with its row when it was
      confirmed, and re-resolving its month gives a sound store. */
  lemma RemovedKeepsSound(st: Store, b: Booking, st2: Store)
    requires Sound(st) && b in st.bookings
    requires st2 == st.(bookings := Without(st.bookings, b.id), finalSchedule := ScheduleAfterCancel(st.finalSchedule, b))
    ensures Sound(AfterResolve(st2, b.month).0)
  {
    var team := SortedTeam(st.members);
    assert WellFormed(st2) by {
      WithoutAscending(st.bookings, b.id);
      WithoutMembers(st.bookings, b.id);
    }
    RemoveLeavesMonthStale(team, st.bookings, st.finalSchedule, b);
    ResolveKeepsWellFormed(st2, b.month);
    ResolveRestoresConsistency(team, st2.bookings, st2.finalSchedule, b.month, st2.currentId);
    RemoveKeepsLimits(st.bookings, b.id);
    ResolveKeepsLimits(team, st2.bookings, b.month);
  }

  // ---------------------------------------------------------------------
  // Consequences for the callers

  /** The conflict list of a resolution names each contested date once, in
      the order the month's bookings first mention the dates. */
  lemma ResolveConflictsInOrder(st: Store, month: string)
    ensures var mb := MonthBookings(st.bookings, month);
            var c := AfterResolve(st, month).1;
            && InDateOrder(c, Dates(mb))
            && forall a, b :: 0 <= a < b < |c| ==> c[a].date != c[b].date
  {
    var mb := MonthBookings(st.bookings, month);
    DatesDistinct(mb);
    ConflictsInDateOrder(SortedTeam(st.members), mb, Dates(mb));
  }

  /** Re-resolving a sound store changes no flag and no assignment: only the
      ids of the rewritten schedule rows move on. So the assignments
      `getMonthlySchedule` reads before it re-resolves are the ones in force
      after. */
  lemma ResolveOfSoundIsIdle(st: Store, month: string)
    requires Sound(st)
    ensures var r := AfterResolve(st, month).0;
            && r.bookings == st.bookings
            && r.finalSchedule.Keys == st.finalSchedule.Keys
            && forall d :: d in r.finalSchedule ==> r.finalSchedule[d].(id := 0) == st.finalSchedule[d].(id := 0)
  {
    var team := SortedTeam(st.members);
    IdleBookings(team, st.bookings, st.finalSchedule, month);
    IdleSchedule(team, st.bookings, st.finalSchedule, month, st.currentId);
  }

  lemma IdleBookings(team: seq<TeamMember>, bs: seq<Booking>, fs: map<string, FinalSchedule>, month: string)
    requires Consistent(team, bs, fs)
    ensures ResolvedBookings(team, bs, month) == bs
  {
    forall i | 0 <= i < |bs| ensures ResolvedBookings(team, bs, month)[i] == bs[i] {
      IdleFlag(team, bs, fs, month, i);
    }
  }

  lemma IdleSchedule(team: seq<TeamMember>, bs: seq<Booking>, fs: map<string, FinalSchedule>, month: string, nextId: int)
    requires Consistent(team, bs, fs)
    ensures var mb := MonthBookings(bs, month);
            var fs1 := ScheduleAfter(fs, team, mb, Dates(mb), month, nextId);
            && fs1.Keys == fs.Keys
            && forall d :: d in fs1 ==> fs1[d].(id := 0) == fs[d].(id := 0)
  {
    IdleKeys(team, bs, fs, month, nextId);
    IdleRows(team, bs, fs, month, nextId);
  }

  lemma IdleKeys(team: seq<TeamMember>, bs: seq<Booking>, fs: map<string, FinalSchedule>, month: string, nextId: int)
    requires Consistent(team, bs, fs)
    ensures var mb := MonthBookings(bs, month);
            ScheduleAfter(fs, team, mb, Dates(mb), month, nextId).Keys == fs.Keys
  {
    var mb := MonthBookings(bs, month);
    forall d | d in Dates(mb) ensures d in fs {
      DatesOfMonth(bs, month, d);
    }
  }

  lemma IdleRows(team: seq<TeamMember>, bs: seq<Booking>, fs: map<string, FinalSchedule>, month: string, nextId: int)
    requires Consistent(team, bs, fs)
    ensures var mb := MonthBookings(bs, month);
            var fs1 := ScheduleAfter(fs, team, mb, Dates(mb), month, nextId);
            forall d :: d in fs1 && d in fs ==> fs1[d].(id := 0) == fs[d].(id := 0)
  {
    var mb := MonthBookings(bs, month);
    var fs1 := ScheduleAfter(fs, team, mb, Dates(mb), month, nextId);
    forall d | d in fs1 && d in fs ensures fs1[d].(id := 0) == fs[d].(id := 0) {
      IdleRow(team, bs, fs, month, nextId, d);
    }
  }

  lemma IdleFlag(team: seq<TeamMember>, bs: seq<Booking>, fs: map<string, FinalSchedule>, month: string, i: int)
    requires Consistent(team, bs, fs) && 0 <= i < |bs|
    ensures ResolvedBookings(team, bs, month)[i] == bs[i]
  {
    assert bs[i] in bs;
    if bs[i].month == month {
      OnDateOfMonth(bs, bs[i].date);
    }
  }

  lemma IdleRow(team: seq<TeamMember>, bs: seq<Booking>, fs: map<string, FinalSchedule>, month: string, nextId: int, d: string)
    requires Consistent(team, bs, fs) && d in fs
    ensures var mb := MonthBookings(bs, month);
            ScheduleAfter(fs, team, mb, Dates(mb), month, nextId)[d].(id := 0) == fs[d].(id := 0)
  {
    var mb := MonthBookings(bs, month);
    DatesOfMonth(bs, month, d);
    if d in Dates(mb) {
      OnDateOfMonth(bs, d);
    }
  }

  /** After a cancellation in a sound store the cancelled date is scheduled
      exactly when bookings for it remain, and then to the best-ranked of
      them, who holds the only confirmed booking for it. */
  lemma CancelReassigns(st: Store, userId: string, date: string)
    requires Sound(st)
    requires AfterCancel(st, userId, date).1 == Cancelled
    ensures var r := AfterCancel(st, userId, date).0;
            var rest := OnDate(r.bookings, date);
            && (date in r.finalSchedule <==> rest != [])
            && (rest != [] ==> r.finalSchedule[date].assignedTo == Assignee(SortedTeam(st.members), rest))
            && forall b :: b in rest ==> (b.isConfirmed <==> b.userId == Assignee(SortedTeam(st.members), rest) && IsWinner(SortedTeam(st.members), rest, b))
  {
    var r := AfterCancel(st, userId, date).0;
    CancelKeepsSound(st, userId, date);
    SoundDate(r, date);
  }

  /** In a sound store, a date has a row exactly when it is booked; the row
      names the winner of the date's bookings, and the winner is the one
      confirmed booking. */
  lemma SoundDate(st: Store, date: string)
    requires Sound(st)
    ensures var team := SortedTeam(st.members);
            var g := OnDate(st.bookings, date);
            && (date in st.finalSchedule <==> g != [])
            && (g != [] ==> st.finalSchedule[date].assignedTo == Assignee(team, g))
            && forall b :: b in g ==> (b.isConfirmed <==> b.userId == Assignee(team, g) && IsWinner(team, g, b))
  {
    var team := SortedTeam(st.members);
    var g := OnDate(st.bookings, date);
    OnDateMembers(st.bookings, date);
    assert date in st.finalSchedule <==> date in DateSet(st.bookings);
    if g != [] {
      assert g[0] in g;
    }
    forall b | b in g ensures b.isConfirmed <==> b.userId == Assignee(team, g) && IsWinner(team, g, b) {
      assert FlagsOk(team, st.bookings, b);
      if IsWinner(team, g, b) {
        var w := SortGroup(team, g)[0];
        assert w in multiset(g);
        IdIdentifies(st.bookings, w, b);
      }
    }
  }

  /** In a sound store the status of `getMonthlySchedule` agrees with the
      schedule: a member's confirmed days are the month's rows assigned to
      them, and every other booking of theirs in the month is conflicted. */
  lemma StatusMatchesSchedule(st: Store, name: string, month: string)
    requires Sound(st)
    ensures var s := StatusOf(st.bookings, name, month);
            var fs := st.finalSchedule;
            && s.confirmedDays == |set d | d in fs && fs[d].month == month && fs[d].assignedTo == name|
            && s.conflictedDays == |s.bookings| - s.confirmedDays
  {
    var ub := UserBookings(st.bookings, name, month);
    ConfirmedDatesDistinct(st, name, month);
    RowsAreConfirmedDates(st, name, month);
    StatusAddsUp(SortedTeam(st.members), st.bookings, st.finalSchedule, name, month);
  }

  /** A user's confirmed bookings of a month have pairwise different dates,
      so there are as many of those dates as confirmed bookings. */
  lemma ConfirmedDatesDistinct(st: Store, name: string, month: string)
    requires Sound(st)
    ensures var ub := UserBookings(st.bookings, name, month);
            |ConfirmedDates(ub)| == |ConfirmedAt(ub)|
  {
    var ub := UserBookings(st.bookings, name, month);
    UserBookingsMembers(st.bookings, name, month);
    UserBookingsAscending(st.bookings, name, month);
    forall i, j | i in ConfirmedAt(ub) && j in ConfirmedAt(ub) && ub[i].date == ub[j].date ensures i == j {
      assert ub[i] in ub && ub[j] in ub;
      SameUserDate(st, ub[i], ub[j]);
      assert !(i < j) && !(j < i);
    }
    ConfirmedDatesCount(ub);
  }

  /** The month's rows assigned to a user are the dates of their confirmed bookings. */
  lemma RowsAreConfirmedDates(st: Store, name: string, month: string)
    requires Sound(st)
    ensures var fs := st.finalSchedule;
            var ub := UserBookings(st.bookings, name, month);
            (set d | d in fs && fs[d].month == month && fs[d].assignedTo == name) == ConfirmedDates(ub)
  {
    RowsAmongConfirmedDates(st, name, month);
    ConfirmedDatesAmongRows(st, name, month);
  }

  lemma RowsAmongConfirmedDates(st: Store, name: string, month: string)
    requires Sound(st)
    ensures var fs := st.finalSchedule;
            var ub := UserBookings(st.bookings, name, month);
            forall d :: d in fs && fs[d].month == month && fs[d].assignedTo == name ==> d in ConfirmedDates(ub)
  {
    var fs := st.finalSchedule;
    var ub := UserBookings(st.bookings, name, month);
    forall d | d in fs && fs[d].month == month && fs[d].assignedTo == name
      ensures d in ConfirmedDates(ub)
    {
      var i := ConfirmedRow(st, name, month, d);
    }
  }

  lemma ConfirmedDatesAmongRows(st: Store, name: string, month: string)
    requires Sound(st)
    ensures var fs := st.finalSchedule;
            var ub := UserBookings(st.bookings, name, month);
            forall i :: i in ConfirmedAt(ub) ==>
              ub[i].date in fs && fs[ub[i].date].month == month && fs[ub[i].date].assignedTo == name
  {
    var ub := UserBookings(st.bookings, name, month);
    UserBookingsMembers(st.bookings, name, month);
    forall i | i in ConfirmedAt(ub)
      ensures var fs := st.finalSchedule;
              ub[i].date in fs && fs[ub[i].date].month == month && fs[ub[i].date].assignedTo == name
    {
      assert ub[i] in ub;
      RowOfConfirmed(st, ub[i]);
    }
  }

  /** A user holds at most one booking per date. */
  lemma SameUserDate(st: Store, a: Booking, b: Booking)
    requires Sound(st) && a in st.bookings && b in st.bookings
    requires a.userId == b.userId && a.date == b.date
    ensures a == b
  {
    var i :| 0 <= i < |st.bookings| && st.bookings[i] == a;
    var j :| 0 <= j < |st.bookings| && st.bookings[j] == b;
    assert !(i < j) && !(j < i);
  }

  /** A confirmed booking's date has a row of its month assigned to its user. */
  lemma RowOfConfirmed(st: Store, b: Booking)
    requires Sound(st) && b in st.bookings && b.isConfirmed
    ensures var fs := st.finalSchedule;
            b.date in fs && fs[b.date].month == b.month && fs[b.date].assignedTo == b.userId
  {
    var g := OnDate(st.bookings, b.date);
    OnDateMembers(st.bookings, b.date);
    SoundDate(st, b.date);
    var i :| 0 <= i < |st.bookings| && st.bookings[i] == b;
    assert RowOk(SortedTeam(st.members), st.bookings, st.finalSchedule, b.date);
  }

  /** A row of the month assigned to `name` is the date of one of their
      confirmed bookings of the month. */
  lemma ConfirmedRow(st: Store, name: string, month: string, d: string) returns (i: int)
    requires Sound(st)
    requires d in st.finalSchedule && st.finalSchedule[d].month == month && st.finalSchedule[d].assignedTo == name
    ensures var ub := UserBookings(st.bookings, name, month);
            0 <= i < |ub| && ub[i].isConfirmed && ub[i].date == d
  {
    var team := SortedTeam(st.members);
    var g := OnDate(st.bookings, d);
    OnDateMembers(st.bookings, d);
    SoundDate(st, d);
    var w := SortGroup(team, g)[0];
    assert w in multiset(g);
    assert w in g && w.date == d;
    assert w.isConfirmed;
    var k :| 0 <= k < |st.bookings| && st.bookings[k] == w;
    assert RowOk(team, st.bookings, st.finalSchedule, d);
    assert w.month == st.finalSchedule[d].month;
    var ub := UserBookings(st.bookings, name, month);
    UserBookingsMembers(st.bookings, name, month);
    assert w in ub;
    i :| 0 <= i < |ub| && ub[i] == w;
  }
}
