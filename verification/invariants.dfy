/** The state the store keeps between requests. After every booking request
    and every cancellation, each booking's flags say whether it wins its
    date among the bookings that exist now, and the final schedule has
    exactly one row per booked date, naming that date's winner. The business
    limits (two bookings per user per month, one per user per date) hold
    alongside. */
module Invariants {
  import opened Schema
  import opened Ledger
  import opened Calendar
  import opened Resolver

  /** Every booking's month key is cut from its date. */
  predicate MonthsDerived(bs: seq<Booking>) {
    forall i :: 0 <= i < |bs| ==> bs[i].month == MonthOf(bs[i].date)
  }

  /** `b` is confirmed exactly when it wins its date among `bs`, and
      conflicted exactly when it does not. */
  predicate FlagsOk(team: seq<TeamMember>, bs: seq<Booking>, b: Booking) {
    && b.isConfirmed == IsWinner(team, OnDate(bs, b.date), b)
    && b.isConflicted == !b.isConfirmed
  }

  /** The schedule row for `d` names the winner of `d` among `bs`. */
  predicate RowOk(team: seq<TeamMember>, bs: seq<Booking>, fs: map<string, FinalSchedule>, d: string)
    requires d in fs
  {
    fs[d].date == d && fs[d].month == MonthOf(d) && fs[d].assignedTo == Assignee(team, OnDate(bs, d))
  }

  ghost predicate Consistent(team: seq<TeamMember>, bs: seq<Booking>, fs: map<string, FinalSchedule>) {
    && IdsAscending(bs)
    && MonthsDerived(bs)
    && (forall b :: b in bs ==> FlagsOk(team, bs, b))
    && fs.Keys == DateSet(bs)
    && (forall d :: d in fs ==> RowOk(team, bs, fs, d))
  }

  /** Consistent outside `month`; inside it, flags and rows may be stale,
      but the schedule holds no date that is no longer booked. This is the
      state between a booking's insertion or deletion and the resolution of
      its month. */
  ghost predicate ConsistentExcept(team: seq<TeamMember>, bs: seq<Booking>, fs: map<string, FinalSchedule>, month: string) {
    && IdsAscending(bs)
    && MonthsDerived(bs)
    && (forall b :: b in bs && b.month != month ==> FlagsOk(team, bs, b) && b.date in fs)
    && fs.Keys <= DateSet(bs)
    && (forall d :: d in fs && MonthOf(d) != month ==> RowOk(team, bs, fs, d))
  }

  /** The empty store is consistent. */
  lemma EmptyConsistent(team: seq<TeamMember>)
    ensures Consistent(team, [], map[])
  {
  }

  lemma ConsistentIsConsistentExcept(team: seq<TeamMember>, bs: seq<Booking>, fs: map<string, FinalSchedule>, month: string)
    requires Consistent(team, bs, fs)
    ensures ConsistentExcept(team, bs, fs, month)
  {
  }

  // ---------------------------------------------------------------------
  // Helpers

  /** In a ledger with ascending ids, an id names one booking. */
  lemma IdIdentifies(bs: seq<Booking>, a: Booking, b: Booking)
    requires IdsAscending(bs) && a in bs && b in bs && a.id == b.id
    ensures a == b
  {
    var i :| 0 <= i < |bs| && bs[i] == a;
    var j :| 0 <= j < |bs| && bs[j] == b;
    assert !(i < j) && !(j < i);
  }

  /** A date's bookings all lie in the month its key names. */
  lemma {:induction false} OnDateOfMonth(bs: seq<Booking>, d: string)
    requires MonthsDerived(bs)
    ensures OnDate(MonthBookings(bs, MonthOf(d)), d) == OnDate(bs, d)
  {
    if bs != [] {
      var n := |bs| - 1;
      var p, x := bs[..n], bs[n];
      assert bs == p + [x];
      assert MonthsDerived(p) by {
        forall i | 0 <= i < |p| ensures p[i].month == MonthOf(p[i].date) {
          assert p[i] == bs[i];
        }
      }
      OnDateOfMonth(p, d);
      var mp := MonthBookings(p, MonthOf(d));
      MonthBookingsAppend(p, x, MonthOf(d));
      OnDateAppend(p, x, d);
      if x.month == MonthOf(d) {
        OnDateAppend(mp, x, d);
      } else {
        assert mp + [] == mp;
        assert OnDate(p, d) + [] == OnDate(p, d);
      }
    }
  }

  /** The dates of a month's bookings are the booked dates whose key is that month. */
  lemma DatesOfMonth(bs: seq<Booking>, month: string, d: string)
    requires MonthsDerived(bs)
    ensures d in Dates(MonthBookings(bs, month)) <==> d in DateSet(bs) && MonthOf(d) == month
  {
    MonthBookingsMembers(bs, month);
    DatesMember(MonthBookings(bs, month), d);
    if d in DateSet(bs) && MonthOf(d) == month {
      var b :| b in bs && b.date == d;
      var i :| 0 <= i < |bs| && bs[i] == b;
      assert b in MonthBookings(bs, month);
    }
    if d in Dates(MonthBookings(bs, month)) {
      var b :| b in MonthBookings(bs, month) && b.date == d;
      var i :| 0 <= i < |bs| && bs[i] == b;
    }
  }

  /** Groups of a date outside the touched one are the same before and after. */
  lemma OtherDateGroups(bs: seq<Booking>, x: Booking, d: string)
    requires x.date != d
    ensures OnDate(bs + [x], d) == OnDate(bs, d)
  {
    OnDateAppend(bs, x, d);
    assert OnDate(bs, d) + [] == OnDate(bs, d);
  }

  // ---------------------------------------------------------------------
  // Resolution restores consistency

  /** Resolving the one stale month makes the whole store consistent. */
  lemma ResolveRestoresConsistency(team: seq<TeamMember>, bs: seq<Booking>, fs: map<string, FinalSchedule>,
                                   month: string, nextId: int)
    requires ConsistentExcept(team, bs, fs, month)
    ensures var mb := MonthBookings(bs, month);
            Consistent(team, ResolvedBookings(team, bs, month), ScheduleAfter(fs, team, mb, Dates(mb), month, nextId))
  {
    var r := ResolvedBookings(team, bs, month);
    var mb := MonthBookings(bs, month);
    var fs1 := ScheduleAfter(fs, team, mb, Dates(mb), month, nextId);
    ResolvedKeepsKeys(team, bs, month);
    forall b | b in r ensures FlagsOk(team, r, b) {
      var i :| 0 <= i < |r| && r[i] == b;
      ResolvedFlag(team, bs, fs, month, i);
    }
    ResolvedScheduleKeys(team, bs, fs, month, nextId);
    forall d | d in fs1 ensures RowOk(team, r, fs1, d) {
      ResolvedRow(team, bs, fs, month, nextId, d);
    }
  }

  lemma ResolvedKeepsKeys(team: seq<TeamMember>, bs: seq<Booking>, month: string)
    requires IdsAscending(bs) && MonthsDerived(bs)
    ensures var r := ResolvedBookings(team, bs, month);
            IdsAscending(r) && MonthsDerived(r) && DateSet(r) == DateSet(bs)
  {
    var r := ResolvedBookings(team, bs, month);
    SameKeysDateSet(r, bs);
    assert IdsAscending(r) by {
      forall i, j | 0 <= i < j < |r| ensures r[i].id < r[j].id {
        assert SameKey(r[i], bs[i]) && SameKey(r[j], bs[j]);
      }
    }
    assert MonthsDerived(r) by {
      forall i | 0 <= i < |r| ensures r[i].month == MonthOf(r[i].date) {
        assert SameKey(r[i], bs[i]);
      }
    }
  }

  lemma ResolvedFlag(team: seq<TeamMember>, bs: seq<Booking>, fs: map<string, FinalSchedule>, month: string, i: int)
    requires ConsistentExcept(team, bs, fs, month)
    requires 0 <= i < |bs|
    ensures var r := ResolvedBookings(team, bs, month); FlagsOk(team, r, r[i])
  {
    var r := ResolvedBookings(team, bs, month);
    var d := bs[i].date;
    assert SameKey(r[i], bs[i]);
    OnDateSameKeys(r, bs, d);
    SameGroupsSameOutcome(team, OnDate(r, d), OnDate(bs, d), d);
    if bs[i].month == month {
      OnDateOfMonth(bs, d);
    } else {
      assert bs[i] in bs;
    }
  }

  lemma ResolvedScheduleKeys(team: seq<TeamMember>, bs: seq<Booking>, fs: map<string, FinalSchedule>, month: string, nextId: int)
    requires ConsistentExcept(team, bs, fs, month)
    ensures var mb := MonthBookings(bs, month);
            ScheduleAfter(fs, team, mb, Dates(mb), month, nextId).Keys == DateSet(bs)
  {
    var mb := MonthBookings(bs, month);
    var fs1 := ScheduleAfter(fs, team, mb, Dates(mb), month, nextId);
    forall d | true ensures d in fs1 <==> d in DateSet(bs) {
      DatesOfMonth(bs, month, d);
      if d in DateSet(bs) && MonthOf(d) != month {
        var b :| b in bs && b.date == d;
        var i :| 0 <= i < |bs| && bs[i] == b;
        assert bs[i].month != month;
      }
    }
  }

  lemma ResolvedRow(team: seq<TeamMember>, bs: seq<Booking>, fs: map<string, FinalSchedule>, month: string, nextId: int, d: string)
    requires MonthsDerived(bs) && fs.Keys <= DateSet(bs)
    requires forall e :: e in fs && MonthOf(e) != month ==> RowOk(team, bs, fs, e)
    ensures var mb := MonthBookings(bs, month);
            var fs1 := ScheduleAfter(fs, team, mb, Dates(mb), month, nextId);
            d in fs1 ==> RowOk(team, ResolvedBookings(team, bs, month), fs1, d)
  {
    var mb := MonthBookings(bs, month);
    var fs1 := ScheduleAfter(fs, team, mb, Dates(mb), month, nextId);
    if d in fs1 {
      DatesOfMonth(bs, month, d);
      if d in Dates(mb) {
        ResolvedRowOfMonth(team, bs, fs, month, nextId, d);
      } else {
        assert d in fs && MonthOf(d) != month;
        ResolvedRowOther(team, bs, fs, fs1, month, d);
      }
    }
  }

  /** A date of the resolved month gets the row of its winner. */
  lemma ResolvedRowOfMonth(team: seq<TeamMember>, bs: seq<Booking>, fs: map<string, FinalSchedule>, month: string, nextId: int, d: string)
    requires MonthsDerived(bs) && d in Dates(MonthBookings(bs, month))
    ensures var mb := MonthBookings(bs, month);
            var fs1 := ScheduleAfter(fs, team, mb, Dates(mb), month, nextId);
            d in fs1 && RowOk(team, ResolvedBookings(team, bs, month), fs1, d)
  {
    var r := ResolvedBookings(team, bs, month);
    OnDateSameKeys(r, bs, d);
    SameGroupsSameOutcome(team, OnDate(r, d), OnDate(bs, d), d);
    DatesOfMonth(bs, month, d);
    OnDateOfMonth(bs, d);
  }

  /** A row outside the resolved month is kept, and stays right. */
  lemma ResolvedRowOther(team: seq<TeamMember>, bs: seq<Booking>, fs: map<string, FinalSchedule>,
                         fs1: map<string, FinalSchedule>, month: string, d: string)
    requires d in fs && d in fs1 && fs1[d] == fs[d] && RowOk(team, bs, fs, d)
    ensures RowOk(team, ResolvedBookings(team, bs, month), fs1, d)
  {
    var r := ResolvedBookings(team, bs, month);
    OnDateSameKeys(r, bs, d);
    SameGroupsSameOutcome(team, OnDate(r, d), OnDate(bs, d), d);
  }

  // ---------------------------------------------------------------------
  // A booking request and a cancellation leave only their month stale

  /** Appending a fresh booking leaves every other month consistent. */
  lemma AddLeavesMonthStale(team: seq<TeamMember>, bs: seq<Booking>, fs: map<string, FinalSchedule>, x: Booking)
    requires Consistent(team, bs, fs)
    requires IdsBelow(bs, x.id) && x.month == MonthOf(x.date)
    ensures ConsistentExcept(team, bs + [x], fs, x.month)
  {
    var bs1 := bs + [x];
    assert IdsAscending(bs1) && MonthsDerived(bs1) by {
      forall i | 0 <= i < |bs1| ensures bs1[i].month == MonthOf(bs1[i].date) {
        if i < |bs| { assert bs1[i] == bs[i]; }
      }
      forall i, j | 0 <= i < j < |bs1| ensures bs1[i].id < bs1[j].id {
        assert bs1[i] == bs[i];
        if j < |bs| { assert bs1[j] == bs[j]; }
      }
    }
    assert fs.Keys <= DateSet(bs1) by {
      assert DateSet(bs) <= DateSet(bs1);
    }
    assert forall b :: b in bs1 && b.month != x.month ==> FlagsOk(team, bs1, b) && b.date in fs by {
      AddKeepsOtherFlags(team, bs, fs, x);
    }
    assert forall d :: d in fs && MonthOf(d) != x.month ==> RowOk(team, bs1, fs, d) by {
      AddKeepsOtherRows(team, bs, fs, x);
    }
  }

  /** A new booking leaves the flags of other months' bookings right. */
  lemma AddKeepsOtherFlags(team: seq<TeamMember>, bs: seq<Booking>, fs: map<string, FinalSchedule>, x: Booking)
    requires MonthsDerived(bs) && x.month == MonthOf(x.date)
    requires forall b :: b in bs ==> FlagsOk(team, bs, b) && b.date in fs
    ensures forall b :: b in bs + [x] && b.month != x.month ==> FlagsOk(team, bs + [x], b) && b.date in fs
  {
    forall b | b in bs + [x] && b.month != x.month ensures FlagsOk(team, bs + [x], b) && b.date in fs {
      assert b in bs;
      var i :| 0 <= i < |bs| && bs[i] == b;
      OtherDateGroups(bs, x, b.date);
    }
  }

  /** A new booking leaves the rows of other months right. */
  lemma AddKeepsOtherRows(team: seq<TeamMember>, bs: seq<Booking>, fs: map<string, FinalSchedule>, x: Booking)
    requires x.month == MonthOf(x.date)
    requires forall d :: d in fs ==> RowOk(team, bs, fs, d)
    ensures forall d :: d in fs && MonthOf(d) != x.month ==> RowOk(team, bs + [x], fs, d)
  {
    forall d | d in fs && MonthOf(d) != x.month ensures RowOk(team, bs + [x], fs, d) {
      OtherDateGroups(bs, x, d);
    }
  }

  /** The schedule after `cancel` removed booking `b` (and, when `b` was
      confirmed, its date's row). */
  function ScheduleAfterCancel(fs: map<string, FinalSchedule>, b: Booking): (r: map<string, FinalSchedule>)
    ensures r.Keys == if b.isConfirmed then fs.Keys - {b.date} else fs.Keys
    ensures forall d :: d in r ==> r[d] == fs[d]
  {
    if b.isConfirmed then fs - {b.date} else fs
  }

  /** Removing a booking, and its row when it was confirmed, leaves every
      other month consistent. A conflicted booking's date keeps its row,
      since the date's winner is still booked. */
  lemma RemoveLeavesMonthStale(team: seq<TeamMember>, bs: seq<Booking>, fs: map<string, FinalSchedule>, b: Booking)
    requires Consistent(team, bs, fs) && b in bs
    ensures ConsistentExcept(team, Without(bs, b.id), ScheduleAfterCancel(fs, b), b.month)
  {
    var bs1 := Without(bs, b.id);
    var fs1 := ScheduleAfterCancel(fs, b);
    WithoutAscending(bs, b.id);
    WithoutKeepsMonths(bs, b.id);
    WithoutMembers(bs, b.id);
    forall c | c in bs1 && c.month != b.month ensures FlagsOk(team, bs1, c) && c.date in fs1 {
      RemoveKeepsOtherFlags(team, bs, fs, b, c);
    }
    forall d | d in fs1 ensures d in DateSet(bs1) {
      RemoveKeepsBookedDate(team, bs, fs, b, d);
    }
    forall d | d in fs1 && MonthOf(d) != b.month ensures RowOk(team, bs1, fs1, d) {
      RemoveKeepsOtherRow(team, bs, fs, b, d);
    }
  }

  lemma RemoveKeepsOtherFlags(team: seq<TeamMember>, bs: seq<Booking>, fs: map<string, FinalSchedule>, b: Booking, c: Booking)
    requires Consistent(team, bs, fs) && b in bs
    requires c in Without(bs, b.id) && c.month != b.month
    ensures FlagsOk(team, Without(bs, b.id), c) && c.date in ScheduleAfterCancel(fs, b)
  {
    WithoutMembers(bs, b.id);
    assert c in bs;
    OtherMonthFlags(team, bs, b, c);
    assert c.date in DateSet(bs);
  }

  lemma OtherMonthFlags(team: seq<TeamMember>, bs: seq<Booking>, b: Booking, c: Booking)
    requires IdsAscending(bs) && MonthsDerived(bs) && b in bs && c in bs && c.month != b.month
    requires FlagsOk(team, bs, c)
    ensures c.date != b.date
    ensures FlagsOk(team, Without(bs, b.id), c)
  {
    var j :| 0 <= j < |bs| && bs[j] == c;
    var k :| 0 <= k < |bs| && bs[k] == b;
    assert c.month == MonthOf(c.date) && b.month == MonthOf(b.date);
    OtherDateAfterRemove(bs, b, c.date);
  }

  lemma RemoveKeepsOtherRow(team: seq<TeamMember>, bs: seq<Booking>, fs: map<string, FinalSchedule>, b: Booking, d: string)
    requires Consistent(team, bs, fs) && b in bs
    requires d in ScheduleAfterCancel(fs, b) && MonthOf(d) != b.month
    ensures RowOk(team, Without(bs, b.id), ScheduleAfterCancel(fs, b), d)
  {
    var k :| 0 <= k < |bs| && bs[k] == b;
    OtherDateAfterRemove(bs, b, d);
  }

  lemma WithoutKeepsMonths(bs: seq<Booking>, id: int)
    requires MonthsDerived(bs)
    ensures MonthsDerived(Without(bs, id))
  {
    var bs1 := Without(bs, id);
    WithoutMembers(bs, id);
    forall i | 0 <= i < |bs1| ensures bs1[i].month == MonthOf(bs1[i].date) {
      assert bs1[i] in bs;
      var j :| 0 <= j < |bs| && bs[j] == bs1[i];
    }
  }

  /** A date other than the removed booking's keeps its group. */
  lemma OtherDateAfterRemove(bs: seq<Booking>, b: Booking, d: string)
    requires IdsAscending(bs) && b in bs && d != b.date
    ensures OnDate(Without(bs, b.id), d) == OnDate(bs, d)
  {
    OnDateWithout(bs, b.id, d);
    OnDateMembers(bs, d);
    forall c | c in OnDate(bs, d) ensures c.id != b.id {
      if c.id == b.id { IdIdentifies(bs, c, b); }
    }
    WithoutAbsent(OnDate(bs, d), b.id);
  }

  /** Every date left in the schedule after a cancellation is still booked. */
  lemma RemoveKeepsBookedDate(team: seq<TeamMember>, bs: seq<Booking>, fs: map<string, FinalSchedule>, b: Booking, d: string)
    requires Consistent(team, bs, fs) && b in bs
    requires d in ScheduleAfterCancel(fs, b)
    ensures d in DateSet(Without(bs, b.id))
  {
    WithoutMembers(bs, b.id);
    var c :| c in bs && c.date == d;
    if d != b.date {
      if c.id == b.id { IdIdentifies(bs, c, b); }
      assert c in Without(bs, b.id);
    } else {
      // b lost its date: the winner is another booking, and it stays
      OnDateMembers(bs, d);
      assert b in OnDate(bs, d);
      var w := SortGroup(team, OnDate(bs, d))[0];
      assert w in multiset(OnDate(bs, d));
      assert w in OnDate(bs, d);
      assert FlagsOk(team, bs, b);
      assert w.id != b.id;
      assert w in Without(bs, b.id);
    }
  }
}
