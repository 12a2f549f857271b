/** The business limits of the ledger: no user holds more than two bookings
    in a month, and no user holds two bookings for one date. Accepting a
    request, resolving a month and cancelling a booking each keep them, and
    in a consistent store a member's status counts add up. */
module Limits {
  import opened Schema
  import opened Ledger
  import opened Calendar
  import opened Invariants

  /** The guards of a booking request, stated on the ledger it is checked against. */
  predicate RequestAllowed(bs: seq<Booking>, userId: string, date: string) {
    var ub := UserBookings(bs, userId, MonthOf(date));
    |ub| < 2 && FindOnDate(ub, date).None?
  }

  /** A request that passes the guards keeps both limits. */
  lemma RequestKeepsLimits(bs: seq<Booking>, x: Booking)
    requires AtMostTwoPerMonth(bs) && OnePerUserDate(bs) && MonthsDerived(bs)
    requires x.month == MonthOf(x.date) && RequestAllowed(bs, x.userId, x.date)
    ensures AtMostTwoPerMonth(bs + [x]) && OnePerUserDate(bs + [x])
  {
    forall userId, month ensures |UserBookings(bs + [x], userId, month)| <= 2 {
      UserBookingsAppend(bs, x, userId, month);
    }
    var ub := UserBookings(bs, x.userId, x.month);
    UserBookingsMembers(bs, x.userId, x.month);
    var bs1 := bs + [x];
    forall i, j | 0 <= i < j < |bs1| ensures bs1[i].userId != bs1[j].userId || bs1[i].date != bs1[j].date {
      assert j == |bs| ==> bs1[i] == bs[i] && bs[i].month == MonthOf(bs[i].date);
    }
  }

  /** Resolution only rewrites flags, so both limits survive it. */
  lemma ResolveKeepsLimits(team: seq<TeamMember>, bs: seq<Booking>, month: string)
    requires AtMostTwoPerMonth(bs) && OnePerUserDate(bs)
    ensures var r := Resolver.ResolvedBookings(team, bs, month);
            AtMostTwoPerMonth(r) && OnePerUserDate(r)
  {
    var r := Resolver.ResolvedBookings(team, bs, month);
    forall userId, m ensures |UserBookings(r, userId, m)| <= 2 {
      UserBookingsSameKeys(r, bs, userId, m);
    }
    forall i, j | 0 <= i < j < |r| ensures r[i].userId != r[j].userId || r[i].date != r[j].date {
      assert SameKey(r[i], bs[i]) && SameKey(r[j], bs[j]);
    }
  }

  /** Removing a booking keeps both limits. */
  lemma RemoveKeepsLimits(bs: seq<Booking>, id: int)
    requires AtMostTwoPerMonth(bs) && OnePerUserDate(bs)
    ensures AtMostTwoPerMonth(Without(bs, id)) && OnePerUserDate(Without(bs, id))
  {
    forall userId, month ensures |UserBookings(Without(bs, id), userId, month)| <= 2 {
      UserBookingsWithout(bs, id, userId, month);
    }
    WithoutOnePerUserDate(bs, id);
  }

  lemma {:induction false} WithoutOnePerUserDate(bs: seq<Booking>, id: int)
    requires OnePerUserDate(bs)
    ensures OnePerUserDate(Without(bs, id))
  {
    if bs != [] {
      var n := |bs| - 1;
      var p, x := bs[..n], bs[n];
      assert bs == p + [x];
      assert OnePerUserDate(p) by {
        forall i, j | 0 <= i < j < |p| ensures p[i].userId != p[j].userId || p[i].date != p[j].date {
          assert p[i] == bs[i] && p[j] == bs[j];
        }
      }
      WithoutOnePerUserDate(p, id);
      var w := Without(p, id);
      if x.id != id {
        WithoutMembers(p, id);
        var w1 := w + [x];
        forall i, j | 0 <= i < j < |w1| ensures w1[i].userId != w1[j].userId || w1[i].date != w1[j].date {
          if j == |w| {
            assert w1[i] == w[i] && w[i] in p;
            var k :| 0 <= k < |p| && p[k] == w[i];
            assert bs[k] == w[i] && bs[n] == x;
          }
        }
      } else {
        assert w + [] == w;
      }
    }
  }

  /** In a consistent store every booking carries exactly one flag, so a
      member's confirmed and conflicted counts add up to their bookings of
      the month; within the two-booking limit, the remaining allowance is
      exactly what is left of two. */
  lemma StatusAddsUp(team: seq<TeamMember>, bs: seq<Booking>, fs: map<string, FinalSchedule>, name: string, month: string)
    requires Consistent(team, bs, fs)
    ensures var st := StatusOf(bs, name, month);
            st.confirmedDays + st.conflictedDays == |st.bookings|
    ensures AtMostTwoPerMonth(bs) ==>
              var st := StatusOf(bs, name, month);
              st.confirmedDays <= 2 && st.remainingDays == 2 - st.confirmedDays
  {
    var ub := UserBookings(bs, name, month);
    UserBookingsMembers(bs, name, month);
    assert forall b :: b in ub ==> FlagsOk(team, bs, b);
    CountsBound(ub);
  }
}
