/** The booking ledger as a value: the bookings in the order they were
    inserted (the iteration order of the store's id-keyed map), and the
    queries and updates the store performs on it. */
module Ledger {
  import opened Schema

  /** Ids are handed out from an increasing counter, so insertion order is id order. */
  predicate IdsAscending(bs: seq<Booking>) {
    forall i, j :: 0 <= i < j < |bs| ==> bs[i].id < bs[j].id
  }

  predicate IdsBelow(bs: seq<Booking>, bound: int) {
    forall i :: 0 <= i < |bs| ==> bs[i].id < bound
  }

  /** `getBookings(month)`: the month's bookings, in ledger order. */
  function MonthBookings(bs: seq<Booking>, month: string): (r: seq<Booking>)
    ensures |r| <= |bs|
  {
    if bs == [] then []
    else
      var n := |bs| - 1;
      assert bs == bs[..n] + [bs[n]];
      MonthBookings(bs[..n], month) + (if bs[n].month == month then [bs[n]] else [])
  }

  /** The bookings for one date, in ledger order (one entry of `bookingsByDate`). */
  function OnDate(bs: seq<Booking>, date: string): (r: seq<Booking>)
    ensures |r| <= |bs|
  {
    if bs == [] then []
    else
      var n := |bs| - 1;
      assert bs == bs[..n] + [bs[n]];
      OnDate(bs[..n], date) + (if bs[n].date == date then [bs[n]] else [])
  }

  /** `getUserBookings(userId, month)`: one user's bookings in a month. */
  function UserBookings(bs: seq<Booking>, userId: string, month: string): (r: seq<Booking>)
    ensures |r| <= |bs|
  {
    if bs == [] then []
    else
      var n := |bs| - 1;
      assert bs == bs[..n] + [bs[n]];
      UserBookings(bs[..n], userId, month)
        + (if bs[n].userId == userId && bs[n].month == month then [bs[n]] else [])
  }

  lemma {:induction false} MonthBookingsMembers(bs: seq<Booking>, month: string)
    ensures forall b :: b in MonthBookings(bs, month) <==> b in bs && b.month == month
  {
    if bs != [] {
      var n := |bs| - 1;
      MonthBookingsMembers(bs[..n], month);
      assert bs == bs[..n] + [bs[n]];
    }
  }

  lemma {:induction false} OnDateMembers(bs: seq<Booking>, date: string)
    ensures forall b :: b in OnDate(bs, date) <==> b in bs && b.date == date
  {
    if bs != [] {
      var n := |bs| - 1;
      OnDateMembers(bs[..n], date);
      assert bs == bs[..n] + [bs[n]];
    }
  }

  lemma {:induction false} UserBookingsMembers(bs: seq<Booking>, userId: string, month: string)
    ensures forall b :: b in UserBookings(bs, userId, month) <==> b in bs && b.userId == userId && b.month == month
  {
    if bs != [] {
      var n := |bs| - 1;
      UserBookingsMembers(bs[..n], userId, month);
      assert bs == bs[..n] + [bs[n]];
    }
  }

  /** The distinct dates of `bs`, in order of first appearance (the key
      order of `bookingsByDate`). */
  function Dates(bs: seq<Booking>): (r: seq<string>)
  {
    if bs == [] then []
    else
      var n := |bs| - 1;
      assert bs == bs[..n] + [bs[n]];
      var p := Dates(bs[..n]);
      if bs[n].date in p then p else p + [bs[n].date]
  }

  /** A date is listed exactly when some booking carries it. */
  lemma {:induction false} DatesMember(bs: seq<Booking>, d: string)
    ensures d in Dates(bs) <==> exists b :: b in bs && b.date == d
  {
    if bs != [] {
      var n := |bs| - 1;
      var p := bs[..n];
      assert bs == p + [bs[n]];
      DatesMember(p, d);
      if d !in Dates(p) && bs[n].date != d {
        forall b | b in bs ensures b.date != d {
          assert b in p || b == bs[n];
        }
      }
    }
  }

  /** No date is listed twice. */
  lemma {:induction false} DatesDistinct(bs: seq<Booking>)
    ensures forall i, j :: 0 <= i < j < |Dates(bs)| ==> Dates(bs)[i] != Dates(bs)[j]
  {
    if bs != [] {
      var n := |bs| - 1;
      assert bs == bs[..n] + [bs[n]];
      DatesDistinct(bs[..n]);
    }
  }

  lemma DatesMembers(bs: seq<Booking>)
    ensures forall d :: d in Dates(bs) <==> exists b :: b in bs && b.date == d
  {
    forall d { DatesMember(bs, d); }
  }

  function DateSet(bs: seq<Booking>): set<string> {
    set b | b in bs :: b.date
  }

  /** `bookingsMap.get(id)` */
  function FindById(bs: seq<Booking>, id: int): (r: Option<Booking>)
    ensures r.None? <==> forall b :: b in bs ==> b.id != id
    ensures r.Some? ==> r.value in bs && r.value.id == id
  {
    if bs == [] then None
    else if bs[0].id == id then Some(bs[0])
    else FindById(bs[1..], id)
  }

  /** `updateBooking(id, {isConfirmed, isConflicted})` on the ledger. */
  function SetFlags(bs: seq<Booking>, id: int, confirmed: bool, conflicted: bool): (r: seq<Booking>)
    ensures |r| == |bs|
    ensures forall i :: 0 <= i < |bs| ==>
              r[i] == if bs[i].id == id then bs[i].(isConfirmed := confirmed, isConflicted := conflicted) else bs[i]
  {
    seq(|bs|, i requires 0 <= i < |bs| =>
      if bs[i].id == id then bs[i].(isConfirmed := confirmed, isConflicted := conflicted) else bs[i])
  }

  /** `deleteBooking(id)` on the ledger: every other booking stays, in order. */
  function Without(bs: seq<Booking>, id: int): (r: seq<Booking>)
    ensures |r| <= |bs|
  {
    if bs == [] then []
    else
      var n := |bs| - 1;
      assert bs == bs[..n] + [bs[n]];
      Without(bs[..n], id) + (if bs[n].id != id then [bs[n]] else [])
  }

  lemma {:induction false} WithoutMembers(bs: seq<Booking>, id: int)
    ensures forall b :: b in Without(bs, id) <==> b in bs && b.id != id
  {
    if bs != [] {
      var n := |bs| - 1;
      WithoutMembers(bs[..n], id);
      assert bs == bs[..n] + [bs[n]];
    }
  }

  /** The first booking of `bs` on `date` (`userBookings.find(b => b.date === date)`). */
  function FindOnDate(bs: seq<Booking>, date: string): (r: Option<Booking>)
    ensures r.None? <==> forall b :: b in bs ==> b.date != date
    ensures r.Some? ==> exists k :: 0 <= k < |bs| && bs[k] == r.value && r.value.date == date
                          && forall j :: 0 <= j < k ==> bs[j].date != date
  {
    if bs == [] then None
    else if bs[0].date == date then Some(bs[0])
    else
      var r := FindOnDate(bs[1..], date);
      if r.Some? then
        var k :| 0 <= k < |bs[1..]| && bs[1..][k] == r.value
                 && forall j :: 0 <= j < k ==> bs[1..][j].date != date;
        assert bs[k + 1] == r.value;
        r
      else r
  }

  // ---------------------------------------------------------------------
  // Ledgers that differ only in the two flags

  /** Same booking up to its flags. */
  predicate SameKey(a: Booking, b: Booking) {
    a.id == b.id && a.userId == b.userId && a.date == b.date && a.month == b.month
  }

  predicate SameKeys(s: seq<Booking>, t: seq<Booking>) {
    |s| == |t| && forall i :: 0 <= i < |s| ==> SameKey(s[i], t[i])
  }

  /** Rewriting flags keeps every key. */
  lemma SetFlagsSameKeys(bs: seq<Booking>, id: int, confirmed: bool, conflicted: bool)
    ensures SameKeys(SetFlags(bs, id, confirmed, conflicted), bs)
  {
  }

  /** Ledgers with the same keys have the same ids, in the same order. */
  lemma SameKeysIds(s: seq<Booking>, t: seq<Booking>, bound: int)
    requires SameKeys(s, t) && IdsAscending(t) && IdsBelow(t, bound)
    ensures IdsAscending(s) && IdsBelow(s, bound)
  {
    forall i, j | 0 <= i < j < |s| ensures s[i].id < s[j].id {
      assert SameKey(s[i], t[i]) && SameKey(s[j], t[j]);
    }
    forall i | 0 <= i < |s| ensures s[i].id < bound {
      assert SameKey(s[i], t[i]);
    }
  }

  lemma SameKeysConcat(a: seq<Booking>, b: seq<Booking>, c: seq<Booking>, d: seq<Booking>)
    requires SameKeys(a, b) && SameKeys(c, d)
    ensures SameKeys(a + c, b + d)
  {
  }

  lemma {:induction false} MonthBookingsSameKeys(s: seq<Booking>, t: seq<Booking>, month: string)
    requires SameKeys(s, t)
    ensures SameKeys(MonthBookings(s, month), MonthBookings(t, month))
  {
    if s != [] {
      var n := |s| - 1;
      assert SameKeys(s[..n], t[..n]);
      MonthBookingsSameKeys(s[..n], t[..n], month);
      assert SameKey(s[n], t[n]);
      SameKeysConcat(MonthBookings(s[..n], month), MonthBookings(t[..n], month),
        if s[n].month == month then [s[n]] else [], if t[n].month == month then [t[n]] else []);
    }
  }

  lemma {:induction false} OnDateSameKeys(s: seq<Booking>, t: seq<Booking>, date: string)
    requires SameKeys(s, t)
    ensures SameKeys(OnDate(s, date), OnDate(t, date))
  {
    if s != [] {
      var n := |s| - 1;
      assert SameKeys(s[..n], t[..n]);
      OnDateSameKeys(s[..n], t[..n], date);
      assert SameKey(s[n], t[n]);
      SameKeysConcat(OnDate(s[..n], date), OnDate(t[..n], date),
        if s[n].date == date then [s[n]] else [], if t[n].date == date then [t[n]] else []);
    }
  }

  lemma {:induction false} UserBookingsSameKeys(s: seq<Booking>, t: seq<Booking>, userId: string, month: string)
    requires SameKeys(s, t)
    ensures SameKeys(UserBookings(s, userId, month), UserBookings(t, userId, month))
  {
    if s != [] {
      var n := |s| - 1;
      assert SameKeys(s[..n], t[..n]);
      UserBookingsSameKeys(s[..n], t[..n], userId, month);
      assert SameKey(s[n], t[n]);
      SameKeysConcat(UserBookings(s[..n], userId, month), UserBookings(t[..n], userId, month),
        if s[n].userId == userId && s[n].month == month then [s[n]] else [], if t[n].userId == userId && t[n].month == month then [t[n]] else []);
    }
  }

  lemma {:induction false} DatesSameKeys(s: seq<Booking>, t: seq<Booking>)
    requires SameKeys(s, t)
    ensures Dates(s) == Dates(t)
  {
    if s != [] {
      var n := |s| - 1;
      DatesSameKeys(s[..n], t[..n]);
    }
  }

  lemma SameKeysDateSet(s: seq<Booking>, t: seq<Booking>)
    requires SameKeys(s, t)
    ensures DateSet(s) == DateSet(t)
  {
    forall d | d in DateSet(s) ensures d in DateSet(t) {
      var b :| b in s && b.date == d;
      var i :| 0 <= i < |s| && s[i] == b;
      assert t[i] in t;
    }
    forall d | d in DateSet(t) ensures d in DateSet(s) {
      var b :| b in t && b.date == d;
      var i :| 0 <= i < |t| && t[i] == b;
      assert s[i] in s;
    }
  }

  // ---------------------------------------------------------------------
  // Appending and removing bookings

  lemma MonthBookingsAppend(bs: seq<Booking>, x: Booking, month: string)
    ensures MonthBookings(bs + [x], month) == MonthBookings(bs, month) + (if x.month == month then [x] else [])
  {
    assert (bs + [x])[..|bs|] == bs;
  }

  lemma UserBookingsAppend(bs: seq<Booking>, x: Booking, userId: string, month: string)
    ensures UserBookings(bs + [x], userId, month)
         == UserBookings(bs, userId, month) + (if x.userId == userId && x.month == month then [x] else [])
  {
    assert (bs + [x])[..|bs|] == bs;
  }

  lemma OnDateAppend(bs: seq<Booking>, x: Booking, date: string)
    ensures OnDate(bs + [x], date) == OnDate(bs, date) + (if x.date == date then [x] else [])
  {
    assert (bs + [x])[..|bs|] == bs;
  }

  /** Filtering by month distributes over concatenation. */
  lemma {:induction false} MonthBookingsConcat(a: seq<Booking>, b: seq<Booking>, month: string)
    ensures MonthBookings(a + b, month) == MonthBookings(a, month) + MonthBookings(b, month)
  {
    if b == [] {
      assert a + b == a;
    } else {
      var n := |b| - 1;
      assert a + b == (a + b[..n]) + [b[n]];
      assert b == b[..n] + [b[n]];
      MonthBookingsConcat(a, b[..n], month);
      MonthBookingsAppend(a + b[..n], b[n], month);
      MonthBookingsAppend(b[..n], b[n], month);
    }
  }

  /** Grouping by date distributes over concatenation. */
  lemma {:induction false} OnDateConcat(a: seq<Booking>, b: seq<Booking>, date: string)
    ensures OnDate(a + b, date) == OnDate(a, date) + OnDate(b, date)
  {
    if b == [] {
      assert a + b == a;
    } else {
      var n := |b| - 1;
      assert a + b == (a + b[..n]) + [b[n]];
      assert b == b[..n] + [b[n]];
      OnDateConcat(a, b[..n], date);
      OnDateAppend(a + b[..n], b[n], date);
      OnDateAppend(b[..n], b[n], date);
    }
  }

  lemma WithoutAppend(bs: seq<Booking>, x: Booking, id: int)
    ensures Without(bs + [x], id) == Without(bs, id) + (if x.id != id then [x] else [])
  {
    assert (bs + [x])[..|bs|] == bs;
  }

  /** Filtering by month commutes with removing a booking. */
  lemma {:induction false} MonthBookingsWithout(bs: seq<Booking>, id: int, month: string)
    ensures MonthBookings(Without(bs, id), month) == Without(MonthBookings(bs, month), id)
  {
    if bs != [] {
      var n := |bs| - 1;
      var p, x := bs[..n], bs[n];
      assert bs == p + [x];
      MonthBookingsWithout(p, id, month);
      WithoutAppend(p, x, id);
      MonthBookingsAppend(p, x, month);
      var mb := MonthBookings(p, month);
      if x.id != id {
        MonthBookingsAppend(Without(p, id), x, month);
      }
      if x.month == month {
        WithoutAppend(mb, x, id);
      }
      assert mb + [] == mb;
      assert Without(p, id) + [] == Without(p, id);
      assert Without(mb, id) + [] == Without(mb, id);
      assert MonthBookings(Without(p, id), month) + [] == MonthBookings(Without(p, id), month);
    }
  }

  lemma {:induction false} UserBookingsWithout(bs: seq<Booking>, id: int, userId: string, month: string)
    ensures UserBookings(Without(bs, id), userId, month) == Without(UserBookings(bs, userId, month), id)
  {
    if bs != [] {
      var n := |bs| - 1;
      var p, x := bs[..n], bs[n];
      assert bs == p + [x];
      UserBookingsWithout(p, id, userId, month);
      WithoutAppend(p, x, id);
      UserBookingsAppend(p, x, userId, month);
      var ub := UserBookings(p, userId, month);
      if x.id != id {
        UserBookingsAppend(Without(p, id), x, userId, month);
      }
      if x.userId == userId && x.month == month {
        WithoutAppend(ub, x, id);
      }
      assert ub + [] == ub;
      assert Without(p, id) + [] == Without(p, id);
      assert Without(ub, id) + [] == Without(ub, id);
      assert UserBookings(Without(p, id), userId, month) + [] == UserBookings(Without(p, id), userId, month);
    }
  }

  /** Grouping by date commutes with removing a booking. */
  lemma {:induction false} OnDateWithout(bs: seq<Booking>, id: int, date: string)
    ensures OnDate(Without(bs, id), date) == Without(OnDate(bs, date), id)
  {
    if bs != [] {
      var n := |bs| - 1;
      var p, x := bs[..n], bs[n];
      assert bs == p + [x];
      OnDateWithout(p, id, date);
      WithoutAppend(p, x, id);
      OnDateAppend(p, x, date);
      var g := OnDate(p, date);
      if x.id != id {
        OnDateAppend(Without(p, id), x, date);
      }
      if x.date == date {
        WithoutAppend(g, x, id);
      }
      assert g + [] == g;
      assert Without(p, id) + [] == Without(p, id);
      assert Without(g, id) + [] == Without(g, id);
      assert OnDate(Without(p, id), date) + [] == OnDate(Without(p, id), date);
    }
  }

  /** Removing an id that does not occur changes nothing. */
  lemma {:induction false} WithoutAbsent(bs: seq<Booking>, id: int)
    requires forall b :: b in bs ==> b.id != id
    ensures Without(bs, id) == bs
  {
    if bs != [] {
      var n := |bs| - 1;
      var p := bs[..n];
      assert bs == p + [bs[n]];
      assert forall b :: b in p ==> b in bs;
      WithoutAbsent(p, id);
    }
  }

  /** Removing the id of a booking of a ledger with distinct ids removes
      exactly one booking. */
  lemma {:induction false} WithoutOne(bs: seq<Booking>, x: Booking)
    requires IdsAscending(bs) && x in bs
    ensures |Without(bs, x.id)| == |bs| - 1
  {
    var n := |bs| - 1;
    var p := bs[..n];
    assert bs == p + [bs[n]];
    if bs[n] == x {
      forall b | b in p ensures b.id != x.id {
        var k :| 0 <= k < |p| && p[k] == b;
        assert bs[k] == b;
      }
      WithoutAbsent(p, x.id);
    } else {
      assert x in p;
      var k :| 0 <= k < |p| && p[k] == x;
      assert bs[k] == x && bs[n].id != x.id;
      WithoutOne(p, x);
    }
  }

  lemma {:induction false} WithoutAscending(bs: seq<Booking>, id: int)
    requires IdsAscending(bs)
    ensures IdsAscending(Without(bs, id))
  {
    if bs != [] {
      var n := |bs| - 1;
      WithoutAscending(bs[..n], id);
      var w := Without(bs[..n], id);
      WithoutMembers(bs[..n], id);
      forall k | 0 <= k < |w| ensures w[k].id < bs[n].id {
        assert w[k] in bs[..n];
      }
    }
  }

  lemma {:induction false} MonthBookingsAscending(bs: seq<Booking>, month: string)
    requires IdsAscending(bs)
    ensures IdsAscending(MonthBookings(bs, month))
  {
    if bs != [] {
      var n := |bs| - 1;
      MonthBookingsAscending(bs[..n], month);
      var w := MonthBookings(bs[..n], month);
      MonthBookingsMembers(bs[..n], month);
      forall k | 0 <= k < |w| ensures w[k].id < bs[n].id {
        assert w[k] in bs[..n];
      }
    }
  }

  lemma {:induction false} OnDateAscending(bs: seq<Booking>, date: string)
    requires IdsAscending(bs)
    ensures IdsAscending(OnDate(bs, date))
  {
    if bs != [] {
      var n := |bs| - 1;
      OnDateAscending(bs[..n], date);
      var w := OnDate(bs[..n], date);
      OnDateMembers(bs[..n], date);
      forall k | 0 <= k < |w| ensures w[k].id < bs[n].id {
        assert w[k] in bs[..n];
      }
    }
  }

  lemma {:induction false} UserBookingsAscending(bs: seq<Booking>, userId: string, month: string)
    requires IdsAscending(bs)
    ensures IdsAscending(UserBookings(bs, userId, month))
  {
    if bs != [] {
      var n := |bs| - 1;
      UserBookingsAscending(bs[..n], userId, month);
      var w := UserBookings(bs[..n], userId, month);
      UserBookingsMembers(bs[..n], userId, month);
      forall k | 0 <= k < |w| ensures w[k].id < bs[n].id {
        assert w[k] in bs[..n];
      }
    }
  }

  /** Positions whose bookings have pairwise different dates name as many dates as there are positions. */
  lemma DatesOfPositions(s: seq<Booking>, ps: set<int>)
    requires forall i :: i in ps ==> 0 <= i < |s|
    requires forall i, j :: i in ps && j in ps && s[i].date == s[j].date ==> i == j
    ensures |set i | i in ps :: s[i].date| == |ps|
    decreases |ps|
  {
    if ps != {} {
      var x := PickPosition(ps);
      var rest := ps - {x};
      DatesOfPositions(s, rest);
      assert (set i | i in ps :: s[i].date) == (set i | i in rest :: s[i].date) + {s[x].date};
    }
  }

  /** Confirmed bookings with pairwise different dates have as many dates as bookings. */
  lemma ConfirmedDatesCount(s: seq<Booking>)
    requires forall i, j :: i in ConfirmedAt(s) && j in ConfirmedAt(s) && s[i].date == s[j].date ==> i == j
    ensures |ConfirmedDates(s)| == |ConfirmedAt(s)|
  {
    DatesOfPositions(s, ConfirmedAt(s));
    assert ConfirmedDates(s) == set i | i in ConfirmedAt(s) :: s[i].date;
  }

  /** Some position of a non-empty set. */
  lemma PickPosition(ps: set<int>) returns (x: int)
    requires ps != {}
    ensures x in ps
  {
    if forall y :: y !in ps {
      assert false;
    }
    x :| x in ps;
  }

  /** In a ledger with ascending ids each booking occurs once. */
  lemma AscendingOnce(bs: seq<Booking>, a: int)
    requires IdsAscending(bs) && 0 <= a < |bs|
    ensures multiset(bs)[bs[a]] == 1
  {
    var x := bs[a];
    assert bs == bs[..a] + [x] + bs[a + 1..];
    assert x !in bs[..a] && x !in bs[a + 1..] by {
      forall k | 0 <= k < |bs| && k != a ensures bs[k] != x {
        assert bs[k].id != x.id;
      }
    }
  }

  // ---------------------------------------------------------------------
  // Per-user counts

  /** The positions of the confirmed bookings in `s`. */
  function ConfirmedAt(s: seq<Booking>): set<int> {
    set i | 0 <= i < |s| && s[i].isConfirmed
  }

  /** The positions of the conflicted bookings in `s`. */
  function ConflictedAt(s: seq<Booking>): set<int> {
    set i | 0 <= i < |s| && s[i].isConflicted
  }

  /** The dates of the confirmed bookings in `s`. */
  function ConfirmedDates(s: seq<Booking>): set<string> {
    set i | 0 <= i < |s| && s[i].isConfirmed :: s[i].date
  }

  /** `filter(b => b.isConfirmed).length`: how many bookings of `s` are confirmed. */
  function CountConfirmed(s: seq<Booking>): (c: nat)
    ensures c <= |s|
    ensures c == |ConfirmedAt(s)|
  {
    if s == [] then 0
    else
      var n := |s| - 1;
      FlagsAtSnoc(s);
      CountConfirmed(s[..n]) + (if s[n].isConfirmed then 1 else 0)
  }

  /** `filter(b => b.isConflicted).length`: how many bookings of `s` are conflicted. */
  function CountConflicted(s: seq<Booking>): (c: nat)
    ensures c <= |s|
    ensures c == |ConflictedAt(s)|
  {
    if s == [] then 0
    else
      var n := |s| - 1;
      FlagsAtSnoc(s);
      CountConflicted(s[..n]) + (if s[n].isConflicted then 1 else 0)
  }

  /** Adding a booking at the end adds its position to the sets of the flags it carries. */
  lemma FlagsAtSnoc(s: seq<Booking>)
    requires s != []
    ensures var n := |s| - 1;
            && n !in ConfirmedAt(s[..n]) && n !in ConflictedAt(s[..n])
            && ConfirmedAt(s) == ConfirmedAt(s[..n]) + (if s[n].isConfirmed then {n} else {})
            && ConflictedAt(s) == ConflictedAt(s[..n]) + (if s[n].isConflicted then {n} else {})
  {
  }

  /** When no booking carries both flags, the two counts cannot exceed the
      number of bookings; when each carries exactly one, they add up to it. */
  lemma {:induction false} CountsBound(s: seq<Booking>)
    requires forall b :: b in s ==> !(b.isConfirmed && b.isConflicted)
    ensures CountConfirmed(s) + CountConflicted(s) <= |s|
    ensures (forall b :: b in s ==> b.isConfirmed != b.isConflicted) ==>
              CountConfirmed(s) + CountConflicted(s) == |s|
  {
    if s != [] {
      var n := |s| - 1;
      assert forall b :: b in s[..n] ==> b in s;
      CountsBound(s[..n]);
      assert s[n] in s;
    }
  }

  /** The status `getMonthlySchedule` reports for one member. */
  function StatusOf(bs: seq<Booking>, name: string, month: string): (st: UserBookingStatus)
    ensures st.userId == name
    ensures st.bookings == UserBookings(bs, name, month)
    ensures st.confirmedDays + st.remainingDays >= 2
    ensures st.remainingDays == 0 || st.confirmedDays + st.remainingDays == 2
    ensures st.confirmedDays <= |st.bookings| && st.conflictedDays <= |st.bookings|
    ensures st.confirmedDays == |set i | 0 <= i < |st.bookings| && st.bookings[i].isConfirmed|
    ensures st.conflictedDays == |set i | 0 <= i < |st.bookings| && st.bookings[i].isConflicted|
  {
    var ub := UserBookings(bs, name, month);
    var confirmed := CountConfirmed(ub);
    var conflicted := CountConflicted(ub);
    UserBookingStatus(name, confirmed, conflicted, if 2 - confirmed > 0 then 2 - confirmed else 0, ub)
  }

  // ---------------------------------------------------------------------
  // Business limits

  /** No user holds more than two bookings in any month. */
  ghost predicate AtMostTwoPerMonth(bs: seq<Booking>) {
    forall userId, month :: |UserBookings(bs, userId, month)| <= 2
  }

  /** No user holds two bookings for the same date. */
  predicate OnePerUserDate(bs: seq<Booking>) {
    forall i, j :: 0 <= i < j < |bs| ==> bs[i].userId != bs[j].userId || bs[i].date != bs[j].date
  }
}
