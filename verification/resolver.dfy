/** Conflict resolution as functions of the ledger: which booking wins each
    date of a month, the flags every booking of the month ends with, the
    final-schedule rows written and the conflict records emitted. The store's
    `ResolveConflicts` method is proved to compute exactly these. */
module Resolver {
  import opened Schema
  import opened Ledger
  import opened Directory
  import Sorting

  /** The sort key of a booking: its user's rank in the directory. */
  function RankKey(team: seq<TeamMember>): Booking -> int {
    (b: Booking) => Rank(team, b.userId)
  }

  /** One date's bookings in resolution order: ascending rank, and bookings
      of equal rank in insertion order. */
  function SortGroup(team: seq<TeamMember>, g: seq<Booking>): (r: seq<Booking>)
    ensures |r| == |g|
    ensures multiset(r) == multiset(g)
    ensures Sorting.SortedByKey(r, RankKey(team))
  {
    Sorting.SortPermutes(g, RankKey(team));
    Sorting.SortSorted(g, RankKey(team));
    Sorting.SortByKey(g, RankKey(team))
  }

  /** `b` is the booking that wins the date whose bookings are `g`. */
  predicate IsWinner(team: seq<TeamMember>, g: seq<Booking>, b: Booking) {
    g != [] && SortGroup(team, g)[0].id == b.id
  }

  /** The user the final schedule assigns to a date whose bookings are `g`. */
  function Assignee(team: seq<TeamMember>, g: seq<Booking>): string {
    if g == [] then "" else SortGroup(team, g)[0].userId
  }

  /** `bookings.map(b => b.userId)` */
  function UserIds(bs: seq<Booking>): (r: seq<string>)
    ensures |r| == |bs|
  {
    seq(|bs|, i requires 0 <= i < |bs| => bs[i].userId)
  }

  /** The record emitted for a contested date. */
  function Conflict(team: seq<TeamMember>, g: seq<Booking>, date: string): ConflictResolution
    requires g != []
  {
    var sorted := SortGroup(team, g);
    ConflictResolution(date, sorted[0].userId, UserIds(sorted[1..]))
  }

  /** The flags a booking of the month ends with: confirmed exactly when it
      wins its date, conflicted otherwise. */
  function Resolve1(team: seq<TeamMember>, mb: seq<Booking>, b: Booking): Booking {
    var w := IsWinner(team, OnDate(mb, b.date), b);
    b.(isConfirmed := w, isConflicted := !w)
  }

  /** The ledger after resolving `month`: the month's bookings get their
      resolved flags, every other booking is left as it was. */
  function ResolvedBookings(team: seq<TeamMember>, bs: seq<Booking>, month: string): (r: seq<Booking>)
    ensures SameKeys(r, bs)
    ensures forall i :: 0 <= i < |bs| && bs[i].month != month ==> r[i] == bs[i]
  {
    var mb := MonthBookings(bs, month);
    seq(|bs|, i requires 0 <= i < |bs| => if bs[i].month == month then Resolve1(team, mb, bs[i]) else bs[i])
  }

  /** A booking of the resolved month gets the flags its date's group gives it. */
  lemma ResolvedAt(team: seq<TeamMember>, bs: seq<Booking>, month: string, i: int)
    requires 0 <= i < |bs| && bs[i].month == month
    ensures ResolvedBookings(team, bs, month)[i] == Resolve1(team, MonthBookings(bs, month), bs[i])
  {
  }

  /** Who ends up confirmed, stated on the ledger alone: after resolving its
      month, a booking is confirmed exactly when no booking of its date has
      a better rank and every booking of its date inserted before it has a
      worse one; it is conflicted otherwise, and keeps its id, user, date
      and month. */
  lemma ResolvedWinsDate(team: seq<TeamMember>, bs: seq<Booking>, month: string, i: int)
    requires IdsAscending(bs) && 0 <= i < |bs| && bs[i].month == month
    ensures var r := ResolvedBookings(team, bs, month);
            && SameKey(r[i], bs[i])
            && r[i].isConflicted == !r[i].isConfirmed
            && (r[i].isConfirmed <==>
                  && (forall b :: b in bs && b.month == month && b.date == bs[i].date ==>
                        Rank(team, bs[i].userId) <= Rank(team, b.userId))
                  && (forall b :: b in bs[..i] && b.month == month && b.date == bs[i].date ==>
                        Rank(team, b.userId) > Rank(team, bs[i].userId)))
  {
    var x := bs[i];
    var mb := MonthBookings(bs, month);
    var g := OnDate(mb, x.date);
    var mb1 := MonthBookings(bs[..i], month);
    var g1 := OnDate(mb1, x.date);
    GroupAround(bs, month, i);
    ResolvedAt(team, bs, month, i);
    MonthBookingsAscending(bs, month);
    OnDateAscending(mb, x.date);
    WinnerAt(team, g, |g1|);
    MonthBookingsMembers(bs, month);
    OnDateMembers(mb, x.date);
    MonthBookingsMembers(bs[..i], month);
    OnDateMembers(mb1, x.date);
  }

  /** Around a booking of the month, its date's group is the group of the
      ledger before it, then the booking itself, then the rest. */
  lemma GroupAround(bs: seq<Booking>, month: string, i: int)
    requires 0 <= i < |bs| && bs[i].month == month
    ensures var g := OnDate(MonthBookings(bs, month), bs[i].date);
            var g1 := OnDate(MonthBookings(bs[..i], month), bs[i].date);
            |g1| < |g| && g[|g1|] == bs[i] && g[..|g1|] == g1
  {
    var x := bs[i];
    var rest := bs[i + 1..];
    assert bs == bs[..i] + ([x] + rest);
    MonthBookingsConcat(bs[..i], [x] + rest, month);
    MonthBookingsConcat([x], rest, month);
    MonthBookingsAppend([], x, month);
    assert [] + [x] == [x];
    var m1, m2 := MonthBookings(bs[..i], month), MonthBookings(rest, month);
    assert MonthBookings(bs, month) == m1 + ([x] + m2);
    OnDateConcat(m1, [x] + m2, x.date);
    OnDateConcat([x], m2, x.date);
    OnDateAppend([], x, x.date);
  }

  /** In a group with distinct ids, the booking at `p` wins exactly when no
      booking of the group has a better rank and every earlier one has a
      worse one. */
  lemma WinnerAt(team: seq<TeamMember>, g: seq<Booking>, p: int)
    requires IdsAscending(g) && 0 <= p < |g|
    ensures IsWinner(team, g, g[p]) <==>
              && (forall b :: b in g ==> Rank(team, g[p].userId) <= Rank(team, b.userId))
              && (forall b :: b in g[..p] ==> Rank(team, b.userId) > Rank(team, g[p].userId))
  {
    WinnerPosition(team, g, p);
    Sorting.FirstMinAt(g, RankKey(team), p);
    RanksAsKeys(team, g, p);
  }

  /** The rank conditions on bookings are the key conditions on positions. */
  lemma RanksAsKeys(team: seq<TeamMember>, g: seq<Booking>, p: int)
    requires 0 <= p < |g|
    ensures var key := RankKey(team);
            && ((forall b :: b in g ==> Rank(team, g[p].userId) <= Rank(team, b.userId))
                <==> (forall q :: 0 <= q < |g| ==> key(g[p]) <= key(g[q])))
            && ((forall b :: b in g[..p] ==> Rank(team, b.userId) > Rank(team, g[p].userId))
                <==> (forall q :: 0 <= q < p ==> key(g[q]) > key(g[p])))
  {
    forall q | 0 <= q < p ensures g[..p][q] == g[q] { }
  }

  /** With distinct ids, the winner is the group's first minimum. */
  lemma WinnerPosition(team: seq<TeamMember>, g: seq<Booking>, p: int)
    requires IdsAscending(g) && 0 <= p < |g|
    ensures IsWinner(team, g, g[p]) <==> Sorting.FirstMinIndex(g, RankKey(team)) == p
  {
    var k := Sorting.FirstMinIndex(g, RankKey(team));
    Sorting.SortHead(g, RankKey(team));
    assert SortGroup(team, g)[0] == g[k];
  }

  /** The final schedule after `setFinalSchedule` ran for each of `dates` in
      turn, taking ids `nextId`, `nextId + 1`, ... */
  function ScheduleAfter(fs: map<string, FinalSchedule>, team: seq<TeamMember>, mb: seq<Booking>,
                         dates: seq<string>, month: string, nextId: int): (r: map<string, FinalSchedule>)
    ensures forall d :: d in r <==> d in fs || d in dates
    ensures forall d :: d in dates ==>
              && r[d].date == d && r[d].month == month
              && r[d].assignedTo == Assignee(team, OnDate(mb, d))
              && nextId <= r[d].id < nextId + |dates|
    ensures forall d :: d in fs && d !in dates ==> r[d] == fs[d]
  {
    if dates == [] then fs
    else
      var n := |dates| - 1;
      var d := dates[n];
      var prev := ScheduleAfter(fs, team, mb, dates[..n], month, nextId);
      SnocMembers(dates, n);
      prev[d := FinalSchedule(nextId + n, d, Assignee(team, OnDate(mb, d)), month)]
  }

  /** With distinct dates, the row of the `k`-th date carries the `k`-th id
      drawn from the counter. */
  lemma {:induction false} ScheduleIdsInOrder(fs: map<string, FinalSchedule>, team: seq<TeamMember>, mb: seq<Booking>,
                                              dates: seq<string>, month: string, nextId: int)
    requires DistinctDates(dates)
    ensures var r := ScheduleAfter(fs, team, mb, dates, month, nextId);
            forall k :: 0 <= k < |dates| ==> dates[k] in r && r[dates[k]].id == nextId + k
  {
    if dates != [] {
      var n := |dates| - 1;
      DistinctPrefix(dates, n);
      ScheduleIdsInOrder(fs, team, mb, dates[..n], month, nextId);
      ScheduleAfterSnoc(fs, team, mb, dates, month, nextId);
      RowIdsStep(ScheduleAfter(fs, team, mb, dates[..n], month, nextId), ScheduleAfter(fs, team, mb, dates, month, nextId),
                 dates, FinalSchedule(nextId + n, dates[n], Assignee(team, OnDate(mb, dates[n])), month), nextId);
    }
  }

  /** Writing the last date's row with the next id keeps the earlier dates' ids. */
  lemma RowIdsStep(prev: map<string, FinalSchedule>, r: map<string, FinalSchedule>, dates: seq<string>, row: FinalSchedule, nextId: int)
    requires |dates| > 0 && DistinctDates(dates)
    requires r == prev[dates[|dates| - 1] := row] && row.id == nextId + |dates| - 1
    requires var n := |dates| - 1;
             forall k :: 0 <= k < n ==> dates[..n][k] in prev && prev[dates[..n][k]].id == nextId + k
    ensures forall k :: 0 <= k < |dates| ==> dates[k] in r && r[dates[k]].id == nextId + k
  {
    var n := |dates| - 1;
    forall k | 0 <= k < |dates| ensures dates[k] in r && r[dates[k]].id == nextId + k {
      if k < n {
        assert dates[k] == dates[..n][k] && dates[k] != dates[n];
      }
    }
  }

  /** One more date writes one more row, with the next id, over the earlier ones. */
  lemma ScheduleAfterSnoc(fs: map<string, FinalSchedule>, team: seq<TeamMember>, mb: seq<Booking>,
                          ds: seq<string>, month: string, nextId: int)
    requires ds != []
    ensures var n := |ds| - 1;
            ScheduleAfter(fs, team, mb, ds, month, nextId)
            == ScheduleAfter(fs, team, mb, ds[..n], month, nextId)[ds[n] := FinalSchedule(nextId + n, ds[n], Assignee(team, OnDate(mb, ds[n])), month)]
  {
  }

  /** A prefix of distinct dates has distinct dates. */
  lemma DistinctPrefix(dates: seq<string>, n: int)
    requires DistinctDates(dates) && 0 <= n <= |dates|
    ensures DistinctDates(dates[..n])
  {
    forall i, j | 0 <= i < j < n ensures dates[..n][i] != dates[..n][j] {
      assert dates[i] != dates[j];
    }
  }

  /** The elements of a non-empty sequence: those of its prefix, and its last. */
  lemma SnocMembers<T>(s: seq<T>, n: nat)
    requires n == |s| - 1
    ensures forall e :: e in s <==> e in s[..n] || e == s[n]
  {
    assert s == s[..n] + [s[n]];
  }

  /** The conflict records emitted while processing `dates` in turn: one per
      date with two or more bookings. */
  function ConflictsAfter(team: seq<TeamMember>, mb: seq<Booking>, dates: seq<string>): (r: seq<ConflictResolution>)
    ensures |r| <= |dates|
    ensures forall c :: c in r ==> c.date in dates && |OnDate(mb, c.date)| > 1 && c == Conflict(team, OnDate(mb, c.date), c.date)
    ensures forall d :: d in dates && |OnDate(mb, d)| > 1 ==> exists c :: c in r && c.date == d
  {
    if dates == [] then []
    else
      var n := |dates| - 1;
      var d := dates[n];
      var g := OnDate(mb, d);
      var prev := ConflictsAfter(team, mb, dates[..n]);
      SnocMembers(dates, n);
      prev + (if |g| > 1 then [Conflict(team, g, d)] else [])
  }

  /** The position of `x` in `s` (the first index holding it). */
  function IndexOf(s: seq<string>, x: string): (k: nat)
    requires x in s
    ensures k < |s| && s[k] == x
  {
    if s[0] == x then 0 else 1 + IndexOf(s[1..], x)
  }

  predicate DistinctDates(dates: seq<string>) {
    forall i, j :: 0 <= i < j < |dates| ==> dates[i] != dates[j]
  }

  /** Every record's date is among `dates`, and the records come in the
      order of their dates' positions there. */
  predicate InDateOrder(r: seq<ConflictResolution>, dates: seq<string>) {
    && (forall c :: c in r ==> c.date in dates)
    && forall a, b :: 0 <= a < b < |r| ==> IndexOf(dates, r[a].date) < IndexOf(dates, r[b].date)
  }

  /** The records come in the order their dates were processed, so no date
      gets two records when the dates are distinct, as the keys of the
      grouping map are. */
  lemma {:induction false} ConflictsInDateOrder(team: seq<TeamMember>, mb: seq<Booking>, dates: seq<string>)
    requires DistinctDates(dates)
    ensures InDateOrder(ConflictsAfter(team, mb, dates), dates)
    ensures var r := ConflictsAfter(team, mb, dates);
            forall a, b :: 0 <= a < b < |r| ==> r[a].date != r[b].date
  {
    var r := ConflictsAfter(team, mb, dates);
    if dates != [] {
      var n := |dates| - 1;
      var prev := ConflictsAfter(team, mb, dates[..n]);
      assert DistinctDates(dates[..n]) by {
        forall i, j | 0 <= i < j < n ensures dates[..n][i] != dates[..n][j] {
          assert dates[..n][i] == dates[i] && dates[..n][j] == dates[j];
        }
      }
      ConflictsInDateOrder(team, mb, dates[..n]);
      var d := dates[n];
      var g := OnDate(mb, d);
      var tail := if |g| > 1 then [Conflict(team, g, d)] else [];
      assert r == prev + tail;
      OrderSnoc(prev, tail, dates, n);
    }
    forall a, b | 0 <= a < b < |r| ensures r[a].date != r[b].date {
      assert r[a] in r && r[b] in r;
    }
  }

  /** One more processed date keeps the records in order. */
  lemma OrderSnoc(prev: seq<ConflictResolution>, tail: seq<ConflictResolution>, dates: seq<string>, n: nat)
    requires n == |dates| - 1 && DistinctDates(dates)
    requires InDateOrder(prev, dates[..n])
    requires |tail| <= 1 && forall c :: c in tail ==> c.date == dates[n]
    ensures InDateOrder(prev + tail, dates)
  {
    var r := prev + tail;
    forall c | c in r ensures c.date in dates {
      if c in prev {
        var k := IndexOf(dates[..n], c.date);
        assert dates[k] == c.date;
      }
    }
    forall a, b | 0 <= a < b < |r|
      ensures IndexOf(dates, r[a].date) < IndexOf(dates, r[b].date)
    {
      assert r[a] == prev[a] && prev[a] in prev;
      SameIndex(dates, n, r[a].date);
      if b < |prev| {
        assert r[b] == prev[b] && prev[b] in prev;
        SameIndex(dates, n, r[b].date);
      } else {
        assert r[b] == tail[0] && tail[0] in tail;
        assert IndexOf(dates, dates[n]) == n;
      }
    }
  }

  /** In distinct dates, a date of a prefix sits at the same position in the whole. */
  lemma SameIndex(dates: seq<string>, n: nat, x: string)
    requires n <= |dates| && DistinctDates(dates) && x in dates[..n]
    ensures x in dates && IndexOf(dates[..n], x) == IndexOf(dates, x)
  {
    var k := IndexOf(dates[..n], x);
    assert dates[k] == x;
  }

  // ---------------------------------------------------------------------
  // Who wins

  /** The winner of a date is its earliest booking among those of smallest
      rank: it is one of the date's bookings, no booking outranks it, and
      every booking inserted before it has a strictly worse rank. */
  lemma WinnerIsFirstMinimum(team: seq<TeamMember>, g: seq<Booking>)
    requires g != []
    ensures exists k :: 0 <= k < |g| && SortGroup(team, g)[0] == g[k]
                && (forall i :: 0 <= i < |g| ==> Rank(team, g[k].userId) <= Rank(team, g[i].userId))
                && (forall i :: 0 <= i < k ==> Rank(team, g[i].userId) > Rank(team, g[k].userId))
  {
    var key := RankKey(team);
    Sorting.SortHead(g, key);
    var k := Sorting.FirstMinIndex(g, key);
    assert SortGroup(team, g)[0] == g[k];
    forall i | 0 <= i < |g| ensures Rank(team, g[k].userId) <= Rank(team, g[i].userId) {
      assert key(g[k]) <= key(g[i]);
    }
    forall i | 0 <= i < k ensures Rank(team, g[i].userId) > Rank(team, g[k].userId) {
      assert key(g[i]) > key(g[k]);
    }
  }

  /** The losers keep their relative insertion order among equal ranks. */
  lemma LosersStable(team: seq<TeamMember>, g: seq<Booking>, rank: int)
    ensures Sorting.WithKey(SortGroup(team, g), RankKey(team), rank) == Sorting.WithKey(g, RankKey(team), rank)
  {
    Sorting.SortStable(g, RankKey(team), rank);
  }

  /** Sorting a group with distinct ids keeps the ids distinct, so the
      winner and each loser are different bookings. */
  lemma SortGroupIdsDistinct(team: seq<TeamMember>, g: seq<Booking>)
    requires IdsAscending(g)
    ensures var s := SortGroup(team, g);
            forall a, b :: 0 <= a < b < |s| ==> s[a].id != s[b].id
  {
    var s := SortGroup(team, g);
    forall a, b | 0 <= a < b < |s| ensures s[a].id != s[b].id {
      if s[a].id == s[b].id {
        assert s[a] in multiset(g) && s[b] in multiset(g);
        var i :| 0 <= i < |g| && g[i] == s[a];
        var j :| 0 <= j < |g| && g[j] == s[b];
        assert i == j;
        Directory.Occurrences(s, a, b);
        AscendingOnce(g, i);
        assert false;
      }
    }
  }

  // ---------------------------------------------------------------------
  // Resolution depends on the bookings' keys only, not on their old flags

  lemma {:induction false} InsertSameKeys(team: seq<TeamMember>, x: Booking, y: Booking, s: seq<Booking>, t: seq<Booking>)
    requires SameKey(x, y) && SameKeys(s, t)
    ensures SameKeys(Sorting.Insert(x, s, RankKey(team)), Sorting.Insert(y, t, RankKey(team)))
  {
    var key := RankKey(team);
    assert key(x) == key(y);
    if s == [] || key(x) <= key(s[0]) {
      if s != [] {
        assert key(s[0]) == key(t[0]);
      }
      SameKeysConcat([x], [y], s, t);
    } else {
      assert key(s[0]) == key(t[0]);
      InsertSameKeys(team, x, y, s[1..], t[1..]);
      SameKeysConcat([s[0]], [t[0]], Sorting.Insert(x, s[1..], key), Sorting.Insert(y, t[1..], key));
    }
  }

  lemma {:induction false} SortSameKeys(team: seq<TeamMember>, s: seq<Booking>, t: seq<Booking>)
    requires SameKeys(s, t)
    ensures SameKeys(Sorting.SortByKey(s, RankKey(team)), Sorting.SortByKey(t, RankKey(team)))
  {
    if s != [] {
      SortSameKeys(team, s[1..], t[1..]);
      InsertSameKeys(team, s[0], t[0], Sorting.SortByKey(s[1..], RankKey(team)), Sorting.SortByKey(t[1..], RankKey(team)));
    }
  }

  /** Two groups that differ only in flags have the same winner, assignee
      and conflict record. */
  lemma SameGroupsSameOutcome(team: seq<TeamMember>, g: seq<Booking>, h: seq<Booking>, date: string)
    requires SameKeys(g, h)
    ensures Assignee(team, g) == Assignee(team, h)
    ensures forall b :: IsWinner(team, g, b) == IsWinner(team, h, b)
    ensures g != [] ==> Conflict(team, g, date) == Conflict(team, h, date)
  {
    SortSameKeys(team, g, h);
    if g != [] {
      var sg, sh := SortGroup(team, g), SortGroup(team, h);
      assert SameKey(sg[0], sh[0]);
      assert UserIds(sg[1..]) == UserIds(sh[1..]) by {
        forall i | 0 <= i < |sg| - 1 ensures UserIds(sg[1..])[i] == UserIds(sh[1..])[i] {
          assert SameKey(sg[i + 1], sh[i + 1]);
        }
      }
    }
  }

  /** The date groups of two month ledgers that differ only in flags. */
  lemma SameLedgersSameGroups(s: seq<Booking>, t: seq<Booking>, month: string, date: string)
    requires SameKeys(s, t)
    ensures SameKeys(OnDate(MonthBookings(s, month), date), OnDate(MonthBookings(t, month), date))
  {
    MonthBookingsSameKeys(s, t, month);
    OnDateSameKeys(MonthBookings(s, month), MonthBookings(t, month), date);
  }

  lemma {:induction false} ConflictsSameKeys(team: seq<TeamMember>, mb: seq<Booking>, mc: seq<Booking>, dates: seq<string>)
    requires SameKeys(mb, mc)
    ensures ConflictsAfter(team, mb, dates) == ConflictsAfter(team, mc, dates)
  {
    if dates != [] {
      var n := |dates| - 1;
      ConflictsSameKeys(team, mb, mc, dates[..n]);
      OnDateSameKeys(mb, mc, dates[n]);
      SameGroupsSameOutcome(team, OnDate(mb, dates[n]), OnDate(mc, dates[n]), dates[n]);
    }
  }

  // ---------------------------------------------------------------------
  // Properties of one resolution

  /** After resolving a month, each booked date of it has exactly one
      confirmed booking, the winner; every booking of the month carries
      exactly one of the two flags. */
  lemma OneWinnerPerDate(team: seq<TeamMember>, bs: seq<Booking>, month: string, date: string)
    requires IdsAscending(bs)
    requires exists i :: 0 <= i < |bs| && bs[i].month == month && bs[i].date == date
    ensures var r := ResolvedBookings(team, bs, month);
            && (exists i :: 0 <= i < |r| && r[i].month == month && r[i].date == date && r[i].isConfirmed)
            && (forall i, j :: (0 <= i < |r| && 0 <= j < |r| && r[i].month == month && r[i].date == date
                  && r[j].month == month && r[j].date == date && r[i].isConfirmed && r[j].isConfirmed) ==> i == j)
            && (forall i :: 0 <= i < |r| && r[i].month == month ==> r[i].isConfirmed != r[i].isConflicted)
  {
    var r := ResolvedBookings(team, bs, month);
    var mb := MonthBookings(bs, month);
    assert exists i :: 0 <= i < |r| && r[i].month == month && r[i].date == date && r[i].isConfirmed by {
      var w := WinnerOf(team, bs, month, date);
      var k :| 0 <= k < |bs| && bs[k] == w;
      ResolvedAt(team, bs, month, k);
    }
    assert forall i, j :: (0 <= i < |r| && 0 <= j < |r| && r[i].month == month && r[i].date == date
              && r[j].month == month && r[j].date == date && r[i].isConfirmed && r[j].isConfirmed) ==> i == j by {
      forall i, j | 0 <= i < |r| && 0 <= j < |r| && r[i].month == month && r[i].date == date
                    && r[j].month == month && r[j].date == date && r[i].isConfirmed && r[j].isConfirmed
        ensures i == j
      {
        ResolvedAt(team, bs, month, i);
        ResolvedAt(team, bs, month, j);
        ConfirmedIsUnique(team, bs, mb, i, j);
      }
    }
  }

  /** Two bookings confirmed for one date are the same booking: both carry
      the winner's id, and ids are distinct. */
  lemma ConfirmedIsUnique(team: seq<TeamMember>, bs: seq<Booking>, mb: seq<Booking>, i: int, j: int)
    requires IdsAscending(bs) && 0 <= i < |bs| && 0 <= j < |bs| && bs[i].date == bs[j].date
    requires Resolve1(team, mb, bs[i]).isConfirmed && Resolve1(team, mb, bs[j]).isConfirmed
    ensures i == j
  {
  }

  /** A booked date of the month has a winner, and it is one of the ledger's bookings of that date. */
  lemma WinnerOf(team: seq<TeamMember>, bs: seq<Booking>, month: string, date: string) returns (w: Booking)
    requires exists i :: 0 <= i < |bs| && bs[i].month == month && bs[i].date == date
    ensures OnDate(MonthBookings(bs, month), date) != []
    ensures w == SortGroup(team, OnDate(MonthBookings(bs, month), date))[0]
    ensures w in bs && w.month == month && w.date == date
  {
    var mb := MonthBookings(bs, month);
    var g := OnDate(mb, date);
    MonthBookingsMembers(bs, month);
    OnDateMembers(mb, date);
    var i0 :| 0 <= i0 < |bs| && bs[i0].month == month && bs[i0].date == date;
    assert bs[i0] in mb;
    assert bs[i0] in g;
    w := SortGroup(team, g)[0];
    assert w in multiset(g);
    assert w in g;
  }

  /** Resolving twice in a row, with nothing in between, gives the same
      flags, the same conflict list and the same assignments: only the ids
      of the rewritten schedule rows differ. */
  lemma ResolveIdempotent(team: seq<TeamMember>, bs: seq<Booking>, fs: map<string, FinalSchedule>,
                          month: string, id0: int, id1: int)
    ensures var r1 := ResolvedBookings(team, bs, month);
            var mb, mb1 := MonthBookings(bs, month), MonthBookings(r1, month);
            var fs1 := ScheduleAfter(fs, team, mb, Dates(mb), month, id0);
            var fs2 := ScheduleAfter(fs1, team, mb1, Dates(mb1), month, id1);
            && ResolvedBookings(team, r1, month) == r1
            && Dates(mb1) == Dates(mb)
            && ConflictsAfter(team, mb1, Dates(mb1)) == ConflictsAfter(team, mb, Dates(mb))
            && fs2.Keys == fs1.Keys
            && forall d :: d in fs1 ==> fs2[d].(id := 0) == fs1[d].(id := 0)
  {
    var r1 := ResolvedBookings(team, bs, month);
    var mb, mb1 := MonthBookings(bs, month), MonthBookings(r1, month);
    MonthBookingsSameKeys(r1, bs, month);
    DatesSameKeys(mb1, mb);
    ConflictsSameKeys(team, mb1, mb, Dates(mb));
    var r2 := ResolvedBookings(team, r1, month);
    forall i | 0 <= i < |r1| ensures r2[i] == r1[i] {
      if r1[i].month == month {
        OnDateSameKeys(mb1, mb, r1[i].date);
        SameGroupsSameOutcome(team, OnDate(mb1, r1[i].date), OnDate(mb, r1[i].date), r1[i].date);
      }
    }
    var fs1 := ScheduleAfter(fs, team, mb, Dates(mb), month, id0);
    var fs2 := ScheduleAfter(fs1, team, mb1, Dates(mb1), month, id1);
    forall d | d in fs1 ensures fs2[d].(id := 0) == fs1[d].(id := 0) {
      if d in Dates(mb) {
        OnDateSameKeys(mb1, mb, d);
        SameGroupsSameOutcome(team, OnDate(mb1, d), OnDate(mb, d), d);
      }
    }
  }
}
