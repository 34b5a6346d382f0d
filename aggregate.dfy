/** Performance records and the per-window sums that the improvement route
    asks the datastore for (`prisma.performance.aggregate` with `_sum`). */
module Aggregate {
  import opened Wrappers
  import opened Api
  import opened Windows

  /** One shooting session. The counts are whatever the client sent: the
      routes do not check that they are non-negative or that made <= attempted. */
  datatype Performance = Performance(id: nat, userId: UserId, shotsMade: int,
                                     shotsAttempted: int, date: int)

  /** The made and attempted sums of one period, nulls already replaced by 0. */
  datatype Totals = Totals(made: int, attempted: int)

  /** The list route's filter: that user's records, in store order. */
  function OfUser(records: seq<Performance>, userId: UserId): (s: seq<Performance>)
    ensures forall r :: r in s <==> r in records && r.userId == userId
    ensures |s| <= |records|
  {
    if records == [] then []
    else
      var rest := OfUser(records[1..], userId);
      if records[0].userId == userId then [records[0]] + rest else rest
  }

  predicate Matches(r: Performance, userId: UserId, w: Window) {
    r.userId == userId && InWindow(w, r.date)
  }

  /** The aggregate's `where`: that user's records dated inside the window. */
  function Select(records: seq<Performance>, userId: UserId, w: Window): (s: seq<Performance>)
    ensures forall r :: r in s <==> r in records && Matches(r, userId, w)
  {
    if records == [] then []
    else
      var rest := Select(records[1..], userId, w);
      if Matches(records[0], userId, w) then [records[0]] + rest else rest
  }

  function SumMade(s: seq<Performance>): int {
    if s == [] then 0 else s[0].shotsMade + SumMade(s[1..])
  }

  function SumAttempted(s: seq<Performance>): int {
    if s == [] then 0 else s[0].shotsAttempted + SumAttempted(s[1..])
  }

  /** What `_sum.shotsMade` or `_sum.shotsAttempted` reports for the matched
      `rows` whose sum is `sum`: SQL's SUM over no rows is null. */
  function SumOrNull(rows: seq<Performance>, sum: int): (r: Option<int>)
    ensures r.None? <==> rows == []
    ensures r.Some? ==> r.value == sum
  {
    if rows == [] then None else Some(sum)
  }

  /** `_sum.x ?? 0` for both sums over one window. */
  function PeriodTotals(records: seq<Performance>, userId: UserId, w: Window): Totals {
    var rows := Select(records, userId, w);
    Totals(SumOrNull(rows, SumMade(rows)).GetOr(0),
           SumOrNull(rows, SumAttempted(rows)).GetOr(0))
  }

  /** A period's totals are the sums over exactly that user's records dated
      in the window; a window with no such record gives (0, 0). */
  lemma PeriodTotalsAreSums(records: seq<Performance>, userId: UserId, w: Window)
    ensures var rows := Select(records, userId, w);
            PeriodTotals(records, userId, w) == Totals(SumMade(rows), SumAttempted(rows))
    ensures (forall r :: r in records ==> !Matches(r, userId, w))
            ==> PeriodTotals(records, userId, w) == Totals(0, 0)
  {
    var rows := Select(records, userId, w);
    if rows != [] {
      assert rows[0] in rows;
    }
  }

  /** Storing one more record changes a window's totals by that record's
      counts when it is that user's and dated in the window, and not at all
      otherwise. */
  lemma {:induction false} PeriodTotalsAppend(records: seq<Performance>, r: Performance,
                                              userId: UserId, w: Window)
    ensures var before := PeriodTotals(records, userId, w);
            PeriodTotals(records + [r], userId, w)
            == if Matches(r, userId, w)
               then Totals(before.made + r.shotsMade, before.attempted + r.shotsAttempted)
               else before
  {
    PeriodTotalsAreSums(records, userId, w);
    PeriodTotalsAreSums(records + [r], userId, w);
    SelectAppend(records, r, userId, w);
    var rows := Select(records, userId, w);
    if Matches(r, userId, w) {
      SumsAppend(rows, r);
    } else {
      assert rows + [] == rows;
    }
  }

  lemma {:induction false} SelectAppend(records: seq<Performance>, r: Performance,
                                        userId: UserId, w: Window)
    ensures Select(records + [r], userId, w)
            == Select(records, userId, w) + (if Matches(r, userId, w) then [r] else [])
  {
    if records != [] {
      assert (records + [r])[1..] == records[1..] + [r];
      SelectAppend(records[1..], r, userId, w);
    }
  }

  lemma {:induction false} SumsAppend(s: seq<Performance>, r: Performance)
    ensures SumMade(s + [r]) == SumMade(s) + r.shotsMade
    ensures SumAttempted(s + [r]) == SumAttempted(s) + r.shotsAttempted
  {
    if s != [] {
      assert (s + [r])[1..] == s[1..] + [r];
      SumsAppend(s[1..], r);
    }
  }

  /** Totals add up over two windows that split a third: a record falls in
      the union exactly when it falls in one of the two, and never in both. */
  lemma {:induction false} PeriodTotalsSplit(records: seq<Performance>, userId: UserId,
                                             a: Window, b: Window, union: Window)
    requires forall t :: InWindow(union, t) <==> InWindow(a, t) || InWindow(b, t)
    requires forall t :: !(InWindow(a, t) && InWindow(b, t))
    ensures var ta, tb := PeriodTotals(records, userId, a), PeriodTotals(records, userId, b);
            PeriodTotals(records, userId, union) == Totals(ta.made + tb.made, ta.attempted + tb.attempted)
    decreases |records|
  {
    if records != [] {
      var init := records[..|records| - 1];
      var last := records[|records| - 1];
      assert records == init + [last];
      PeriodTotalsSplit(init, userId, a, b, union);
      PeriodTotalsAppend(init, last, userId, a);
      PeriodTotalsAppend(init, last, userId, b);
      PeriodTotalsAppend(init, last, userId, union);
    } else {
      PeriodTotalsAreSums(records, userId, a);
      PeriodTotalsAreSums(records, userId, b);
      PeriodTotalsAreSums(records, userId, union);
    }
  }
}
