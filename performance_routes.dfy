/** The three handlers of routes/performance.js: adding a session, listing a
    user's sessions newest first, and the daily, weekly and monthly
    accuracy improvements. */
module PerformanceRoutes {
  import opened Wrappers
  import opened Api
  import opened JsDate
  import opened Windows
  import opened Aggregate
  import opened Improvement

  /** The body of a successful improvement reply; `None` is JSON `null`. */
  datatype ImprovementReport = ImprovementReport(daily: Option<real>, weekly: Option<real>,
                                                 monthly: Option<real>)

  /** The improvement figure of one pair of windows. */
  function PairImprovement(records: seq<Performance>, userId: UserId, p: PeriodPair): Option<real> {
    PeriodImprovement(PeriodTotals(records, userId, p.current),
                      PeriodTotals(records, userId, p.previous))
  }

  /** `GET /improvement/:userId` at instant `now`, over the user table's ids
      `users` and the stored `records`. */
  function GetImprovement(users: set<UserId>, records: seq<Performance>, userId: UserId,
                          now: int): (r: Reply<ImprovementReport>)
    ensures r.Err? <==> userId !in users
    ensures r.Err? ==> r.status == NOT_FOUND
    ensures r.Ok? ==> r.status == OK
  {
    if userId !in users then Err(NOT_FOUND)
    else
      Ok(OK, ImprovementReport(PairImprovement(records, userId, DailyPair(now)),
                               PairImprovement(records, userId, WeeklyPair(now)),
                               PairImprovement(records, userId, MonthlyPair(now))))
  }

  /** For an unknown user the reply is 404 whatever the records and the
      time: nothing is aggregated. */
  lemma UnknownUserIgnoresRecords(users: set<UserId>, records1: seq<Performance>,
                                  records2: seq<Performance>, userId: UserId, now1: int, now2: int)
    requires userId !in users
    ensures GetImprovement(users, records1, userId, now1) == Err(NOT_FOUND)
    ensures GetImprovement(users, records1, userId, now1)
            == GetImprovement(users, records2, userId, now2)
  {
  }

  /** Each figure is null exactly when its current or its previous period
      has no positive attempted sum over that user's records in the window. */
  lemma ImprovementReportGating(users: set<UserId>, records: seq<Performance>, userId: UserId,
                                now: int)
    requires userId in users
    ensures var rep := GetImprovement(users, records, userId, now).body;
            var d, w, m := DailyPair(now), WeeklyPair(now), MonthlyPair(now);
            && (rep.daily.None? <==>
                  (SumAttempted(Select(records, userId, d.current)) <= 0
                   || SumAttempted(Select(records, userId, d.previous)) <= 0))
            && (rep.weekly.None? <==>
                  (SumAttempted(Select(records, userId, w.current)) <= 0
                   || SumAttempted(Select(records, userId, w.previous)) <= 0))
            && (rep.monthly.None? <==>
                  (SumAttempted(Select(records, userId, m.current)) <= 0
                   || SumAttempted(Select(records, userId, m.previous)) <= 0))
  {
    var d, w, m := DailyPair(now), WeeklyPair(now), MonthlyPair(now);
    PeriodTotalsAreSums(records, userId, d.current);
    PeriodTotalsAreSums(records, userId, d.previous);
    PeriodTotalsAreSums(records, userId, w.current);
    PeriodTotalsAreSums(records, userId, w.previous);
    PeriodTotalsAreSums(records, userId, m.current);
    PeriodTotalsAreSums(records, userId, m.previous);
  }

  /** The span from the previous period's start to the current period's end:
      the two windows of a pair placed end to end. */
  function Span(p: PeriodPair): Window {
    Window(p.previous.start, p.current.end, p.current.endInclusive)
  }

  /** When the previous window of a pair runs up to the start of the current
      one, the totals over the whole span are the two periods' totals added:
      every record of the span is counted in exactly one of the two. */
  lemma ConsecutiveTotals(records: seq<Performance>, userId: UserId, p: PeriodPair)
    requires Precedes(p.previous, p.current) && p.current.start <= p.current.end
    ensures var tc, tp := PeriodTotals(records, userId, p.current),
                          PeriodTotals(records, userId, p.previous);
            PeriodTotals(records, userId, Span(p))
            == Totals(tp.made + tc.made, tp.attempted + tc.attempted)
  {
    assert forall t :: InWindow(Span(p), t) <==> InWindow(p.previous, t) || InWindow(p.current, t);
    assert forall t :: !(InWindow(p.previous, t) && InWindow(p.current, t));
    PeriodTotalsSplit(records, userId, p.previous, p.current, Span(p));
  }

  /** Yesterday and today split the two days from yesterday's midnight. */
  lemma DailyTotalsAddUp(records: seq<Performance>, userId: UserId, now: int)
    ensures var p := DailyPair(now);
            var tc, tp := PeriodTotals(records, userId, p.current),
                          PeriodTotals(records, userId, p.previous);
            && Span(p) == Window(p.current.start - MsPerDay, p.current.start + MsPerDay, false)
            && PeriodTotals(records, userId, Span(p))
               == Totals(tp.made + tc.made, tp.attempted + tc.attempted)
  {
    DailyWindows(now);
    ConsecutiveTotals(records, userId, DailyPair(now));
  }

  /** The previous week and the week so far split the span from the
      previous week's Monday up to `now`. */
  lemma WeeklyTotalsAddUp(records: seq<Performance>, userId: UserId, now: int)
    ensures var p := WeeklyPair(now);
            var tc, tp := PeriodTotals(records, userId, p.current),
                          PeriodTotals(records, userId, p.previous);
            && Span(p) == Window(StartOfWeek(now) - 7 * MsPerDay, now, true)
            && PeriodTotals(records, userId, Span(p))
               == Totals(tp.made + tc.made, tp.attempted + tc.attempted)
  {
    WeeklyWindows(now);
    ConsecutiveTotals(records, userId, WeeklyPair(now));
  }

  /** The previous month and the month so far split the span from the 1st
      of the previous month up to `now`. */
  lemma MonthlyTotalsAddUp(records: seq<Performance>, userId: UserId, now: int)
    requires FullYear(now) < 0 || 99 < FullYear(now)
    ensures var p := MonthlyPair(now);
            var tc, tp := PeriodTotals(records, userId, p.current),
                          PeriodTotals(records, userId, p.previous);
            && Span(p) == Window(p.previous.start, now, true)
            && PeriodTotals(records, userId, Span(p))
               == Totals(tp.made + tc.made, tp.attempted + tc.attempted)
  {
    MonthlyWindows(now);
    ConsecutiveTotals(records, userId, MonthlyPair(now));
  }

  /** Sessions newest first (`orderBy: { date: "desc" }`). */
  ghost predicate NewestFirst(s: seq<Performance>) {
    forall i, j :: 0 <= i < j < |s| ==> s[i].date >= s[j].date
  }

  /** Puts `x` into a newest-first list, before the first record that is not
      newer than it. */
  function InsertNewestFirst(s: seq<Performance>, x: Performance): (r: seq<Performance>)
    requires NewestFirst(s)
    ensures NewestFirst(r)
    ensures multiset(r) == multiset(s) + multiset{x}
  {
    if s == [] || s[0].date <= x.date then
      PrependNewestFirst(x, s);
      [x] + s
    else
      var rest := InsertNewestFirst(s[1..], x);
      HeadIsNewest(s);
      assert s == [s[0]] + s[1..];
      BoundedByHead(s[0], s[1..], x, rest);
      PrependNewestFirst(s[0], rest);
      [s[0]] + rest
  }

  lemma HeadIsNewest(s: seq<Performance>)
    requires NewestFirst(s) && s != []
    ensures forall y :: y in s[1..] ==> y.date <= s[0].date
  {
    forall y | y in s[1..] ensures y.date <= s[0].date {
      var k :| 0 <= k < |s[1..]| && s[1..][k] == y;
      assert s[k + 1] == y;
    }
  }

  lemma BoundedByHead(h: Performance, tail: seq<Performance>, x: Performance, rest: seq<Performance>)
    requires forall y :: y in tail ==> y.date <= h.date
    requires x.date <= h.date
    requires multiset(rest) == multiset(tail) + multiset{x}
    ensures forall y :: y in rest ==> y.date <= h.date
  {
    forall y | y in rest ensures y.date <= h.date {
      assert y in multiset(rest);
      if y != x {
        assert y in multiset(tail);
      }
    }
  }

  lemma PrependNewestFirst(h: Performance, s: seq<Performance>)
    requires NewestFirst(s) && forall y :: y in s ==> y.date <= h.date
    ensures NewestFirst([h] + s)
  {
    var r := [h] + s;
    forall i, j | 0 <= i < j < |r| ensures r[i].date >= r[j].date {
      assert r[j] == s[j - 1];
      if i > 0 {
        assert r[i] == s[i - 1];
      } else {
        assert s[j - 1] in s;
      }
    }
  }

  lemma OfUserAppend(records: seq<Performance>, r: Performance, userId: UserId)
    ensures OfUser(records + [r], userId)
            == OfUser(records, userId) + (if r.userId == userId then [r] else [])
  {
    if records != [] {
      assert (records + [r])[1..] == records[1..] + [r];
    }
  }

  /** The performance table: records in insertion order, with the ids the
      datastore has issued. */
  class PerformanceStore {
    var records: seq<Performance>
    var nextId: nat

    ghost predicate Valid()
      reads this
    {
      forall i :: 0 <= i < |records| ==> records[i].id < nextId
    }

    constructor ()
      ensures Valid() && records == [] && nextId == 0
    {
      records := [];
      nextId := 0;
    }

    /** `POST /add`. `date` is `None` when the body's `date` is absent or
        falsy, and the record then gets `now`. A `userId` that is not in the
        user table `users` breaks the foreign key and the create fails (500). */
    method Add(users: set<UserId>, userId: UserId, shotsMade: int, shotsAttempted: int,
               date: Option<int>, now: int) returns (r: Reply<Performance>)
      requires Valid()
      modifies this
      ensures Valid()
      ensures userId !in users ==>
                r == Err(SERVER_ERROR) && records == old(records) && nextId == old(nextId)
      ensures userId in users ==>
                && nextId == old(nextId) + 1
                && r == Ok(CREATED, Performance(old(nextId), userId, shotsMade, shotsAttempted,
                                                date.GetOr(now)))
                && records == old(records) + [r.body]
      ensures r.Ok? ==> forall i :: 0 <= i < |old(records)| ==> old(records)[i].id != r.body.id
    {
      if userId !in users {
        return Err(SERVER_ERROR);
      }
      var stamp := now;
      if date.Some? {
        stamp := date.value;
      }
      var row := Performance(nextId, userId, shotsMade, shotsAttempted, stamp);
      records := records + [row];
      nextId := nextId + 1;
      r := Ok(CREATED, row);
    }

    /** `GET /user/:userId`: exactly that user's records, newest first. */
    method Sessions(userId: UserId) returns (s: seq<Performance>)
      ensures NewestFirst(s)
      ensures multiset(s) == multiset(OfUser(records, userId))
      ensures forall x :: x in s <==> x in records && x.userId == userId
    {
      s := [];
      var i := 0;
      while i < |records|
        invariant 0 <= i <= |records|
        invariant NewestFirst(s)
        invariant multiset(s) == multiset(OfUser(records[..i], userId))
      {
        OfUserAppend(records[..i], records[i], userId);
        assert records[..i + 1] == records[..i] + [records[i]];
        if records[i].userId == userId {
          s := InsertNewestFirst(s, records[i]);
        }
        i := i + 1;
      }
      assert records[..i] == records;
      assert forall x :: x in s <==> x in multiset(OfUser(records, userId));
    }
  }
}
