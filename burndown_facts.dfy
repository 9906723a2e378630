/** What `init` and `burndown` of lib/burndown.js promise, stated over the issue
    list alone: the extreme dates, the per-day counters, the day-by-day sums and
    the backlog at the end of the whole range. */
module BurndownFacts {
  import opened Options
  import opened Days
  import opened Burndowns

  // ---------------------------------------------------------------------------
  // The extreme dates found by `init`

  /** The earliest-date scan ends with nothing only when it started with nothing
      and saw no issue; otherwise it holds a day on or before every open day seen
      (and the starting day), and that day is the starting day or one of the open days. */
  lemma {:induction false} EarliestOpenBounds(first: Option<Day>, issues: seq<Issue>)
    ensures EarliestOpen(first, issues).None? <==> first.None? && issues == []
    ensures EarliestOpen(first, issues).Some? ==>
      var f := EarliestOpen(first, issues).value;
      && (forall i :: 0 <= i < |issues| ==> IsSameOrBefore(f, issues[i].open))
      && (first.Some? ==> IsSameOrBefore(f, first.value))
      && ((first.Some? && f == first.value) || exists i :: 0 <= i < |issues| && issues[i].open == f)
  {
    hide Ordinal;
    if issues != [] {
      var init, last := issues[..|issues| - 1], issues[|issues| - 1];
      EarliestOpenBounds(first, init);
      var before := EarliestOpen(first, init);
      var f := EarliestOpen(first, issues).value;
      assert f == (if before.None? || IsAfter(before.value, last.open) then last.open else before.value);
      assert forall i :: 0 <= i < |init| ==> issues[i] == init[i];
      if f == last.open {
        assert issues[|issues| - 1].open == f;
      } else if first.None? || f != first.value {
        var k :| 0 <= k < |init| && init[k].open == f;
        assert issues[k].open == f;
      }
    }
  }

  /** The latest-date scan ends with nothing only when it started with nothing and
      saw no issue; otherwise it holds a day on or after every open day and every
      close day seen (and the starting day), and that day is the starting day or
      one of those days. */
  lemma {:induction false} LatestEventBounds(last: Option<Day>, issues: seq<Issue>)
    ensures LatestEvent(last, issues).None? <==> last.None? && issues == []
    ensures LatestEvent(last, issues).Some? ==>
      var l := LatestEvent(last, issues).value;
      && (forall i :: 0 <= i < |issues| ==> IsSameOrBefore(issues[i].open, l))
      && (forall i :: 0 <= i < |issues| && issues[i].close.Some? ==> IsSameOrBefore(issues[i].close.value, l))
      && (last.Some? ==> IsSameOrBefore(last.value, l))
      && ((last.Some? && l == last.value)
          || exists i :: 0 <= i < |issues| && (issues[i].open == l || issues[i].close == Some(l)))
  {
    hide Ordinal;
    if issues != [] {
      var init, final := issues[..|issues| - 1], issues[|issues| - 1];
      LatestEventBounds(last, init);
      var before := LatestEvent(last, init);
      var l := LatestEvent(last, issues).value;
      assert forall i :: 0 <= i < |init| ==> issues[i] == init[i];
      if l == final.open || final.close == Some(l) {
        assert issues[|issues| - 1] == final;
      } else if last.None? || l != last.value {
        var k :| 0 <= k < |init| && (init[k].open == l || init[k].close == Some(l));
        assert issues[k] == init[k];
      }
    }
  }

  /** After `new Burndown(issues)`: with no issues both dates stay null; otherwise
      `firstDate` is the earliest open day and `lastDate` the latest open or close
      day, each one of the issues' own days, and `firstDate` is on or before `lastDate`. */
  lemma InitExtremes(issues: seq<Issue>)
    ensures EarliestOpen(None, issues).None? <==> issues == []
    ensures LatestEvent(None, issues).None? <==> issues == []
    ensures issues != [] ==>
      var f, l := EarliestOpen(None, issues).value, LatestEvent(None, issues).value;
      && (forall i :: 0 <= i < |issues| ==> IsSameOrBefore(f, issues[i].open))
      && (exists i :: 0 <= i < |issues| && issues[i].open == f)
      && (forall i :: 0 <= i < |issues| ==> IsSameOrBefore(issues[i].open, l))
      && (forall i :: 0 <= i < |issues| && issues[i].close.Some? ==> IsSameOrBefore(issues[i].close.value, l))
      && (exists i :: 0 <= i < |issues| && (issues[i].open == l || issues[i].close == Some(l)))
      && IsSameOrBefore(f, l)
  {
    EarliestOpenBounds(None, issues);
    LatestEventBounds(None, issues);
    if issues != [] {
      var f, l := EarliestOpen(None, issues).value, LatestEvent(None, issues).value;
      assert IsSameOrBefore(f, issues[0].open) && IsSameOrBefore(issues[0].open, l);
    }
  }

  // ---------------------------------------------------------------------------
  // The counters filled by `init`

  /** A day's open counter is the number of issues opened on that very day, and
      its close counter the number of issues closed on it. */
  lemma CountsMatchIssues(issues: seq<Issue>, d: Day)
    ensures Occurrences(OpenDays(issues), d) == OpenedWithin(issues, Ordinal(d.dayj), Ordinal(d.dayj) + 1)
    ensures Occurrences(CloseDays(issues), d) == ClosedWithin(issues, Ordinal(d.dayj), Ordinal(d.dayj) + 1)
  {
    EmptyWindow(issues, Ordinal(d.dayj));
    WithinStep(issues, Ordinal(d.dayj), d);
  }

  /** A counter summed over a run of days. */
  function SumCounts(log: seq<Day>, days: seq<Day>): nat
  {
    if days == [] then 0 else SumCounts(log, days[..|days| - 1]) + Occurrences(log, days[|days| - 1])
  }

  /** Over consecutive days starting at ordinal `lo`, the open counters add up to
      the issues opened in that window and the close counters to those closed in it. */
  lemma {:induction false} SumOverRun(issues: seq<Issue>, lo: int, days: seq<Day>)
    requires forall i :: 0 <= i < |days| ==> Ordinal(days[i].dayj) == lo + i
    ensures SumCounts(OpenDays(issues), days) == OpenedWithin(issues, lo, lo + |days|)
    ensures SumCounts(CloseDays(issues), days) == ClosedWithin(issues, lo, lo + |days|)
  {
    hide Ordinal, OpenedWithin, ClosedWithin, Occurrences;
    if days == [] {
      EmptyWindow(issues, lo);
    } else {
      var init, d := days[..|days| - 1], days[|days| - 1];
      SumOverRun(issues, lo, init);
      WithinStep(issues, lo, d);
    }
  }

  /** A window holding every open day counts every issue as opened. */
  lemma {:induction false} OpensAllWithin(issues: seq<Issue>, lo: int, hi: int)
    requires forall i :: 0 <= i < |issues| ==> lo <= Ordinal(issues[i].open.dayj) < hi
    ensures OpenedWithin(issues, lo, hi) == |issues|
  {
    if issues != [] {
      var init := issues[..|issues| - 1];
      assert forall i :: 0 <= i < |init| ==> init[i] == issues[i];
      OpensAllWithin(init, lo, hi);
    }
  }

  /** A window holding every close day counts every closed issue as closed. */
  lemma {:induction false} ClosesAllWithin(issues: seq<Issue>, lo: int, hi: int)
    requires forall i :: 0 <= i < |issues| && issues[i].close.Some? ==>
      lo <= Ordinal(issues[i].close.value.dayj) < hi
    ensures ClosedWithin(issues, lo, hi) == |CloseDays(issues)|
  {
    if issues != [] {
      var init := issues[..|issues| - 1];
      assert forall i :: 0 <= i < |init| ==> init[i] == issues[i];
      ClosesAllWithin(init, lo, hi);
    }
  }

  /** Every issue closes on or after the day it opened. */
  predicate ClosesAfterOpening(issues: seq<Issue>)
  {
    forall i :: 0 <= i < |issues| && issues[i].close.Some? ==> IsSameOrBefore(issues[i].open, issues[i].close.value)
  }

  /** Over the days from `firstDate` through `lastDate` the open counters add up to
      the number of issues, and, for issues that close on or after opening, the
      close counters add up to the number of closed issues. */
  lemma CountsSumToIssues(issues: seq<Issue>, days: seq<Day>)
    requires issues != []
    requires var f, l := EarliestOpen(None, issues).value, LatestEvent(None, issues).value;
      |days| == InclusiveSpan(f, l)
      && forall i :: 0 <= i < |days| ==> Ordinal(days[i].dayj) == Ordinal(f.dayj) + i
    ensures SumCounts(OpenDays(issues), days) == |issues|
    ensures ClosesAfterOpening(issues) ==> SumCounts(CloseDays(issues), days) == |CloseDays(issues)|
  {
    InitExtremes(issues);
    hide Ordinal, EarliestOpen, LatestEvent, SumCounts, OpenedWithin, ClosedWithin;
    var f, l := EarliestOpen(None, issues).value, LatestEvent(None, issues).value;
    var lo, hi := Ordinal(f.dayj), Ordinal(l.dayj) + 1;
    SumOverRun(issues, lo, days);
    OpensAllWithin(issues, lo, hi);
    if ClosesAfterOpening(issues) {
      ClosesAllWithin(issues, lo, hi);
    }
  }

  // ---------------------------------------------------------------------------
  // The series computed by `burndown`

  /** Nothing is carried over: the empty window has no backlog. */
  lemma BacklogStart(issues: seq<Issue>, lo: int)
    ensures Backlog(issues, lo, lo) == 0
  {
    EmptyWindow(issues, lo);
  }

  /** Consecutive entries differ by the next day's open counter minus its close counter. */
  lemma BacklogStep(issues: seq<Issue>, lo: int, d: Day)
    requires lo <= Ordinal(d.dayj)
    ensures Backlog(issues, lo, Ordinal(d.dayj) + 1)
      == Backlog(issues, lo, Ordinal(d.dayj)) + Occurrences(OpenDays(issues), d) - Occurrences(CloseDays(issues), d)
  {
    WithinStep(issues, lo, d);
  }

  /** Over the whole range, from `firstDate` through `lastDate`, the backlog is the
      number of issues still open (for issues that close on or after opening). */
  lemma FinalBacklog(issues: seq<Issue>)
    requires issues != [] && ClosesAfterOpening(issues)
    ensures var f, l := EarliestOpen(None, issues).value, LatestEvent(None, issues).value;
      Backlog(issues, Ordinal(f.dayj), Ordinal(l.dayj) + 1) == |issues| - |CloseDays(issues)|
  {
    InitExtremes(issues);
    hide Ordinal, EarliestOpen, LatestEvent, OpenedWithin, ClosedWithin;
    var f, l := EarliestOpen(None, issues).value, LatestEvent(None, issues).value;
    OpensAllWithin(issues, Ordinal(f.dayj), Ordinal(l.dayj) + 1);
    ClosesAllWithin(issues, Ordinal(f.dayj), Ordinal(l.dayj) + 1);
  }

  /** The five issues of the October/November 2017 fixture calendar: the
      `burndown` starts both totals at zero on `startDate`, so the issue opened on
      2017-10-29 is not carried into the series that starts on 2017-10-30. */
  lemma FixtureSeriesStart()
    ensures var issues := [
        Closed(New(2017, 10, 29), New(2017, 10, 31)),
        Closed(New(2017, 10, 30), New(2017, 11, 6)),
        Closed(New(2017, 10, 30), New(2017, 11, 3)),
        Opened(New(2017, 11, 1)),
        Opened(New(2017, 11, 2))];
      var lo := Ordinal(New(2017, 10, 30).dayj);
      Backlog(issues, lo, lo + 1) == 2 && Backlog(issues, lo, lo + 2) == 1 && Backlog(issues, lo, lo + 3) == 2
  {
    var d29, d30, d31 := New(2017, 10, 29), New(2017, 10, 30), New(2017, 10, 31);
    var n1, n2, n3, n6 := New(2017, 11, 1), New(2017, 11, 2), New(2017, 11, 3), New(2017, 11, 6);
    var issues := [Closed(d29, d31), Closed(d30, n6), Closed(d30, n3), Opened(n1), Opened(n2)];
    var lo := Ordinal(d30.dayj);
    assert Ordinal(d29.dayj) == lo - 1 && Ordinal(d31.dayj) == lo + 1;
    assert Ordinal(n1.dayj) == lo + 2 && Ordinal(n2.dayj) == lo + 3;
    assert Ordinal(n3.dayj) == lo + 4 && Ordinal(n6.dayj) == lo + 7;
    forall h | lo < h <= lo + 3
      ensures OpenedWithin(issues, lo, h) == (if h > lo + 2 then 3 else 2)
      ensures ClosedWithin(issues, lo, h) == (if h > lo + 1 then 1 else 0)
    {
      FixtureWindow(d29, d30, d31, n1, n2, n3, n6, h);
    }
  }

  lemma FixtureWindow(d29: Day, d30: Day, d31: Day, n1: Day, n2: Day, n3: Day, n6: Day, h: int)
    requires var lo := Ordinal(d30.dayj);
      && Ordinal(d29.dayj) == lo - 1 && Ordinal(d31.dayj) == lo + 1
      && Ordinal(n1.dayj) == lo + 2 && Ordinal(n2.dayj) == lo + 3
      && Ordinal(n3.dayj) == lo + 4 && Ordinal(n6.dayj) == lo + 7
      && lo < h <= lo + 3
    ensures var issues := [Closed(d29, d31), Closed(d30, n6), Closed(d30, n3), Opened(n1), Opened(n2)];
      var lo := Ordinal(d30.dayj);
      && OpenedWithin(issues, lo, h) == (if h > lo + 2 then 3 else 2)
      && ClosedWithin(issues, lo, h) == (if h > lo + 1 then 1 else 0)
  {
    var lo := Ordinal(d30.dayj);
    hide Ordinal;
    var issues := [Closed(d29, d31), Closed(d30, n6), Closed(d30, n3), Opened(n1), Opened(n2)];
    var p4 := issues[..|issues| - 1];
    var p3 := p4[..|p4| - 1];
    var p2 := p3[..|p3| - 1];
    var p1 := p2[..|p2| - 1];
    assert p4 == [Closed(d29, d31), Closed(d30, n6), Closed(d30, n3), Opened(n1)];
    assert p3 == [Closed(d29, d31), Closed(d30, n6), Closed(d30, n3)];
    assert p2 == [Closed(d29, d31), Closed(d30, n6)];
    assert p1 == [Closed(d29, d31)] && p1[..0] == [];
    assert OpenedWithin(p1, lo, h) == 0 && ClosedWithin(p1, lo, h) == (if h > lo + 1 then 1 else 0);
    assert OpenedWithin(p2, lo, h) == 1 && ClosedWithin(p2, lo, h) == ClosedWithin(p1, lo, h);
    assert OpenedWithin(p3, lo, h) == 2 && ClosedWithin(p3, lo, h) == ClosedWithin(p1, lo, h);
    assert OpenedWithin(p4, lo, h) == OpenedWithin(issues, lo, h) && ClosedWithin(p4, lo, h) == ClosedWithin(p1, lo, h);
  }
}
