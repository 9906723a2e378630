/** The burndown aggregation of lib/burndown.js: issues, the per-day open/close
    counters, and the day-by-day backlog over a window.

    Days are keyed by calendar value: two `Day`s naming the same date share one
    bucket. */
module Burndowns {
  import opened Options
  import opened Days

  // ---------------------------------------------------------------------------
  // Issues

  /** One tracked work item: the day it was opened and, once resolved, the day it was closed. */
  datatype Issue = Issue(open: Day, close: Option<Day>)

  /** `Issue.opened(open)`: an issue that is still open. */
  function Opened(open: Day): (issue: Issue)
    ensures issue.open == open && issue.close == None
  {
    Issue(open, None)
  }

  /** `Issue.closed(open, close)`: an issue that was closed on `close`. */
  function Closed(open: Day, close: Day): (issue: Issue)
    ensures issue.open == open && issue.close == Some(close)
  {
    Issue(open, Some(close))
  }

  /** The open day of every issue, in list order. */
  function OpenDays(issues: seq<Issue>): (days: seq<Day>)
    ensures |days| == |issues|
  {
    if issues == [] then []
    else OpenDays(issues[..|issues| - 1]) + [issues[|issues| - 1].open]
  }

  /** The close day of every closed issue, in list order. */
  function CloseDays(issues: seq<Issue>): (days: seq<Day>)
    ensures |days| <= |issues|
  {
    if issues == [] then []
    else
      var last := issues[|issues| - 1];
      CloseDays(issues[..|issues| - 1]) + (if last.close.Some? then [last.close.value] else [])
  }

  // ---------------------------------------------------------------------------
  // Per-day counters

  /** A day's bucket: how many issues were opened and how many were closed on it. */
  datatype Counts = Counts(open: nat, close: nat)

  /** The counter `_incr` bumps: the property name 'open' or 'close'. */
  datatype Kind = Open | Close

  /** `CountMap._initVal()`: the bucket of a day with no events; bumping it once
      counts exactly that one event. */
  function InitVal(): (r: Counts)
    ensures r.open == 0 && r.close == 0
    ensures Bump(r, Open) == Counts(1, 0) && Bump(r, Close) == Counts(0, 1)
  {
    Counts(0, 0)
  }

  /** `oc[type]++`. */
  function Bump(oc: Counts, kind: Kind): (r: Counts)
    ensures kind == Open ==> r.open == oc.open + 1 && r.close == oc.close
    ensures kind == Close ==> r.close == oc.close + 1 && r.open == oc.open
  {
    match kind
    case Open => oc.(open := oc.open + 1)
    case Close => oc.(close := oc.close + 1)
  }

  /** How many times `d` occurs in `ds`. */
  function Occurrences(ds: seq<Day>, d: Day): nat
  {
    if ds == [] then 0
    else Occurrences(ds[..|ds| - 1], d) + (if ds[|ds| - 1] == d then 1 else 0)
  }

  lemma OccurrencesSnoc(ds: seq<Day>, x: Day, d: Day)
    ensures Occurrences(ds + [x], d) == Occurrences(ds, d) + (if x == d then 1 else 0)
  {
    assert (ds + [x])[..|ds|] == ds;
  }

  /** A day occurs at least once exactly when it is an element. */
  lemma {:induction false} OccursIffIn(ds: seq<Day>, d: Day)
    ensures Occurrences(ds, d) > 0 <==> d in ds
  {
    if ds != [] {
      var init := ds[..|ds| - 1];
      OccursIffIn(init, d);
      assert ds == init + [ds[|ds| - 1]];
    }
  }

  /** The buckets that the recorded events determine: a bucket for each day with
      at least one event, holding how many opens and closes were recorded on it. */
  function TallyMap(openLog: seq<Day>, closeLog: seq<Day>): map<Day, Counts>
  {
    map d | d in openLog + closeLog :: Counts(Occurrences(openLog, d), Occurrences(closeLog, d))
  }

  /** The bucket of `key` in `buckets`, `{0, 0}` when there is none. */
  function BucketOf(buckets: map<Day, Counts>, key: Day): Counts
  {
    if key in buckets then buckets[key] else InitVal()
  }

  /** The logs after recording one more event of `kind` on `key`. */
  function RecordOpen(openLog: seq<Day>, key: Day, kind: Kind): seq<Day>
  {
    if kind == Open then openLog + [key] else openLog
  }

  function RecordClose(closeLog: seq<Day>, key: Day, kind: Kind): seq<Day>
  {
    if kind == Close then closeLog + [key] else closeLog
  }

  /** Recording one more event on `key` bumps the matching counter of that day's
      bucket, creating the bucket as `{0, 0}` first when absent; no other bucket
      changes. */
  lemma TallyMapRecord(openLog: seq<Day>, closeLog: seq<Day>, key: Day, kind: Kind)
    ensures var buckets := TallyMap(openLog, closeLog);
      buckets[key := Bump(BucketOf(buckets, key), kind)]
      == TallyMap(RecordOpen(openLog, key, kind), RecordClose(closeLog, key, kind))
  {
    var buckets := TallyMap(openLog, closeLog);
    var after := TallyMap(RecordOpen(openLog, key, kind), RecordClose(closeLog, key, kind));
    var bumped := buckets[key := Bump(BucketOf(buckets, key), kind)];
    forall d
      ensures d in bumped <==> d in after
      ensures d in bumped ==> bumped[d] == after[d]
    {
      TallyMapRecordAt(openLog, closeLog, key, kind, d);
    }
    assert bumped == after;
  }

  lemma TallyMapRecordAt(openLog: seq<Day>, closeLog: seq<Day>, key: Day, kind: Kind, d: Day)
    ensures var buckets := TallyMap(openLog, closeLog);
      var after := TallyMap(RecordOpen(openLog, key, kind), RecordClose(closeLog, key, kind));
      var bumped := buckets[key := Bump(BucketOf(buckets, key), kind)];
      (d in bumped <==> d in after) && (d in bumped ==> bumped[d] == after[d])
  {
    var openLog', closeLog' := RecordOpen(openLog, key, kind), RecordClose(closeLog, key, kind);
    OccurrencesSnoc(openLog, key, d);
    OccurrencesSnoc(closeLog, key, d);
    hide Ordinal, Occurrences;
    assert d in openLog' + closeLog' <==> d in openLog + closeLog || d == key;
    if d == key {
      OccursIffIn(openLog, key);
      OccursIffIn(closeLog, key);
    }
  }

  /** `CountMap`: a map from day to its bucket, updated in place.

      Its abstract value is the two logs of days recorded so far: one entry per
      `opened` call and one per `closed` call, in call order. */
  class CountMap {
    var buckets: map<Day, Counts>
    ghost var openLog: seq<Day>
    ghost var closeLog: seq<Day>

    ghost predicate Valid()
      reads this
    {
      buckets == TallyMap(openLog, closeLog)
    }

    constructor()
      ensures Valid()
      ensures buckets == map[] && openLog == [] && closeLog == []
    {
      buckets := map[];
      openLog, closeLog := [], [];
    }

    /** `get(key)`: the bucket of `key`, `{0, 0}` for a day never recorded. The
        source writes `this.map(key)`, calling the Map object, which JavaScript
        rejects; the evident intent, a lookup, is modelled. */
    method Get(key: Day) returns (oc: Counts)
      requires Valid()
      ensures oc == Counts(Occurrences(openLog, key), Occurrences(closeLog, key))
      ensures oc == InitVal() <==> key !in buckets
    {
      oc := if key in buckets then buckets[key] else InitVal();
      OccursIffIn(openLog, key);
      OccursIffIn(closeLog, key);
    }

    /** `_incr(key, type)`: bumps one counter of `key`'s bucket, creating the bucket
        as `{0, 0}` first when absent; every other bucket is left alone. */
    method Incr(key: Day, kind: Kind)
      requires Valid()
      modifies this
      ensures Valid()
      ensures buckets == old(buckets)[key := Bump(BucketOf(old(buckets), key), kind)]
      ensures kind == Open ==> openLog == old(openLog) + [key] && closeLog == old(closeLog)
      ensures kind == Close ==> closeLog == old(closeLog) + [key] && openLog == old(openLog)
    {
      var oc := if key in buckets then buckets[key] else InitVal();
      oc := Bump(oc, kind);
      TallyMapRecord(openLog, closeLog, key, kind);
      buckets := buckets[key := oc];
      openLog, closeLog := RecordOpen(openLog, key, kind), RecordClose(closeLog, key, kind);
    }

    /** `opened(key)`: records that an issue was opened on `key`. */
    method Opened(key: Day)
      requires Valid()
      modifies this
      ensures Valid()
      ensures openLog == old(openLog) + [key] && closeLog == old(closeLog)
      ensures buckets == old(buckets)[key := Bump(BucketOf(old(buckets), key), Open)]
    {
      Incr(key, Open);
    }

    /** `closed(key)`: records that an issue was closed on `key`. */
    method Closed(key: Day)
      requires Valid()
      modifies this
      ensures Valid()
      ensures closeLog == old(closeLog) + [key] && openLog == old(openLog)
      ensures buckets == old(buckets)[key := Bump(BucketOf(old(buckets), key), Close)]
    {
      Incr(key, Close);
    }
  }

  // ---------------------------------------------------------------------------
  // Specification of the burndown

  /** How many issues were opened on a day whose ordinal lies in `[lo, hi)`. */
  function OpenedWithin(issues: seq<Issue>, lo: int, hi: int): (n: nat)
    ensures n <= |issues|
  {
    if issues == [] then 0
    else
      var last := issues[|issues| - 1];
      OpenedWithin(issues[..|issues| - 1], lo, hi) + (if lo <= Ordinal(last.open.dayj) < hi then 1 else 0)
  }

  /** How many issues were closed on a day whose ordinal lies in `[lo, hi)`. */
  function ClosedWithin(issues: seq<Issue>, lo: int, hi: int): (n: nat)
    ensures n <= |issues|
  {
    if issues == [] then 0
    else
      var last := issues[|issues| - 1];
      ClosedWithin(issues[..|issues| - 1], lo, hi)
        + (if last.close.Some? && lo <= Ordinal(last.close.value.dayj) < hi then 1 else 0)
  }

  /** The backlog contributed by the days with ordinals in `[lo, hi)`: issues
      opened on them minus issues closed on them. */
  function Backlog(issues: seq<Issue>, lo: int, hi: int): int
  {
    OpenedWithin(issues, lo, hi) - ClosedWithin(issues, lo, hi)
  }

  /** Number of days `d` with `first <= d < last` (end exclusive). */
  function Span(first: Day, last: Day): (n: nat)
    ensures n == 0 <==> !IsBefore(first, last)
  {
    if IsBefore(first, last) then Ordinal(last.dayj) - Ordinal(first.dayj) else 0
  }

  /** One step of the earliest-date scan: take the issue's open day when nothing
      is held yet or the held day is after it. */
  function FirstStep(first: Option<Day>, issue: Issue): (r: Option<Day>)
    ensures r.Some? && IsSameOrBefore(r.value, issue.open)
    ensures first.Some? ==> IsSameOrBefore(r.value, first.value)
    ensures r == first || r == Some(issue.open)
  {
    if first.None? || IsAfter(first.value, issue.open) then Some(issue.open) else first
  }

  /** One step of the latest-date scan: first against the open day, then against
      the close day when there is one. */
  function LastStep(last: Option<Day>, issue: Issue): (r: Option<Day>)
    ensures r.Some? && IsSameOrBefore(issue.open, r.value)
    ensures issue.close.Some? ==> IsSameOrBefore(issue.close.value, r.value)
    ensures last.Some? ==> IsSameOrBefore(last.value, r.value)
    ensures r == last || r == Some(issue.open) || r == issue.close
  {
    var last' := if last.None? || IsBefore(last.value, issue.open) then Some(issue.open) else last;
    if issue.close.Some? && IsBefore(last'.value, issue.close.value) then issue.close else last'
  }

  /** The earliest date after scanning `issues` in order, starting from `first`. */
  function EarliestOpen(first: Option<Day>, issues: seq<Issue>): Option<Day>
  {
    if issues == [] then first
    else FirstStep(EarliestOpen(first, issues[..|issues| - 1]), issues[|issues| - 1])
  }

  /** The latest date after scanning `issues` in order, starting from `last`. */
  function LatestEvent(last: Option<Day>, issues: seq<Issue>): Option<Day>
  {
    if issues == [] then last
    else LastStep(LatestEvent(last, issues[..|issues| - 1]), issues[|issues| - 1])
  }

  // ---------------------------------------------------------------------------
  // The engine

  /** `Burndown`: holds the issue list, the extreme dates and the count map built by `init`. */
  class Burndown {
    var issues: seq<Issue>
    var firstDate: Option<Day>
    var lastDate: Option<Day>
    var countMap: CountMap?

    /** The count map records exactly the open and close days of the issue list. */
    ghost predicate Valid()
      reads this, countMap
    {
      && countMap != null && countMap.Valid()
      && countMap.openLog == OpenDays(issues)
      && countMap.closeLog == CloseDays(issues)
    }

    /** `new Burndown(issues)`: both dates start null, then `init` runs. */
    constructor(issues: seq<Issue>)
      ensures Valid() && fresh(countMap)
      ensures this.issues == issues
      ensures firstDate == EarliestOpen(None, issues)
      ensures lastDate == LatestEvent(None, issues)
    {
      this.issues := issues;
      firstDate := None;
      lastDate := None;
      countMap := null;
      new;
      Init();
    }

    /** `init()`: one pass over the issues that records every open day and every
        close day in a new count map and moves the extreme dates. */
    method Init()
      modifies this
      ensures Valid() && fresh(countMap)
      ensures issues == old(issues)
      ensures firstDate == EarliestOpen(old(firstDate), issues)
      ensures lastDate == LatestEvent(old(lastDate), issues)
    {
      hide Ordinal, TallyMap, OpenDays, CloseDays, CountMap.Valid;
      var tally := new CountMap();
      for i := 0 to |issues|
        invariant issues == old(issues) && fresh(tally)
        invariant tally.Valid()
        invariant tally.openLog == OpenDays(issues[..i])
        invariant tally.closeLog == CloseDays(issues[..i])
        invariant firstDate == EarliestOpen(old(firstDate), issues[..i])
        invariant lastDate == LatestEvent(old(lastDate), issues[..i])
      {
        var issue := issues[i];
        PrefixStep(issues, i, old(firstDate), old(lastDate));
        tally.Opened(issue.open);
        if issue.close.Some? {
          tally.Closed(issue.close.value);
        }
        if firstDate.None? || IsAfter(firstDate.value, issue.open) {
          firstDate := Some(issue.open);
        }
        if lastDate.None? || IsBefore(lastDate.value, issue.open) {
          lastDate := Some(issue.open);
        }
        if issue.close.Some? && IsBefore(lastDate.value, issue.close.value) {
          lastDate := issue.close;
        }
      }
      assert issues[..|issues|] == issues;
      countMap := tally;
    }

    /** `burndown(startDate, endDate)`: one entry per day from `startDate` up to but
        not including `endDate`, each the backlog accumulated from `startDate`
        through that day; nothing before `startDate` is carried over. The JavaScript
        steps the caller's `startDate` in place with `date.add(1)`, a method
        `Day` lacks; the walk is modelled on a local day with `Next`. */
    method Burndown(startDate: Day, endDate: Day) returns (result: seq<int>)
      requires Valid()
      ensures |result| == Span(startDate, endDate)
      ensures forall i :: 0 <= i < |result| ==>
        result[i] == Backlog(issues, Ordinal(startDate.dayj), Ordinal(startDate.dayj) + i + 1)
    {
      hide Ordinal, TallyMap, OpenedWithin, ClosedWithin, Occurrences;
      result := [];
      var openTotal, closeTotal := 0, 0;
      var date := startDate;
      ghost var lo := Ordinal(startDate.dayj);
      EmptyWindow(issues, lo);
      while IsBefore(date, endDate)
        invariant Ordinal(date.dayj) == lo + |result|
        invariant |result| <= Span(startDate, endDate)
        invariant openTotal == OpenedWithin(issues, lo, Ordinal(date.dayj))
        invariant closeTotal == ClosedWithin(issues, lo, Ordinal(date.dayj))
        invariant forall i :: 0 <= i < |result| ==> result[i] == Backlog(issues, lo, lo + i + 1)
        decreases Ordinal(endDate.dayj) - Ordinal(date.dayj)
      {
        var oc := countMap.Get(date);
        WithinStep(issues, lo, date);
        openTotal := openTotal + oc.open;
        closeTotal := closeTotal + oc.close;
        result := result + [openTotal - closeTotal];
        date := Next(date);
      }
    }
  }

  /** What one more issue adds to each scan over a prefix of the list. */
  lemma PrefixStep(issues: seq<Issue>, i: nat, first: Option<Day>, last: Option<Day>)
    requires i < |issues|
    ensures OpenDays(issues[..i + 1]) == OpenDays(issues[..i]) + [issues[i].open]
    ensures CloseDays(issues[..i + 1])
      == CloseDays(issues[..i]) + (if issues[i].close.Some? then [issues[i].close.value] else [])
    ensures EarliestOpen(first, issues[..i + 1]) == FirstStep(EarliestOpen(first, issues[..i]), issues[i])
    ensures LatestEvent(last, issues[..i + 1]) == LastStep(LatestEvent(last, issues[..i]), issues[i])
  {
    assert issues[..i + 1][..i] == issues[..i];
  }

  /** An empty window holds no events. */
  lemma {:induction false} EmptyWindow(issues: seq<Issue>, lo: int)
    ensures OpenedWithin(issues, lo, lo) == 0 && ClosedWithin(issues, lo, lo) == 0
  {
    if issues != [] {
      EmptyWindow(issues[..|issues| - 1], lo);
    }
  }

  /** Widening a window by one day `d` at its upper end adds the issues opened
      and closed on `d`, which are the occurrences of `d` among the open and
      close days. */
  lemma {:induction false} WithinStep(issues: seq<Issue>, lo: int, d: Day)
    requires lo <= Ordinal(d.dayj)
    ensures OpenedWithin(issues, lo, Ordinal(d.dayj) + 1)
      == OpenedWithin(issues, lo, Ordinal(d.dayj)) + Occurrences(OpenDays(issues), d)
    ensures ClosedWithin(issues, lo, Ordinal(d.dayj) + 1)
      == ClosedWithin(issues, lo, Ordinal(d.dayj)) + Occurrences(CloseDays(issues), d)
  {
    hide Ordinal;
    if issues != [] {
      var init, last := issues[..|issues| - 1], issues[|issues| - 1];
      WithinStep(init, lo, d);
      SameIsEqual(last.open, d);
      OccurrencesSnoc(OpenDays(init), last.open, d);
      if last.close.Some? {
        SameIsEqual(last.close.value, d);
        OccurrencesSnoc(CloseDays(init), last.close.value, d);
      } else {
        assert CloseDays(issues) == CloseDays(init);
      }
    }
  }
}
