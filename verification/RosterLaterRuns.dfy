/** What a later run counts and decides over irregular weeks: locked ones, or weeks off the grid. */
module RosterLaterRuns {
  import opened Wrappers
  import opened RosterModel
  import opened RosterFairness
  import opened RosterRuns
  import opened RosterStability

  /** The days of the first j weeks that hold a locked row or one off the weekly grid. */
  ghost predicate Irregular(s: Schedule, start: int, j: nat, days: set<int>) {
    forall ws :: ws in days <==> start <= ws < start + WEEK * j && ws in s && (s[ws].locked || !OnGrid(start, ws))
  }

  /** A run over m weeks that starts j weeks later rewrites every row of the first n weeks as it is. */
  ghost predicate KeepsWindow(c: Config, s: Schedule, start: int, n: nat, j: nat, m: nat) {
    var r := Regenerated(c, s, start, n);
    var r' := Regenerated(c, r, start + WEEK * j, m);
    forall ws :: ws in r && ws < start + WEEK * n ==> ws in r' && r'[ws] == r[ws]
  }

  ghost predicate Usable(c: Config) {
    c.maxConsecutive >= 1 && Distinct(c.members) && c.members != []
  }

  predicate Within(days: set<int>, start: int, j: nat) {
    forall d :: d in days ==> start <= d < start + WEEK * j
  }

  /** How many of the first i weeks are not among the given days. */
  function Turns(days: set<int>, start: int, i: nat): nat {
    if i == 0 then 0 else Turns(days, start, i - 1) + if start + WEEK * (i - 1) in days then 0 else 1
  }

  /** A past, and on the given days nothing but these locked rows. */
  function Table(past: Schedule, days: set<int>, rows: int -> Entry): Schedule {
    map d | d in past.Keys + days :: if d in days then rows(d) else past[d]
  }

  predicate RowsLocked(days: set<int>, rows: int -> Entry) {
    forall d :: d in days ==>
      rows(d).locked && rows(d).weekEnd == d + WEEK && rows(d).primary != rows(d).secondary
  }

  ghost predicate Proper(past: Schedule, days: set<int>, rows: int -> Entry, start: int, j: nat) {
    && Within(days, start, j) && RowsValid(past)
    && (forall d :: d in past ==> d < start)
    && RowsLocked(days, rows)
  }

  lemma {:induction false} TableFits(past: Schedule, days: set<int>, rows: int -> Entry, start: int, j: nat)
    requires Proper(past, days, rows, start, j)
    ensures var s := Table(past, days, rows); RowsValid(s) && Irregular(s, start, j, days)
  {
  }

  /** The rows after the first run. */
  lemma {:induction false} AfterFirstWindow(c: Config, past: Schedule, days: set<int>, rows: int -> Entry,
                                            start: int, j: nat, n: nat, d: int)
    requires Proper(past, days, rows, start, j)
    ensures var s := Table(past, days, rows);
            var r := Regenerated(c, s, start, n);
            && (d in r <==> d in past || d in days || InWindow(start, n, d))
            && (d in days ==> r[d] == rows(d))
            && (d in past ==> r[d] == past[d])
  {
    hide Regenerated;
    var s := Table(past, days, rows);
    RegeneratedKeys(c, s, start, n, d);
    LockedWeeksSurvive(c, s, start, n, d);
    if d in past {
      OutsideWindowUntouched(c, s, start, n, d);
    }
  }

  /** The days of one week on which the table names v: its own duty, and irregular days that do. */
  lemma {:induction false} WeekOfDays(c: Config, past: Schedule, days: set<int>, rows: int -> Entry,
                                      start: int, j: nat, n: nat, i: nat, v: UserId, d: int)
    requires Proper(past, days, rows, start, j) && i < n
    ensures var s, ws := Table(past, days, rows), start + WEEK * i;
            var r := Regenerated(c, s, start, n);
            var duties := Duties(c, TrackerAt(c, s, start, i));
            && (d in PrimaryDays(r, v, ws + WEEK)
                <==> d in PrimaryDays(r, v, ws) || (ws !in days && duties.0 == Some(v) && d == ws)
                     || (d in days && ws <= d < ws + WEEK && rows(d).primary == Some(v)))
            && (d in SecondaryDays(r, v, ws + WEEK)
                <==> d in SecondaryDays(r, v, ws) || (ws !in days && duties.1 == Some(v) && d == ws)
                     || (d in days && ws <= d < ws + WEEK && rows(d).secondary == Some(v)))
  {
    hide Regenerated;
    hide TrackerAt;
    hide Duties;
    hide RowsValid;
    var s, ws := Table(past, days, rows), start + WEEK * i;
    PlannedRowStored(c, s, start, n, i);
    PlannedRowFrom(c, s, start, i, ws);
    hide PlannedRow;
    AfterFirstWindow(c, past, days, rows, start, j, n, d);
  }

  /** Irregular days before a day whose row names v, as primary or as secondary. */
  function NamedPrimary(days: set<int>, rows: int -> Entry, v: UserId, before: int): set<int> {
    set d | d in days && d < before && rows(d).primary == Some(v)
  }

  function NamedSecondary(days: set<int>, rows: int -> Entry, v: UserId, before: int): set<int> {
    set d | d in days && d < before && rows(d).secondary == Some(v)
  }

  lemma {:induction false} OneWeekMore(was: set<int>, now: set<int>, named: set<int>, named': set<int>, ws: int,
                                       own: bool)
    requires forall d :: d in now <==> d in was || (own && d == ws) || (d in named' && d >= ws)
    requires forall d :: d in was ==> d < ws
    requires forall d :: d in named <==> d in named' && d < ws
    requires own ==> ws !in named'
    ensures |now| + |named| == |was| + |named'| + if own then 1 else 0
  {
    var later, mine := named' - named, if own then {ws} else {};
    forall d
      ensures d in named' <==> d in named + later
      ensures d in now <==> d in was + mine + later
    {
    }
    assert named' == named + later && now == was + mine + later;
    forall d | d in later
      ensures d >= ws && d !in was && d !in mine
    {
      assert d in named' && d !in named;
    }
    assert was !! mine && (was + mine) !! later && named !! later;
    assert |was + mine + later| == |was| + |mine| + |later|;
    assert |named + later| == |named| + |later|;
  }

  lemma {:induction false} StepCounts(c: Config, s: Schedule, t: Tracker, ws: int, v: UserId)
    ensures var t', duties := WeekStep(c, s, t, ws), Duties(c, t);
            && At(t'.primaryCount, v)
               == At(t.primaryCount, v) + (if !LockedAt(s, ws) && duties.0 == Some(v) then 1 else 0)
            && At(t'.secondaryCount, v)
               == At(t.secondaryCount, v) + (if !LockedAt(s, ws) && duties.1 == Some(v) then 1 else 0)
  {
    hide Duties;
  }

  /** A later run counts what the first run did, and the irregular rows that run stepped over. */
  lemma {:induction false} LaterRunCountsMore(c: Config, past: Schedule, days: set<int>, rows: int -> Entry,
                                              start: int, j: nat, n: nat, i: nat, v: UserId)
    requires Proper(past, days, rows, start, j) && i <= n && v in c.members
    ensures var s, at := Table(past, days, rows), start + WEEK * i;
            var r, t := Regenerated(c, s, start, n), TrackerAt(c, s, start, i);
            && PrimaryWeeksBefore(r, v, at) == At(t.primaryCount, v) + |NamedPrimary(days, rows, v, at)|
            && SecondaryWeeksBefore(r, v, at) == At(t.secondaryCount, v) + |NamedSecondary(days, rows, v, at)|
  {
    hide NamedPrimary;
    hide NamedSecondary;
    hide PrimaryWeeksBefore;
    hide SecondaryWeeksBefore;
    hide Proper;
    hide Regenerated;
    hide TrackerAt;
    hide Duties;
    hide Table;
    hide WeekStep;
    if i == 0 {
      SeedCountsPast(c, past, days, rows, start, j, n, v);
    } else {
      LaterRunCountsMore(c, past, days, rows, start, j, n, i - 1, v);
      WeekCountsMore(c, past, days, rows, start, j, n, i - 1, v);
      TrackerAtNext(c, Table(past, days, rows), start, i - 1);
    }
  }

  lemma {:induction false} WeekCountsMore(c: Config, past: Schedule, days: set<int>, rows: int -> Entry,
                                          start: int, j: nat, n: nat, i: nat, v: UserId)
    requires Proper(past, days, rows, start, j) && i < n
    ensures var s, ws := Table(past, days, rows), start + WEEK * i;
            var r, t := Regenerated(c, s, start, n), TrackerAt(c, s, start, i);
            var t' := WeekStep(c, s, t, ws);
            && PrimaryWeeksBefore(r, v, ws + WEEK) + |NamedPrimary(days, rows, v, ws)| + At(t.primaryCount, v)
               == PrimaryWeeksBefore(r, v, ws) + |NamedPrimary(days, rows, v, ws + WEEK)| + At(t'.primaryCount, v)
            && SecondaryWeeksBefore(r, v, ws + WEEK) + |NamedSecondary(days, rows, v, ws)| + At(t.secondaryCount, v)
               == SecondaryWeeksBefore(r, v, ws) + |NamedSecondary(days, rows, v, ws + WEEK)| + At(t'.secondaryCount, v)
  {
    hide Regenerated;
    hide TrackerAt;
    hide Duties;
    hide WeekStep;
    var s, ws := Table(past, days, rows), start + WEEK * i;
    var r, t := Regenerated(c, s, start, n), TrackerAt(c, s, start, i);
    StepCounts(c, s, t, ws, v);
    assert LockedAt(s, ws) <==> ws in days;
    hide Table;
    var was, now := PrimaryDays(r, v, ws), PrimaryDays(r, v, ws + WEEK);
    var was2, now2 := SecondaryDays(r, v, ws), SecondaryDays(r, v, ws + WEEK);
    var own, own2 := ws !in days && Duties(c, t).0 == Some(v), ws !in days && Duties(c, t).1 == Some(v);
    forall d
      ensures d in now <==> d in was || (own && d == ws) || (d in NamedPrimary(days, rows, v, ws + WEEK) && d >= ws)
      ensures d in now2
              <==> d in was2 || (own2 && d == ws) || (d in NamedSecondary(days, rows, v, ws + WEEK) && d >= ws)
    {
      WeekOfDays(c, past, days, rows, start, j, n, i, v, d);
    }
    OneWeekMore(was, now, NamedPrimary(days, rows, v, ws), NamedPrimary(days, rows, v, ws + WEEK), ws, own);
    OneWeekMore(was2, now2, NamedSecondary(days, rows, v, ws), NamedSecondary(days, rows, v, ws + WEEK), ws, own2);
  }

  lemma {:induction false} SeedCountsPast(c: Config, past: Schedule, days: set<int>, rows: int -> Entry,
                                          start: int, j: nat, n: nat, v: UserId)
    requires Proper(past, days, rows, start, j) && v in c.members
    ensures var s := Table(past, days, rows);
            var r, t := Regenerated(c, s, start, n), TrackerAt(c, s, start, 0);
            && PrimaryWeeksBefore(r, v, start) == At(t.primaryCount, v) + |NamedPrimary(days, rows, v, start)|
            && SecondaryWeeksBefore(r, v, start) == At(t.secondaryCount, v) + |NamedSecondary(days, rows, v, start)|
  {
    hide Regenerated;
    hide WeekStep;
    var s := Table(past, days, rows);
    TrackerAtNext(c, s, start, 0);
    hide TrackerAt;
    forall ws | ws < start
      ensures (ws in Regenerated(c, s, start, n) <==> ws in s) && (ws in s ==> Regenerated(c, s, start, n)[ws] == s[ws])
    {
      OutsideWindowUntouched(c, s, start, n, ws);
    }
    SamePastSameCounts(s, Regenerated(c, s, start, n), v, start);
    hide PrimaryWeeksBefore;
    hide SecondaryWeeksBefore;
    hide Table;
    assert NamedPrimary(days, rows, v, start) == {} && NamedSecondary(days, rows, v, start) == {};
  }

  lemma {:induction false} SeedCounts(c: Config, s: Schedule, start: int)
    ensures var t := Seed(c, s, start);
            forall v :: v in c.members ==>
              && At(t.primaryCount, v) == PrimaryWeeksBefore(s, v, start)
              && At(t.secondaryCount, v) == SecondaryWeeksBefore(s, v, start)
  {
    hide PrimaryWeeksBefore;
    hide SecondaryWeeksBefore;
  }

  /** If the two runs decide differently for a week that is not locked, the later one changes it. */
  lemma {:induction false} DifferentDuties(c: Config, s: Schedule, start: int, n: nat, j: nat, m: nat, k: nat)
    requires j + k < n && k < m && !LockedAt(s, start + WEEK * (j + k))
    ensures Duties(c, TrackerAt(c, s, start, j + k))
            != Duties(c, TrackerAt(c, Regenerated(c, s, start, n), start + WEEK * j, k)) ==>
              !KeepsWindow(c, s, start, n, j, m)
  {
    hide Regenerated;
    hide Duties;
    hide TrackerAt;
    var at, ws := start + WEEK * j, start + WEEK * (j + k);
    var r := Regenerated(c, s, start, n);
    PlannedRowStored(c, s, start, n, j + k);
    PlannedRowStored(c, r, at, m, k);
    LockedWeeksSurvive(c, s, start, n, ws);
    PlannedRowFrom(c, s, start, j + k, ws);
    PlannedRowFrom(c, r, at, k, ws);
    hide PlannedRow;
    assert ws in r && ws < start + WEEK * n;
  }

  lemma {:induction false} DifferentAtOnce(c: Config, s: Schedule, start: int, n: nat, j: nat, m: nat)
    requires j < n && m >= 1 && !LockedAt(s, start + WEEK * j)
    ensures Duties(c, TrackerAt(c, s, start, j))
            != Duties(c, Seed(c, Regenerated(c, s, start, n), start + WEEK * j)) ==>
              !KeepsWindow(c, s, start, n, j, m)
  {
    hide Regenerated;
    hide Duties;
    hide Seed;
    TrackerAtNext(c, Regenerated(c, s, start, n), start + WEEK * j, 0);
    hide TrackerAt;
    DifferentDuties(c, s, start, n, j, m, 0);
  }
}
