/** Two members with a cap of one week, who must alternate. */
module RosterPairs {
  import opened Wrappers
  import opened RosterModel
  import opened RosterFairness
  import opened RosterRuns
  import opened RosterStability
  import opened RosterLaterRuns
  import opened RosterReshuffles

  // ----- Two members and a cap of one -----

  /** With a cap of one the member who was not last takes over, whatever the counts. */
  ghost predicate TakesTurns(c: Config, t: Tracker, i: nat)
    requires |c.members| == 2
  {
    t.run >= 1 && t.last == Some(c.members[Parity(i)])
  }

  lemma {:induction false} TakesOver(c: Config, t: Tracker, i: nat)
    requires Distinct(c.members) && |c.members| == 2 && c.maxConsecutive == 1 && TakesTurns(c, t, i)
    ensures Duties(c, t) == (Some(c.members[Parity(i + 1)]), Some(c.members[Parity(i)]))
  {
    hide Duties;
    OtherTakesOver(c, t, Parity(i + 1));
  }

  lemma {:induction false} TakeTurnsStep(c: Config, s: Schedule, t: Tracker, i: nat, ws: int)
    requires Distinct(c.members) && |c.members| == 2 && c.maxConsecutive == 1 && TakesTurns(c, t, i)
    requires LockedAt(s, ws) ==> s[ws].primary.None? || s[ws].primary == t.last
    ensures TakesTurns(c, WeekStep(c, s, t, ws), if LockedAt(s, ws) then i else i + 1)
    ensures forall v :: At(WeekStep(c, s, t, ws).primaryCount, v)
                        == At(t.primaryCount, v) + if !LockedAt(s, ws) && v == c.members[Parity(i + 1)] then 1 else 0
  {
    hide Duties;
    TakesOver(c, t, i);
    StepCounts2(c, s, t, ws);
    WeekStepNotesPrimary(c, s, t, ws, if LockedAt(s, ws) then s[ws].primary else Some(c.members[Parity(i + 1)]));
    hide WeekStep;
  }

  lemma {:induction false} StepCounts2(c: Config, s: Schedule, t: Tracker, ws: int)
    ensures forall v :: At(WeekStep(c, s, t, ws).primaryCount, v)
                        == At(t.primaryCount, v) + if !LockedAt(s, ws) && Duties(c, t).0 == Some(v) then 1 else 0
  {
    hide WeekStep;
    hide Duties;
    forall v
      ensures At(WeekStep(c, s, t, ws).primaryCount, v)
              == At(t.primaryCount, v) + if !LockedAt(s, ws) && Duties(c, t).0 == Some(v) then 1 else 0
    {
      StepCounts(c, s, t, ws, v);
    }
  }

  /** The week before the window is h's; some weeks before it are g's. */
  function PairPast(start: int, h: UserId, g: UserId, more: set<int>): Schedule {
    var days := more + {start - WEEK};
    map d | d in days :: Entry(d + WEEK, Some(if d == start - WEEK then h else g), None, true, false, None)
  }

  ghost predicate Earlier(more: set<int>, start: int) {
    forall d :: d in more ==> d < start - WEEK
  }

  lemma {:induction false} PairPastProper(start: int, h: UserId, g: UserId, more: set<int>, days: set<int>,
                                          rows: int -> Entry, j: nat)
    requires Within(days, start, j) && Earlier(more, start)
    requires RowsLocked(days, rows)
    ensures Proper(PairPast(start, h, g, more), days, rows, start, j)
  {
  }

  /** The counts and the last primary after such a past. */
  lemma {:induction false} SeedAfterPair(c: Config, start: int, hi: nat, gi: nat, more: set<int>, s: Schedule,
                                         v: UserId)
    requires Distinct(c.members) && |c.members| == 2 && c.maxConsecutive >= 1 && hi <= 1 && gi <= 1 && v in c.members
    requires Earlier(more, start)
    requires SamePast(s, PairPast(start, c.members[hi], c.members[gi], more), start)
    ensures var t := Seed(c, s, start);
            && t.last == Some(c.members[hi]) && t.run >= 1
            && At(t.primaryCount, v)
               == (if v == c.members[hi] then 1 else 0) + (if v == c.members[gi] then |more| else 0)
  {
    var ms := c.members;
    SeedCounts(c, s, start);
    SeedCountsTrailingRun(c, s, start);
    PairDays(s, start, ms[hi], ms[gi], more, v);
    hide PrimaryWeeksBefore;
    hide PrimaryCounts;
    hide SecondaryCounts;
    hide RunFrom;
    assert PrimaryAt(s, start - WEEK) == Some(ms[hi]);
  }

  ghost predicate SamePast(s: Schedule, past: Schedule, start: int) {
    forall d :: d < start ==> (d in s <==> d in past) && (d in past ==> s[d] == past[d])
  }

  lemma {:induction false} PairPastAt(s: Schedule, start: int, h: UserId, g: UserId, more: set<int>, d: int)
    requires Earlier(more, start) && SamePast(s, PairPast(start, h, g, more), start) && d < start
    ensures PrimaryAt(s, d) == if d == start - WEEK then Some(h) else if d in more then Some(g) else None
  {
  }

  function DaysOf(start: int, h: UserId, g: UserId, more: set<int>, v: UserId): set<int> {
    (if v == h then {start - WEEK} else {}) + (if v == g then more else {})
  }

  lemma {:induction false} PairDaysAre(s: Schedule, start: int, h: UserId, g: UserId, more: set<int>, v: UserId)
    requires Earlier(more, start) && SamePast(s, PairPast(start, h, g, more), start)
    ensures PrimaryDays(s, v, start) == DaysOf(start, h, g, more, v)
  {
    hide PairPast;
    hide SamePast;
    forall d
      ensures d in PrimaryDays(s, v, start) <==> d in DaysOf(start, h, g, more, v)
    {
      if d < start {
        PairPastAt(s, start, h, g, more, d);
      }
    }
  }

  lemma {:induction false} PairDays(s: Schedule, start: int, h: UserId, g: UserId, more: set<int>, v: UserId)
    requires Earlier(more, start) && SamePast(s, PairPast(start, h, g, more), start)
    ensures PrimaryWeeksBefore(s, v, start) == (if v == h then 1 else 0) + (if v == g then |more| else 0)
  {
    PairDaysAre(s, start, h, g, more, v);
    hide PairPast;
    hide SamePast;
    assert PrimaryWeeksBefore(s, v, start) == |PrimaryDays(s, v, start)|;
    hide PrimaryWeeksBefore;
    hide PrimaryDays;
    assert start - WEEK !in more;
  }

  /** If the week before the later window is regular, the later run starts from the same last primary. */
  lemma {:induction false} PairAgrees(c: Config, s: Schedule, start: int, n: nat, j: nat)
    requires Usable(c) && |c.members| == 2 && c.maxConsecutive == 1
    requires 1 <= j < n && !LockedAt(s, start + WEEK * (j - 1))
    ensures Duties(c, TrackerAt(c, s, start, j)) == Duties(c, Seed(c, Regenerated(c, s, start, n), start + WEEK * j))
  {
    hide Regenerated;
    hide TrackerAt;
    hide Duties;
    hide PrimaryCounts;
    hide SecondaryCounts;
    var ws, t := start + WEEK * (j - 1), TrackerAt(c, s, start, j - 1);
    var r := Regenerated(c, s, start, n);
    var t1, t2 := TrackerAt(c, s, start, j), Seed(c, r, start + WEEK * j);
    TrackerAtNext(c, s, start, j - 1);
    DutiesAreLeastServed(c, t);
    PlannedPrimary(c, s, start, n, j - 1);
    WeekStepNotesPrimary(c, s, t, ws, Duties(c, t).0);
    SeedCountsTrailingRun(c, r, start + WEEK * j);
    assert ws == start + WEEK * j - WEEK;
    var p := Duties(c, t).0.value;
    var x := if p == c.members[0] then 0 else 1;
    assert t1.last == t2.last == Some(c.members[x]) && t1.run >= 1 && t2.run >= 1;
    OtherTakesOver(c, t1, 1 - x);
    OtherTakesOver(c, t2, 1 - x);
  }

  /** Then the next week stands, whatever was irregular earlier. */
  lemma {:induction false} PairKeepsNextWeek(c: Config, s: Schedule, start: int, n: nat, j: nat, m: nat, days: set<int>)
    requires Usable(c) && |c.members| == 2 && c.maxConsecutive == 1
    requires 1 <= j < n && m >= 1 && (n == j + 1 || m == 1)
    requires Irregular(s, start, j, days) && start + WEEK * (j - 1) !in days
    ensures KeepsWindow(c, s, start, n, j, m)
  {
    hide Regenerated;
    hide TrackerAt;
    hide Seed;
    hide Duties;
    var at := start + WEEK * j;
    var r := Regenerated(c, s, start, n);
    var r' := Regenerated(c, r, at, m);
    PairAgrees(c, s, start, n, j);
    forall ws | ws in r && ws < start + WEEK * n
      ensures ws in r' && r'[ws] == r[ws]
    {
      if InWindow(at, m, ws) {
        var k := WindowIndex(at, m, ws);
        assert k == 0 && ws == at;
        PlannedRowStored(c, s, start, n, j);
        PlannedRowStored(c, r, at, m, 0);
        LockedWeeksSurvive(c, s, start, n, at);
        PlannedRowFrom(c, s, start, j, at);
        PlannedRowFrom(c, r, at, 0, at);
        TrackerAtNext(c, r, at, 0);
      } else {
        OutsideWindowUntouched(c, r, at, m, ws);
      }
    }
  }

  /** The second member has served more, by one at least, and by two when he was last. */
  ghost predicate SecondAhead(c: Config, t: Tracker, i: nat)
    requires |c.members| == 2
  {
    At(t.primaryCount, c.members[1]) >= At(t.primaryCount, c.members[0]) + 1 + Parity(i)
  }

  /** Two weeks of the second member's, before the last one. */
  function Heavy(start: int): set<int> {
    {start - WEEK * 2, start - WEEK * 3}
  }

  /** The past, and on the irregular days nobody as primary. */
  function EmptyWeeks(c: Config, start: int, days: set<int>, hi: nat): Schedule
    requires |c.members| == 2 && hi <= 1
  {
    Table(PairPast(start, c.members[hi], c.members[1], Heavy(start)), days, BusyRows(c.members[0]))
  }

  lemma {:induction false} EmptyWeeksProper(c: Config, start: int, j: nat, days: set<int>, hi: nat)
    requires |c.members| == 2 && hi <= 1 && Within(days, start, j)
    ensures var past := PairPast(start, c.members[hi], c.members[1], Heavy(start));
            && Proper(past, days, BusyRows(c.members[0]), start, j)
            && SamePast(EmptyWeeks(c, start, days, hi), past, start)
    ensures forall ws :: ws >= start ==> (LockedAt(EmptyWeeks(c, start, days, hi), ws) <==> ws in days)
    ensures forall ws :: ws in days ==> EmptyWeeks(c, start, days, hi)[ws].primary == None
  {
    PairPastProper(start, c.members[hi], c.members[1], Heavy(start), days, BusyRows(c.members[0]), j);
  }

  lemma {:induction false} TurnsBeforeEmpty(c: Config, start: int, j: nat, days: set<int>, hi: nat, i: nat)
    requires Usable(c) && |c.members| == 2 && c.maxConsecutive == 1 && hi <= 1 && Within(days, start, j)
    ensures var t, turns := TrackerAt(c, EmptyWeeks(c, start, days, hi), start, i), hi + Turns(days, start, i);
            TakesTurns(c, t, turns) && SecondAhead(c, t, turns)
  {
    hide WeekStep;
    hide Seed;
    hide PairPast;
    hide EmptyWeeks;
    hide SamePast;
    hide Proper;
    var s := EmptyWeeks(c, start, days, hi);
    EmptyWeeksProper(c, start, j, days, hi);
    TrackerAtNext(c, s, start, if i == 0 then 0 else i - 1);
    hide TrackerAt;
    assert c.members[0] != c.members[1];
    if i == 0 {
      assert |Heavy(start)| == 2;
      SeedAfterPair(c, start, hi, 1, Heavy(start), s, c.members[0]);
      SeedAfterPair(c, start, hi, 1, Heavy(start), s, c.members[1]);
    } else {
      TurnsBeforeEmpty(c, start, j, days, hi, i - 1);
      TakeTurnsStep(c, s, TrackerAt(c, s, start, i - 1), hi + Turns(days, start, i - 1), start + WEEK * (i - 1));
    }
  }

  lemma {:induction false} EmptyWeekDiffers(c: Config, start: int, n: nat, j: nat, days: set<int>)
    requires Usable(c) && |c.members| == 2 && c.maxConsecutive == 1
    requires 1 <= j < n && Within(days, start, j) && start + WEEK * (j - 1) in days
    ensures var s := EmptyWeeks(c, start, days, Parity(Turns(days, start, j)));
            Duties(c, TrackerAt(c, s, start, j)) != Duties(c, Seed(c, Regenerated(c, s, start, n), start + WEEK * j))
  {
    hide Regenerated;
    hide TrackerAt;
    hide Duties;
    hide PairPast;
    hide PrimaryCounts;
    hide SecondaryCounts;
    hide RowsValid;
    hide Table;
    var ms, at := c.members, start + WEEK * j;
    var hi := Parity(Turns(days, start, j));
    var past, s := PairPast(start, ms[hi], ms[1], Heavy(start)), EmptyWeeks(c, start, days, hi);
    var t' := Seed(c, Regenerated(c, s, start, n), at);
    assert ms[0] != ms[1];
    EmptyWeeksProper(c, start, j, days, hi);
    TurnsBeforeEmpty(c, start, j, days, hi, j);
    TakesOver(c, TrackerAt(c, s, start, j), hi + Turns(days, start, j));
    AfterFirstWindow(c, past, days, BusyRows(ms[0]), start, j, n, at - WEEK);
    assert t'.last == None;
    hide Seed;
    LaterLoads(c, past, days, ms[0], start, j, n, ms[0]);
    LaterLoads(c, past, days, ms[0], start, j, n, ms[1]);
    PickOfTwo(c, t');
  }

  /** A locked week without a primary before the later window lets that run decide by counts. */
  lemma {:induction false} EmptyWeekReshuffles(c: Config, start: int, n: nat, j: nat, m: nat, days: set<int>)
    returns (s: Schedule)
    requires Usable(c) && |c.members| == 2 && c.maxConsecutive == 1
    requires 1 <= j < n && m >= 1 && Within(days, start, j) && start + WEEK * (j - 1) in days
    ensures RowsValid(s) && Irregular(s, start, j, days) && !KeepsWindow(c, s, start, n, j, m)
  {
    hide Regenerated;
    hide TrackerAt;
    hide Duties;
    hide Seed;
    hide KeepsWindow;
    hide Irregular;
    hide PairPast;
    hide Proper;
    hide SamePast;
    hide Table;
    var hi := Parity(Turns(days, start, j));
    s := EmptyWeeks(c, start, days, hi);
    EmptyWeeksProper(c, start, j, days, hi);
    TableFits(PairPast(start, c.members[hi], c.members[1], Heavy(start)), days, BusyRows(c.members[0]), start, j);
    EmptyWeekDiffers(c, start, n, j, days);
    DifferentAtOnce(c, s, start, n, j, m);
  }

  // ----- An outsider's week resets the cap of one -----

  function Outsider(c: Config): UserId
    requires |c.members| == 2
  {
    UserId(c.members[0].uuid + c.members[1].uuid + 1)
  }

  /** The first member is primary on d0, the outsider on at; nobody on the other days. */
  function ResetRows(c: Config, d0: int, at: int): int -> Entry
    requires |c.members| == 2
  {
    d => if d == at then Entry(d + WEEK, Some(Outsider(c)), None, true, false, None)
         else if d == d0 then Entry(d + WEEK, Some(c.members[0]), None, true, false, None)
         else Entry(d + WEEK, None, Some(c.members[0]), true, false, None)
  }

  function Balance(start: int, turns: nat): set<int> {
    if Parity(turns) == 0 then {start - WEEK * 2} else {}
  }

  /** The week d0 falls in. */
  function WeekIndex(start: int, d0: int): int {
    (d0 - start) / WEEK
  }

  /** Days of the first j weeks and the outsider's week after them. */
  function ResetDays(days: set<int>, start: int, j: nat): set<int> {
    days + {start + WEEK * j}
  }

  function ResetTable(c: Config, start: int, j: nat, days: set<int>, d0: int): Schedule
    requires |c.members| == 2 && d0 >= start
  {
    Table(ResetPast(c, start, j, days, d0), ResetDays(days, start, j), ResetRows(c, d0, start + WEEK * j))
  }

  /** The members take turns, and at week j they are even. */
  ghost predicate Balanced(c: Config, t: Tracker, hi: nat, all: nat, turns: nat)
    requires |c.members| == 2 && hi <= 1
  {
    && TakesTurns(c, t, hi + turns)
    && At(t.primaryCount, c.members[hi]) - At(t.primaryCount, c.members[1 - hi]) == Parity(all) - Parity(turns)
  }

  function ResetPast(c: Config, start: int, j: nat, days: set<int>, d0: int): Schedule
    requires |c.members| == 2 && d0 >= start
  {
    var hi := Parity(Turns(ResetDays(days, start, j), start, WeekIndex(start, d0)));
    PairPast(start, c.members[hi], c.members[1 - hi], Balance(start, Turns(ResetDays(days, start, j), start, j)))
  }

  lemma {:induction false} ResetProper(c: Config, start: int, j: nat, days: set<int>, d0: int)
    requires |c.members| == 2 && Within(days, start, j) && d0 in days
    ensures Proper(ResetPast(c, start, j, days, d0), ResetDays(days, start, j), ResetRows(c, d0, start + WEEK * j),
                   start, j + 1)
    ensures SamePast(ResetTable(c, start, j, days, d0), ResetPast(c, start, j, days, d0), start)
  {
    hide Turns;
    var days', rows := ResetDays(days, start, j), ResetRows(c, d0, start + WEEK * j);
    var hi := Parity(Turns(days', start, WeekIndex(start, d0)));
    PairPastProper(start, c.members[hi], c.members[1 - hi], Balance(start, Turns(days', start, j)), days', rows, j + 1);
  }

  lemma {:induction false} ResetLocks(c: Config, start: int, j: nat, days: set<int>, d0: int, ws: int)
    requires |c.members| == 2 && Within(days, start, j) && d0 in days && ws >= start
    ensures var s, days' := ResetTable(c, start, j, days, d0), ResetDays(days, start, j);
            && (LockedAt(s, ws) <==> ws in days')
            && (ws in days' ==> s[ws] == ResetRows(c, d0, start + WEEK * j)(ws))
  {
    hide Turns;
    ResetProper(c, start, j, days, d0);
  }

  lemma {:induction false} ParityOfSum(hi: nat, turns: nat)
    requires hi <= 1
    ensures Parity(turns) <= 1 && Parity(turns + 1) == 1 - Parity(turns)
    ensures Parity(hi + turns) == (if Parity(turns) == 0 then hi else 1 - hi)
    ensures Parity(hi + turns + 1) == 1 - Parity(hi + turns)
  {
  }

  lemma {:induction false} EvenStep(c: Config, s: Schedule, t: Tracker, ws: int, hi: nat, all: nat, turns: nat)
    requires Usable(c) && |c.members| == 2 && c.maxConsecutive == 1 && hi <= 1 && Balanced(c, t, hi, all, turns)
    requires LockedAt(s, ws) ==> s[ws].primary.None? || s[ws].primary == t.last
    ensures Balanced(c, WeekStep(c, s, t, ws), hi, all, if LockedAt(s, ws) then turns else turns + 1)
  {
    hide Parity;
    hide WeekStep;
    ParityOfSum(hi, turns);
    TakeTurnsStep(c, s, t, hi + turns, ws);
    hide TakesTurns;
    assert c.members[0] != c.members[1];
  }

  lemma {:induction false} EvenSeed(c: Config, start: int, s: Schedule, hi: nat, all: nat)
    requires Usable(c) && |c.members| == 2 && c.maxConsecutive == 1 && hi <= 1
    requires SamePast(s, PairPast(start, c.members[hi], c.members[1 - hi], Balance(start, all)), start)
    ensures Balanced(c, Seed(c, s, start), hi, all, 0)
  {
    hide Seed;
    hide SamePast;
    assert c.members[0] != c.members[1];
    SeedAfterPair(c, start, hi, 1 - hi, Balance(start, all), s, c.members[0]);
    SeedAfterPair(c, start, hi, 1 - hi, Balance(start, all), s, c.members[1]);
  }

  lemma {:induction false} ResetRowHarmless(c: Config, start: int, j: nat, d0: int, i: nat, turns: nat)
    requires |c.members| == 2 && 1 <= i <= j && WeekIndex(start, d0) == i - 1
    ensures var row := ResetRows(c, d0, start + WEEK * j)(start + WEEK * (i - 1));
            row.primary.None? || row.primary == Some(c.members[Parity(Parity(turns) + turns)])
  {
  }

  /** On the grid the irregular row repeats the last primary. */
  lemma {:induction false} TurnsBeforeReset(c: Config, start: int, j: nat, days: set<int>, d0: int, i: nat)
    requires Usable(c) && |c.members| == 2 && c.maxConsecutive == 1 && Within(days, start, j) && d0 in days && i <= j
    ensures var days' := ResetDays(days, start, j);
            Balanced(c, TrackerAt(c, ResetTable(c, start, j, days, d0), start, i),
                     Parity(Turns(days', start, WeekIndex(start, d0))), Turns(days', start, j), Turns(days', start, i))
  {
    hide WeekStep;
    hide Seed;
    hide PairPast;
    hide ResetTable;
    hide ResetRows;
    hide SamePast;
    hide Proper;
    hide Usable;
    hide Parity;
    var days', s := ResetDays(days, start, j), ResetTable(c, start, j, days, d0);
    var hi, all := Parity(Turns(days', start, WeekIndex(start, d0))), Turns(days', start, j);
    TrackerAtNext(c, s, start, if i == 0 then 0 else i - 1);
    hide TrackerAt;
    ParityOfSum(0, Turns(days', start, WeekIndex(start, d0)));
    if i == 0 {
      ResetProper(c, start, j, days, d0);
      EvenSeed(c, start, s, hi, all);
    } else {
      TurnsBeforeReset(c, start, j, days, d0, i - 1);
      var ws := start + WEEK * (i - 1);
      ResetLocks(c, start, j, days, d0, ws);
      if WeekIndex(start, d0) == i - 1 {
        ResetRowHarmless(c, start, j, d0, i, Turns(days', start, i - 1));
      } else {
        OtherResetRows(c, start, j, d0, i);
      }
      EvenStep(c, s, TrackerAt(c, s, start, i - 1), ws, hi, all, Turns(days', start, i - 1));
    }
  }

  lemma {:induction false} OtherResetRows(c: Config, start: int, j: nat, d0: int, i: nat)
    requires |c.members| == 2 && 1 <= i <= j && WeekIndex(start, d0) != i - 1
    ensures ResetRows(c, d0, start + WEEK * j)(start + WEEK * (i - 1)).primary.None?
  {
  }

  lemma {:induction false} AfterOutsider(c: Config, s: Schedule, t: Tracker, ws: int)
    requires Distinct(c.members) && |c.members| == 2 && LockedAt(s, ws) && s[ws].primary == Some(Outsider(c))
    ensures var x := if At(t.primaryCount, c.members[0]) <= At(t.primaryCount, c.members[1]) then 0 else 1;
            Duties(c, WeekStep(c, s, t, ws)).0 == Some(c.members[x])
  {
    hide Duties;
    LockedKeepsCounts(c, s, t, ws);
    WeekStepNotesPrimary(c, s, t, ws, s[ws].primary);
    PickOfTwo(c, WeekStep(c, s, t, ws));
    hide WeekStep;
    assert Outsider(c) != c.members[0] && Outsider(c) != c.members[1];
  }

  lemma {:induction false} LaterSeesIrregular(c: Config, start: int, n: nat, j: nat, days: set<int>, d0: int, v: UserId)
    requires Usable(c) && |c.members| == 2 && j < n && Within(days, start, j) && d0 in days && v in c.members
    ensures var s, at := ResetTable(c, start, j, days, d0), start + WEEK * j;
            At(Seed(c, Regenerated(c, s, start, n), at).primaryCount, v)
            == At(TrackerAt(c, s, start, j).primaryCount, v) + if v == c.members[0] then 1 else 0
  {
    hide Regenerated;
    hide TrackerAt;
    hide Seed;
    hide Table;
    hide ResetPast;
    hide Proper;
    hide SamePast;
    hide PrimaryWeeksBefore;
    hide SecondaryWeeksBefore;
    hide Turns;
    var at, days' := start + WEEK * j, ResetDays(days, start, j);
    var rows := ResetRows(c, d0, at);
    var past := ResetPast(c, start, j, days, d0);
    ResetProper(c, start, j, days, d0);
    LaterRunCountsMore(c, past, days', rows, start, j + 1, n, j, v);
    assert NamedPrimary(days', rows, v, at) == if v == c.members[0] then {d0} else {};
    SeedCounts(c, Regenerated(c, ResetTable(c, start, j, days, d0), start, n), at);
  }

  lemma {:induction false} ResetDiffers(c: Config, start: int, n: nat, j: nat, days: set<int>, d0: int)
    requires Usable(c) && |c.members| == 2 && c.maxConsecutive == 1
    requires 1 <= j && j + 1 < n && Within(days, start, j) && d0 in days
    ensures var s, at := ResetTable(c, start, j, days, d0), start + WEEK * j;
            Duties(c, TrackerAt(c, s, start, j + 1)) != Duties(c, TrackerAt(c, Regenerated(c, s, start, n), at, 1))
  {
    hide Regenerated;
    hide TrackerAt;
    hide Seed;
    hide Duties;
    hide WeekStep;
    hide ResetTable;
    hide Table;
    hide Proper;
    hide SamePast;
    hide PairPast;
    hide Turns;
    var ms, at, s := c.members, start + WEEK * j, ResetTable(c, start, j, days, d0);
    var r := Regenerated(c, s, start, n);
    assert ms[0] != ms[1];
    ResetLocks(c, start, j, days, d0, at);
    TurnsBeforeReset(c, start, j, days, d0, j);
    LockedWeeksSurvive(c, s, start, n, at);
    assert at in ResetDays(days, start, j);
    TrackerAtNext(c, s, start, j);
    TrackerAtNext(c, r, at, 0);
    AfterOutsider(c, s, TrackerAt(c, s, start, j), at);
    AfterOutsider(c, r, Seed(c, r, at), at);
    LaterSeesIrregular(c, start, n, j, days, d0, ms[0]);
    LaterSeesIrregular(c, start, n, j, days, d0, ms[1]);
  }

  /** After an outsider's week counts decide again, and the two runs count differently. */
  lemma {:induction false} ResetReshuffles(c: Config, start: int, n: nat, j: nat, m: nat, days: set<int>, d0: int)
    returns (s: Schedule)
    requires Usable(c) && |c.members| == 2 && c.maxConsecutive == 1
    requires 1 <= j && j + 1 < n && m >= 2 && Within(days, start, j) && d0 in days
    ensures RowsValid(s) && Irregular(s, start, j, days) && !KeepsWindow(c, s, start, n, j, m)
  {
    hide Regenerated;
    hide TrackerAt;
    hide Duties;
    hide KeepsWindow;
    hide ResetPast;
    hide Proper;
    hide SamePast;
    hide Table;
    hide Turns;
    var days', past := ResetDays(days, start, j), ResetPast(c, start, j, days, d0);
    s := ResetTable(c, start, j, days, d0);
    ResetProper(c, start, j, days, d0);
    ResetLocks(c, start, j, days, d0, start + WEEK * (j + 1));
    TableFits(past, days', ResetRows(c, d0, start + WEEK * j), start, j + 1);
    ResetDiffers(c, start, n, j, days, d0);
    DifferentDuties(c, s, start, n, j, m, 1);
  }
}
