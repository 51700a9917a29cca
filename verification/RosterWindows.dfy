/** The exact condition under which a later run leaves published weeks alone. */
module RosterWindows {
  import opened Wrappers
  import opened RosterModel
  import opened RosterFairness
  import opened RosterRuns
  import opened RosterStability
  import opened RosterLaterRuns
  import opened RosterReshuffles
  import opened RosterPairs

  // ----- Exactly when -----

  lemma {:induction false} LoneDuties(c: Config, t: Tracker)
    requires |c.members| == 1
    ensures Duties(c, t) == (Some(c.members[0]), None)
  {
    hide PrimaryPick;
    hide SecondaryPick;
    DutiesAreLeastServed(c, t);
  }

  /** A lone member's weeks stand whatever is irregular. */
  lemma {:induction false} LoneMemberStable(c: Config, s: Schedule, start: int, n: nat, j: nat, m: nat)
    requires |c.members| == 1
    ensures KeepsWindow(c, s, start, n, j, m)
  {
    hide Regenerated;
    hide TrackerAt;
    hide Duties;
    var at := start + WEEK * j;
    var r := Regenerated(c, s, start, n);
    var r' := Regenerated(c, r, at, m);
    forall ws | ws in r && ws < start + WEEK * n
      ensures ws in r' && r'[ws] == r[ws]
    {
      if InWindow(at, m, ws) {
        var k := WindowIndex(at, m, ws);
        assert ws == start + WEEK * (j + k) && j + k < n;
        PlannedRowStored(c, s, start, n, j + k);
        PlannedRowStored(c, r, at, m, k);
        LockedWeeksSurvive(c, s, start, n, ws);
        PlannedRowFrom(c, s, start, j + k, ws);
        PlannedRowFrom(c, r, at, k, ws);
        LoneDuties(c, TrackerAt(c, s, start, j + k));
        LoneDuties(c, TrackerAt(c, r, at, k));
      } else {
        OutsideWindowUntouched(c, r, at, m, ws);
      }
    }
  }

  /** Every sound table with these irregular days keeps its published weeks. */
  ghost predicate AlwaysStable(c: Config, start: int, n: nat, j: nat, m: nat, days: set<int>) {
    forall s :: RowsValid(s) && Irregular(s, start, j, days) ==> KeepsWindow(c, s, start, n, j, m)
  }

  /**
   What irregular days a roster tolerates: a lone member any, two members who must alternate any
   that leave the last week before the new window regular as long as only one week is at stake,
   every other roster none.
   */
  predicate Tolerates(c: Config, start: int, n: nat, j: nat, m: nat, days: set<int>) {
    || |c.members| == 1
    || days == {}
    || (|c.members| == 2 && c.maxConsecutive == 1 && start + WEEK * (j - 1) !in days && (n == j + 1 || m == 1))
  }

  lemma {:induction false} ToleratedIsStable(c: Config, s: Schedule, start: int, n: nat, j: nat, m: nat, days: set<int>)
    requires Usable(c) && 1 <= j < n && m >= 1 && Within(days, start, j)
    requires Tolerates(c, start, n, j, m, days) && Irregular(s, start, j, days)
    ensures KeepsWindow(c, s, start, n, j, m)
  {
    hide Regenerated;
    if |c.members| == 1 {
      LoneMemberStable(c, s, start, n, j, m);
    } else if days == {} {
      var r := Regenerated(c, s, start, n);
      forall ws | ws in r && ws < start + WEEK * n
        ensures var r' := Regenerated(c, r, start + WEEK * j, m); ws in r' && r'[ws] == r[ws]
      {
        LaterRunKeepsWindow(c, s, start, n, j, m, ws);
      }
    } else {
      PairKeepsNextWeek(c, s, start, n, j, m, days);
    }
  }

  lemma {:induction false} AnyDay(days: set<int>) returns (d: int)
    requires days != {}
    ensures d in days
  {
    assert (forall x :: x !in days) ==> days == {};
    d :| d in days;
  }

  lemma {:induction false} IrregularDaysReshuffle(c: Config, start: int, n: nat, j: nat, m: nat, days: set<int>)
    returns (s: Schedule)
    requires Usable(c) && 1 <= j < n && m >= 1 && Within(days, start, j)
    requires !Tolerates(c, start, n, j, m, days)
    ensures RowsValid(s) && Irregular(s, start, j, days) && !KeepsWindow(c, s, start, n, j, m)
  {
    hide RowsValid;
    hide Irregular;
    hide KeepsWindow;
    var d0 := AnyDay(days);
    if |c.members| >= 3 {
      s := ThreeReshuffle(c, start, n, j, m, days);
    } else if c.maxConsecutive >= 2 {
      s := TwoReshuffle(c, start, n, j, m, days, d0);
    } else if start + WEEK * (j - 1) in days {
      s := EmptyWeekReshuffles(c, start, n, j, m, days);
    } else {
      s := ResetReshuffles(c, start, n, j, m, days, d0);
    }
  }

  /**
   Exactly when the window is stable, for every roster: a later run keeps the published weeks of all
   sound tables with given irregular days before it if and only if the roster tolerates those days.
   */
  lemma {:induction false} WindowStableIff(c: Config, start: int, n: nat, j: nat, m: nat, days: set<int>)
    requires Usable(c) && 1 <= j < n && m >= 1 && Within(days, start, j)
    ensures AlwaysStable(c, start, n, j, m, days) <==> Tolerates(c, start, n, j, m, days)
  {
    hide RowsValid;
    hide Irregular;
    hide KeepsWindow;
    if Tolerates(c, start, n, j, m, days) {
      forall s | RowsValid(s) && Irregular(s, start, j, days)
        ensures KeepsWindow(c, s, start, n, j, m)
      {
        ToleratedIsStable(c, s, start, n, j, m, days);
      }
    } else {
      var s := IrregularDaysReshuffle(c, start, n, j, m, days);
    }
  }

  // ----- A small instance -----

  /**
   A locked week is not counted by the run that steps over it but is counted by a later run that
   starts after it: two members, the first week locked for a, and week 1 goes from a to b.
   */
  lemma {:induction false} LockedWeekReshuffles(a: UserId, b: UserId)
    requires a != b
    ensures var c, s := Config([a, b], 2), map[0 := Entry(WEEK, Some(a), None, true, false, None)];
            var r := Regenerated(c, s, 0, 2);
            && WEEK in r && r[WEEK].primary == Some(a)
            && WEEK in Regenerated(c, r, WEEK, 1) && Regenerated(c, r, WEEK, 1)[WEEK].primary == Some(b)
  {
    hide Regenerated;
    hide PlannedRow;
    var c, s := Config([a, b], 2), map[0 := Entry(WEEK, Some(a), None, true, false, None)];
    var r := Regenerated(c, s, 0, 2);
    AfterFirstRun(c, s, a, b);
    LaterRunPicks(c, r, a, b);
    PlannedRowStored(c, r, WEEK, 1, 0);
  }

  lemma {:induction false} AfterFirstRun(c: Config, s: Schedule, a: UserId, b: UserId)
    requires a != b && c == Config([a, b], 2) && s == map[0 := Entry(WEEK, Some(a), None, true, false, None)]
    ensures var r := Regenerated(c, s, 0, 2);
            && 0 in r && r[0].primary == Some(a) && WEEK in r && r[WEEK].primary == Some(a) && !LockedAt(r, WEEK)
            && forall ws :: ws in r ==> ws == 0 || ws == WEEK
  {
    hide Regenerated;
    hide PlannedRow;
    FirstRunPicks(c, s, a, b);
    PlannedRowStored(c, s, 0, 2, 1);
    LockedWeeksSurvive(c, s, 0, 2, 0);
    LockedWeeksSurvive(c, s, 0, 2, WEEK);
    forall ws | ws in Regenerated(c, s, 0, 2)
      ensures ws == 0 || ws == WEEK
    {
      RegeneratedKeys(c, s, 0, 2, ws);
    }
  }

  lemma {:induction false} FirstRunPicks(c: Config, s: Schedule, a: UserId, b: UserId)
    requires a != b && c == Config([a, b], 2) && s == map[0 := Entry(WEEK, Some(a), None, true, false, None)]
    ensures PlannedRow(c, s, 0, 1).primary == Some(a)
  {
    hide SecondaryPick;
    TrackerAtNext(c, s, 0, 0);
    var t := TrackerAt(c, s, 0, 1);
    assert PrimaryDays(s, a, 0) == {} && PrimaryDays(s, b, 0) == {};
    assert t.last == Some(a) && t.run == 1;
    assert At(t.primaryCount, a) == 0 && At(t.primaryCount, b) == 0;
    FirstLeastAt([a, b], t.primaryCount, 0);
    hide TrackerAt;
    PlannedRowFrom(c, s, 0, 1, WEEK);
  }

  lemma {:induction false} LaterRunPicks(c: Config, r: Schedule, a: UserId, b: UserId)
    requires a != b && c == Config([a, b], 2) && 0 in r && r[0].primary == Some(a) && !LockedAt(r, WEEK)
    requires forall ws :: ws in r ==> ws == 0 || ws == WEEK
    ensures PlannedRow(c, r, WEEK, 0).primary == Some(b)
  {
    hide SecondaryPick;
    TrackerAtNext(c, r, WEEK, 0);
    var t := Seed(c, r, WEEK);
    assert PrimaryDays(r, a, WEEK) == {0} && PrimaryDays(r, b, WEEK) == {};
    assert RunFrom(r, a, WEEK, 2, 2) == 0;
    assert At(t.primaryCount, a) == 1 && At(t.primaryCount, b) == 0;
    FirstLeastAt([a, b], t.primaryCount, 1);
    PlannedRowFrom(c, r, WEEK, 0, WEEK);
  }
}
