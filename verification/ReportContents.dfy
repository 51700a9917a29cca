/** What a coverage report holds, said of the rosters, rows and overrides themselves. */
module ReportContents {
  import opened Wrappers
  import opened RosterModel
  import opened ActiveHours
  import opened Coverage

  // ----- Which rosters -----

  /** The chosen elements are those at these places, in order. */
  ghost predicate ChosenAt<T>(all: seq<T>, chosen: seq<T>, ps: seq<nat>) {
    && |ps| == |chosen|
    && (forall k :: 0 <= k < |ps| ==> ps[k] < |all| && all[ps[k]] == chosen[k])
    && (forall k, l :: 0 <= k < l < |ps| ==> ps[k] < ps[l])
  }

  lemma {:induction false} OneMoreSeen<T>(all: seq<T>, x: T, chosen: seq<T>, ps: seq<nat>)
    requires ChosenAt(all, chosen, ps)
    ensures ChosenAt(all + [x], chosen, ps) && ChosenAt(all + [x], chosen + [x], ps + [|all|])
  {
  }

  /** The report looks at the rosters that are switched on, in order, and at no others. */
  lemma {:induction false} ActiveRostersInOrder(rs: seq<RosterRow>) returns (ps: seq<nat>)
    ensures ChosenAt(rs, ActiveRosters(rs), ps)
    ensures forall r :: r in ActiveRosters(rs) <==> r in rs && r.active
  {
    if rs == [] {
      ps := [];
    } else {
      hide ChosenAt;
      var n := |rs| - 1;
      ps := ActiveRostersInOrder(rs[..n]);
      OneMoreSeen(rs[..n], rs[n], ActiveRosters(rs[..n]), ps);
      assert rs[..n] + [rs[n]] == rs;
      assert ActiveRosters(rs[..n]) + [] == ActiveRosters(rs[..n]);
      if rs[n].active {
        ps := ps + [n];
      }
    }
  }

  /** The rosters on duty. */
  function OnDuty(rs: seq<RosterRow>, at: int): seq<RosterRow> {
    if rs == [] then []
    else OnDuty(rs[..|rs| - 1], at) + if IsActiveAt(rs[|rs| - 1].shift, at) then [rs[|rs| - 1]] else []
  }

  lemma {:induction false} OnDutyAre(rs: seq<RosterRow>, at: int)
    ensures forall r :: r in OnDuty(rs, at) <==> r in rs && IsActiveAt(r.shift, at)
  {
    hide IsActiveAt;
    if rs != [] {
      var n := |rs| - 1;
      OnDutyAre(rs[..n], at);
      assert rs[..n] + [rs[n]] == rs;
    }
  }

  /** A slot has one entry for each of them, in order, with its id and what its rows resolve to. */
  lemma {:induction false} CoverageIs(rs: seq<RosterRow>, names: Names, from: int, to: int, at: int)
    ensures var coverage, duty := CoverageAt(rs, names, from, to, at), OnDuty(rs, at);
            && |coverage| == |duty|
            && forall k :: 0 <= k < |duty| ==>
                 && coverage[k].id == duty[k].id
                 && (coverage[k].primary, coverage[k].secondary, coverage[k].source)
                    == ResolveFromCache(Prefetch(duty[k], names, from, to), names, at)
  {
    hide IsActiveAt;
    hide Prefetch;
    hide ResolveFromCache;
    if rs != [] {
      CoverageIs(rs[..|rs| - 1], names, from, to, at);
    }
  }

  ghost predicate Lists(slot: Slot, id: nat) {
    exists k :: 0 <= k < |slot.coverage| && slot.coverage[k].id == id
  }

  /** An entry of a slot is of an active roster on duty. */
  lemma {:induction false} ListedAreOnDuty(rs: seq<RosterRow>, names: Names, from: int, to: int, resolution: int,
                                           rep: Report, n: nat, id: nat)
    requires IsReport(rs, names, from, to, resolution, rep) && n < |rep.slots|
    ensures Lists(rep.slots[n], id)
            <==> exists r :: r in rs && r.active && IsActiveAt(r.shift, rep.slots[n].time) && r.id == id
  {
    hide IsActiveAt;
    hide CoverageAt;
    hide SlotsTile;
    hide GapsAreRuns;
    hide GapTime;
    var at, active := rep.slots[n].time, ActiveRosters(rs);
    var ps := ActiveRostersInOrder(rs);
    CoverageIs(active, names, from, to, at);
    OnDutyAre(active, at);
    var duty := OnDuty(active, at);
    hide ActiveRosters;
    hide OnDuty;
    if Lists(rep.slots[n], id) {
      var k :| 0 <= k < |rep.slots[n].coverage| && rep.slots[n].coverage[k].id == id;
      assert duty[k] in duty;
    }
    if r :| r in rs && r.active && IsActiveAt(r.shift, at) && r.id == id {
      assert r in duty;
      var k :| 0 <= k < |duty| && duty[k] == r;
      assert rep.slots[n].coverage[k].id == id;
    }
  }

  /**
   Ordinary rosters cover the clock: with one that is switched on and does not follow the sun, every
   slot lists it, and the report has no gap.
   */
  lemma {:induction false} OrdinaryRosterLeavesNoGap(rs: seq<RosterRow>, names: Names, from: int, to: int,
                                                     resolution: int, rep: Report, i: nat)
    requires IsReport(rs, names, from, to, resolution, rep)
    requires i < |rs| && rs[i].active && !rs[i].shift.followTheSun
    ensures forall n :: 0 <= n < |rep.slots| ==> Lists(rep.slots[n], rs[i].id)
    ensures rep.gaps == [] && rep.totalGapMinutes == 0
  {
    var ps := ActiveRostersInOrder(rs);
    assert rs[i] in ActiveRosters(rs);
    hide ActiveRosters;
    hide CoverageAt;
    hide IsActiveAt;
    forall n | 0 <= n < |rep.slots|
      ensures Lists(rep.slots[n], rs[i].id) && !rep.slots[n].gap
    {
      AlwaysOnDuty(rs[i].shift, rep.slots[n].time);
      ListedAreOnDuty(rs, names, from, to, resolution, rep, n, rs[i].id);
    }
    NoGapSlotsNoGaps(rep.slots, to, Resolution(resolution) * MINUTE);
  }

  lemma {:induction false} AlwaysOnDuty(s: Shift, at: int)
    requires !s.followTheSun
    ensures IsActiveAt(s, at)
  {
  }

  // ----- Which slots -----

  /** Slots come at the given resolution, hourly if it is not positive, from the start of the window on. */
  lemma {:induction false} SlotsAtResolution(rs: seq<RosterRow>, names: Names, from: int, to: int, resolution: int,
                                             rep: Report, n: nat)
    requires IsReport(rs, names, from, to, resolution, rep) && n < |rep.slots|
    ensures rep.slots[n].time == from + n * ((if resolution > 0 then resolution else 60) * 60_000_000_000) < to
  {
    hide CoverageAt;
    hide GapsAreRuns;
    hide GapTime;
    hide ActiveRosters;
    if n > 0 {
      SlotsAtResolution(rs, names, from, to, resolution, rep, n - 1);
      OneStepMore(n - 1, Resolution(resolution) * MINUTE);
    }
  }

  lemma {:induction false} OneStepMore(n: nat, step: int)
    ensures (n + 1) * step == n * step + step
  {
  }

  // ----- Which total -----

  function Lengths(gaps: seq<Gap>): int {
    if gaps == [] then 0 else Lengths(gaps[..|gaps| - 1]) + gaps[|gaps| - 1].end - gaps[|gaps| - 1].start
  }

  function RunTime(slots: seq<Slot>, to: int, runs: seq<Span>): int {
    if runs == [] then 0
    else
      var last := runs[|runs| - 1];
      RunTime(slots, to, runs[..|runs| - 1]) + Edge(slots, to, last.end) - Edge(slots, to, last.first)
  }

  /** One more slot does not matter to runs that have ended. */
  lemma {:induction false} EndedRuns(past: seq<Slot>, slot: Slot, to: int, runs: seq<Span>)
    requires forall i :: 0 <= i < |runs| ==> 0 <= runs[i].first < |past| && 0 <= runs[i].end <= |past|
    ensures RunTime(past + [slot], to, runs) == RunTime(past, slot.time, runs)
  {
    if runs != [] {
      EndedRuns(past, slot, to, runs[..|runs| - 1]);
    }
  }

  lemma {:induction false} UnclippedTime(slots: seq<Slot>, to: int, to': int, step: int)
    requires forall k :: 0 <= k < |slots| ==> slots[k].time + step <= to && slots[k].time + step <= to'
    ensures GapTime(slots, to, step) == GapTime(slots, to', step)
  {
    if slots != [] {
      UnclippedTime(slots[..|slots| - 1], to, to', step);
    }
  }

  lemma {:induction false} PastTiles(slots: seq<Slot>, from: int, to: int, step: int)
    requires SlotsTile(slots, from, to, step) && step > 0 && |slots| >= 2
    ensures var n := |slots| - 1;
            && SlotsTile(slots[..n], from, slots[n].time, step)
            && forall k :: 0 <= k < n ==> slots[k].time + step <= slots[n].time
  {
    var n := |slots| - 1;
    forall k | 0 <= k < n
      ensures slots[k].time + step <= slots[n].time
    {
      assert slots[k + 1].time == slots[k].time + step;
      SlotTimes(slots, from, to, step, k + 1, n);
    }
  }

  lemma {:induction false} RunsWithinSlots(slots: seq<Slot>)
    ensures forall i :: 0 <= i < |Runs(slots)| ==>
              0 <= Runs(slots)[i].first < |slots| && 0 <= Runs(slots)[i].end <= |slots|
  {
    RunsAreMaximal(slots);
    hide Runs;
    forall i | 0 <= i < |Runs(slots)|
      ensures 0 <= Runs(slots)[i].first < |slots| && 0 <= Runs(slots)[i].end <= |slots|
    {
      assert MaximalRun(slots, Runs(slots)[i]);
    }
  }

  lemma {:induction false} NoRunsNoTime(to: int, step: int)
    ensures Runs([]) == [] && GapTime([], to, step) == 0
  {
  }

  lemma {:induction false} RunsTakeGapTime(slots: seq<Slot>, from: int, to: int, step: int)
    requires SlotsTile(slots, from, to, step) && step > 0
    ensures RunTime(slots, to, Runs(slots)) == GapTime(slots, to, step)
  {
    hide Runs;
    hide GapTime;
    hide Extends;
    hide Edge;
    NoRunsNoTime(to, step);
    if slots != [] {
      var n := |slots| - 1;
      var past, slot := slots[..n], slots[n];
      assert past + [slot] == slots;
      RunsExtend(past, slot);
      RunsWithinSlots(past);
      EndedRuns(past, slot, to, Runs(past));
      if n > 0 {
        PastTiles(slots, from, to, step);
        RunsTakeGapTime(past, from, slot.time, step);
        UnclippedTime(past, to, slot.time, step);
      } else {
        assert past == [];
      }
      GapTimeNext(past, slot, to, step);
      LastRunTime(slots, to, Runs(past), Runs(slots));
    }
  }

  /** What the last slot adds to the time of the runs. */
  lemma {:induction false} LastRunTime(slots: seq<Slot>, to: int, was: seq<Span>, now: seq<Span>)
    requires slots != [] && Extends(slots, was, now)
    ensures var n := |slots| - 1;
            RunTime(slots, to, now) == RunTime(slots, to, was) + if slots[n].gap then to - slots[n].time else 0
  {
    var n, m := |slots| - 1, |was| - 1;
    if slots[n].gap {
      if was != [] && was[m].end == n {
        assert now[..m] == was[..m];
      } else {
        assert now[..|was|] == was;
      }
    }
  }

  lemma {:induction false} GapsTakeRunTime(slots: seq<Slot>, to: int, gaps: seq<Gap>, runs: seq<Span>)
    requires |gaps| == |runs|
    requires forall i :: 0 <= i < |gaps| ==>
               gaps[i] == Gap(Edge(slots, to, runs[i].first), Edge(slots, to, runs[i].end))
    ensures Lengths(gaps) == RunTime(slots, to, runs)
  {
    hide Edge;
    if gaps != [] {
      GapsTakeRunTime(slots, to, gaps[..|gaps| - 1], runs[..|runs| - 1]);
    }
  }

  /** The total is the length of all reported gaps together, rounded down by less than a minute. */
  lemma {:induction false} TotalIsOfGaps(rs: seq<RosterRow>, names: Names, from: int, to: int, resolution: int,
                                         rep: Report)
    requires IsReport(rs, names, from, to, resolution, rep)
    ensures rep.totalGapMinutes * 60_000_000_000 <= Lengths(rep.gaps) < (rep.totalGapMinutes + 1) * 60_000_000_000
  {
    hide CoverageAt;
    hide Runs;
    hide GapTime;
    hide ActiveRosters;
    if rep != Report([], [], 0) {
      var slots, step := rep.slots, Resolution(resolution) * MINUTE;
      RunsTakeGapTime(slots, from, to, step);
      hide SlotsTile;
      forall i | 0 <= i < |rep.gaps|
        ensures rep.gaps[i] == Gap(Edge(slots, to, Runs(slots)[i].first), Edge(slots, to, Runs(slots)[i].end))
      {
      }
      GapsTakeRunTime(slots, to, rep.gaps, Runs(slots));
    }
  }

  // ----- What an entry says -----

  ghost predicate Overridden(r: RosterRow, at: int, o: Override) {
    o in r.overrides && o.startAt <= at < o.endAt
  }

  ghost predicate Scheduled(r: RosterRow, at: int, ws: int) {
    ws in r.schedule && ws * DAY <= at < r.schedule[ws].weekEnd * DAY
  }

  /**
   Said of the rows alone: an override holds from its start to before its end and gives its user; else
   a week holds from midnight of its first day to midnight of its end and gives its two users, if it has
   a named primary; else nobody is assigned.
   */
  lemma {:induction false} ResolvedFromRows(r: RosterRow, names: Names, from: int, to: int, at: int)
    requires RowsShort(r.schedule) && from <= at < to && NoOverlap(r, at)
    ensures var (p, q, source) := ResolveFromCache(Prefetch(r, names, from, to), names, at);
            && (forall o :: Overridden(r, at, o) ==> (p, q, source) == (names(o.user), "", FromOverride))
            && (forall ws :: Scheduled(r, at, ws) && (forall o :: !Overridden(r, at, o)) ==>
                  (p, q, source) == RowAnswer(r.schedule[ws], names))
            && ((forall o :: !Overridden(r, at, o)) && (forall ws :: !Scheduled(r, at, ws)) ==>
                  (p, q, source) == ("", "", Unassigned))
  {
    CacheSource(r, names, from, to, at);
    FirstOverrideFound(r.overrides, from, to, at);
    hide DayOf;
    forall ws
      ensures Scheduled(r, at, ws) <==> WeekCovers(r.schedule, ws, at)
    {
      if ws in r.schedule {
        MidnightIsDay(ws, at);
        MidnightIsDay(r.schedule[ws].weekEnd, at);
      }
    }
    forall o
      ensures Overridden(r, at, o)
              <==> exists i :: 0 <= i < |r.overrides| && r.overrides[i] == o && OverrideActive(o, at)
    {
    }
    hide Prefetch;
    hide FirstWeek;
  }

  /** The two users of a row, if its primary has a name. */
  function RowAnswer(row: Entry, names: Names): (string, string, Source) {
    if row.primary.Some? && names(row.primary.value) != ""
    then (names(row.primary.value), if row.secondary.Some? then names(row.secondary.value) else "", FromSchedule)
    else ("", "", Unassigned)
  }
}
