/** Regenerating, again or later, does not reshuffle weeks that were already published. */
module RosterStability {
  import opened Wrappers
  import opened RosterModel
  import opened RosterFairness
  import opened RosterRuns

  // ----- Two trackers that decide alike -----

  /** Equal counts and last primary, and the same standing against the cap. */
  ghost predicate Alike(c: Config, a: Tracker, b: Tracker) {
    && a.primaryCount == b.primaryCount
    && a.secondaryCount == b.secondaryCount
    && a.last == b.last
    && Min(a.run, c.maxConsecutive) == Min(b.run, c.maxConsecutive)
  }

  lemma {:induction false} AlikeDecideAlike(c: Config, a: Tracker, b: Tracker)
    requires c.maxConsecutive >= 1 && Alike(c, a, b)
    ensures Duties(c, a) == Duties(c, b)
  {
    hide SecondaryPick;
    hide FirstLeast;
    assert Eligible(c, a.last, a.run) == Eligible(c, b.last, b.run);
  }

  lemma {:induction false} AlikeStayAlike(c: Config, s: Schedule, s': Schedule, a: Tracker, b: Tracker, ws: int)
    requires c.maxConsecutive >= 1 && Alike(c, a, b)
    requires LockedAt(s', ws) == LockedAt(s, ws) && (LockedAt(s, ws) ==> s'[ws] == s[ws])
    ensures Alike(c, WeekStep(c, s, a, ws), WeekStep(c, s', b, ws))
  {
    AlikeDecideAlike(c, a, b);
    hide Duties;
  }

  // ----- The weeks before the new window -----

  /** Nothing locked, and nothing stored off the weekly grid, in the first j weeks from start. */
  ghost predicate CleanPrefix(s: Schedule, start: int, j: nat) {
    forall ws :: ws in s && start <= ws < start + WEEK * j ==> !s[ws].locked && OnGrid(start, ws)
  }

  function PrimaryDays(s: Schedule, u: UserId, before: int): set<int> {
    set ws | ws in s && ws < before && s[ws].primary == Some(u)
  }

  function SecondaryDays(s: Schedule, u: UserId, before: int): set<int> {
    set ws | ws in s && ws < before && s[ws].secondary == Some(u)
  }

  /** A stored week that is the only one starting within seven days adds itself to the counts. */
  lemma {:induction false} PrimaryWeekCounted(r: Schedule, u: UserId, ws: int)
    requires ws in r && forall v :: v in r && ws <= v < ws + WEEK ==> v == ws
    ensures PrimaryWeeksBefore(r, u, ws + WEEK)
            == PrimaryWeeksBefore(r, u, ws) + if r[ws].primary == Some(u) then 1 else 0
  {
    var days, days' := PrimaryDays(r, u, ws), PrimaryDays(r, u, ws + WEEK);
    assert days' == if r[ws].primary == Some(u) then days + {ws} else days;
  }

  lemma {:induction false} SecondaryWeekCounted(r: Schedule, u: UserId, ws: int)
    requires ws in r && forall v :: v in r && ws <= v < ws + WEEK ==> v == ws
    ensures SecondaryWeeksBefore(r, u, ws + WEEK)
            == SecondaryWeeksBefore(r, u, ws) + if r[ws].secondary == Some(u) then 1 else 0
  {
    var days, days' := SecondaryDays(r, u, ws), SecondaryDays(r, u, ws + WEEK);
    assert days' == if r[ws].secondary == Some(u) then days + {ws} else days;
  }

  lemma {:induction false} SamePastSameCounts(s: Schedule, r: Schedule, u: UserId, before: int)
    requires forall ws :: ws < before ==> (ws in r <==> ws in s) && (ws in s ==> r[ws] == s[ws])
    ensures PrimaryWeeksBefore(r, u, before) == PrimaryWeeksBefore(s, u, before)
    ensures SecondaryWeeksBefore(r, u, before) == SecondaryWeeksBefore(s, u, before)
  {
    assert PrimaryDays(r, u, before) == PrimaryDays(s, u, before);
    assert SecondaryDays(r, u, before) == SecondaryDays(s, u, before);
  }

  /** The tracker holds what a fresh look at the table r would find at day `at`. */
  ghost predicate Reflects(c: Config, r: Schedule, at: int, t: Tracker) {
    && CountsMembers(c, t)
    && (forall u :: u in c.members ==>
          && At(t.primaryCount, u) == PrimaryWeeksBefore(r, u, at)
          && At(t.secondaryCount, u) == SecondaryWeeksBefore(r, u, at))
    && t.last == PrimaryAt(r, at - WEEK)
    && (t.last.Some? ==> Trailing(r, t.last.value, at, c.maxConsecutive, t.run))
  }

  /** Two trackers that reflect the same table decide alike; the seed is one of them. */
  lemma {:induction false} ReflectsSeed(c: Config, r: Schedule, at: int, t: Tracker)
    requires c.maxConsecutive >= 1 && Reflects(c, r, at, t) && (t.last.None? ==> t.run == 0)
    ensures Alike(c, t, Seed(c, r, at))
  {
    hide PrimaryWeeksBefore;
    hide SecondaryWeeksBefore;
    SeedCountsTrailingRun(c, r, at);
    var t' := Seed(c, r, at);
    assert t.primaryCount == t'.primaryCount;
    assert t.secondaryCount == t'.secondaryCount;
    if t.last.Some? {
      TrailingUnique(r, t.last.value, at, c.maxConsecutive, t.run, t'.run);
    }
  }

  lemma {:induction false} SeedReflectsAfter(c: Config, s: Schedule, start: int, n: nat)
    requires c.maxConsecutive >= 1
    ensures Reflects(c, Regenerated(c, s, start, n), start, Seed(c, s, start))
  {
    hide Regenerated;
    var r, t := Regenerated(c, s, start, n), Seed(c, s, start);
    forall ws | ws < start
      ensures (ws in r <==> ws in s) && (ws in s ==> r[ws] == s[ws])
    {
      OutsideWindowUntouched(c, s, start, n, ws);
    }
    forall u | u in c.members
      ensures At(t.primaryCount, u) == PrimaryWeeksBefore(r, u, start)
      ensures At(t.secondaryCount, u) == SecondaryWeeksBefore(r, u, start)
    {
      SamePastSameCounts(s, r, u, start);
    }
    hide PrimaryWeeksBefore;
    hide SecondaryWeeksBefore;
    SeedCountsTrailingRun(c, s, start);
    if t.last.Some? {
      forall j | 1 <= j
        ensures PrimaryAt(r, start - WEEK * j) == PrimaryAt(s, start - WEEK * j)
      {
      }
      assert forall k :: Held(r, t.last.value, start, k) == Held(s, t.last.value, start, k);
    }
  }

  lemma {:induction false} TrailingGrows(r: Schedule, p: UserId, ws: int, max: int, last: Option<UserId>, run: int)
    requires max >= 1 && PrimaryAt(r, ws) == Some(p) && last == PrimaryAt(r, ws - WEEK)
    requires last.Some? ==> Trailing(r, last.value, ws, max, run)
    ensures Trailing(r, p, ws + WEEK, max, if last == Some(p) then run + 1 else 1)
  {
    var at, m := ws + WEEK, if last == Some(p) then run + 1 else 1;
    assert PrimaryAt(r, at - WEEK * 1) == Some(p);
    if last == Some(p) {
      forall j | 1 <= j <= Min(m, max)
        ensures PrimaryAt(r, at - WEEK * j) == Some(p)
      {
        assert at - WEEK * j == ws - WEEK * (j - 1);
      }
      if m < max && Held(r, p, at, m + 1) {
        HeldBefore(r, p, ws, m + 1);
      }
    } else if m < max && Held(r, p, at, 2) {
      HeldBefore(r, p, ws, 2);
    }
  }

  lemma {:induction false} AssignedCountsReflect(r: Schedule, t: Tracker, ws: int, u: UserId)
    requires ws in r && forall v :: v in r && ws <= v < ws + WEEK ==> v == ws
    requires At(t.primaryCount, u) == PrimaryWeeksBefore(r, u, ws)
    requires At(t.secondaryCount, u) == SecondaryWeeksBefore(r, u, ws)
    ensures var t' := AfterDuties(t, r[ws].primary, r[ws].secondary);
            && At(t'.primaryCount, u) == PrimaryWeeksBefore(r, u, ws + WEEK)
            && At(t'.secondaryCount, u) == SecondaryWeeksBefore(r, u, ws + WEEK)
  {
    PrimaryWeekCounted(r, u, ws);
    SecondaryWeekCounted(r, u, ws);
    hide PrimaryWeeksBefore;
    hide SecondaryWeeksBefore;
  }

  lemma {:induction false} AssignedReflects(c: Config, s: Schedule, r: Schedule, t: Tracker, ws: int)
    requires c.maxConsecutive >= 1 && Distinct(c.members) && c.members != []
    requires Reflects(c, r, ws, t) && !LockedAt(s, ws)
    requires ws in r && forall v :: v in r && ws <= v < ws + WEEK ==> v == ws
    requires (r[ws].primary, r[ws].secondary) == Duties(c, t)
    ensures Reflects(c, r, ws + WEEK, WeekStep(c, s, t, ws)) && WeekStep(c, s, t, ws).last.Some?
  {
    hide Duties;
    hide PrimaryWeeksBefore;
    hide SecondaryWeeksBefore;
    hide Trailing;
    var t' := WeekStep(c, s, t, ws);
    var (p, q) := Duties(c, t);
    DutiesAreLeastServed(c, t);
    WeekStepCountKeys(c, s, t, ws);
    assert t' == AfterDuties(t, p, q);
    forall u | u in c.members
      ensures At(t'.primaryCount, u) == PrimaryWeeksBefore(r, u, ws + WEEK)
      ensures At(t'.secondaryCount, u) == SecondaryWeeksBefore(r, u, ws + WEEK)
    {
      AssignedCountsReflect(r, t, ws, u);
    }
    TrailingGrows(r, p.value, ws, c.maxConsecutive, t.last, t.run);
  }

  /** Over a clean prefix the carried tracker is what a later run would seed itself with. */
  lemma {:induction false} CleanPrefixReflects(c: Config, s: Schedule, start: int, n: nat, i: nat)
    requires c.maxConsecutive >= 1 && Distinct(c.members) && c.members != []
    requires i <= n && CleanPrefix(s, start, i)
    ensures var t := TrackerAt(c, s, start, i);
            Reflects(c, Regenerated(c, s, start, n), start + WEEK * i, t) && (t.last.None? ==> t.run == 0)
  {
    hide WeekStep;
    hide Regenerated;
    hide Duties;
    hide PlannedRow;
    hide Reflects;
    var r := Regenerated(c, s, start, n);
    if i == 0 {
      SeedReflectsAfter(c, s, start, n);
    } else {
      CleanPrefixReflects(c, s, start, n, i - 1);
      var ws, t := start + WEEK * (i - 1), TrackerAt(c, s, start, i - 1);
      PlannedRowStored(c, s, start, n, i - 1);
      PlannedRowFrom(c, s, start, i - 1, ws);
      forall v | v in r && ws <= v < ws + WEEK
        ensures v == ws
      {
        RegeneratedKeys(c, s, start, n, v);
      }
      TrackerAtNext(c, s, start, i - 1);
      hide TrackerAt;
      assert !LockedAt(s, ws);
      AssignedReflects(c, s, r, t, ws);
    }
  }

  // ----- Regenerating from a later week -----

  lemma {:induction false} LaterRunTracksAlike(c: Config, s: Schedule, start: int, n: nat, j: nat, i: nat)
    requires c.maxConsecutive >= 1 && Distinct(c.members) && c.members != []
    requires j <= i <= n && CleanPrefix(s, start, j)
    ensures Alike(c, TrackerAt(c, s, start, i),
                  TrackerAt(c, Regenerated(c, s, start, n), start + WEEK * j, i - j))
  {
    hide WeekStep;
    hide Regenerated;
    hide TrackerAt;
    hide Alike;
    hide Reflects;
    hide CleanPrefix;
    var r := Regenerated(c, s, start, n);
    if i == j {
      CleanPrefixReflects(c, s, start, n, j);
      TrackerAtNext(c, r, start + WEEK * j, 0);
      ReflectsSeed(c, r, start + WEEK * j, TrackerAt(c, s, start, j));
    } else {
      LaterRunTracksAlike(c, s, start, n, j, i - 1);
      var ws := start + WEEK * (i - 1);
      LockedWeeksSurvive(c, s, start, n, ws);
      AlikeStayAlike(c, s, r, TrackerAt(c, s, start, i - 1), TrackerAt(c, r, start + WEEK * j, i - 1 - j), ws);
      TrackerAtNext(c, s, start, i - 1);
      TrackerAtNext(c, r, start + WEEK * j, i - 1 - j);
    }
  }

  lemma {:induction false} LaterRunPlansAlike(c: Config, s: Schedule, start: int, n: nat, j: nat, i: nat)
    requires c.maxConsecutive >= 1 && Distinct(c.members) && c.members != []
    requires j <= i < n && CleanPrefix(s, start, j)
    ensures var r := Regenerated(c, s, start, n);
            start + WEEK * i in r && PlannedRow(c, r, start + WEEK * j, i - j) == r[start + WEEK * i]
  {
    hide Regenerated;
    hide TrackerAt;
    hide Duties;
    hide PlannedRow;
    var r, ws := Regenerated(c, s, start, n), start + WEEK * i;
    LaterRunTracksAlike(c, s, start, n, j, i);
    AlikeDecideAlike(c, TrackerAt(c, s, start, i), TrackerAt(c, r, start + WEEK * j, i - j));
    PlannedRowStored(c, s, start, n, i);
    LockedWeeksSurvive(c, s, start, n, ws);
    PlannedRowFrom(c, s, start, i, ws);
    PlannedRowFrom(c, r, start + WEEK * j, i - j, ws);
  }

  /**
   Sliding-window stability: once n weeks have been generated, a run that starts j weeks later and
   covers m weeks leaves every row of the first window as it is, if no week before the new start
   is locked and none is stored off the grid. For j = 0 that asks nothing of the schedule.
   */
  lemma {:induction false} LaterRunKeepsWindow(c: Config, s: Schedule, start: int, n: nat, j: nat, m: nat, ws: int)
    requires c.maxConsecutive >= 1 && Distinct(c.members) && c.members != []
    requires CleanPrefix(s, start, Min(j, n))
    requires ws in Regenerated(c, s, start, n) && ws < start + WEEK * n
    ensures var r := Regenerated(c, s, start, n);
            var r' := Regenerated(c, r, start + WEEK * j, m);
            ws in r' && r'[ws] == r[ws]
  {
    hide Regenerated;
    hide PlannedRow;
    var r := Regenerated(c, s, start, n);
    if InWindow(start + WEEK * j, m, ws) {
      var k := WindowIndex(start + WEEK * j, m, ws);
      assert j + k < n;
      PlannedRowStored(c, r, start + WEEK * j, m, k);
      LaterRunPlansAlike(c, s, start, n, j, j + k);
    } else {
      OutsideWindowUntouched(c, r, start + WEEK * j, m, ws);
    }
  }

  /** Generating twice is generating once, whatever is locked. */
  lemma {:induction false} GeneratingIsIdempotent(c: Config, s: Schedule, start: int, n: nat)
    requires c.maxConsecutive >= 1 && Distinct(c.members) && c.members != []
    ensures var r := Regenerated(c, s, start, n); Regenerated(c, r, start, n) == r
  {
    hide Regenerated;
    hide PlannedRow;
    var r := Regenerated(c, s, start, n);
    var r' := Regenerated(c, r, start, n);
    forall ws
      ensures ws in r' <==> ws in r
      ensures ws in r ==> r'[ws] == r[ws]
    {
      RegeneratedKeys(c, s, start, n, ws);
      RegeneratedKeys(c, r, start, n, ws);
      if ws in r {
        if ws < start + WEEK * n {
          LaterRunKeepsWindow(c, s, start, n, 0, n, ws);
        } else {
          OutsideWindowUntouched(c, r, start, n, ws);
        }
      }
    }
  }

  // ----- Balance of what is stored -----

  /**
   The stored weeks themselves stay balanced: if the members' stored primary weeks before the
   window differ by at most s0, then those up to any week of a clean window differ by at most
   max(s0, 1) + 1.
   */
  lemma {:induction false} StoredWeeksStayBalanced(c: Config, s: Schedule, start: int, n: nat, i: nat, s0: int,
                                                   a: UserId, b: UserId)
    requires c.maxConsecutive >= 1 && Distinct(c.members) && |c.members| >= 2
    requires i <= n && CleanPrefix(s, start, i) && a in c.members && b in c.members
    requires forall u, v :: u in c.members && v in c.members ==>
               PrimaryWeeksBefore(s, u, start) - PrimaryWeeksBefore(s, v, start) <= s0
    ensures var r, at := Regenerated(c, s, start, n), start + WEEK * i;
            PrimaryWeeksBefore(r, a, at) - PrimaryWeeksBefore(r, b, at) <= Max(s0, 1) + 1
  {
    hide Regenerated;
    hide PrimaryWeeksBefore;
    hide SecondaryWeeksBefore;
    hide WeekStep;
    assert SpreadAtMost(c.members, Seed(c, s, start).primaryCount, s0);
    SpreadBounded(c, s, start, Seed(c, s, start), s0, i);
    CleanPrefixReflects(c, s, start, n, i);
    NoneLockedMet(s, start, i);
  }

  lemma {:induction false} NoneLockedMet(s: Schedule, start: int, i: nat)
    requires CleanPrefix(s, start, i)
    ensures LockedMet(s, start, i) == 0
  {
    if i > 0 {
      NoneLockedMet(s, start, i - 1);
    }
  }

  // ----- The periodic worker -----

  /** The worker tops the schedule up on each of the given days. */
  function ToppedUp(cfg: Settings, c: Config, s: Schedule, days: seq<int>): Schedule {
    if days == [] then s
    else Generated(c, ToppedUp(cfg, c, s, days[..|days| - 1]),
                   AlignToHandoffDay(days[|days| - 1], cfg.handoffDay), cfg.weeksAhead)
  }

  /** On the days from..to nothing is locked and everything is on the grid. */
  ghost predicate CleanBetween(s: Schedule, from: int, to: int) {
    forall ws :: ws in s && from <= ws < to ==> !s[ws].locked && OnGrid(from, ws)
  }

  lemma {:induction false} GeneratingKeepsClean(c: Config, s: Schedule, from: int, to: int, start: int, n: nat)
    requires CleanBetween(s, from, to) && OnGrid(from, start)
    ensures CleanBetween(Regenerated(c, s, start, n), from, to)
  {
    hide Regenerated;
    var r := Regenerated(c, s, start, n);
    forall ws | ws in r && from <= ws < to
      ensures !r[ws].locked && OnGrid(from, ws)
    {
      RegeneratedKeys(c, s, start, n, ws);
      LockedWeeksSurvive(c, s, start, n, ws);
    }
  }

  lemma {:induction false} ToppedUpClean(cfg: Settings, c: Config, s: Schedule, days: seq<int>, from: int, to: int)
    requires CleanBetween(s, from, to)
    requires forall d :: d in days ==> OnGrid(from, AlignToHandoffDay(d, cfg.handoffDay))
    ensures CleanBetween(ToppedUp(cfg, c, s, days), from, to)
  {
    hide Regenerated;
    if days != [] {
      assert forall d :: d in days[..|days| - 1] ==> d in days;
      ToppedUpClean(cfg, c, s, days[..|days| - 1], from, to);
      GeneratingKeepsClean(c, ToppedUp(cfg, c, s, days[..|days| - 1]), from, to,
                           AlignToHandoffDay(days[|days| - 1], cfg.handoffDay), Max(cfg.weeksAhead, 0));
    }
  }

  lemma {:induction false} TopUpKeepsWindow(c: Config, s: Schedule, from: int, a: int, b: int, n: nat, ws: int)
    requires c.maxConsecutive >= 1 && Distinct(c.members) && c.members != []
    requires CleanBetween(s, from, b) && from <= a <= b && OnGrid(from, a) && (b - a) % WEEK == 0
    requires ws in Regenerated(c, s, a, n) && ws < a + WEEK * n
    ensures var r := Regenerated(c, s, a, n);
            ws in Regenerated(c, r, b, n) && Regenerated(c, r, b, n)[ws] == r[ws]
  {
    hide Regenerated;
    var j := (b - a) / WEEK;
    assert b == a + WEEK * j;
    LaterRunKeepsWindow(c, s, a, n, j, n, ws);
  }

  lemma {:induction false} LastTopUp(cfg: Settings, c: Config, s: Schedule, days: seq<int>)
    requires days != [] && c.members != []
    ensures ToppedUp(cfg, c, s, days)
            == Regenerated(c, ToppedUp(cfg, c, s, days[..|days| - 1]), LastStart(cfg, days), Max(cfg.weeksAhead, 0))
  {
    hide Regenerated;
  }

  function LastStart(cfg: Settings, days: seq<int>): int
    requires days != []
  {
    AlignToHandoffDay(days[|days| - 1], cfg.handoffDay)
  }

  lemma {:induction false} TopUpStartsFollow(cfg: Settings, days: seq<int>, from: int)
    requires days != [] && forall i, j :: 0 <= i <= j < |days| ==> days[i] <= days[j]
    requires from == AlignToHandoffDay(days[0], cfg.handoffDay)
    ensures forall d :: d in days ==> AlignToHandoffDay(d, cfg.handoffDay) >= from
                                      && OnGrid(from, AlignToHandoffDay(d, cfg.handoffDay))
  {
    hide AlignToHandoffDay;
    forall d | d in days
      ensures AlignToHandoffDay(d, cfg.handoffDay) >= from && OnGrid(from, AlignToHandoffDay(d, cfg.handoffDay))
    {
      AlignMonotone(days[0], d, cfg.handoffDay);
    }
  }

  lemma {:induction false} TopUpOrder(cfg: Settings, days: seq<int>, k: nat)
    requires 1 <= k < |days| && forall i, j :: 0 <= i <= j < |days| ==> days[i] <= days[j]
    ensures var from := AlignToHandoffDay(days[0], cfg.handoffDay);
            var a, b := LastStart(cfg, days[..|days| - 1]), LastStart(cfg, days);
            && LastStart(cfg, days[..k]) <= a && from <= a <= b && OnGrid(from, a) && (b - a) % WEEK == 0
            && forall d :: d in days[..|days| - 2] ==>
                 AlignToHandoffDay(d, cfg.handoffDay) >= from && OnGrid(from, AlignToHandoffDay(d, cfg.handoffDay))
  {
    hide AlignToHandoffDay;
    var m := |days| - 1;
    AlignMonotone(days[m - 1], days[m], cfg.handoffDay);
    AlignMonotone(days[k - 1], days[m - 1], cfg.handoffDay);
    TopUpStartsFollow(cfg, days, AlignToHandoffDay(days[0], cfg.handoffDay));
    assert days[m - 1] in days;
  }

  lemma {:induction false} TopUpsKeepWeeksUpTo(cfg: Settings, c: Config, s: Schedule, days: seq<int>, k: nat,
                                               ws: int, to: int)
    requires c.maxConsecutive >= 1 && Distinct(c.members) && c.members != []
    requires 1 <= k <= |days| && forall i, j :: 0 <= i <= j < |days| ==> days[i] <= days[j]
    requires LastStart(cfg, days) <= to && CleanBetween(s, AlignToHandoffDay(days[0], cfg.handoffDay), to)
    ensures var was, now := ToppedUp(cfg, c, s, days[..k]), ToppedUp(cfg, c, s, days);
            ws in was && ws < LastStart(cfg, days[..k]) + WEEK * Max(cfg.weeksAhead, 0) ==>
              ws in now && now[ws] == was[ws]
  {
    hide Regenerated;
    hide AlignToHandoffDay;
    hide CleanBetween;
    hide ToppedUp;
    var m, n := |days| - 1, Max(cfg.weeksAhead, 0);
    if k == |days| {
      assert days[..k] == days;
    } else if ws in ToppedUp(cfg, c, s, days[..k]) && ws < LastStart(cfg, days[..k]) + WEEK * n {
      var past, earlier := days[..m], days[..m - 1];
      assert past[..k] == days[..k] && past[..m - 1] == earlier;
      var from, a, b := AlignToHandoffDay(days[0], cfg.handoffDay), LastStart(cfg, past), LastStart(cfg, days);
      TopUpOrder(cfg, days, k);
      TopUpsKeepWeeksUpTo(cfg, c, s, past, k, ws, to);
      ToppedUpClean(cfg, c, s, earlier, from, to);
      CleanUpTo(ToppedUp(cfg, c, s, earlier), from, b, to);
      LastTopUp(cfg, c, s, days);
      LastTopUp(cfg, c, s, past);
      TopUpKeepsWindow(c, ToppedUp(cfg, c, s, earlier), from, a, b, n, ws);
    }
  }

  lemma {:induction false} CleanUpTo(s: Schedule, from: int, b: int, to: int)
    requires CleanBetween(s, from, to) && b <= to
    ensures CleanBetween(s, from, b)
  {
  }

  /**
   Published weeks stand: while members and settings stay the same, and no week between the first
   run's start and the last one's is locked or off the grid, no later top-up ever changes a week an
   earlier top-up reached. From the last start on, weeks may be locked.
   */
  lemma {:induction false} TopUpsKeepPublishedWeeks(cfg: Settings, c: Config, s: Schedule, days: seq<int>, k: nat,
                                                    ws: int)
    requires c.maxConsecutive >= 1 && Distinct(c.members) && c.members != []
    requires 1 <= k <= |days| && forall i, j :: 0 <= i <= j < |days| ==> days[i] <= days[j]
    requires CleanBetween(s, AlignToHandoffDay(days[0], cfg.handoffDay), LastStart(cfg, days))
    ensures var was, now := ToppedUp(cfg, c, s, days[..k]), ToppedUp(cfg, c, s, days);
            ws in was && ws < LastStart(cfg, days[..k]) + WEEK * Max(cfg.weeksAhead, 0) ==>
              ws in now && now[ws] == was[ws]
  {
    TopUpsKeepWeeksUpTo(cfg, c, s, days, k, ws, LastStart(cfg, days));
  }
}
