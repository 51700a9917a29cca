/** Irregular weeks that make a later run change published ones, for all rosters but one kind. */
module RosterReshuffles {
  import opened Wrappers
  import opened RosterModel
  import opened RosterFairness
  import opened RosterRuns
  import opened RosterRotation
  import opened RosterStability
  import opened Arithmetic
  import opened RosterLaterRuns

  // ----- Three or more members -----

  /** Rotation weeks before the window, phase of them. */
  function RotatedPast(c: Config, start: int, phase: nat): Schedule {
    Regenerated(c, map[], start - WEEK * phase, phase)
  }

  /** A locked row without a primary that keeps u busy as secondary. */
  function BusyRows(u: UserId): int -> Entry {
    d => Entry(d + WEEK, None, Some(u), true, false, None)
  }

  lemma {:induction false} RotatedPastProper(c: Config, start: int, phase: nat, days: set<int>, rows: int -> Entry,
                                             j: nat)
    requires Distinct(c.members) && |c.members| >= 2 && Within(days, start, j)
    requires RowsLocked(days, rows)
    ensures Proper(RotatedPast(c, start, phase), days, rows, start, j)
  {
    hide Regenerated;
    GeneratedKeepsRows(c, map[], start - WEEK * phase, phase);
    forall d | d in RotatedPast(c, start, phase)
      ensures d < start
    {
      RegeneratedKeys(c, map[], start - WEEK * phase, phase, d);
    }
  }

  lemma {:induction false} SamePastReflects(c: Config, r: Schedule, s: Schedule, at: int, t: Tracker)
    requires Reflects(c, r, at, t) && c.maxConsecutive >= 1
    requires forall ws :: ws < at ==> (ws in r <==> ws in s) && (ws in r ==> s[ws] == r[ws])
    ensures Reflects(c, s, at, t)
  {
    forall u | u in c.members
      ensures PrimaryWeeksBefore(r, u, at) == PrimaryWeeksBefore(s, u, at)
      ensures SecondaryWeeksBefore(r, u, at) == SecondaryWeeksBefore(s, u, at)
    {
      SamePastSameCounts(r, s, u, at);
    }
    hide PrimaryWeeksBefore;
    hide SecondaryWeeksBefore;
    forall k | 1 <= k
      ensures PrimaryAt(s, at - WEEK * k) == PrimaryAt(r, at - WEEK * k)
    {
    }
    if t.last.Some? {
      assert forall k :: Held(s, t.last.value, at, k) == Held(r, t.last.value, at, k);
    }
  }

  /** After such a past the seeded tracker is in rotation. */
  lemma {:induction false} SeedInRotation(c: Config, start: int, phase: nat, days: set<int>, rows: int -> Entry, j: nat)
    requires c.maxConsecutive >= 1 && Distinct(c.members) && |c.members| >= 2
    requires Proper(RotatedPast(c, start, phase), days, rows, start, j)
    ensures InRotation(c, phase, Seed(c, Table(RotatedPast(c, start, phase), days, rows), start))
  {
    hide Regenerated;
    hide WeekStep;
    hide Reflects;
    var past, from := RotatedPast(c, start, phase), start - WEEK * phase;
    var s := Table(past, days, rows);
    var t := TrackerAt(c, map[], from, phase);
    FreshBefore(c, from, phase);
    FreshRotates(c, map[], from, phase, phase);
    CleanPrefixReflects(c, map[], from, phase, phase);
    assert from + WEEK * phase == start;
    SamePastReflects(c, past, s, start, t);
    SeedCountsTrailingRun(c, s, start);
    hide Seed;
    ReflectsSeed(c, s, start, t);
  }

  lemma {:induction false} FreshBefore(c: Config, from: int, n: nat)
    ensures Fresh(c, map[], from, n)
  {
    forall u
      ensures PrimaryWeeksBefore(map[], u, from) == 0 && SecondaryWeeksBefore(map[], u, from) == 0
    {
      assert PrimaryDays(map[], u, from) == {} && SecondaryDays(map[], u, from) == {};
    }
  }

  /** Rows without a primary do not disturb the rotation. */
  lemma {:induction false} RotationGoesOn(c: Config, start: int, phase: nat, days: set<int>, u: UserId, j: nat, i: nat)
    requires c.maxConsecutive >= 1 && Distinct(c.members) && |c.members| >= 2
    requires Proper(RotatedPast(c, start, phase), days, BusyRows(u), start, j)
    ensures InRotation(c, phase + Turns(days, start, i),
                       TrackerAt(c, Table(RotatedPast(c, start, phase), days, BusyRows(u)), start, i))
  {
    hide WeekStep;
    hide Duties;
    hide InRotation;
    hide RotatedPast;
    hide RowsValid;
    var s := Table(RotatedPast(c, start, phase), days, BusyRows(u));
    if i == 0 {
      SeedInRotation(c, start, phase, days, BusyRows(u), j);
      TrackerAtNext(c, s, start, 0);
    } else {
      RotationGoesOn(c, start, phase, days, u, j, i - 1);
      TrackerAtNext(c, s, start, i - 1);
      var ws, t := start + WEEK * (i - 1), TrackerAt(c, s, start, i - 1);
      hide TrackerAt;
      assert LockedAt(s, ws) <==> ws in days;
      if ws in days {
        LockedWithoutPrimary(c, s, t, ws);
      } else {
        RotationStep(c, s, phase + Turns(days, start, i - 1), t, ws);
      }
    }
  }

  lemma {:induction false} LockedWithoutPrimary(c: Config, s: Schedule, t: Tracker, ws: int)
    requires LockedAt(s, ws) && s[ws].primary == None
    ensures WeekStep(c, s, t, ws) == t
  {
  }

  /** With equal counts the first member is primary, unless he was the last. */
  lemma {:induction false} FirstOfEqual(c: Config, t: Tracker)
    requires Distinct(c.members) && |c.members| >= 2 && t.last != Some(c.members[0])
    requires forall k :: 0 <= k < |c.members| ==> At(t.primaryCount, c.members[k]) == At(t.primaryCount, c.members[0])
    ensures Duties(c, t).0 == Some(c.members[0])
  {
    hide SecondaryPick;
    hide FirstLeast;
    hide Without;
    var ms := c.members;
    if t.last.Some? && AtCap(c.maxConsecutive, t.run) {
      if t.last.value in ms {
        var x :| 0 <= x < |ms| && ms[x] == t.last.value;
        WithoutAt(ms, x);
        var e := ms[..x] + ms[x + 1..];
        forall k | 0 <= k < |e|
          ensures At(t.primaryCount, e[k]) == At(t.primaryCount, ms[0])
        {
          LeftAt(ms, x, k);
        }
        LeftAt(ms, x, 0);
        FirstLeastAt(e, t.primaryCount, 0);
      } else {
        WithoutAbsent(ms, t.last.value);
        FirstLeastAt(ms, t.primaryCount, 0);
      }
    } else {
      FirstLeastAt(ms, t.primaryCount, 0);
    }
  }

  /** The third member is secondary when the second has more on his plate than the others. */
  lemma {:induction false} ThirdForSecond(c: Config, t: Tracker)
    requires Distinct(c.members) && |c.members| >= 3
    requires forall k :: 2 <= k < |c.members| ==>
               At(t.primaryCount, c.members[k]) + At(t.secondaryCount, c.members[k])
               == At(t.primaryCount, c.members[2]) + At(t.secondaryCount, c.members[2])
               < At(t.primaryCount, c.members[1]) + At(t.secondaryCount, c.members[1])
    ensures SecondaryPick(c.members, t.primaryCount, t.secondaryCount, c.members[0]) == Some(c.members[2])
  {
    hide FirstLeast;
    hide Without;
    var ms, load := c.members, Load(c.members, t.primaryCount, t.secondaryCount);
    WithoutAt(ms, 0);
    var e := ms[..0] + ms[1..];
    forall k | 0 <= k < |e|
      ensures e[k] == ms[k + 1] && At(load, e[k]) == At(t.primaryCount, ms[k + 1]) + At(t.secondaryCount, ms[k + 1])
    {
      LeftAt(ms, 0, k);
    }
    FirstLeastAt(e, load, 1);
  }

  /** The phase that completes a round after so many turns. */
  function PhaseFor(n: nat, turns: nat): nat
    requires n >= 1
  {
    n - turns % n
  }

  lemma {:induction false} PhaseCompletes(n: nat, turns: nat)
    requires n >= 1
    ensures (PhaseFor(n, turns) + turns) % n == 0
  {
    var q := turns / n;
    assert turns == n * q + turns % n;
    assert PhaseFor(n, turns) + turns == n * (q + 1) + 0;
    DivModUnique(PhaseFor(n, turns) + turns, n, q + 1, 0);
  }

  lemma {:induction false} RoundDone(c: Config, i: nat, t: Tracker)
    requires InRotation(c, i, t)
    ensures i % |c.members| == 0 ==>
              forall k :: 0 <= k < |c.members| ==>
                At(t.primaryCount, c.members[k]) == At(t.secondaryCount, c.members[k]) == i / |c.members|
  {
  }

  lemma {:induction false} LastOfRound(i: nat, n: nat)
    requires n >= 2 && i >= 1 && i % n == 0
    ensures (i - 1) % n == n - 1
  {
    NextTurnOf(i - 1, n);
  }

  /** The first member is not the one before the later window. */
  lemma {:induction false} LastBeforeLater(c: Config, start: int, phase: nat, days: set<int>, u: UserId, j: nat, n: nat)
    requires c.maxConsecutive >= 1 && Distinct(c.members) && |c.members| >= 2 && 1 <= j <= n
    requires Proper(RotatedPast(c, start, phase), days, BusyRows(u), start, j)
    requires (phase + Turns(days, start, j)) % |c.members| == 0
    ensures var s := Table(RotatedPast(c, start, phase), days, BusyRows(u));
            PrimaryAt(Regenerated(c, s, start, n), start + WEEK * j - WEEK) != Some(c.members[0])
  {
    hide Regenerated;
    hide Duties;
    hide TrackerAt;
    hide RotatedPast;
    hide InRotation;
    hide RowsValid;
    var s := Table(RotatedPast(c, start, phase), days, BusyRows(u));
    var ws := start + WEEK * (j - 1);
    PlannedPrimary(c, s, start, n, j - 1);
    assert LockedAt(s, ws) <==> ws in days;
    if ws !in days {
      var i := phase + Turns(days, start, j - 1);
      RotationGoesOn(c, start, phase, days, u, j, j - 1);
      RotationPrimary(c, i, TrackerAt(c, s, start, j - 1));
      LastOfRound(i + 1, |c.members|);
      assert c.members[0] != c.members[|c.members| - 1];
    }
  }

  lemma {:induction false} NamedBusy(days: set<int>, u: UserId, v: UserId, before: int)
    requires forall d :: d in days ==> d < before
    ensures NamedPrimary(days, BusyRows(u), v, before) == {}
    ensures NamedSecondary(days, BusyRows(u), v, before) == if v == u then days else {}
  {
  }

  lemma {:induction false} LaterLoads(c: Config, past: Schedule, days: set<int>, u: UserId, start: int, j: nat,
                                      n: nat, v: UserId)
    requires Proper(past, days, BusyRows(u), start, j) && j <= n && v in c.members
    ensures var s := Table(past, days, BusyRows(u));
            var t, t' := TrackerAt(c, s, start, j), Seed(c, Regenerated(c, s, start, n), start + WEEK * j);
            && At(t'.primaryCount, v) == At(t.primaryCount, v)
            && At(t'.secondaryCount, v) == At(t.secondaryCount, v) + if v == u then |days| else 0
  {
    hide Regenerated;
    hide TrackerAt;
    hide Seed;
    hide Table;
    hide PrimaryWeeksBefore;
    hide SecondaryWeeksBefore;
    LaterRunCountsMore(c, past, days, BusyRows(u), start, j, n, j, v);
    NamedBusy(days, u, v, start + WEEK * j);
    SeedCounts(c, Regenerated(c, Table(past, days, BusyRows(u)), start, n), start + WEEK * j);
  }

  /** A run that steps over weeks with a busy second member makes him secondary; a later one, the third. */
  lemma {:induction false} ThreeReshuffle(c: Config, start: int, n: nat, j: nat, m: nat, days: set<int>)
    returns (s: Schedule)
    requires Usable(c) && |c.members| >= 3 && 1 <= j < n && m >= 1 && Within(days, start, j) && days != {}
    ensures RowsValid(s) && Irregular(s, start, j, days) && !KeepsWindow(c, s, start, n, j, m)
  {
    hide Regenerated;
    hide TrackerAt;
    hide Seed;
    hide InRotation;
    hide RotatedPast;
    hide KeepsWindow;
    hide Irregular;
    hide RowsValid;
    var ms, at := c.members, start + WEEK * j;
    var phase := PhaseFor(|ms|, Turns(days, start, j));
    var past, rows := RotatedPast(c, start, phase), BusyRows(ms[1]);
    s := Table(past, days, rows);
    PhaseCompletes(|ms|, Turns(days, start, j));
    RotatedPastProper(c, start, phase, days, rows, j);
    TableFits(past, days, rows, start, j);
    ThreeDiffer(c, start, n, j, days, phase);
    assert !LockedAt(s, at);
    DifferentAtOnce(c, s, start, n, j, m);
  }

  lemma {:induction false} ThreeDiffer(c: Config, start: int, n: nat, j: nat, days: set<int>, phase: nat)
    requires Usable(c) && |c.members| >= 3 && 1 <= j < n && days != {}
    requires Proper(RotatedPast(c, start, phase), days, BusyRows(c.members[1]), start, j)
    requires (phase + Turns(days, start, j)) % |c.members| == 0
    ensures var s := Table(RotatedPast(c, start, phase), days, BusyRows(c.members[1]));
            Duties(c, TrackerAt(c, s, start, j)) != Duties(c, Seed(c, Regenerated(c, s, start, n), start + WEEK * j))
  {
    hide Regenerated;
    hide TrackerAt;
    hide WeekStep;
    hide RotatedPast;
    hide SecondaryPick;
    hide PrimaryPick;
    hide RowsValid;
    hide PrimaryCounts;
    hide SecondaryCounts;
    hide Table;
    var ms, at := c.members, start + WEEK * j;
    var past := RotatedPast(c, start, phase);
    var s := Table(past, days, BusyRows(ms[1]));
    var r := Regenerated(c, s, start, n);
    var t, t' := TrackerAt(c, s, start, j), Seed(c, r, at);
    RotationGoesOn(c, start, phase, days, ms[1], j, j);
    RoundDone(c, phase + Turns(days, start, j), t);
    RotationPrimary(c, phase + Turns(days, start, j), t);
    RotationSecondary(c, phase + Turns(days, start, j), t);
    NextTurnOf(phase + Turns(days, start, j), |ms|);
    hide InRotation;
    LastBeforeLater(c, start, phase, days, ms[1], j, n);
    assert t'.last == PrimaryAt(r, at - WEEK);
    hide Seed;
    assert |days| > 0;
    forall k | 0 <= k < |ms|
      ensures At(t'.primaryCount, ms[k]) == At(t.primaryCount, ms[k])
      ensures At(t'.secondaryCount, ms[k]) == At(t.secondaryCount, ms[k]) + if k == 1 then |days| else 0
    {
      LaterLoads(c, past, days, ms[1], start, j, n, ms[k]);
    }
    FirstOfEqual(c, t');
    ThirdForSecond(c, t');
    assert ms[1] != ms[2];
  }

  // ----- Two members -----

  /** Of two members the one with fewer weeks is primary, the first on a tie, unless the cap blocks him. */
  lemma {:induction false} PickOfTwo(c: Config, t: Tracker)
    requires Distinct(c.members) && |c.members| == 2
    ensures var x := if At(t.primaryCount, c.members[0]) <= At(t.primaryCount, c.members[1]) then 0 else 1;
            !(AtCap(c.maxConsecutive, t.run) && t.last == Some(c.members[x])) ==> Duties(c, t).0 == Some(c.members[x])
  {
    hide SecondaryPick;
    hide FirstLeast;
    hide Without;
    var ms := c.members;
    var x := if At(t.primaryCount, ms[0]) <= At(t.primaryCount, ms[1]) then 0 else 1;
    FirstLeastAt(ms, t.primaryCount, x);
    if t.last == Some(ms[1 - x]) {
      OtherOfTwo(c, x, t.primaryCount);
    } else if t.last.Some? && t.last.value !in ms {
      WithoutAbsent(ms, t.last.value);
    }
  }

  lemma {:induction false} OtherOfTwo(c: Config, x: nat, score: map<UserId, int>)
    requires Distinct(c.members) && |c.members| == 2 && x <= 1
    ensures Without(c.members, c.members[1 - x]) == [c.members[x]]
    ensures FirstLeast([c.members[x]], score) == Some(c.members[x])
  {
    hide FirstLeast;
    hide Without;
    var ms := c.members;
    WithoutAt(ms, 1 - x);
    assert ms[..1 - x] + ms[1 - x + 1..] == [ms[x]];
    FirstLeastAt([ms[x]], score, 0);
  }

  /** At the cap the other member takes over, and the last one is secondary. */
  lemma {:induction false} OtherTakesOver(c: Config, t: Tracker, x: nat)
    requires Distinct(c.members) && |c.members| == 2 && x <= 1
    requires AtCap(c.maxConsecutive, t.run) && t.last == Some(c.members[1 - x])
    ensures Duties(c, t) == (Some(c.members[x]), Some(c.members[1 - x]))
  {
    hide FirstLeast;
    hide Without;
    OtherOfTwo(c, x, t.primaryCount);
    OtherOfTwo(c, 1 - x, Load(c.members, t.primaryCount, t.secondaryCount));
  }

  function Parity(i: nat): nat {
    i % 2
  }

  /** Locked rows, one of which names a primary. */
  function PairRows(d0: int, u: UserId, w: UserId): int -> Entry {
    d => Entry(d + WEEK, if d == d0 then Some(u) else None, if d == d0 then None else Some(w), true, false, None)
  }

  lemma {:induction false} LaterPrimaryCounts(c: Config, past: Schedule, days: set<int>, d0: int, u: UserId, w: UserId,
                                              start: int, j: nat, n: nat, i: nat, v: UserId)
    requires Proper(past, days, PairRows(d0, u, w), start, j) && i <= n && v in c.members
    requires d0 in days && d0 < start + WEEK * i
    ensures var s := Table(past, days, PairRows(d0, u, w));
            At(Seed(c, Regenerated(c, s, start, n), start + WEEK * i).primaryCount, v)
            == At(TrackerAt(c, s, start, i).primaryCount, v) + if v == u then 1 else 0
  {
    hide Regenerated;
    hide TrackerAt;
    hide Seed;
    hide Table;
    hide PrimaryWeeksBefore;
    hide SecondaryWeeksBefore;
    var rows, at := PairRows(d0, u, w), start + WEEK * i;
    LaterRunCountsMore(c, past, days, rows, start, j, n, i, v);
    assert NamedPrimary(days, rows, v, at) == if v == u then {d0} else {};
    SeedCounts(c, Regenerated(c, Table(past, days, rows), start, n), at);
  }

  // ----- Two members and a cap of two or more -----

  /** The members alternate; only the irregular row can make the member whose turn it is the last. */
  ghost predicate InTurn(c: Config, t: Tracker, turns: nat, passed: bool)
    requires |c.members| == 2
  {
    && At(t.primaryCount, c.members[0]) == At(t.primaryCount, c.members[1]) + Parity(turns)
    && (t.last == Some(c.members[Parity(turns)]) ==> passed && t.run == 1)
  }

  lemma {:induction false} TurnPicks(c: Config, t: Tracker, turns: nat, passed: bool)
    requires Distinct(c.members) && |c.members| == 2 && c.maxConsecutive >= 2 && InTurn(c, t, turns, passed)
    ensures Duties(c, t).0 == Some(c.members[Parity(turns)])
  {
    hide Duties;
    PickOfTwo(c, t);
  }

  lemma {:induction false} TurnStep(c: Config, s: Schedule, t: Tracker, turns: nat, passed: bool, ws: int)
    requires Distinct(c.members) && |c.members| == 2 && c.maxConsecutive >= 2 && InTurn(c, t, turns, passed)
    requires LockedAt(s, ws) ==> s[ws].primary.None? || (s[ws].primary.value in c.members && !passed)
    ensures InTurn(c, WeekStep(c, s, t, ws), if LockedAt(s, ws) then turns else turns + 1,
                   passed || (LockedAt(s, ws) && s[ws].primary.Some?))
  {
    hide Duties;
    var t' := WeekStep(c, s, t, ws);
    if LockedAt(s, ws) {
      WeekStepNotesPrimary(c, s, t, ws, s[ws].primary);
      LockedKeepsCounts(c, s, t, ws);
      hide WeekStep;
    } else {
      TurnPicks(c, t, turns, passed);
      AssignedCounts(c, s, t, ws);
      hide WeekStep;
      assert c.members[0] != c.members[1];
    }
  }

  lemma {:induction false} TurnsTaken(c: Config, start: int, j: nat, days: set<int>, d0: int, u: UserId, i: nat)
    requires Distinct(c.members) && |c.members| == 2 && c.maxConsecutive >= 2 && u in c.members
    requires Within(days, start, j) && d0 in days
    ensures var s := Table(map[], days, PairRows(d0, u, c.members[0]));
            InTurn(c, TrackerAt(c, s, start, i), Turns(days, start, i), d0 < start + WEEK * i)
  {
    hide WeekStep;
    hide Seed;
    hide InTurn;
    var s := Table(map[], days, PairRows(d0, u, c.members[0]));
    TrackerAtNext(c, s, start, if i == 0 then 0 else i - 1);
    hide TrackerAt;
    if i == 0 {
      NobodyYet(c, s, start);
    } else {
      TurnsTaken(c, start, j, days, d0, u, i - 1);
      var ws, t := start + WEEK * (i - 1), TrackerAt(c, s, start, i - 1);
      var passed := d0 < ws;
      assert LockedAt(s, ws) <==> ws in days;
      TurnStep(c, s, t, Turns(days, start, i - 1), passed, ws);
      PassedLater(c, WeekStep(c, s, t, ws), Turns(days, start, i), passed || (LockedAt(s, ws) && s[ws].primary.Some?),
                  d0 < start + WEEK * i);
    }
  }

  lemma {:induction false} PassedLater(c: Config, t: Tracker, turns: nat, passed: bool, passed': bool)
    requires |c.members| == 2 && InTurn(c, t, turns, passed) && (passed ==> passed')
    ensures InTurn(c, t, turns, passed')
  {
  }

  lemma {:induction false} NobodyYet(c: Config, s: Schedule, start: int)
    requires |c.members| == 2 && forall d :: d in s ==> d >= start
    ensures InTurn(c, Seed(c, s, start), 0, false)
  {
    SeedCounts(c, s, start);
    assert PrimaryDays(s, c.members[0], start) == {} && PrimaryDays(s, c.members[1], start) == {};
    assert c.members[0] in c.members && c.members[1] in c.members;
    assert Seed(c, s, start).last == None;
    hide Seed;
  }

  /** A week of the member who is not u was his turn. */
  lemma {:induction false} OwnTurn(c: Config, start: int, j: nat, n: nat, days: set<int>, d0: int, u: UserId,
                                   y: UserId, i: nat)
    requires Distinct(c.members) && |c.members| == 2 && c.maxConsecutive >= 2 && u in c.members && y != u
    requires i < j <= n && Within(days, start, j) && d0 in days
    requires var s := Table(map[], days, PairRows(d0, u, c.members[0]));
             PrimaryAt(Regenerated(c, s, start, n), start + WEEK * i) == Some(y)
    ensures y == c.members[Parity(Turns(days, start, i))] && Turns(days, start, i + 1) == Turns(days, start, i) + 1
  {
    hide Regenerated;
    hide TrackerAt;
    hide Duties;
    hide InTurn;
    var s := Table(map[], days, PairRows(d0, u, c.members[0]));
    PlannedPrimary(c, s, start, n, i);
    assert LockedAt(s, start + WEEK * i) <==> start + WEEK * i in days;
    TurnsTaken(c, start, j, days, d0, u, i);
    TurnPicks(c, TrackerAt(c, s, start, i), Turns(days, start, i), d0 < start + WEEK * i);
  }

  /** So he held at most one week in a row before the later window. */
  lemma {:induction false} NoRunOfTwo(c: Config, start: int, j: nat, n: nat, days: set<int>, d0: int, u: UserId,
                                      y: UserId)
    requires Distinct(c.members) && |c.members| == 2 && c.maxConsecutive >= 2
    requires u in c.members && y in c.members && y != u
    requires 1 <= j <= n && Within(days, start, j) && d0 in days
    ensures var s, at := Table(map[], days, PairRows(d0, u, c.members[0])), start + WEEK * j;
            var r := Regenerated(c, s, start, n);
            !(PrimaryAt(r, at - WEEK) == Some(y) && PrimaryAt(r, at - WEEK * 2) == Some(y))
  {
    hide Regenerated;
    hide RowsValid;
    var rows := PairRows(d0, u, c.members[0]);
    var s, at := Table(map[], days, rows), start + WEEK * j;
    var r := Regenerated(c, s, start, n);
    EmptyIsSound();
    AfterFirstWindow(c, map[], days, rows, start, j, n, at - WEEK * 2);
    assert c.members[0] != c.members[1];
    hide Table;
    if PrimaryAt(r, at - WEEK) == Some(y) && PrimaryAt(r, at - WEEK * 2) == Some(y) {
      assert j >= 2;
      OwnTurn(c, start, j, n, days, d0, u, y, j - 1);
      OwnTurn(c, start, j, n, days, d0, u, y, j - 2);
      assert false;
    }
  }

  lemma {:induction false} EmptyIsSound()
    ensures RowsValid(map[])
  {
  }

  lemma {:induction false} SeedRunShort(c: Config, r: Schedule, at: int, y: UserId)
    requires !(PrimaryAt(r, at - WEEK) == Some(y) && PrimaryAt(r, at - WEEK * 2) == Some(y))
    ensures var t := Seed(c, r, at); t.last == PrimaryAt(r, at - WEEK) && (t.last == Some(y) ==> t.run <= 1)
  {
    hide PrimaryCounts;
    hide SecondaryCounts;
  }

  /** The irregular row of the member whose turn comes tips the balance for the later run. */
  lemma {:induction false} TwoReshuffle(c: Config, start: int, n: nat, j: nat, m: nat, days: set<int>, d0: int)
    returns (s: Schedule)
    requires Usable(c) && |c.members| == 2 && c.maxConsecutive >= 2
    requires 1 <= j < n && m >= 1 && Within(days, start, j) && d0 in days
    ensures RowsValid(s) && Irregular(s, start, j, days) && !KeepsWindow(c, s, start, n, j, m)
  {
    hide Regenerated;
    hide TrackerAt;
    hide Seed;
    hide Duties;
    hide KeepsWindow;
    hide Irregular;
    hide RowsValid;
    var ms, at := c.members, start + WEEK * j;
    var x := Parity(Turns(days, start, j));
    var u, y := ms[x], ms[1 - x];
    var rows := PairRows(d0, u, ms[0]);
    s := Table(map[], days, rows);
    var r := Regenerated(c, s, start, n);
    assert ms[0] != ms[1];
    EmptyIsSound();
    TableFits(map[], days, rows, start, j);
    TurnsTaken(c, start, j, days, d0, u, j);
    TurnPicks(c, TrackerAt(c, s, start, j), Turns(days, start, j), d0 < at);
    LaterPrimaryCounts(c, map[], days, d0, u, ms[0], start, j, n, j, ms[0]);
    LaterPrimaryCounts(c, map[], days, d0, u, ms[0], start, j, n, j, ms[1]);
    NoRunOfTwo(c, start, j, n, days, d0, u, y);
    SeedRunShort(c, r, at, y);
    PickOfTwo(c, Seed(c, r, at));
    assert !LockedAt(s, at);
    DifferentAtOnce(c, s, start, n, j, m);
  }
}
