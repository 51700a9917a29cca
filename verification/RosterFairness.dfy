/** What a run of the generator promises the members: capped runs of weeks and balanced duty. */
module RosterFairness {
  import opened Wrappers
  import opened RosterModel

  // ----- Consecutive weeks -----

  /** The r stored weeks just before day `at` all have u as primary. */
  ghost predicate Held(s: Schedule, u: UserId, at: int, r: int) {
    forall j :: 1 <= j <= r ==> PrimaryAt(s, at - WEEK * j) == Some(u)
  }

  lemma {:induction false} RunFromHeld(s: Schedule, u: UserId, start: int, i: int, max: int)
    requires i >= 1
    ensures forall j :: i <= j < i + RunFrom(s, u, start, i, max) ==> PrimaryAt(s, start - WEEK * j) == Some(u)
    ensures i + RunFrom(s, u, start, i, max) <= max ==>
              PrimaryAt(s, start - WEEK * (i + RunFrom(s, u, start, i, max))) != Some(u)
    ensures i + RunFrom(s, u, start, i, max) <= Max(i, max + 1)
    decreases max - i
  {
    if i <= max && PrimaryAt(s, start - WEEK * i) == Some(u) {
      RunFromHeld(s, u, start, i + 1, max);
    }
  }

  /** r is the length of u's run ending just before day `at`, as far as a cap of max can tell. */
  ghost predicate Trailing(s: Schedule, u: UserId, at: int, max: int, r: int) {
    r >= 1 && Held(s, u, at, Min(r, max)) && (r < max ==> !Held(s, u, at, r + 1))
  }

  /** The seeded counter is the true run before the window, counted up to the cap. */
  lemma {:induction false} SeedCountsTrailingRun(c: Config, s: Schedule, start: int)
    requires c.maxConsecutive >= 1
    ensures var t := Seed(c, s, start);
            && t.last == PrimaryAt(s, start - WEEK)
            && (t.last.Some? ==> Trailing(s, t.last.value, start, c.maxConsecutive, t.run) && t.run <= c.maxConsecutive)
  {
    hide PrimaryCounts;
    hide SecondaryCounts;
    var t := Seed(c, s, start);
    if t.last.Some? {
      RunFromHeld(s, t.last.value, start, 2, c.maxConsecutive);
    }
  }

  lemma {:induction false} TrailingUnique(s: Schedule, u: UserId, at: int, max: int, r1: int, r2: int)
    requires max >= 1 && Trailing(s, u, at, max, r1) && Trailing(s, u, at, max, r2)
    ensures Min(r1, max) == Min(r2, max)
  {
    if Min(r1, max) < Min(r2, max) {
      assert Held(s, u, at, r1 + 1);
    } else if Min(r2, max) < Min(r1, max) {
      assert Held(s, u, at, r2 + 1);
    }
  }

  /** Any run of stored weeks that reaches week i is in the tracker, up to the cap. */
  ghost predicate TracksRuns(s: Schedule, at: int, max: int, t: Tracker) {
    forall u, r :: 1 <= r && Held(s, u, at, r) ==> t.last == Some(u) && t.run >= Min(r, max)
  }

  lemma {:induction false} WeekStepNotesPrimary(c: Config, s: Schedule, t: Tracker, ws: int, p: Option<UserId>)
    requires LockedAt(s, ws) ==> p == s[ws].primary
    requires !LockedAt(s, ws) ==> p == Duties(c, t).0
    ensures var t' := WeekStep(c, s, t, ws);
            if p.Some? then
              t'.last == p && t'.run == if t.last == p then t.run + 1 else 1
            else t'.last == t.last && t'.run == t.run
  {
    hide Duties;
  }

  lemma {:induction false} StepTracksRuns(r: Schedule, ws: int, max: int, t: Tracker, t': Tracker)
    requires max >= 1
    requires PrimaryAt(r, ws).Some? ==>
               t'.last == PrimaryAt(r, ws) && t'.run == if t.last == PrimaryAt(r, ws) then t.run + 1 else 1
    requires TracksRuns(r, ws, max, t)
    ensures TracksRuns(r, ws + WEEK, max, t')
  {
    var at := ws + WEEK;
    forall u, n | 1 <= n && Held(r, u, at, n)
      ensures t'.last == Some(u) && t'.run >= Min(n, max)
    {
      HeldBefore(r, u, ws, n);
    }
  }

  lemma {:induction false} HeldBefore(s: Schedule, u: UserId, ws: int, r: int)
    requires 1 <= r && Held(s, u, ws + WEEK, r)
    ensures PrimaryAt(s, ws) == Some(u) && Held(s, u, ws, r - 1)
    ensures r >= 2 ==> PrimaryAt(s, ws - WEEK) == Some(u)
  {
    if r >= 2 {
      assert PrimaryAt(s, ws + WEEK - WEEK * 2) == Some(u);
    }
    assert PrimaryAt(s, ws + WEEK - WEEK * 1) == Some(u);
    forall j | 1 <= j <= r - 1
      ensures PrimaryAt(s, ws - WEEK * j) == Some(u)
    {
      assert ws - WEEK * j == ws + WEEK - WEEK * (j + 1);
    }
  }

  lemma {:induction false} PlannedRowFrom(c: Config, s: Schedule, start: int, i: nat, ws: int)
    requires ws == start + WEEK * i
    ensures PlannedRow(c, s, start, i) ==
            if LockedAt(s, ws) then s[ws]
            else
              var (p, q) := Duties(c, TrackerAt(c, s, start, i));
              Entry(if ws in s then s[ws].weekEnd else ws + WEEK, p, q, false, true, None)
  {
    hide Duties;
    hide TrackerAt;
  }

  lemma {:induction false} PlannedPrimary(c: Config, s: Schedule, start: int, n: nat, i: nat)
    requires i < n
    ensures var ws := start + WEEK * i;
            PrimaryAt(Regenerated(c, s, start, n), ws)
            == if LockedAt(s, ws) then s[ws].primary else Duties(c, TrackerAt(c, s, start, i)).0
  {
    hide Duties;
    hide TrackerAt;
    PlannedRowStored(c, s, start, n, i);
  }

  lemma {:induction false} TrackerAtNext(c: Config, s: Schedule, start: int, i: nat)
    ensures TrackerAt(c, s, start, 0) == Seed(c, s, start)
    ensures TrackerAt(c, s, start, i + 1) == WeekStep(c, s, TrackerAt(c, s, start, i), start + WEEK * i)
  {
    hide WeekStep;
  }

  lemma {:induction false} TrackerSeesRuns(c: Config, s: Schedule, start: int, n: nat, i: nat)
    requires c.maxConsecutive >= 1 && i <= n
    ensures TracksRuns(Regenerated(c, s, start, n), start + WEEK * i, c.maxConsecutive, TrackerAt(c, s, start, i))
  {
    hide WeekStep;
    hide Duties;
    hide Regenerated;
    hide TrackerAt;
    var r := Regenerated(c, s, start, n);
    if i == 0 {
      var t := Seed(c, s, start);
      TrackerAtNext(c, s, start, 0);
      SeedCountsTrailingRun(c, s, start);
      hide Seed;
      forall u, m | 1 <= m && Held(r, u, start, m)
        ensures t.last == Some(u) && t.run >= Min(m, c.maxConsecutive)
      {
        forall j | 1 <= j <= m
          ensures PrimaryAt(s, start - WEEK * j) == Some(u)
        {
          OutsideWindowUntouched(c, s, start, n, start - WEEK * j);
        }
        assert PrimaryAt(s, start - WEEK * 1) == Some(u);
      }
    } else {
      TrackerSeesRuns(c, s, start, n, i - 1);
      PlannedPrimary(c, s, start, n, i - 1);
      TrackerAtNext(c, s, start, i - 1);
      var ws, t := start + WEEK * (i - 1), TrackerAt(c, s, start, i - 1);
      WeekStepNotesPrimary(c, s, t, ws, PrimaryAt(r, ws));
      StepTracksRuns(r, ws, c.maxConsecutive, t, TrackerAt(c, s, start, i));
    }
  }

  /**
   Run cap: with two or more members no generated week ends a run of more than maxConsecutive
   stored weeks with one primary, wherever the run began and whatever locked weeks it crosses.
   */
  lemma {:induction false} NoRunExceedsCap(c: Config, s: Schedule, start: int, n: nat, i: nat, u: UserId)
    requires c.maxConsecutive >= 1 && Distinct(c.members) && |c.members| >= 2
    requires i < n && !LockedAt(s, start + WEEK * i)
    ensures !Held(Regenerated(c, s, start, n), u, start + WEEK * i + WEEK, c.maxConsecutive + 1)
  {
    hide WeekStep;
    hide Duties;
    hide Regenerated;
    hide TrackerAt;
    var r, ws, t := Regenerated(c, s, start, n), start + WEEK * i, TrackerAt(c, s, start, i);
    TrackerSeesRuns(c, s, start, n, i);
    PlannedPrimary(c, s, start, n, i);
    DutiesAreLeastServed(c, t);
    hide Held;
    if Held(r, u, ws + WEEK, c.maxConsecutive + 1) {
      HeldBefore(r, u, ws, c.maxConsecutive + 1);
      assert false;
    }
  }

  /** A lone member takes every generated week, so there the cap gives way. */
  lemma {:induction false} LoneMemberTakesEveryWeek(c: Config, s: Schedule, start: int, n: nat, i: nat, u: UserId)
    requires c.members == [u] && i < n && !LockedAt(s, start + WEEK * i)
    ensures var e := PlannedRow(c, s, start, i); e.primary == Some(u) && e.secondary == None
    ensures (forall j: nat :: j < n ==> !LockedAt(s, start + WEEK * j)) ==>
              Held(Regenerated(c, s, start, n), u, start + WEEK * n, n)
  {
    hide TrackerAt;
    hide Duties;
    DutiesAreLeastServed(c, TrackerAt(c, s, start, i));
    if forall j: nat :: j < n ==> !LockedAt(s, start + WEEK * j) {
      forall j | 1 <= j <= n
        ensures PrimaryAt(Regenerated(c, s, start, n), start + WEEK * n - WEEK * j) == Some(u)
      {
        assert !LockedAt(s, start + WEEK * (n - j));
        DutiesAreLeastServed(c, TrackerAt(c, s, start, n - j));
        PlannedPrimary(c, s, start, n, n - j);
      }
    }
  }

  // ----- Balance -----

  ghost predicate SpreadAtMost(members: seq<UserId>, counts: map<UserId, int>, d: int) {
    forall a, b :: a in members && b in members ==> At(counts, a) - At(counts, b) <= d
  }

  /** u has served less than every other member. */
  ghost predicate StrictLeast(members: seq<UserId>, counts: map<UserId, int>, u: UserId) {
    u in members && forall v :: v in members && v != u ==> At(counts, u) < At(counts, v)
  }

  ghost predicate LastIsBehind(c: Config, t: Tracker) {
    t.last.Some? && StrictLeast(c.members, t.primaryCount, t.last.value)
  }

  function LockedMet(s: Schedule, start: int, i: nat): nat {
    if i == 0 then 0
    else LockedMet(s, start, i - 1) + if LockedAt(s, start + WEEK * (i - 1)) then 1 else 0
  }

  lemma {:induction false} AssignedCounts(c: Config, s: Schedule, t: Tracker, ws: int)
    requires Distinct(c.members) && c.members != [] && !LockedAt(s, ws)
    ensures var p, t' := Duties(c, t).0, WeekStep(c, s, t, ws);
            && p.Some? && p.value in c.members && t'.last == p
            && forall v :: At(t'.primaryCount, v) == At(t.primaryCount, v) + if v == p.value then 1 else 0
  {
    hide Duties;
    DutiesAreLeastServed(c, t);
  }

  /** One week adds at most one to the spread, and only after the member furthest behind was held back. */
  lemma {:induction false} SpreadStep(c: Config, s: Schedule, t: Tracker, ws: int, b: int)
    requires Distinct(c.members) && |c.members| >= 2 && !LockedAt(s, ws) && b >= 1
    requires SpreadAtMost(c.members, t.primaryCount, b + 1)
    requires LastIsBehind(c, t) ==> SpreadAtMost(c.members, t.primaryCount, b)
    ensures var t' := WeekStep(c, s, t, ws);
            && SpreadAtMost(c.members, t'.primaryCount, b + 1)
            && (LastIsBehind(c, t') ==> SpreadAtMost(c.members, t'.primaryCount, b))
  {
    hide Duties;
    DutiesAreLeastServed(c, t);
    AssignedCounts(c, s, t, ws);
    hide WeekStep;
    var p, t' := Duties(c, t).0.value, WeekStep(c, s, t, ws);
    if v :| v in c.members && At(t.primaryCount, v) < At(t.primaryCount, p) {
      assert t.last == Some(v);
      assert StrictLeast(c.members, t.primaryCount, v);
      assert !LastIsBehind(c, t');
    } else {
      if LastIsBehind(c, t') {
        assert c.members[0] != c.members[1];
        var q := if c.members[0] == p then c.members[1] else c.members[0];
        forall x, y | x in c.members && y in c.members
          ensures At(t'.primaryCount, x) - At(t'.primaryCount, y) <= b
        {
          assert x != p ==> At(t.primaryCount, x) - At(t.primaryCount, p) <= b + 1;
        }
      }
    }
  }

  /**
   Bounded unfairness: whatever counts and look-back a run starts from, after any number of weeks
   the primary counts differ by at most max(s0, 1) + 1, plus one for each locked week met.
   */
  lemma {:induction false} SpreadBounded(c: Config, s: Schedule, start: int, t0: Tracker, s0: int, i: nat)
    requires Distinct(c.members) && |c.members| >= 2
    requires SpreadAtMost(c.members, t0.primaryCount, s0)
    ensures var t, b := Track(c, s, start, t0, i), Max(s0, 1) + LockedMet(s, start, i);
            && SpreadAtMost(c.members, t.primaryCount, b + 1)
            && (LastIsBehind(c, t) ==> SpreadAtMost(c.members, t.primaryCount, b))
  {
    hide WeekStep;
    if i > 0 {
      SpreadBounded(c, s, start, t0, s0, i - 1);
      var t, ws := Track(c, s, start, t0, i - 1), start + WEEK * (i - 1);
      var b := Max(s0, 1) + LockedMet(s, start, i - 1);
      if LockedAt(s, ws) {
        LockedKeepsCounts(c, s, t, ws);
      } else {
        SpreadStep(c, s, t, ws, b);
      }
    }
  }

  lemma {:induction false} LockedKeepsCounts(c: Config, s: Schedule, t: Tracker, ws: int)
    requires LockedAt(s, ws)
    ensures WeekStep(c, s, t, ws).primaryCount == t.primaryCount
    ensures WeekStep(c, s, t, ws).secondaryCount == t.secondaryCount
  {
  }

  /** The cap holds back the member who has served least. */
  ghost predicate HeldBack(c: Config, t: Tracker) {
    LastIsBehind(c, t) && AtCap(c.maxConsecutive, t.run)
  }

  lemma {:induction false} PickIsLeastUnlessHeldBack(c: Config, t: Tracker)
    requires Distinct(c.members) && |c.members| >= 2 && !HeldBack(c, t)
    ensures var p := Duties(c, t).0;
            && p.Some? && p.value in c.members
            && forall v :: v in c.members ==> At(t.primaryCount, p.value) <= At(t.primaryCount, v)
  {
    hide Duties;
    DutiesAreLeastServed(c, t);
    forall v | v in c.members
      ensures At(t.primaryCount, Duties(c, t).0.value) <= At(t.primaryCount, v)
    {
      if AtCap(c.maxConsecutive, t.run) && Some(v) == t.last {
        var w :| w in c.members && w != v && At(t.primaryCount, w) <= At(t.primaryCount, v);
      }
    }
  }

  lemma {:induction false} BalancedStep(c: Config, s: Schedule, t: Tracker, ws: int)
    requires Distinct(c.members) && |c.members| >= 2 && !LockedAt(s, ws)
    requires SpreadAtMost(c.members, t.primaryCount, 1) && !HeldBack(c, t)
    ensures var t' := WeekStep(c, s, t, ws); SpreadAtMost(c.members, t'.primaryCount, 1) && !HeldBack(c, t')
  {
    hide Duties;
    PickIsLeastUnlessHeldBack(c, t);
    AssignedCounts(c, s, t, ws);
    hide WeekStep;
    var p, t' := Duties(c, t).0.value, WeekStep(c, s, t, ws);
    assert c.members[0] != c.members[1];
    var q := if c.members[0] == p then c.members[1] else c.members[0];
    assert At(t'.primaryCount, q) <= At(t'.primaryCount, p);
  }

  lemma {:induction false} BalanceKept(c: Config, s: Schedule, start: int, t0: Tracker, i: nat)
    requires Distinct(c.members) && |c.members| >= 2
    requires SpreadAtMost(c.members, t0.primaryCount, 1) && !HeldBack(c, t0)
    requires forall j: nat :: j < i ==> !LockedAt(s, start + WEEK * j)
    ensures var t := Track(c, s, start, t0, i); SpreadAtMost(c.members, t.primaryCount, 1) && !HeldBack(c, t)
  {
    hide WeekStep;
    if i > 0 {
      BalanceKept(c, s, start, t0, i - 1);
      BalancedStep(c, s, Track(c, s, start, t0, i - 1), start + WEEK * (i - 1));
    }
  }

  /**
   A balanced run stays balanced: from counts within one of each other and with no locked weeks,
   the counts stay within one of each other for all n weeks exactly when the cap does not, at the
   outset, hold back a member who has served less than all the others.
   */
  lemma {:induction false} StaysBalancedIff(c: Config, s: Schedule, start: int, t0: Tracker, n: nat)
    requires Distinct(c.members) && |c.members| >= 2 && n >= 1
    requires SpreadAtMost(c.members, t0.primaryCount, 1)
    requires forall j: nat :: j < n ==> !LockedAt(s, start + WEEK * j)
    ensures (forall i: nat :: i <= n ==> SpreadAtMost(c.members, Track(c, s, start, t0, i).primaryCount, 1))
            <==> !HeldBack(c, t0)
  {
    hide WeekStep;
    hide Duties;
    if HeldBack(c, t0) {
      assert !LockedAt(s, start + WEEK * 0);
      DutiesAreLeastServed(c, t0);
      AssignedCounts(c, s, t0, start);
      var u, p := t0.last.value, Duties(c, t0).0.value;
      var t1 := Track(c, s, start, t0, 1);
      assert t1 == WeekStep(c, s, Track(c, s, start, t0, 0), start);
      assert u in c.members && p in c.members && At(t1.primaryCount, p) - At(t1.primaryCount, u) >= 2;
      assert !SpreadAtMost(c.members, Track(c, s, start, t0, 1).primaryCount, 1);
    } else {
      forall i: nat | i <= n
        ensures SpreadAtMost(c.members, Track(c, s, start, t0, i).primaryCount, 1)
      {
        BalanceKept(c, s, start, t0, i);
      }
    }
  }
}
