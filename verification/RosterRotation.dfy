/** On a fresh roster the greedy generator is a plain rotation. */
module RosterRotation {
  import opened Wrappers
  import opened RosterModel
  import opened Arithmetic

  // ----- Turns -----

  /** Any n weeks in a row contain exactly one turn of each member. */
  lemma {:induction false} OneTurnEach(n: nat, i: nat, j: nat) returns (t: nat)
    requires j < n
    ensures i <= t < i + n && t % n == j
    ensures forall v: nat :: i <= v < i + n && v % n == j ==> v == t
  {
    var q, r := i / n, i % n;
    assert i == n * q + r;
    t := if j >= r then i + (j - r) else i + (n - r + j);
    if j >= r {
      DivModUnique(t, n, q, j);
    } else {
      assert t == n * (q + 1) + j;
      DivModUnique(t, n, q + 1, j);
    }
    forall v: nat | i <= v < i + n && v % n == j
      ensures v == t
    {
      SameTurn(v, t, n);
    }
  }

  // ----- Choosing by position -----

  lemma {:induction false} WithoutAt(us: seq<UserId>, x: nat)
    requires Distinct(us) && x < |us|
    ensures Without(us, us[x]) == us[..x] + us[x + 1..]
  {
    var n := |us| - 1;
    if x < n {
      WithoutAt(us[..n], x);
      assert us[..n][..x] + us[..n][x + 1..] + [us[n]] == us[..x] + us[x + 1..];
    } else {
      WithoutAbsent(us[..n], us[n]);
      assert us[..n] == us[..x] + us[x + 1..];
    }
  }

  lemma {:induction false} LeftAt(us: seq<UserId>, x: nat, j: nat)
    requires x < |us| && j < |us| - 1
    ensures (us[..x] + us[x + 1..])[j] == if j < x then us[j] else us[j + 1]
  {
  }

  lemma {:induction false} WithoutAbsent(us: seq<UserId>, u: UserId)
    requires u !in us
    ensures Without(us, u) == us
  {
    if us != [] {
      WithoutAbsent(us[..|us| - 1], u);
    }
  }

  /** Weeks served as primary, and as secondary, by the member at position j after i turns of n members. */
  function PrimaryTurns(n: nat, i: nat, j: nat): nat
    requires n >= 1
  {
    i / n + if j < i % n then 1 else 0
  }

  function SecondaryTurns(n: nat, i: nat, j: nat): nat
    requires n >= 1
  {
    i / n + if 0 < j <= i % n then 1 else 0
  }

  ghost predicate InRotation(c: Config, i: nat, t: Tracker) {
    var n := |c.members|;
    && n >= 2
    && (forall j: nat :: j < n ==>
          && At(t.primaryCount, c.members[j]) == PrimaryTurns(n, i, j)
          && At(t.secondaryCount, c.members[j]) == SecondaryTurns(n, i, j))
    && (if i == 0 then t.last.None? else t.run == 1 && t.last == Some(c.members[(i - 1) % n]))
  }

  lemma {:induction false} RotationPrimary(c: Config, i: nat, t: Tracker)
    requires Distinct(c.members) && InRotation(c, i, t)
    ensures Duties(c, t).0 == Some(c.members[i % |c.members|])
  {
    hide Without;
    hide FirstLeast;
    var ms, n := c.members, |c.members|;
    var q, r := i / n, i % n;
    if t.last.Some? && AtCap(c.maxConsecutive, t.run) {
      NextTurnOf(i - 1, n);
      var x := (i - 1) % n;
      WithoutAt(ms, x);
      var e := ms[..x] + ms[x + 1..];
      var k := if r == 0 then 0 else r - 1;
      LeftAt(ms, x, k);
      forall j | 0 <= j < |e|
        ensures j < k ==> At(t.primaryCount, e[j]) > At(t.primaryCount, e[k])
        ensures k <= j ==> At(t.primaryCount, e[k]) <= At(t.primaryCount, e[j])
      {
        LeftAt(ms, x, j);
      }
      FirstLeastAt(e, t.primaryCount, k);
    } else {
      FirstLeastAt(ms, t.primaryCount, r);
    }
  }

  lemma {:induction false} RotationSecondary(c: Config, i: nat, t: Tracker)
    requires Distinct(c.members) && InRotation(c, i, t)
    ensures SecondaryPick(c.members, t.primaryCount, t.secondaryCount, c.members[i % |c.members|])
            == Some(c.members[(i + 1) % |c.members|])
  {
    hide Without;
    hide FirstLeast;
    var ms, n := c.members, |c.members|;
    var r := i % n;
    NextTurnOf(i, n);
    WithoutAt(ms, r);
    var e, load := ms[..r] + ms[r + 1..], Load(ms, t.primaryCount, t.secondaryCount);
    var k := if r == n - 1 then 0 else r;
    LeftAt(ms, r, k);
    forall j | 0 <= j < |e|
      ensures j < k ==> At(load, e[j]) > At(load, e[k])
      ensures k <= j ==> At(load, e[k]) <= At(load, e[j])
    {
      var p: nat := if j < r then j else j + 1;
      LeftAt(ms, r, j);
      assert At(load, ms[p]) == PrimaryTurns(n, i, p) + SecondaryTurns(n, i, p);
    }
    FirstLeastAt(e, load, k);
  }

  lemma {:induction false} RotationStep(c: Config, s: Schedule, i: nat, t: Tracker, ws: int)
    requires Distinct(c.members) && InRotation(c, i, t) && !LockedAt(s, ws)
    ensures InRotation(c, i + 1, WeekStep(c, s, t, ws))
    ensures Duties(c, t) == (Some(c.members[i % |c.members|]), Some(c.members[(i + 1) % |c.members|]))
  {
    hide PrimaryPick;
    hide SecondaryPick;
    var ms, n := c.members, |c.members|;
    RotationPrimary(c, i, t);
    RotationSecondary(c, i, t);
    NextTurnOf(i, n);
    if i > 0 {
      NextTurnOf(i - 1, n);
    }
    var p, q := ms[i % n], ms[(i + 1) % n];
    assert t.last != Some(p);
    var t' := AfterDuties(t, Some(p), Some(q));
    assert WeekStep(c, s, t, ws) == t';
    forall j: nat | j < n
      ensures At(t'.primaryCount, ms[j]) == PrimaryTurns(n, i + 1, j)
      ensures At(t'.secondaryCount, ms[j]) == SecondaryTurns(n, i + 1, j)
    {
      assert ms[j] == p <==> j == i % n;
      assert ms[j] == q <==> j == (i + 1) % n;
    }
  }

  /** A roster nobody has served on: no duty week and no primary before the window, nothing locked in it. */
  ghost predicate Fresh(c: Config, s: Schedule, start: int, n: nat) {
    && (forall u :: u in c.members ==> PrimaryWeeksBefore(s, u, start) == 0 && SecondaryWeeksBefore(s, u, start) == 0)
    && PrimaryAt(s, start - WEEK) == None
    && (forall j: nat :: j < n ==> !LockedAt(s, start + WEEK * j))
  }

  lemma {:induction false} FreshSeed(c: Config, s: Schedule, start: int, n: nat)
    requires Distinct(c.members) && |c.members| >= 2 && Fresh(c, s, start, n)
    ensures InRotation(c, 0, Seed(c, s, start))
  {
    hide PrimaryWeeksBefore;
    hide SecondaryWeeksBefore;
    DivModUnique(0, |c.members|, 0, 0);
    assert forall j: nat :: j < |c.members| ==> c.members[j] in c.members;
  }

  lemma {:induction false} FreshRotates(c: Config, s: Schedule, start: int, n: nat, i: nat)
    requires Distinct(c.members) && |c.members| >= 2 && Fresh(c, s, start, n) && i <= n
    ensures InRotation(c, i, TrackerAt(c, s, start, i))
  {
    hide WeekStep;
    hide Duties;
    hide InRotation;
    if i == 0 {
      FreshSeed(c, s, start, n);
    } else {
      FreshRotates(c, s, start, n, i - 1);
      RotationStep(c, s, i - 1, TrackerAt(c, s, start, i - 1), start + WEEK * (i - 1));
    }
  }

  /**
   Greedy equals round-robin: on a fresh roster of n members, whatever the cap, week i goes to
   member i mod n with member i + 1 mod n as secondary.
   */
  lemma {:induction false} GreedyIsRoundRobin(c: Config, s: Schedule, start: int, n: nat, i: nat)
    requires Distinct(c.members) && |c.members| >= 2 && Fresh(c, s, start, n) && i < n
    ensures var e := PlannedRow(c, s, start, i);
            && e.primary == Some(c.members[i % |c.members|])
            && e.secondary == Some(c.members[(i + 1) % |c.members|])
  {
    hide TrackerAt;
    hide Duties;
    FreshRotates(c, s, start, n, i);
    RotationStep(c, s, i, TrackerAt(c, s, start, i), start + WEEK * i);
  }

  /** So among any |members| weeks in a row each member has each duty in exactly one. */
  lemma {:induction false} EachServesOnce(c: Config, s: Schedule, start: int, n: nat, i: nat, k: nat)
    returns (t: nat, v: nat)
    requires Distinct(c.members) && |c.members| >= 2 && Fresh(c, s, start, n)
    requires k < |c.members| && i + |c.members| <= n
    ensures i <= t < i + |c.members| && i <= v < i + |c.members|
    ensures forall w: nat :: i <= w < i + |c.members| ==>
              && (PlannedRow(c, s, start, w).primary == Some(c.members[k]) <==> w == t)
              && (PlannedRow(c, s, start, w).secondary == Some(c.members[k]) <==> w == v)
  {
    hide PlannedRow;
    hide Fresh;
    var m := |c.members|;
    t := OneTurnEach(m, i, k);
    var v' := OneTurnEach(m, i + 1, k);
    v := v' - 1;
    forall w: nat | i <= w < i + m
      ensures PlannedRow(c, s, start, w).primary == Some(c.members[k]) <==> w == t
      ensures PlannedRow(c, s, start, w).secondary == Some(c.members[k]) <==> w == v
    {
      GreedyIsRoundRobin(c, s, start, n, w);
      ModInRange(w, m);
      ModInRange(w + 1, m);
    }
  }

  lemma {:induction false} ModInRange(x: nat, n: nat)
    requires n >= 1
    ensures 0 <= x % n < n
  {
  }
}
