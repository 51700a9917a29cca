/** Balance of secondary weeks, and what keeps total duty together. */
module RosterLoad {
  import opened RosterModel
  import opened RosterFairness
  import opened RosterStability

  function LoadOf(t: Tracker, u: UserId): int {
    At(t.primaryCount, u) + At(t.secondaryCount, u)
  }

  ghost predicate LoadsWithin(members: seq<UserId>, t: Tracker, d: int) {
    forall a, b :: a in members && b in members ==> LoadOf(t, a) - LoadOf(t, b) <= d
  }

  /** Somebody else is at most d ahead of b. */
  ghost predicate SomebodyNear(members: seq<UserId>, t: Tracker, b: UserId, d: int) {
    exists v :: v in members && v != b && LoadOf(t, v) <= LoadOf(t, b) + d
  }

  /** Nobody is further than d behind all the others. */
  ghost predicate NobodyFarBehind(members: seq<UserId>, t: Tracker, d: int) {
    forall b {:trigger SomebodyNear(members, t, b, d)} :: b in members ==> SomebodyNear(members, t, b, d)
  }

  lemma {:induction false} AssignedLoads(c: Config, s: Schedule, t: Tracker, ws: int)
    requires Distinct(c.members) && |c.members| >= 2 && !LockedAt(s, ws)
    ensures var (p, q) := Duties(c, t);
            var t' := WeekStep(c, s, t, ws);
            && p.Some? && q.Some? && p != q && p.value in c.members && q.value in c.members
            && (forall v :: At(t'.primaryCount, v) == At(t.primaryCount, v) + if v == p.value then 1 else 0)
            && (forall v :: At(t'.secondaryCount, v) == At(t.secondaryCount, v) + if v == q.value then 1 else 0)
            && (forall v :: v in c.members && v != p.value ==> LoadOf(t, q.value) <= LoadOf(t, v))
  {
    hide Duties;
    DutiesAreLeastServed(c, t);
  }

  /** Whoever is behind all others gets a duty, so the distance to the next does not grow. */
  lemma {:induction false} StepKeepsNobodyFarBehind(c: Config, s: Schedule, t: Tracker, ws: int, d: int)
    requires Distinct(c.members) && |c.members| >= 2 && !LockedAt(s, ws)
    requires d >= 1 && NobodyFarBehind(c.members, t, d)
    ensures NobodyFarBehind(c.members, WeekStep(c, s, t, ws), d)
  {
    hide Duties;
    AssignedLoads(c, s, t, ws);
    var t' := WeekStep(c, s, t, ws);
    hide WeekStep;
    forall b | b in c.members
      ensures SomebodyNear(c.members, t', b, d)
    {
      if v :| v in c.members && v != b && LoadOf(t, v) <= LoadOf(t, b) {
        assert LoadOf(t', v) <= LoadOf(t', b) + d;
      } else {
        assert SomebodyNear(c.members, t, b, d);
        var v :| v in c.members && v != b && LoadOf(t, v) <= LoadOf(t, b) + d;
        assert LoadOf(t', v) <= LoadOf(t', b) + d;
      }
    }
  }

  /** A member becomes secondary only as the least loaded of those who can. */
  lemma {:induction false} StepKeepsSecondarySpread(c: Config, s: Schedule, t: Tracker, ws: int, b: int, d: int)
    requires Distinct(c.members) && |c.members| >= 2 && !LockedAt(s, ws)
    requires d >= 1 && NobodyFarBehind(c.members, t, d)
    requires SpreadAtMost(c.members, t.primaryCount, b) && SpreadAtMost(c.members, t.secondaryCount, b + d)
    requires SpreadAtMost(c.members, WeekStep(c, s, t, ws).primaryCount, b)
    ensures SpreadAtMost(c.members, WeekStep(c, s, t, ws).secondaryCount, b + d)
  {
    hide Duties;
    AssignedLoads(c, s, t, ws);
    var t' := WeekStep(c, s, t, ws);
    hide WeekStep;
    var p, q := Duties(c, t).0.value, Duties(c, t).1.value;
    forall x, y | x in c.members && y in c.members
      ensures At(t'.secondaryCount, x) - At(t'.secondaryCount, y) <= b + d
    {
      if x == q && y == p {
        assert SomebodyNear(c.members, t, p, d);
        var v :| v in c.members && v != p && LoadOf(t, v) <= LoadOf(t, p) + d;
        assert At(t'.primaryCount, y) - At(t'.primaryCount, x) <= b;
      } else if x == q && y != q {
        assert At(t.primaryCount, y) - At(t.primaryCount, x) <= b;
      } else {
        assert At(t.secondaryCount, x) - At(t.secondaryCount, y) <= b + d;
      }
    }
  }

  lemma {:induction false} StartNear(c: Config, t: Tracker, l0: int)
    requires Distinct(c.members) && |c.members| >= 2 && LoadsWithin(c.members, t, l0)
    ensures NobodyFarBehind(c.members, t, Max(l0, 1))
  {
    hide LoadOf;
    var x, y := c.members[0], c.members[1];
    assert x != y;
    hide Distinct;
    forall b | b in c.members
      ensures SomebodyNear(c.members, t, b, Max(l0, 1))
    {
      var v := if x == b then y else x;
      assert v in c.members && LoadOf(t, v) - LoadOf(t, b) <= l0;
    }
  }

  lemma {:induction false} StartingLoads(c: Config, t: Tracker, s0: int, l0: int)
    requires SpreadAtMost(c.members, t.primaryCount, s0) && LoadsWithin(c.members, t, l0)
    ensures SpreadAtMost(c.members, t.secondaryCount, s0 + l0)
  {
    forall x, y | x in c.members && y in c.members
      ensures At(t.secondaryCount, x) - At(t.secondaryCount, y) <= s0 + l0
    {
      assert LoadOf(t, x) - LoadOf(t, y) <= l0 && At(t.primaryCount, y) - At(t.primaryCount, x) <= s0;
    }
  }

  lemma {:induction false} WiderSpread(members: seq<UserId>, counts: map<UserId, int>, b: int, b': int)
    requires SpreadAtMost(members, counts, b) && b <= b'
    ensures SpreadAtMost(members, counts, b')
  {
  }

  /** The spread of primary weeks that the run of i weeks may reach. */
  function PrimaryBound(s: Schedule, start: int, s0: int, i: nat): int {
    Max(s0, 1) + 1 + LockedMet(s, start, i)
  }

  lemma {:induction false} SecondarySpreadBounded(c: Config, s: Schedule, start: int, t0: Tracker, s0: int,
                                                  l0: int, i: nat)
    requires Distinct(c.members) && |c.members| >= 2
    requires SpreadAtMost(c.members, t0.primaryCount, s0) && LoadsWithin(c.members, t0, l0)
    ensures var t, b, d := Track(c, s, start, t0, i), PrimaryBound(s, start, s0, i), Max(l0, 1);
            && SpreadAtMost(c.members, t.primaryCount, b)
            && SpreadAtMost(c.members, t.secondaryCount, b + d)
            && NobodyFarBehind(c.members, t, d)
  {
    hide WeekStep;
    hide SpreadAtMost;
    hide NobodyFarBehind;
    SpreadBounded(c, s, start, t0, s0, i);
    var d := Max(l0, 1);
    if i == 0 {
      StartNear(c, t0, l0);
      StartingLoads(c, t0, s0, l0);
      WiderSpread(c.members, t0.secondaryCount, s0 + l0, PrimaryBound(s, start, s0, 0) + d);
    } else {
      SecondarySpreadBounded(c, s, start, t0, s0, l0, i - 1);
      var t, ws := Track(c, s, start, t0, i - 1), start + WEEK * (i - 1);
      var b, b' := PrimaryBound(s, start, s0, i - 1), PrimaryBound(s, start, s0, i);
      WiderSpread(c.members, t.primaryCount, b, b');
      WiderSpread(c.members, t.secondaryCount, b + d, b' + d);
      if LockedAt(s, ws) {
        LockedKeepsCounts(c, s, t, ws);
        SameLoads(c.members, t, WeekStep(c, s, t, ws), d);
      } else {
        StepKeepsNobodyFarBehind(c, s, t, ws, d);
        StepKeepsSecondarySpread(c, s, t, ws, b', d);
      }
    }
  }

  lemma {:induction false} SameLoads(members: seq<UserId>, t: Tracker, t': Tracker, d: int)
    requires t'.primaryCount == t.primaryCount && t'.secondaryCount == t.secondaryCount
    requires NobodyFarBehind(members, t, d)
    ensures NobodyFarBehind(members, t', d)
  {
    forall b | b in members
      ensures SomebodyNear(members, t', b, d)
    {
      assert SomebodyNear(members, t, b, d);
      var v :| v in members && v != b && LoadOf(t, v) <= LoadOf(t, b) + d;
      assert LoadOf(t', v) <= LoadOf(t', b) + d;
    }
  }
}
