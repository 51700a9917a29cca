/** Balance of total duty: primary and secondary weeks together. */
module RosterTotalDuty {
  import opened Wrappers
  import opened RosterModel
  import opened RosterFairness
  import opened RosterStability
  import opened RosterLoad

  // ----- At most one member far ahead -----

  /** Of any two members at most one is more than e ahead of a. */
  ghost predicate OneFarAhead(members: seq<UserId>, counts: map<UserId, int>, e: int) {
    forall a, v, w :: a in members && v in members && w in members && v != w ==>
      !(At(counts, v) - At(counts, a) > e && At(counts, w) - At(counts, a) > e)
  }

  lemma {:induction false} OneFarStep(c: Config, s: Schedule, t: Tracker, ws: int, e: int)
    requires Distinct(c.members) && |c.members| >= 2 && !LockedAt(s, ws) && e >= 1
    requires OneFarAhead(c.members, t.primaryCount, e)
    requires LastIsBehind(c, t) ==> SpreadAtMost(c.members, t.primaryCount, e)
    ensures OneFarAhead(c.members, WeekStep(c, s, t, ws).primaryCount, e)
  {
    hide Duties;
    DutiesAreLeastServed(c, t);
    AssignedCounts(c, s, t, ws);
    var p, t' := Duties(c, t).0.value, WeekStep(c, s, t, ws);
    hide WeekStep;
    forall a, v, w | a in c.members && v in c.members && w in c.members && v != w
      ensures !(&& At(t'.primaryCount, v) - At(t'.primaryCount, a) > e
                && At(t'.primaryCount, w) - At(t'.primaryCount, a) > e)
    {
      assert !(At(t.primaryCount, v) - At(t.primaryCount, a) > e && At(t.primaryCount, w) - At(t.primaryCount, a) > e);
      if At(t.primaryCount, a) < At(t.primaryCount, p) {
        assert t.last == Some(a) && StrictLeast(c.members, t.primaryCount, a);
      }
    }
  }

  lemma {:induction false} SpreadIsNear(members: seq<UserId>, counts: map<UserId, int>, e: int)
    requires SpreadAtMost(members, counts, e)
    ensures OneFarAhead(members, counts, e)
  {
  }

  function Allowed(s: Schedule, start: int, s0: int, i: nat): int {
    Max(s0, 1) + LockedMet(s, start, i)
  }

  lemma {:induction false} OneFarKept(c: Config, s: Schedule, start: int, t0: Tracker, s0: int, i: nat)
    requires Distinct(c.members) && |c.members| >= 2 && SpreadAtMost(c.members, t0.primaryCount, s0)
    ensures OneFarAhead(c.members, Track(c, s, start, t0, i).primaryCount, Allowed(s, start, s0, i))
  {
    hide WeekStep;
    hide OneFarAhead;
    hide SpreadAtMost;
    if i == 0 {
      WiderSpread(c.members, t0.primaryCount, s0, Max(s0, 1));
      SpreadIsNear(c.members, t0.primaryCount, Max(s0, 1));
    } else {
      OneFarKept(c, s, start, t0, s0, i - 1);
      SpreadBounded(c, s, start, t0, s0, i - 1);
      var t, ws := Track(c, s, start, t0, i - 1), start + WEEK * (i - 1);
      if LockedAt(s, ws) {
        LockedKeepsCounts(c, s, t, ws);
        SpreadIsNear(c.members, t.primaryCount, Allowed(s, start, s0, i));
      } else {
        OneFarStep(c, s, t, ws, Allowed(s, start, s0, i));
      }
    }
  }

  // ----- Sums over the members -----

  function SumOf(us: seq<UserId>, counts: map<UserId, int>): int {
    if us == [] then 0 else SumOf(us[..|us| - 1], counts) + At(counts, us[|us| - 1])
  }

  function One(b: bool): int { if b then 1 else 0 }

  lemma {:induction false} SumBump(us: seq<UserId>, f: map<UserId, int>, f': map<UserId, int>, p: UserId)
    requires Distinct(us) && forall v :: At(f', v) == At(f, v) + if v == p then 1 else 0
    ensures SumOf(us, f') == SumOf(us, f) + One(p in us)
  {
    hide At;
    if us != [] {
      var n := |us| - 1;
      SumBump(us[..n], f, f', p);
      assert us == us[..n] + [us[n]];
    }
  }

  /** All but u have at least x - 1, u at least x - 1 - e, and a at least x. */
  lemma {:induction false} SumAtLeast(us: seq<UserId>, f: map<UserId, int>, x: int, a: UserId, u: UserId, e: int)
    requires Distinct(us) && a != u && e >= 0 && At(f, a) >= x && At(f, u) >= x - 1 - e
    requires forall m :: m in us && m != u ==> At(f, m) >= x - 1
    ensures SumOf(us, f) >= |us| * (x - 1) - e * One(u in us) + One(a in us)
  {
    hide At;
    if us != [] {
      var n := |us| - 1;
      SumAtLeast(us[..n], f, x, a, u, e);
      assert us == us[..n] + [us[n]];
      OneMore(n, x - 1);
      assert us[n] == u ==> One(u in us) == 1 && One(u in us[..n]) == 0;
      assert us[n] != u ==> One(u in us) == One(u in us[..n]);
    }
  }

  lemma {:induction false} OneMore(n: nat, y: int)
    ensures (n + 1) * y == n * y + y
  {
  }

  /** All but u have at most y, u at most y + 1, and a at most y - e. */
  lemma {:induction false} SumAtMost(us: seq<UserId>, f: map<UserId, int>, y: int, a: UserId, u: UserId, e: int)
    requires Distinct(us) && a != u && e >= 0 && At(f, a) <= y - e && At(f, u) <= y + 1
    requires forall m :: m in us && m != u ==> At(f, m) <= y
    ensures SumOf(us, f) <= |us| * y + One(u in us) - e * One(a in us)
  {
    hide At;
    if us != [] {
      var n := |us| - 1;
      SumAtMost(us[..n], f, y, a, u, e);
      assert us == us[..n] + [us[n]];
      OneMore(n, y);
      assert us[n] == a ==> One(a in us) == 1 && One(a in us[..n]) == 0;
      assert us[n] != a ==> One(a in us) == One(a in us[..n]);
    }
  }

  /** The loads above z of the members but a, each counted up to h. */
  function Filled(us: seq<UserId>, t: Tracker, a: UserId, z: int, h: int): int {
    if us == [] then 0
    else
      var u := us[|us| - 1];
      Filled(us[..|us| - 1], t, a, z, h) + if u == a then 0 else Min(LoadOf(t, u), h) - z
  }

  lemma {:induction false} FilledFromZero(us: seq<UserId>, t: Tracker, a: UserId, z: int, h: int)
    requires z <= h && forall u :: u in us ==> LoadOf(t, u) >= z
    ensures Filled(us, t, a, z, h) >= 0
  {
    hide LoadOf;
    if us != [] {
      FilledFromZero(us[..|us| - 1], t, a, z, h);
    }
  }

  /** It cannot exceed h - z each, and is less if somebody is below h. */
  lemma {:induction false} FilledAtMost(us: seq<UserId>, t: Tracker, a: UserId, b: UserId, z: int, h: int)
    requires z <= h && a != b && LoadOf(t, b) < h
    ensures Filled(us, t, a, z, h) <= |us| * (h - z) - (h - z) * One(a in us) - One(b in us)
  {
    hide LoadOf;
    if us != [] {
      var n := |us| - 1;
      FilledAtMost(us[..n], t, a, b, z, h);
      assert us == us[..n] + [us[n]];
      OneMore(n, h - z);
      assert us[n] == a ==> One(a in us) == 1;
      assert us[n] != a ==> One(a in us) == One(a in us[..n]);
      assert us[n] == b ==> One(b in us) == 1;
      assert us[n] != b ==> One(b in us) == One(b in us[..n]);
    }
  }

  ghost predicate NoneLess(t: Tracker, t': Tracker) {
    forall v :: LoadOf(t', v) >= LoadOf(t, v)
  }

  /** A member below h who is not a and takes on a duty fills it by one. */
  lemma {:induction false} FilledGrows(us: seq<UserId>, t: Tracker, t': Tracker, a: UserId, z: int, h: int, r: UserId)
    requires NoneLess(t, t') && r != a && LoadOf(t, r) < h && LoadOf(t', r) > LoadOf(t, r)
    ensures Filled(us, t', a, z, h) >= Filled(us, t, a, z, h) + One(r in us)
  {
    hide LoadOf;
    if us != [] {
      var n := |us| - 1;
      FilledGrows(us[..n], t, t', a, z, h, r);
      assert us == us[..n] + [us[n]];
      assert us[n] == r ==> One(r in us) == 1;
      assert us[n] != r ==> One(r in us) == One(r in us[..n]);
    }
  }

  // ----- Since a member was last secondary -----

  /** The week after which a has not been made secondary, up to week i. */
  function Since(c: Config, s: Schedule, start: int, t0: Tracker, a: UserId, i: nat): (k: nat)
    ensures k <= i
  {
    if i == 0 then 0
    else if !LockedAt(s, start + WEEK * (i - 1)) && Duties(c, Track(c, s, start, t0, i - 1)).1 == Some(a) then i
    else Since(c, s, start, t0, a, i - 1)
  }

  /** Weeks of the first i that are not locked. */
  function Open(s: Schedule, start: int, i: nat): int {
    i - LockedMet(s, start, i)
  }

  lemma {:induction false} SinceStep(c: Config, s: Schedule, start: int, t0: Tracker, a: UserId, j: nat)
    ensures Since(c, s, start, t0, a, j + 1) <= j ==>
              && Since(c, s, start, t0, a, j + 1) == Since(c, s, start, t0, a, j)
              && (!LockedAt(s, start + WEEK * j) ==> Duties(c, Track(c, s, start, t0, j)).1 != Some(a))
  {
    hide Duties;
    hide WeekStep;
  }

  /** Whoever has just been made secondary is at most d ahead of everybody. */
  lemma {:induction false} SecondaryIsLevel(c: Config, s: Schedule, t: Tracker, ws: int, a: UserId, v: UserId, d: int)
    requires Distinct(c.members) && |c.members| >= 2 && !LockedAt(s, ws) && d >= 1
    requires NobodyFarBehind(c.members, t, d) && Duties(c, t).1 == Some(a) && v in c.members
    ensures LoadOf(WeekStep(c, s, t, ws), a) - LoadOf(WeekStep(c, s, t, ws), v) <= d
  {
    hide Duties;
    AssignedLoads(c, s, t, ws);
    hide WeekStep;
    var p := Duties(c, t).0.value;
    if v == p {
      assert SomebodyNear(c.members, t, p, d);
      var w :| w in c.members && w != p && LoadOf(t, w) <= LoadOf(t, p) + d;
    }
  }

  lemma {:induction false} LevelSince(c: Config, s: Schedule, start: int, t0: Tracker, s0: int, l0: int, a: UserId,
                                      v: UserId, i: nat)
    requires Distinct(c.members) && |c.members| >= 2 && a in c.members && v in c.members
    requires SpreadAtMost(c.members, t0.primaryCount, s0) && LoadsWithin(c.members, t0, l0)
    ensures var t := Track(c, s, start, t0, Since(c, s, start, t0, a, i));
            LoadOf(t, a) - LoadOf(t, v) <= Max(l0, 1)
  {
    hide WeekStep;
    hide Duties;
    hide LoadOf;
    var k := Since(c, s, start, t0, a, i);
    if k > 0 {
      SinceIsFixed(c, s, start, t0, a, i);
      SecondarySpreadBounded(c, s, start, t0, s0, l0, k - 1);
      SecondaryIsLevel(c, s, Track(c, s, start, t0, k - 1), start + WEEK * (k - 1), a, v, Max(l0, 1));
    }
  }

  lemma {:induction false} SinceIsFixed(c: Config, s: Schedule, start: int, t0: Tracker, a: UserId, i: nat)
    ensures var k := Since(c, s, start, t0, a, i);
            k > 0 ==> !LockedAt(s, start + WEEK * (k - 1)) && Duties(c, Track(c, s, start, t0, k - 1)).1 == Some(a)
  {
    hide Duties;
    hide WeekStep;
    if i > 0 && Since(c, s, start, t0, a, i) != i {
      SinceIsFixed(c, s, start, t0, a, i - 1);
    }
  }

  /** What one week adds, while a is not made secondary and b is below h. */
  lemma {:induction false} WeekFills(c: Config, s: Schedule, t: Tracker, ws: int, a: UserId, b: UserId, z: int, h: int)
    requires Distinct(c.members) && |c.members| >= 2 && a in c.members && b in c.members && a != b
    requires !LockedAt(s, ws) ==> Duties(c, t).1 != Some(a)
    requires LoadOf(t, b) < h
    ensures var t' := WeekStep(c, s, t, ws);
            && NoneLess(t, t')
            && At(t'.secondaryCount, a) == At(t.secondaryCount, a)
            && SumOf(c.members, t'.primaryCount) <= SumOf(c.members, t.primaryCount) + One(!LockedAt(s, ws))
            && Filled(c.members, t', a, z, h) >= Filled(c.members, t, a, z, h) + One(!LockedAt(s, ws))
  {
    hide Duties;
    hide Filled;
    hide SumOf;
    var t' := WeekStep(c, s, t, ws);
    if LockedAt(s, ws) {
      LockedKeepsCounts(c, s, t, ws);
      hide WeekStep;
      SameFilled(c.members, t, t', a, z, h);
    } else {
      AssignedLoads(c, s, t, ws);
      hide WeekStep;
      var p, q := Duties(c, t).0.value, Duties(c, t).1.value;
      SumBump(c.members, t.primaryCount, t'.primaryCount, p);
      FilledGrows(c.members, t, t', a, z, h, if p == b then b else q);
    }
  }

  lemma {:induction false} SameFilled(us: seq<UserId>, t: Tracker, t': Tracker, a: UserId, z: int, h: int)
    requires t'.primaryCount == t.primaryCount && t'.secondaryCount == t.secondaryCount
    ensures Filled(us, t', a, z, h) == Filled(us, t, a, z, h)
  {
    if us != [] {
      SameFilled(us[..|us| - 1], t, t', a, z, h);
    }
  }

  /** Over all weeks since a was last secondary, if b is still below h at the end. */
  lemma {:induction false} WeeksFill(c: Config, s: Schedule, start: int, t0: Tracker, a: UserId, b: UserId,
                                     z: int, h: int, j: nat)
    requires Distinct(c.members) && |c.members| >= 2 && a in c.members && b in c.members && a != b
    requires LoadOf(Track(c, s, start, t0, j), b) < h
    ensures var k := Since(c, s, start, t0, a, j);
            var t, t' := Track(c, s, start, t0, k), Track(c, s, start, t0, j);
            var weeks := Open(s, start, j) - Open(s, start, k);
            && NoneLess(t, t')
            && At(t'.secondaryCount, a) == At(t.secondaryCount, a)
            && SumOf(c.members, t'.primaryCount) <= SumOf(c.members, t.primaryCount) + weeks
            && Filled(c.members, t', a, z, h) >= Filled(c.members, t, a, z, h) + weeks
  {
    hide WeekStep;
    hide Duties;
    hide LoadOf;
    hide Filled;
    hide SumOf;
    if Since(c, s, start, t0, a, j) < j {
      var t, ws := Track(c, s, start, t0, j - 1), start + WEEK * (j - 1);
      SinceStep(c, s, start, t0, a, j - 1);
      OneWeekNoneLess(c, s, t, ws, b);
      WeekFills(c, s, t, ws, a, b, z, h);
      WeeksFill(c, s, start, t0, a, b, z, h, j - 1);
    }
  }

  lemma {:induction false} OneWeekNoneLess(c: Config, s: Schedule, t: Tracker, ws: int, b: UserId)
    requires Distinct(c.members) && |c.members| >= 2
    ensures LoadOf(WeekStep(c, s, t, ws), b) >= LoadOf(t, b)
  {
    hide Duties;
    if LockedAt(s, ws) {
      LockedKeepsCounts(c, s, t, ws);
    } else {
      AssignedLoads(c, s, t, ws);
    }
    hide WeekStep;
  }

  // ----- The bound -----

  /** The primary weeks of all members when a has just been picked: nobody but one is more than one behind. */
  lemma {:induction false} SumAfterPick(c: Config, s: Schedule, t: Tracker, ws: int, a: UserId, e: int)
    requires Distinct(c.members) && |c.members| >= 2 && !LockedAt(s, ws) && e >= 1
    requires Duties(c, t).0 == Some(a)
    requires SpreadAtMost(c.members, WeekStep(c, s, t, ws).primaryCount, e + 1)
    ensures var f := WeekStep(c, s, t, ws).primaryCount;
            SumOf(c.members, f) >= |c.members| * (At(f, a) - 1) - e + 1
  {
    hide Duties;
    hide SumOf;
    DutiesAreLeastServed(c, t);
    AssignedCounts(c, s, t, ws);
    var f := WeekStep(c, s, t, ws).primaryCount;
    hide WeekStep;
    assert c.members[0] != c.members[1];
    var other := if c.members[0] == a then c.members[1] else c.members[0];
    var blocked := AtCap(c.maxConsecutive, t.run) && t.last.Some? && t.last.value in c.members;
    var u := if blocked then t.last.value else other;
    SumAtLeast(c.members, f, At(f, a), a, u, e);
  }

  /** And at any time: nobody but one is more than e ahead of a, and that one by one more. */
  lemma {:induction false} SumBefore(c: Config, f: map<UserId, int>, a: UserId, e: int)
    requires Distinct(c.members) && |c.members| >= 2 && a in c.members && e >= 1
    requires SpreadAtMost(c.members, f, e + 1) && OneFarAhead(c.members, f, e)
    ensures SumOf(c.members, f) <= |c.members| * (At(f, a) + e) + 1 - e
  {
    hide SumOf;
    assert c.members[0] != c.members[1];
    var u := if c.members[0] == a then c.members[1] else c.members[0];
    if v :| v in c.members && At(f, v) - At(f, a) > e {
      u := v;
    }
    SumAtMost(c.members, f, At(f, a) + e, a, u, e);
  }

  lemma {:induction false} AllowedGrows(s: Schedule, start: int, s0: int, k: nat, i: nat)
    requires k <= i
    ensures 1 <= Allowed(s, start, s0, k) <= Allowed(s, start, s0, i)
  {
    if k < i {
      AllowedGrows(s, start, s0, k, i - 1);
    }
  }

  lemma {:induction false} FarLater(members: seq<UserId>, counts: map<UserId, int>, e: int, e': int)
    requires OneFarAhead(members, counts, e) && e <= e'
    ensures OneFarAhead(members, counts, e')
  {
  }

  lemma {:induction false} Distribute(n: nat, x: int, y: int)
    ensures n * x - n * y == n * (x - y)
  {
  }

  /** The counts when a was last secondary, with the bound of a later week. */
  lemma {:induction false} SumSince(c: Config, s: Schedule, start: int, t0: Tracker, s0: int, a: UserId, k: nat, i: nat)
    requires Distinct(c.members) && |c.members| >= 2 && a in c.members && k <= i
    requires SpreadAtMost(c.members, t0.primaryCount, s0)
    ensures var f, e := Track(c, s, start, t0, k).primaryCount, Allowed(s, start, s0, i);
            SumOf(c.members, f) <= |c.members| * (At(f, a) + e) + 1 - e
  {
    hide WeekStep;
    hide SumOf;
    hide SpreadAtMost;
    hide OneFarAhead;
    var f := Track(c, s, start, t0, k).primaryCount;
    AllowedGrows(s, start, s0, k, i);
    SpreadBounded(c, s, start, t0, s0, k);
    OneFarKept(c, s, start, t0, s0, k);
    WiderSpread(c.members, f, Allowed(s, start, s0, k) + 1, Allowed(s, start, s0, i) + 1);
    FarLater(c.members, f, Allowed(s, start, s0, k), Allowed(s, start, s0, i));
    SumBefore(c, f, a, Allowed(s, start, s0, i));
  }

  /**
   The heart of it. Had a run ahead of b by more, then since a was last secondary every week filled
   up somebody below a by one; but in so many weeks all of them would have been filled.
   */
  lemma {:induction false} PickedStaysNear(c: Config, s: Schedule, start: int, t0: Tracker, s0: int, l0: int,
                                           a: UserId, b: UserId, i: nat)
    requires Distinct(c.members) && |c.members| >= 2 && a in c.members && b in c.members && a != b && i >= 1
    requires SpreadAtMost(c.members, t0.primaryCount, s0) && LoadsWithin(c.members, t0, l0)
    requires !LockedAt(s, start + WEEK * (i - 1))
    ensures var t := Track(c, s, start, t0, i);
            Duties(c, Track(c, s, start, t0, i - 1)).0 == Some(a) ==>
              LoadOf(t, a) - LoadOf(t, b) <= Max(l0, 1) + PrimaryBound(s, start, s0, i)
  {
    hide WeekStep;
    hide Duties;
    hide SumOf;
    hide Filled;
    hide SpreadAtMost;
    hide LoadsWithin;
    hide Distinct;
    var n, e, d := |c.members|, Allowed(s, start, s0, i), Max(l0, 1);
    var k, t := Since(c, s, start, t0, a, i), Track(c, s, start, t0, i);
    var t1, z := Track(c, s, start, t0, k), LoadOf(Track(c, s, start, t0, k), a) - d;
    var x, y := At(t.primaryCount, a), At(t1.primaryCount, a);
    var h := z + x - y - e - 1;
    if Duties(c, Track(c, s, start, t0, i - 1)).0 == Some(a) && LoadOf(t, b) < h {
      forall v | v in c.members
        ensures LoadOf(t1, v) >= z
      {
        LevelSince(c, s, start, t0, s0, l0, a, v, i);
      }
      WeeksFill(c, s, start, t0, a, b, z, h, i);
      assert LoadOf(t, b) >= LoadOf(t1, b);
      FilledFromZero(c.members, t1, a, z, h);
      FilledAtMost(c.members, t, a, b, z, h);
      AllowedGrows(s, start, s0, i, i);
      SpreadBounded(c, s, start, t0, s0, i);
      SumAfterPick(c, s, Track(c, s, start, t0, i - 1), start + WEEK * (i - 1), a, e);
      SumSince(c, s, start, t0, s0, a, k, i);
      Distribute(n, x - 1, y + e);
      assert false;
    }
    SinceKeepsSecondary(c, s, start, t0, a, i);
  }

  lemma {:induction false} SinceKeepsSecondary(c: Config, s: Schedule, start: int, t0: Tracker, a: UserId, i: nat)
    requires Distinct(c.members) && |c.members| >= 2
    ensures At(Track(c, s, start, t0, i).secondaryCount, a)
            == At(Track(c, s, start, t0, Since(c, s, start, t0, a, i)).secondaryCount, a)
  {
    hide WeekStep;
    hide Duties;
    if Since(c, s, start, t0, a, i) < i {
      SinceStep(c, s, start, t0, a, i - 1);
      SinceKeepsSecondary(c, s, start, t0, a, i - 1);
      NotMadeSecondary(c, s, Track(c, s, start, t0, i - 1), start + WEEK * (i - 1), a);
    }
  }

  lemma {:induction false} NotMadeSecondary(c: Config, s: Schedule, t: Tracker, ws: int, a: UserId)
    requires Distinct(c.members) && |c.members| >= 2
    requires !LockedAt(s, ws) ==> Duties(c, t).1 != Some(a)
    ensures At(WeekStep(c, s, t, ws).secondaryCount, a) == At(t.secondaryCount, a)
  {
    hide Duties;
    if LockedAt(s, ws) {
      LockedKeepsCounts(c, s, t, ws);
    } else {
      AssignedLoads(c, s, t, ws);
    }
  }

  /**
   Bounded total duty: whatever counts and look-back a run starts from, after any number of weeks the
   totals differ by at most max(l0, 1) plus the bound on primary weeks.
   */
  lemma {:induction false} LoadSpreadBounded(c: Config, s: Schedule, start: int, t0: Tracker, s0: int, l0: int, i: nat)
    requires Distinct(c.members) && |c.members| >= 2
    requires SpreadAtMost(c.members, t0.primaryCount, s0) && LoadsWithin(c.members, t0, l0)
    ensures LoadsWithin(c.members, Track(c, s, start, t0, i), Max(l0, 1) + PrimaryBound(s, start, s0, i))
  {
    hide WeekStep;
    hide SpreadAtMost;
    hide Duties;
    hide LoadOf;
    hide Distinct;
    if i > 0 {
      LoadSpreadBounded(c, s, start, t0, s0, l0, i - 1);
      var t := Track(c, s, start, t0, i);
      forall a, b | a in c.members && b in c.members
        ensures LoadOf(t, a) - LoadOf(t, b) <= Max(l0, 1) + PrimaryBound(s, start, s0, i)
      {
        PairStaysNear(c, s, start, t0, s0, l0, a, b, i);
      }
    }
  }

  lemma {:induction false} PairStaysNear(c: Config, s: Schedule, start: int, t0: Tracker, s0: int, l0: int,
                                         a: UserId, b: UserId, i: nat)
    requires Distinct(c.members) && |c.members| >= 2 && a in c.members && b in c.members && i >= 1
    requires SpreadAtMost(c.members, t0.primaryCount, s0) && LoadsWithin(c.members, t0, l0)
    requires LoadsWithin(c.members, Track(c, s, start, t0, i - 1), Max(l0, 1) + PrimaryBound(s, start, s0, i - 1))
    ensures var t := Track(c, s, start, t0, i);
            LoadOf(t, a) - LoadOf(t, b) <= Max(l0, 1) + PrimaryBound(s, start, s0, i)
  {
    hide SpreadAtMost;
    hide Duties;
    hide Distinct;
    hide WeekStep;
    hide LoadOf;
    var t, ws := Track(c, s, start, t0, i - 1), start + WEEK * (i - 1);
    if !LockedAt(s, ws) && Duties(c, t).0 == Some(a) && a != b {
      PickedStaysNear(c, s, start, t0, s0, l0, a, b, i);
    } else if !LockedAt(s, ws) && Duties(c, t).1 == Some(a) {
      SecondarySpreadBounded(c, s, start, t0, s0, l0, i - 1);
      SecondaryIsLevel(c, s, t, ws, a, b, Max(l0, 1));
    } else if a != b {
      NoDutyNoGain(c, s, t, ws, a, b);
    }
  }

  lemma {:induction false} NoDutyNoGain(c: Config, s: Schedule, t: Tracker, ws: int, a: UserId, b: UserId)
    requires Distinct(c.members) && |c.members| >= 2
    requires LockedAt(s, ws) || (Duties(c, t).0 != Some(a) && Duties(c, t).1 != Some(a))
    ensures LoadOf(WeekStep(c, s, t, ws), a) - LoadOf(WeekStep(c, s, t, ws), b) <= LoadOf(t, a) - LoadOf(t, b)
  {
    hide Duties;
    if LockedAt(s, ws) {
      LockedKeepsCounts(c, s, t, ws);
    } else {
      AssignedLoads(c, s, t, ws);
    }
    hide WeekStep;
  }

  /** Stored weeks with a duty of either kind before a day. */
  function DutyWeeksBefore(s: Schedule, u: UserId, before: int): int {
    PrimaryWeeksBefore(s, u, before) + SecondaryWeeksBefore(s, u, before)
  }

  lemma {:induction false} ReflectedLoads(c: Config, r: Schedule, at: int, t: Tracker)
    requires Reflects(c, r, at, t)
    ensures forall u :: u in c.members ==> LoadOf(t, u) == DutyWeeksBefore(r, u, at)
  {
    hide Trailing;
    hide CountsMembers;
    hide PrimaryWeeksBefore;
    hide SecondaryWeeksBefore;
  }

  lemma {:induction false} SeedLoads(c: Config, s: Schedule, start: int)
    ensures forall u :: u in c.members ==> LoadOf(Seed(c, s, start), u) == DutyWeeksBefore(s, u, start)
    ensures forall u :: u in c.members ==> At(Seed(c, s, start).primaryCount, u) == PrimaryWeeksBefore(s, u, start)
  {
    hide PrimaryWeeksBefore;
    hide SecondaryWeeksBefore;
  }

  /** The same of the stored weeks, up to any week of a clean window. */
  lemma {:induction false} StoredLoadStaysBalanced(c: Config, s: Schedule, start: int, n: nat, i: nat,
                                                   s0: int, l0: int, a: UserId, b: UserId)
    requires c.maxConsecutive >= 1 && Distinct(c.members) && |c.members| >= 2
    requires i <= n && CleanPrefix(s, start, i) && a in c.members && b in c.members
    requires forall u, v :: u in c.members && v in c.members ==>
               PrimaryWeeksBefore(s, u, start) - PrimaryWeeksBefore(s, v, start) <= s0
    requires forall u, v :: u in c.members && v in c.members ==>
               DutyWeeksBefore(s, u, start) - DutyWeeksBefore(s, v, start) <= l0
    ensures var r, at := Regenerated(c, s, start, n), start + WEEK * i;
            DutyWeeksBefore(r, a, at) - DutyWeeksBefore(r, b, at) <= Max(l0, 1) + Max(s0, 1) + 1
  {
    hide Regenerated;
    hide DutyWeeksBefore;
    hide PrimaryWeeksBefore;
    hide Track;
    hide Seed;
    hide Reflects;
    hide LoadOf;
    SeedLoads(c, s, start);
    LoadSpreadBounded(c, s, start, Seed(c, s, start), s0, l0, i);
    CleanPrefixReflects(c, s, start, n, i);
    NoneLockedMet(s, start, i);
    ReflectedLoads(c, Regenerated(c, s, start, n), start + WEEK * i, TrackerAt(c, s, start, i));
  }
}
