/** The escalation engine against the dry run, and how far down a policy it gets. */
module EscalationDryRun {
  import opened Wrappers
  import opened Arithmetic
  import opened Escalation

  /** How many dry-run steps are due at this age. */
  function StepsDue(tiers: seq<Tier>, i: nat, elapsed: int): nat
    requires i <= |tiers|
  {
    if i == 0 then 0 else StepsDue(tiers, i - 1, elapsed) + if Due(tiers, i - 1, elapsed) then 1 else 0
  }

  ghost predicate NonNegative(tiers: seq<Tier>) {
    forall i :: 0 <= i < |tiers| ==> tiers[i].timeoutMinutes >= 0
  }

  lemma {:induction false} CumulativeGrows(tiers: seq<Tier>, i: nat, j: nat)
    requires NonNegative(tiers) && i <= j <= |tiers|
    ensures Cumulative(tiers, i) <= Cumulative(tiers, j)
  {
    if i < j {
      CumulativeGrows(tiers, i, j - 1);
    }
  }

  /** With no negative timeout the steps due are the first so many. */
  lemma {:induction false} StepsDueArePrefix(tiers: seq<Tier>, n: nat, elapsed: int, i: nat)
    requires NonNegative(tiers) && i < n <= |tiers|
    ensures Due(tiers, i, elapsed) <==> i < StepsDue(tiers, n, elapsed)
    ensures StepsDue(tiers, n, elapsed) <= n
    decreases n
  {
    if n > 1 {
      StepsDueArePrefix(tiers, n - 1, elapsed, if i < n - 1 then i else n - 2);
      if i == n - 1 && Due(tiers, n - 1, elapsed) {
        CumulativeGrows(tiers, n - 1, n);
      } else if Due(tiers, n - 1, elapsed) {
        CumulativeGrows(tiers, i + 1, n);
      }
    }
  }

  lemma {:induction false} StepsDueGrow(tiers: seq<Tier>, n: nat, t: int, t': int)
    requires n <= |tiers| && t <= t'
    ensures StepsDue(tiers, n, t) <= StepsDue(tiers, n, t') <= n
  {
    if n > 0 {
      StepsDueGrow(tiers, n - 1, t, t');
    }
  }

  function DueAt(p: Policy, elapsed: int): nat {
    StepsDue(p.tiers, |p.tiers|, elapsed)
  }

  /** Error-free evaluations at these ages, from an alert that has not been escalated. */
  function Evaluated(p: Policy, ages: seq<int>): Machine {
    if ages == [] then Machine(None, [])
    else Tick(p, Evaluated(p, ages[..|ages| - 1]), ages[|ages| - 1], NoFault)
  }

  /** How many tiers the engine has reached after these evaluations. */
  function TiersReached(p: Policy, ages: seq<int>): nat {
    |Evaluated(p, ages).events|
  }

  ghost predicate Ascending(ages: seq<int>) {
    forall i, j :: 0 <= i < j < |ages| ==> ages[i] <= ages[j]
  }

  lemma {:induction false} EvaluatedOrder(p: Policy, ages: seq<int>)
    ensures OrderKept(p, Evaluated(p, ages), Evaluated(p, ages).events)
  {
    hide OrderKept;
    hide Advance;
    if ages == [] {
      NothingRecorded(p);
    } else {
      var n := |ages| - 1;
      EvaluatedOrder(p, ages[..n]);
      var m := Evaluated(p, ages[..n]);
      TickKeepsOrder(p, m, m.events, ages[n], NoFault);
    }
  }

  lemma {:induction false} NoWrap(i: nat, n: nat)
    requires i < n
    ensures Wrap(i, n) == i
  {
    DivModUnique(i, n, 0, i);
  }

  lemma {:induction false} WrapsOnce(i: nat, n: nat)
    requires i < n
    ensures Wrap(i, n) == i && Wrap(n + i, n) == i
  {
    DivModUnique(i, n, 0, i);
    DivModUnique(n + i, n, 1, i);
  }

  lemma {:induction false} DueGrows(p: Policy, t: int, t': int)
    requires t <= t'
    ensures DueAt(p, t) <= DueAt(p, t') <= |p.tiers|
  {
    StepsDueGrow(p.tiers, |p.tiers|, t, t');
  }

  /** One evaluation moves at most one tier: to the next stop, exactly when that is due. */
  lemma {:induction false} EvaluationLaw(p: Policy, ages: seq<int>)
    requires ages != []
    ensures var was, age := TiersReached(p, ages[..|ages| - 1]), ages[|ages| - 1];
            TiersReached(p, ages) == was + if StopDue(p, was, age) then 1 else 0
  {
    hide Wrap;
    var n := |ages| - 1;
    var m := Evaluated(p, ages[..n]);
    EvaluatedOrder(p, ages[..n]);
    AdvanceIff(p, Current(m.tier), |m.events|, ages[n]);
    hide Advance;
    hide StopDue;
    hide Passed;
    hide Subsequence;
  }

  lemma {:induction false} EveryAdvanceHasItsEvent(p: Policy, ages: seq<int>)
    ensures var events := Evaluated(p, ages).events;
            forall i :: 0 <= i < |events| ==> events[i] == Stop(p.tiers, Skipped(p.tiers) + i)
    ensures p.tiers == [] ==> TiersReached(p, ages) == 0
    ensures !Repeats(p) ==> Skipped(p.tiers) + TiersReached(p, ages) <= |Peaks(p.tiers)|
  {
    EvaluatedOrder(p, ages);
    hide Passed;
    hide Subsequence;
    hide Evaluated;
  }

  // ----- Never ahead -----

  ghost predicate DueAll(tiers: seq<Tier>, ps: seq<nat>, n: nat, elapsed: int)
    requires n <= |tiers|
  {
    && (forall i, j :: 0 <= i < j < |ps| ==> ps[i] < ps[j])
    && (forall i :: 0 <= i < |ps| ==> ps[i] < n && Due(tiers, ps[i], elapsed))
  }

  lemma {:induction false} CountDue(tiers: seq<Tier>, ps: seq<nat>, n: nat, elapsed: int)
    requires n <= |tiers| && DueAll(tiers, ps, n, elapsed)
    ensures |ps| <= StepsDue(tiers, n, elapsed)
  {
    hide Due;
    if ps != [] {
      var m := |ps| - 1;
      assert ps[m] < n;
      if ps[m] == n - 1 {
        CountDue(tiers, ps[..m], n - 1, elapsed);
      } else {
        assert forall i :: 0 <= i < |ps| ==> ps[i] <= ps[m];
        CountDue(tiers, ps, n - 1, elapsed);
      }
    }
  }

  /** The positions of the first a stops of a policy that does not repeat. */
  function Visited(tiers: seq<Tier>, a: nat): seq<nat>
    requires Skipped(tiers) + a <= |Peaks(tiers)|
  {
    Peaks(tiers)[Skipped(tiers)..Skipped(tiers) + a]
  }

  lemma {:induction false} OneMoreVisited(p: Policy, a: nat, elapsed: int)
    requires !Repeats(p) && StopDue(p, a, elapsed)
    requires Skipped(p.tiers) + a <= |Peaks(p.tiers)| && DueAll(p.tiers, Visited(p.tiers, a), |p.tiers|, elapsed)
    ensures Skipped(p.tiers) + a < |Peaks(p.tiers)|
    ensures DueAll(p.tiers, Visited(p.tiers, a + 1), |p.tiers|, elapsed)
  {
    hide Wrap;
    PeaksAre(p.tiers);
    hide Peaks;
    hide Skipped;
    hide Due;
    hide Num;
    hide IsPeak;
    NoWrap(Skipped(p.tiers) + a, |Peaks(p.tiers)|);
    assert Visited(p.tiers, a + 1) == Visited(p.tiers, a) + [Peaks(p.tiers)[Skipped(p.tiers) + a]];
  }

  lemma {:induction false} StillDue(tiers: seq<Tier>, ps: seq<nat>, n: nat, t: int, t': int)
    requires n <= |tiers| && t <= t' && DueAll(tiers, ps, n, t)
    ensures DueAll(tiers, ps, n, t')
  {
  }

  lemma {:induction false} VisitedDue(p: Policy, ages: seq<int>, elapsed: int)
    requires !Repeats(p) && Ascending(ages) && (ages != [] ==> ages[|ages| - 1] <= elapsed)
    ensures Skipped(p.tiers) + TiersReached(p, ages) <= |Peaks(p.tiers)|
    ensures DueAll(p.tiers, Visited(p.tiers, TiersReached(p, ages)), |p.tiers|, elapsed)
  {
    hide StopDue;
    hide Peaks;
    hide Skipped;
    EveryAdvanceHasItsEvent(p, ages);
    if ages != [] {
      hide TiersReached;
      hide DueAll;
      var n := |ages| - 1;
      VisitedDue(p, ages[..n], ages[n]);
      EvaluationLaw(p, ages);
      var was := TiersReached(p, ages[..n]);
      if StopDue(p, was, ages[n]) {
        OneMoreVisited(p, was, ages[n]);
      }
      StillDue(p.tiers, Visited(p.tiers, TiersReached(p, ages)), |p.tiers|, ages[n], elapsed);
    }
  }

  /** For any evaluation times the engine never runs ahead of the dry run, in whatever order the tiers are. */
  lemma {:induction false} EngineNeverAhead(p: Policy, ages: seq<int>)
    requires !Repeats(p) && Ascending(ages) && ages != []
    ensures TiersReached(p, ages) <= DueAt(p, ages[|ages| - 1])
  {
    VisitedDue(p, ages, ages[|ages| - 1]);
    CountDue(p.tiers, Visited(p.tiers, TiersReached(p, ages)), |p.tiers|, ages[|ages| - 1]);
  }

  // ----- In step -----

  function DueBefore(p: Policy, ages: seq<int>, k: nat): nat
    requires k < |ages|
  {
    if k == 0 then 0 else DueAt(p, ages[k - 1])
  }

  /** No two evaluations have more than one dry-run step falling due between them. */
  ghost predicate OneStepPerGap(p: Policy, ages: seq<int>) {
    forall k :: 0 <= k < |ages| ==> DueAt(p, ages[k]) <= DueBefore(p, ages, k) + 1
  }

  ghost predicate MatchesDryRun(p: Policy, ages: seq<int>) {
    forall k :: 0 <= k < |ages| ==> TiersReached(p, ages[..k + 1]) == DueAt(p, ages[k])
  }

  lemma {:induction false} PrefixLaw(p: Policy, ages: seq<int>, k: nat)
    requires k < |ages|
    ensures var was := TiersReached(p, ages[..k]);
            && TiersReached(p, ages[..k + 1]) == was + (if StopDue(p, was, ages[k]) then 1 else 0)
            && (k == 0 ==> was == 0)
  {
    hide StopDue;
    assert ages[..k + 1][..k] == ages[..k];
    EvaluationLaw(p, ages[..k + 1]);
  }

  /** At each evaluation the dry run's count rises by one if the next stop is due, and not otherwise. */
  ghost predicate RisesByStops(p: Policy, ages: seq<int>) {
    forall k :: 0 <= k < |ages| ==>
      DueAt(p, ages[k]) == DueBefore(p, ages, k) + if StopDue(p, DueBefore(p, ages, k), ages[k]) then 1 else 0
  }

  lemma {:induction false} StaysInStep(p: Policy, ages: seq<int>, k: nat)
    requires RisesByStops(p, ages) && k < |ages|
    ensures TiersReached(p, ages[..k + 1]) == DueAt(p, ages[k])
  {
    hide TiersReached;
    hide DueAt;
    hide StopDue;
    if k > 0 {
      StaysInStep(p, ages, k - 1);
    }
    PrefixLaw(p, ages, k);
  }

  /** When any engine, of any policy and at any ages, is in step with its dry run. */
  lemma {:induction false} InStepIff(p: Policy, ages: seq<int>)
    ensures MatchesDryRun(p, ages) <==> RisesByStops(p, ages)
  {
    hide TiersReached;
    hide DueAt;
    hide StopDue;
    if RisesByStops(p, ages) {
      forall k | 0 <= k < |ages|
        ensures TiersReached(p, ages[..k + 1]) == DueAt(p, ages[k])
      {
        StaysInStep(p, ages, k);
      }
    }
    if MatchesDryRun(p, ages) {
      forall k | 0 <= k < |ages|
        ensures DueAt(p, ages[k]) == DueBefore(p, ages, k) + if StopDue(p, DueBefore(p, ages, k), ages[k]) then 1 else 0
      {
        PrefixLaw(p, ages, k);
        if k > 0 {
          assert TiersReached(p, ages[..k - 1 + 1]) == DueAt(p, ages[k - 1]);
        }
      }
    }
  }

  /** The first c tiers are above zero and in increasing order. */
  ghost predicate FirstInOrder(tiers: seq<Tier>, c: nat) {
    c <= |tiers| && forall i :: 0 <= i < c ==> InOrder(tiers, i)
  }

  ghost predicate DueInOrder(p: Policy, ages: seq<int>) {
    forall k :: 0 <= k < |ages| ==> FirstInOrder(p.tiers, DueAt(p, ages[k]))
  }

  /** Then they are the first c stops. */
  lemma {:induction false} FirstStops(tiers: seq<Tier>, c: nat, i: nat)
    requires FirstInOrder(tiers, c) && i < c
    ensures Skipped(tiers) == 0 && i < |Peaks(tiers)| && Peaks(tiers)[i] == i
  {
    hide Num;
    PeaksAre(tiers);
    StartPassed(tiers);
    var g := Peaks(tiers);
    hide Peaks;
    hide Skipped;
    assert InOrder(tiers, 0) && InOrder(tiers, i) && i in g;
    var x :| 0 <= x < |g| && g[x] == i;
    if i > 0 {
      FirstStops(tiers, c, i - 1);
      assert x >= i ==> g[i] <= g[x];
    }
  }

  /** c increasing positions below c are 0, 1, ... */
  lemma {:induction false} Squeezed(ps: seq<nat>, c: nat, i: nat)
    requires |ps| == c && i < c
    requires forall k, l :: 0 <= k < l < c ==> ps[k] < ps[l]
    requires forall k :: 0 <= k < c ==> ps[k] < c
    ensures ps[i] == i
  {
    AtLeastPosition(ps, i);
    AtMostPosition(ps, c, i);
  }

  lemma {:induction false} AtLeastPosition(ps: seq<nat>, i: nat)
    requires i < |ps| && forall k, l :: 0 <= k < l < |ps| ==> ps[k] < ps[l]
    ensures ps[i] >= i
  {
    if i > 0 {
      AtLeastPosition(ps, i - 1);
    }
  }

  lemma {:induction false} AtMostPosition(ps: seq<nat>, c: nat, i: nat)
    requires |ps| == c && i < c
    requires forall k, l :: 0 <= k < l < c ==> ps[k] < ps[l]
    requires forall k :: 0 <= k < c ==> ps[k] < c
    ensures ps[i] <= i
    decreases c - i
  {
    if i < c - 1 {
      AtMostPosition(ps, c, i + 1);
    }
  }

  /** If the stops made are the steps due, those tiers are in order. */
  lemma {:induction false} MadeInOrder(p: Policy, ages: seq<int>, elapsed: int)
    requires NonNegative(p.tiers) && !Repeats(p) && Ascending(ages) && ages != [] && ages[|ages| - 1] == elapsed
    requires TiersReached(p, ages) == DueAt(p, elapsed)
    ensures FirstInOrder(p.tiers, DueAt(p, elapsed))
  {
    var c := DueAt(p, elapsed);
    VisitedDue(p, ages, elapsed);
    StepsDueGrow(p.tiers, |p.tiers|, elapsed, elapsed);
    PeaksAre(p.tiers);
    StartPassed(p.tiers);
    var ps := Visited(p.tiers, c);
    hide Due;
    hide Num;
    hide TiersReached;
    forall i | 0 <= i < c
      ensures ps[i] < c
    {
      StepsDueArePrefix(p.tiers, |p.tiers|, elapsed, ps[i]);
    }
    hide DueAt;
    hide Peaks;
    hide Skipped;
    forall i | 0 <= i < c
      ensures InOrder(p.tiers, i)
    {
      Squeezed(ps, c, i);
      assert ps[i] in Peaks(p.tiers);
    }
  }

  lemma {:induction false} NextInOrderDue(p: Policy, b: nat, elapsed: int)
    requires NonNegative(p.tiers) && DueAt(p, elapsed) == b + 1 && FirstInOrder(p.tiers, b + 1)
    ensures StopDue(p, b, elapsed)
  {
    hide Wrap;
    FirstStops(p.tiers, b + 1, b);
    StepsDueArePrefix(p.tiers, |p.tiers|, elapsed, b);
    PeaksAre(p.tiers);
    hide Peaks;
    hide Skipped;
    hide StepsDue;
    hide Due;
    hide IsPeak;
    NoWrap(b, |Peaks(p.tiers)|);
  }

  lemma {:induction false} PrefixNeverAhead(p: Policy, ages: seq<int>, k: nat)
    requires !Repeats(p) && Ascending(ages) && k < |ages|
    ensures TiersReached(p, ages[..k + 1]) <= DueAt(p, ages[k])
  {
    hide TiersReached;
    hide DueAt;
    EngineNeverAhead(p, ages[..k + 1]);
  }

  lemma {:induction false} KeepsUpOnce(p: Policy, ages: seq<int>, k: nat)
    requires NonNegative(p.tiers) && !Repeats(p) && Ascending(ages) && k < |ages|
    requires TiersReached(p, ages[..k]) == DueBefore(p, ages, k) <= DueAt(p, ages[k]) <= DueBefore(p, ages, k) + 1
    requires FirstInOrder(p.tiers, DueAt(p, ages[k]))
    ensures TiersReached(p, ages[..k + 1]) == DueAt(p, ages[k])
  {
    hide StopDue;
    hide TiersReached;
    hide FirstInOrder;
    hide DueAt;
    hide NonNegative;
    hide Ascending;
    PrefixLaw(p, ages, k);
    PrefixNeverAhead(p, ages, k);
    if DueAt(p, ages[k]) == DueBefore(p, ages, k) + 1 {
      NextInOrderDue(p, DueBefore(p, ages, k), ages[k]);
    }
  }

  lemma {:induction false} OneStepKeepsUp(p: Policy, ages: seq<int>, k: nat)
    requires NonNegative(p.tiers) && !Repeats(p) && Ascending(ages) && k < |ages|
    requires OneStepPerGap(p, ages) && DueInOrder(p, ages)
    ensures TiersReached(p, ages[..k + 1]) == DueAt(p, ages[k])
  {
    hide FirstInOrder;
    hide DueAt;
    hide NonNegative;
    if k > 0 {
      OneStepKeepsUp(p, ages, k - 1);
      DueGrows(p, ages[k - 1], ages[k]);
    }
    KeepsUpOnce(p, ages, k);
  }

  /**
   The engine refines the dry run: after every evaluation it has reached exactly the steps whose
   cumulative time has passed, if and only if no gap between evaluations spans two of them and the
   tiers due so far are above zero and in increasing order.
   */
  lemma {:induction false} EngineMatchesDryRunIff(p: Policy, ages: seq<int>)
    requires NonNegative(p.tiers) && !Repeats(p) && Ascending(ages)
    ensures MatchesDryRun(p, ages) <==> OneStepPerGap(p, ages) && DueInOrder(p, ages)
  {
    hide TiersReached;
    hide DueAt;
    hide StopDue;
    if OneStepPerGap(p, ages) && DueInOrder(p, ages) {
      forall k | 0 <= k < |ages|
        ensures TiersReached(p, ages[..k + 1]) == DueAt(p, ages[k])
      {
        OneStepKeepsUp(p, ages, k);
      }
    }
    if MatchesDryRun(p, ages) {
      InStepIff(p, ages);
      forall k | 0 <= k < |ages|
        ensures FirstInOrder(p.tiers, DueAt(p, ages[k]))
      {
        MadeInOrder(p, ages[..k + 1], ages[k]);
      }
    }
  }

  ghost predicate Plain(p: Policy) {
    AllInOrder(p.tiers) && NonNegative(p.tiers) && !Repeats(p)
  }

  /** Evaluations closer together than any timeout, the first before the second step, meet that condition. */
  lemma {:induction false} FrequentTicksMatch(p: Policy, ages: seq<int>)
    requires Plain(p) && Ascending(ages)
    requires forall i, k :: 0 <= i < |p.tiers| && 0 < k < |ages| ==>
               ages[k] - ages[k - 1] <= p.tiers[i].timeoutMinutes * MINUTE
    requires ages != [] && |p.tiers| >= 2 ==> ages[0] < Cumulative(p.tiers, 2) * MINUTE
    ensures MatchesDryRun(p, ages)
  {
    forall k | 0 <= k < |ages|
      ensures DueAt(p, ages[k]) <= DueBefore(p, ages, k) + 1
    {
      var b, n := DueBefore(p, ages, k), |p.tiers|;
      StepsDueGrow(p.tiers, n, ages[k], ages[k]);
      if b + 1 < n {
        StepsDueArePrefix(p.tiers, n, ages[k], b + 1);
        if k > 0 {
          StepsDueArePrefix(p.tiers, n, ages[k - 1], b);
        }
      }
    }
    forall k | 0 <= k < |ages|
      ensures FirstInOrder(p.tiers, DueAt(p, ages[k]))
    {
      StepsDueGrow(p.tiers, |p.tiers|, ages[k], ages[k]);
    }
    EngineMatchesDryRunIff(p, ages);
  }

  // ----- How far down a policy the engine gets -----

  /** An age at which every tier is due. */
  function Latest(tiers: seq<Tier>, n: nat): int
    requires n <= |tiers|
  {
    if n == 0 then 0
    else
      var e, c := Latest(tiers, n - 1), Cumulative(tiers, n) * MINUTE;
      if c > e then c else e
  }

  lemma {:induction false} AllDueLate(tiers: seq<Tier>, n: nat, i: nat)
    requires i < n <= |tiers|
    ensures Due(tiers, i, Latest(tiers, n))
  {
    hide Cumulative;
    if i < n - 1 {
      AllDueLate(tiers, n - 1, i);
    }
  }

  function Late(p: Policy, a: nat): seq<int> {
    seq(a, i => Latest(p.tiers, |p.tiers|))
  }

  /** That late, each evaluation makes one stop while there is one. */
  lemma {:induction false} LateStops(p: Policy, a: nat)
    requires p.tiers != [] && (Repeats(p) || Skipped(p.tiers) + a <= |Peaks(p.tiers)|)
    ensures TiersReached(p, Late(p, a)) == a
  {
    hide Wrap;
    hide TiersReached;
    hide Latest;
    if a == 0 {
      assert TiersReached(p, []) == 0 by { NothingReached(p); }
    } else {
      LateStops(p, a - 1);
      assert Late(p, a)[..a - 1] == Late(p, a - 1);
      EvaluationLaw(p, Late(p, a));
      PeaksAre(p.tiers);
      hide Peaks;
      hide Skipped;
      AllDueLate(p.tiers, |p.tiers|, Peaks(p.tiers)[Wrap(Skipped(p.tiers) + a - 1, |Peaks(p.tiers)|)]);
    }
  }

  lemma {:induction false} NothingReached(p: Policy)
    ensures TiersReached(p, []) == 0
  {
  }

  /** Without repeat an alert can be taken through exactly so many tiers as there are peaks above zero. */
  lemma {:induction false} ReachableIff(p: Policy, a: nat)
    requires !Repeats(p)
    ensures (exists ages :: Ascending(ages) && TiersReached(p, ages) == a)
            <==> Skipped(p.tiers) + a <= |Peaks(p.tiers)|
  {
    hide TiersReached;
    if Skipped(p.tiers) + a <= |Peaks(p.tiers)| {
      if a == 0 {
        NothingReached(p);
        assert Ascending([]);
      } else {
        LateStops(p, a);
        assert Ascending(Late(p, a));
      }
    }
    if ages :| Ascending(ages) && TiersReached(p, ages) == a {
      EveryAdvanceHasItsEvent(p, ages);
    }
  }

  /**
   Which policies are escalated in full: a policy that does not repeat can take an alert through as
   many tiers as it lists if and only if their numbers are above zero and strictly increasing.
   */
  lemma {:induction false} FullyEscalatedIff(p: Policy)
    requires !Repeats(p)
    ensures (exists ages :: Ascending(ages) && TiersReached(p, ages) == |p.tiers|) <==> AllInOrder(p.tiers)
  {
    hide TiersReached;
    var tiers := p.tiers;
    ReachableIff(p, |tiers|);
    PeaksAre(tiers);
    if AllInOrder(tiers) {
      InOrderPeaks(tiers, |tiers|);
    } else if Skipped(tiers) + |tiers| <= |Peaks(tiers)| {
      StartPassed(tiers);
      hide Peaks;
      hide Skipped;
      hide Num;
      var g := Peaks(tiers);
      AtLeastPosition(g, |g| - 1);
      forall i | 0 <= i < |tiers|
        ensures InOrder(tiers, i)
      {
        Squeezed(g, |tiers|, i);
        assert g[i] in g;
      }
    }
  }

  ghost predicate Recordable(p: Policy, t: int) {
    exists i :: 0 <= i < |p.tiers| && Num(p.tiers, i) == t && IsPeak(p.tiers, i) && (t > 0 || Repeats(p))
  }

  lemma {:induction false} RecordedIsPeak(p: Policy, ages: seq<int>, i: nat)
    requires i < TiersReached(p, ages)
    ensures Recordable(p, Evaluated(p, ages).events[i])
  {
    hide Wrap;
    var g, d := Peaks(p.tiers), Skipped(p.tiers);
    EveryAdvanceHasItsEvent(p, ages);
    PeaksAre(p.tiers);
    StartPassed(p.tiers);
    hide Evaluated;
    hide Peaks;
    hide Skipped;
    hide Num;
    hide IsPeak;
    var x := Wrap(d + i, |g|);
    assert g[x] in g;
    if !Repeats(p) {
      NoWrap(d + i, |g|);
    }
  }

  /** A stop at the peak in place x, in the first round or the second. */
  lemma {:induction false} StopAtPeak(p: Policy, x: nat) returns (a: nat)
    requires x < |Peaks(p.tiers)| && (x >= Skipped(p.tiers) || Repeats(p))
    ensures Repeats(p) || Skipped(p.tiers) + a < |Peaks(p.tiers)|
    ensures Peaks(p.tiers)[x] < |p.tiers| && Stop(p.tiers, Skipped(p.tiers) + a) == Num(p.tiers, Peaks(p.tiers)[x])
  {
    var g, d := Peaks(p.tiers), Skipped(p.tiers);
    PeaksAre(p.tiers);
    SkippedFewer(p.tiers);
    hide Peaks;
    hide Skipped;
    hide Num;
    hide IsPeak;
    hide Wrap;
    a := if x >= d then x - d else |g| - d + x;
    WrapsOnce(x, |g|);
  }

  lemma {:induction false} PeakIsRecorded(p: Policy, t: int) returns (ages: seq<int>)
    requires Recordable(p, t)
    ensures Ascending(ages) && t in Evaluated(p, ages).events
  {
    PeaksAre(p.tiers);
    StartPassed(p.tiers);
    var i :| 0 <= i < |p.tiers| && Num(p.tiers, i) == t && IsPeak(p.tiers, i) && (t > 0 || Repeats(p));
    hide Peaks;
    hide Skipped;
    hide Num;
    hide IsPeak;
    hide Stop;
    assert i in Peaks(p.tiers);
    var x :| 0 <= x < |Peaks(p.tiers)| && Peaks(p.tiers)[x] == i;
    var a := StopAtPeak(p, x);
    ages := Late(p, a + 1);
    LateStops(p, a + 1);
    EveryAdvanceHasItsEvent(p, ages);
    hide Evaluated;
    assert Evaluated(p, ages).events[a] == t;
  }

  /** Tier by tier: the engine can record a number exactly if a peak above zero has it, or any peak if it repeats. */
  lemma {:induction false} TierRecordedIff(p: Policy, t: int)
    ensures (exists ages :: Ascending(ages) && t in Evaluated(p, ages).events) <==> Recordable(p, t)
  {
    if Recordable(p, t) {
      var ages := PeakIsRecorded(p, t);
    }
    if ages :| Ascending(ages) && t in Evaluated(p, ages).events {
      var e := Evaluated(p, ages).events;
      hide Evaluated;
      var i :| 0 <= i < |e| && e[i] == t;
      RecordedIsPeak(p, ages, i);
    }
  }

  // ----- The engine and the listed steps -----

  lemma {:induction false} ListedTimes(tiers: seq<Tier>, steps: seq<Step>, totalTime: int, i: nat)
    requires IsDryRun(tiers, steps, totalTime) && i < |steps|
    ensures steps[i].cumulativeMinutes == Cumulative(tiers, i + 1)
  {
    if i > 0 {
      ListedTimes(tiers, steps, totalTime, i - 1);
    } else {
      assert Cumulative(tiers, 0) == 0;
    }
  }

  /** Whether a step falls due is a matter of its listed time. */
  lemma {:induction false} DueIffListed(tiers: seq<Tier>, steps: seq<Step>, totalTime: int, i: nat, elapsed: int)
    requires IsDryRun(tiers, steps, totalTime) && i < |tiers|
    ensures Due(tiers, i, elapsed) <==> elapsed >= steps[i].cumulativeMinutes * 60_000_000_000
  {
    ListedTimes(tiers, steps, totalTime, i);
  }

  /** Any alert that an evaluation moves is old enough for the tier it moves to. */
  lemma {:induction false} MovesOnlyWhenListed(p: Policy, m: Machine, elapsed: int, fault: Fault, steps: seq<Step>,
                                               totalTime: int)
    requires IsDryRun(p.tiers, steps, totalTime)
    ensures Tick(p, m, elapsed, fault) != m ==>
              exists k :: 0 <= k < |steps| && elapsed >= steps[k].cumulativeMinutes * 60_000_000_000
                          && Tick(p, m, elapsed, fault).tier == Some(Int32(p.tiers[k].tier))
  {
    hide Int32;
    hide NextTier;
    hide Due;
    var r := Advance(p, Current(m.tier), elapsed);
    if r.Some? {
      DueIffListed(p.tiers, steps, totalTime, r.value, elapsed);
    }
  }

  /** The position of the stop after `a` stops. */
  function NextStop(p: Policy, a: nat): nat
    requires p.tiers != []
  {
    PeaksAre(p.tiers);
    Peaks(p.tiers)[Wrap(Skipped(p.tiers) + a, |Peaks(p.tiers)|)]
  }

  /**
   The engine goes by the dry run's list: for any alert and policy, an error-free evaluation moves the
   alert to the next stop if that tier's listed minutes have passed since the alert was created, and
   leaves it alone if they have not.
   */
  lemma {:induction false} EngineGoesByTheList(p: Policy, m: Machine, a: seq<int>, elapsed: int,
                                               steps: seq<Step>, totalTime: int)
    requires OrderKept(p, m, a) && IsDryRun(p.tiers, steps, totalTime)
    requires p.tiers != [] && (Repeats(p) || Skipped(p.tiers) + |a| < |Peaks(p.tiers)|)
    ensures NextStop(p, |a|) < |p.tiers|
    ensures var k := NextStop(p, |a|);
            Tick(p, m, elapsed, NoFault) ==
            if elapsed >= steps[k].cumulativeMinutes * 60_000_000_000
            then Machine(Some(Num(p.tiers, k)), m.events + [Num(p.tiers, k)]) else m
  {
    hide Passed;
    hide Subsequence;
    hide Num;
    PeaksAre(p.tiers);
    var k := NextStop(p, |a|);
    AdvanceIff(p, Current(m.tier), |a|, elapsed);
    hide Wrap;
    DueIffListed(p.tiers, steps, totalTime, k, elapsed);
    hide Due;
    if Advance(p, Current(m.tier), elapsed).Some? {
      AdvanceGoesTo(p, m, a, elapsed);
    }
    hide Peaks;
    hide Skipped;
    NumIs(p.tiers, k);
  }

  lemma {:induction false} NumIs(tiers: seq<Tier>, k: nat)
    requires k < |tiers|
    ensures Num(tiers, k) == Int32(tiers[k].tier)
  {
  }

  lemma {:induction false} AdvanceGoesTo(p: Policy, m: Machine, a: seq<int>, elapsed: int)
    requires OrderKept(p, m, a) && Advance(p, Current(m.tier), elapsed).Some?
    ensures var g, d := Peaks(p.tiers), Skipped(p.tiers);
            g != [] && Advance(p, Current(m.tier), elapsed) == Some(g[Wrap(d + |a|, |g|)])
  {
    hide Passed;
    hide Subsequence;
    hide Num;
    hide Due;
    var g, d := Peaks(p.tiers), Skipped(p.tiers);
    PeaksAre(p.tiers);
    SkippedFewer(p.tiers);
    NextPeak(p, Current(m.tier), InRound(|g|, d, |a|));
    hide NextTier;
    hide Peaks;
    hide Skipped;
    hide Wrap;
    InRoundNext(|g|, d, |a|);
  }

  /** A policy of one tier above zero: the escalation comes exactly from its timeout on. */
  lemma {:induction false} OneTierFromItsTimeout(t: Tier, repeatCount: Option<int>, elapsed: int)
    requires Int32(t.tier) > 0
    ensures Tick(Policy([t], repeatCount), Machine(None, []), elapsed, NoFault)
            == if elapsed >= t.timeoutMinutes * 60_000_000_000 then Machine(Some(Int32(t.tier)), [Int32(t.tier)])
               else Machine(None, [])
  {
    hide Int32;
    var p := Policy([t], repeatCount);
    FirstAboveIs(p.tiers, 0);
    assert Cumulative(p.tiers, 0) == 0 && Cumulative(p.tiers, 1) == t.timeoutMinutes;
  }

  /**
   What repeating means: after the last tier an evaluation goes back to the first, once that is due
   again, if the policy has a positive repeat count, and never otherwise.
   */
  lemma {:induction false} AfterTheLastTier(p: Policy, m: Machine, elapsed: int)
    requires p.tiers != [] && forall i :: 0 <= i < |p.tiers| ==> Int32(p.tiers[i].tier) <= Current(m.tier)
    ensures var first := Int32(p.tiers[0].tier);
            Tick(p, m, elapsed, NoFault)
            == if p.repeatCount.Some? && p.repeatCount.value > 0
                  && elapsed >= p.tiers[0].timeoutMinutes * 60_000_000_000
               then Machine(Some(first), m.events + [first]) else m
  {
    hide Int32;
    FirstAboveIs(p.tiers, Current(m.tier));
    hide FirstAbove;
    assert Cumulative(p.tiers, 0) == 0 && Cumulative(p.tiers, 1) == p.tiers[0].timeoutMinutes;
  }

  // ----- An alert over its turns -----

  /** An alert of a policy after these turns. */
  function Lived(policy: Option<Policy>, m: Machine, turns: seq<Turn>): Machine {
    if turns == [] then m else Turned(policy, Lived(policy, m, turns[..|turns| - 1]), turns[|turns| - 1])
  }

  /** A turn in which the policy cannot be read moves nothing, like one whose update fails. */
  function AsTicks(turns: seq<Turn>): seq<(int, Fault)> {
    seq(|turns|, i requires 0 <= i < |turns| =>
      (turns[i].elapsed, if turns[i].fault == LookupFails then UpdateFails else turns[i].fault))
  }

  /** So all that is said of ticks is said of an alert's turns; without a policy nothing ever happens. */
  lemma {:induction false} TurnsAreTicks(policy: Option<Policy>, m: Machine, turns: seq<Turn>)
    ensures Lived(policy, m, turns) == if policy.Some? then Ticks(policy.value, m, AsTicks(turns)) else m
  {
    hide Advance;
    if turns != [] {
      var n := |turns| - 1;
      TurnsAreTicks(policy, m, turns[..n]);
      assert AsTicks(turns)[..n] == AsTicks(turns[..n]);
    }
  }

  /**
   A turn without an error is as if nothing had failed. An error is reported when the policy there is
   cannot be read, or when a write fails in a turn that would otherwise have moved the alert; only a
   failing event leaves it moved, and without the event.
   */
  lemma {:induction false} ErrorsMean(policy: Option<Policy>, m: Machine, turn: Turn)
    ensures !Fails(policy, m, turn) ==>
              Turned(policy, m, turn)
              == if policy.Some? then Tick(policy.value, m, turn.elapsed, NoFault) else m
    ensures policy == None || turn.fault == NoFault ==> !Fails(policy, m, turn)
    ensures policy.Some? && turn.fault != NoFault ==>
              (Fails(policy, m, turn) <==>
               turn.fault == LookupFails || Tick(policy.value, m, turn.elapsed, NoFault) != m)
    ensures Fails(policy, m, turn) ==>
              Turned(policy, m, turn)
              == if turn.fault == EventFails
                 then Machine(Tick(policy.value, m, turn.elapsed, NoFault).tier, m.events) else m
  {
    hide Advance;
    if policy.Some? && Advance(policy.value, Current(m.tier), turn.elapsed).Some? {
      assert |Tick(policy.value, m, turn.elapsed, NoFault).events| == |m.events| + 1;
    }
  }

  // ----- Instances -----

  /** Tiers out of order: the dry run announces both, the engine never records the lower one. */
  lemma {:induction false} UnorderedTierSkipped(elapsed: int, fault: Fault)
    requires elapsed >= 10 * MINUTE
    ensures var p := Policy([Tier(2, 5), Tier(1, 5)], None);
            && DueAt(p, elapsed) == 2
            && Tick(p, Machine(None, []), elapsed, NoFault) == Machine(Some(2), [2])
            && Tick(p, Machine(Some(2), [2]), elapsed, fault) == Machine(Some(2), [2])
  {
    var p := Policy([Tier(2, 5), Tier(1, 5)], None);
    assert Cumulative(p.tiers, 1) == 5 && Cumulative(p.tiers, 2) == 10;
    assert DueAt(p, elapsed) == StepsDue(p.tiers, 1, elapsed) + 1;
    FirstAboveIs(p.tiers, 0);
    FirstAboveIs(p.tiers, 2);
  }

  /** One late evaluation is enough to fall behind: two tiers due, one reached. */
  lemma {:induction false} LateTickFallsBehind()
    ensures var p := Policy([Tier(1, 5), Tier(2, 10)], None);
            Plain(p) && !MatchesDryRun(p, [20 * MINUTE])
  {
    var p := Policy([Tier(1, 5), Tier(2, 10)], None);
    var ages := [20 * MINUTE];
    assert Cumulative(p.tiers, 1) == 5 && Cumulative(p.tiers, 2) == 15;
    assert DueAt(p, ages[0]) == StepsDue(p.tiers, 1, ages[0]) + 1 == 2;
    assert DueAt(p, ages[0]) > DueBefore(p, ages, 0) + 1;
    EngineMatchesDryRunIff(p, ages);
  }
}
