/** The escalation engine's tier machine for one alert, and the dry run meant to predict it. */
module Escalation {
  import opened Wrappers
  import opened Arithmetic

  const MINUTE := 60_000_000_000

  datatype Tier = Tier(tier: int, timeoutMinutes: int)

  /** An alert row's tier column may be null; elapsed times are nanoseconds. */
  datatype Policy = Policy(tiers: seq<Tier>, repeatCount: Option<int>)

  function Int32(x: int): int {
    (x + 0x8000_0000) % 0x1_0000_0000 - 0x8000_0000
  }

  /** The only 32-bit number that differs from x by a multiple of two to the 32nd. */
  lemma {:induction false} Int32Wraps(x: int, y: int)
    ensures -0x8000_0000 <= Int32(x) < 0x8000_0000
    ensures -0x8000_0000 <= y < 0x8000_0000 && (x - y) % 0x1_0000_0000 == 0 ==> Int32(x) == y
  {
  }

  function Current(tier: Option<int>): int {
    if tier.Some? then tier.value else 0
  }

  /** The position of the first tier above the current one. */
  function FirstAbove(tiers: seq<Tier>, current: int): Option<nat> {
    if tiers == [] then None
    else
      var n := |tiers| - 1;
      var r := FirstAbove(tiers[..n], current);
      if r.Some? then r else if Int32(tiers[n].tier) > current then Some(n) else None
  }

  predicate Repeats(p: Policy) {
    p.repeatCount.Some? && p.repeatCount.value > 0
  }

  /** Where the alert goes next; at or past the last tier a positive repeat count starts over. */
  function NextTier(p: Policy, current: int): Option<nat> {
    if p.tiers == [] then None
    else
      var r := FirstAbove(p.tiers, current);
      if r.None? && Repeats(p) && current >= Int32(p.tiers[|p.tiers| - 1].tier) then Some(0) else r
  }

  /** Minutes from the alert's creation until tier i is due. */
  function Cumulative(tiers: seq<Tier>, i: nat): int
    requires i <= |tiers|
  {
    if i == 0 then 0 else Cumulative(tiers, i - 1) + tiers[i - 1].timeoutMinutes
  }

  predicate Due(tiers: seq<Tier>, i: nat, elapsed: int)
    requires i < |tiers|
  {
    elapsed >= Cumulative(tiers, i + 1) * MINUTE
  }

  /** The tier an evaluation at this age moves the alert to, if any. */
  function Advance(p: Policy, current: int, elapsed: int): Option<nat> {
    var r := NextTier(p, current);
    if r.Some? && r.value < |p.tiers| && Due(p.tiers, r.value, elapsed) then r else None
  }

  lemma {:induction false} FirstAboveIs(tiers: seq<Tier>, current: int)
    ensures var r := FirstAbove(tiers, current);
            if r.Some? then
              && r.value < |tiers| && Int32(tiers[r.value].tier) > current
              && forall j :: 0 <= j < r.value ==> Int32(tiers[j].tier) <= current
            else forall j :: 0 <= j < |tiers| ==> Int32(tiers[j].tier) <= current
  {
    if tiers != [] {
      FirstAboveIs(tiers[..|tiers| - 1], current);
    }
  }

  lemma {:induction false} FirstAboveNext(tiers: seq<Tier>, current: int, i: nat)
    requires i < |tiers| && FirstAbove(tiers[..i], current) == None
    ensures if Int32(tiers[i].tier) > current then FirstAbove(tiers, current) == Some(i)
            else FirstAbove(tiers[..i + 1], current) == None
  {
    hide Int32;
    assert tiers[..i + 1][..i] == tiers[..i];
    FirstAboveIs(tiers[..i], current);
    FirstAboveIs(tiers, current);
    assert forall j :: 0 <= j < i ==> tiers[..i][j] == tiers[j];
  }

  // ----- The engine and the dry run -----

  datatype Fault = NoFault | LookupFails | UpdateFails | EventFails

  /** An alert row, and the escalation events written for it. */
  class Alert {
    var firing: bool
    var policy: Option<Policy>
    var currentTier: Option<int>
    var events: seq<int>

    ghost function Now(): Machine
      reads this
    {
      Machine(currentTier, events)
    }

    /** One evaluation; a store call that fails ends it there. */
    method ProcessAlert(elapsed: int, fault: Fault) returns (ok: bool)
      modifies this`currentTier, this`events
      ensures Now() == Turned(policy, old(Now()), Turn(elapsed, fault))
      ensures !ok <==> Fails(policy, old(Now()), Turn(elapsed, fault))
    {
      hide Int32;
      hide FirstAbove;
      if policy == None {
        return true;
      }
      if fault == LookupFails {
        return false;
      }
      var p := policy.value;
      if |p.tiers| == 0 {
        return true;
      }
      var current := 0;
      if currentTier.Some? {
        current := currentTier.value;
      }
      var nextTierIdx := 0;
      var found := false;
      FirstAboveIs(p.tiers[..0], current);
      for i := 0 to |p.tiers|
        invariant !found && FirstAbove(p.tiers[..i], current) == None
        modifies {}
      {
        FirstAboveNext(p.tiers, current, i);
        if Int32(p.tiers[i].tier) > current {
          nextTierIdx := i;
          found := true;
          break;
        }
      }
      assert p.tiers[..|p.tiers|] == p.tiers;
      if !found {
        if p.repeatCount.Some? && p.repeatCount.value > 0 {
          var maxTier := Int32(p.tiers[|p.tiers| - 1].tier);
          if current >= maxTier {
            nextTierIdx := 0;
            found := true;
          }
        }
        if !found {
          return true;
        }
      }
      assert NextTier(p, current) == Some(nextTierIdx);
      var cumulativeTimeout := 0;
      for i := 0 to nextTierIdx + 1
        invariant cumulativeTimeout == Cumulative(p.tiers, i)
        modifies {}
      {
        cumulativeTimeout := cumulativeTimeout + p.tiers[i].timeoutMinutes;
      }
      assert Due(p.tiers, nextTierIdx, elapsed) <==> elapsed >= cumulativeTimeout * MINUTE;
      if elapsed < cumulativeTimeout * MINUTE {
        return true;
      }
      if fault == UpdateFails {
        return false;
      }
      var newTier := Int32(p.tiers[nextTierIdx].tier);
      currentTier := Some(newTier);
      if fault == EventFails {
        return false;
      }
      events := events + [newTier];
      return true;
    }
  }

  /** An alert's age at an evaluation, and what fails in it. */
  datatype Turn = Turn(elapsed: int, fault: Fault)

  function Turned(policy: Option<Policy>, m: Machine, turn: Turn): Machine {
    if policy == None || turn.fault == LookupFails then m else Tick(policy.value, m, turn.elapsed, turn.fault)
  }

  /** The policy cannot be read, or a write of a due advance fails. */
  predicate Fails(policy: Option<Policy>, m: Machine, turn: Turn) {
    policy.Some? && turn.fault != NoFault
    && (turn.fault == LookupFails || Advance(policy.value, Current(m.tier), turn.elapsed).Some?)
  }

  /** One pass over a tenant's alerts: each pending one gets its turn, whichever others fail. */
  method ProcessTenant(alerts: seq<Alert>, turns: seq<Turn>) returns (failed: set<int>)
    requires |turns| == |alerts| && forall i, j :: 0 <= i < j < |alerts| ==> alerts[i] != alerts[j]
    modifies alerts
    ensures forall i :: 0 <= i < |alerts| ==>
              && alerts[i].firing == old(alerts[i].firing) && alerts[i].policy == old(alerts[i].policy)
              && alerts[i].Now() == if alerts[i].firing then Turned(alerts[i].policy, old(alerts[i].Now()), turns[i])
                                    else old(alerts[i].Now())
    ensures forall i :: i in failed <==>
              && 0 <= i < |alerts| && old(alerts[i].firing)
              && Fails(old(alerts[i].policy), old(alerts[i].Now()), turns[i])
  {
    hide Tick;
    hide Advance;
    failed := {};
    for n := 0 to |alerts|
      invariant forall i :: 0 <= i < |alerts| ==>
                  alerts[i].firing == old(alerts[i].firing) && alerts[i].policy == old(alerts[i].policy)
      invariant forall i :: n <= i < |alerts| ==> alerts[i].Now() == old(alerts[i].Now())
      invariant forall i :: 0 <= i < n ==>
                  alerts[i].Now() == if alerts[i].firing then Turned(alerts[i].policy, old(alerts[i].Now()), turns[i])
                                     else old(alerts[i].Now())
      invariant forall i :: i in failed <==>
                  && 0 <= i < n && old(alerts[i].firing)
                  && Fails(old(alerts[i].policy), old(alerts[i].Now()), turns[i])
    {
      if !alerts[n].firing || alerts[n].policy == None {
        continue;
      }
      var ok := alerts[n].ProcessAlert(turns[n].elapsed, turns[n].fault);
      if !ok {
        failed := failed + {n};
      }
    }
  }

  datatype Step = Step(tier: int, timeoutMinutes: int, cumulativeMinutes: int)

  /** Each step adds its own timeout to the time of the one before; the total is the last one's. */
  ghost predicate IsDryRun(tiers: seq<Tier>, steps: seq<Step>, totalTime: int) {
    && |steps| == |tiers|
    && (forall i :: 0 <= i < |steps| ==>
          steps[i].tier == tiers[i].tier && steps[i].timeoutMinutes == tiers[i].timeoutMinutes)
    && (steps != [] ==> steps[0].cumulativeMinutes == tiers[0].timeoutMinutes)
    && (forall i :: 0 < i < |steps| ==>
          steps[i].cumulativeMinutes == steps[i - 1].cumulativeMinutes + tiers[i].timeoutMinutes)
    && totalTime == if steps == [] then 0 else steps[|steps| - 1].cumulativeMinutes
  }

  method DryRun(tiers: seq<Tier>) returns (steps: seq<Step>, totalTime: int)
    ensures IsDryRun(tiers, steps, totalTime)
    ensures forall i :: 0 <= i < |steps| ==> steps[i].cumulativeMinutes == Cumulative(tiers, i + 1)
  {
    steps := [];
    var cumulative := 0;
    for i := 0 to |tiers|
      invariant |steps| == i && cumulative == Cumulative(tiers, i)
      invariant forall j :: 0 <= j < i ==>
                  steps[j] == Step(tiers[j].tier, tiers[j].timeoutMinutes, Cumulative(tiers, j + 1))
    {
      cumulative := cumulative + tiers[i].timeoutMinutes;
      steps := steps + [Step(tiers[i].tier, tiers[i].timeoutMinutes, cumulative)];
    }
    totalTime := cumulative;
  }

  // ----- One alert over time -----

  datatype Machine = Machine(tier: Option<int>, events: seq<int>)

  function Tick(p: Policy, m: Machine, elapsed: int, fault: Fault): Machine {
    var r := Advance(p, Current(m.tier), elapsed);
    if r.None? || fault == UpdateFails then m
    else
      var t := Int32(p.tiers[r.value].tier);
      Machine(Some(t), if fault == EventFails then m.events else m.events + [t])
  }

  /** The tiers recorded on the alert row, in order: one for each evaluation that updated it. */
  function Advances(p: Policy, m: Machine, ticks: seq<(int, Fault)>): seq<int> {
    if ticks == [] then []
    else
      var n := |ticks| - 1;
      var before := Ticks(p, m, ticks[..n]);
      Advances(p, m, ticks[..n])
      + if Advance(p, Current(before.tier), ticks[n].0).Some? && ticks[n].1 != UpdateFails
        then [Current(Tick(p, before, ticks[n].0, ticks[n].1).tier)] else []
  }

  function Ticks(p: Policy, m: Machine, ticks: seq<(int, Fault)>): Machine {
    if ticks == [] then m
    else
      var n := |ticks| - 1;
      Tick(p, Ticks(p, m, ticks[..n]), ticks[n].0, ticks[n].1)
  }

  // ----- Which tiers the engine can stop at -----

  function Num(tiers: seq<Tier>, i: nat): int
    requires i < |tiers|
  {
    Int32(tiers[i].tier)
  }

  /** A tier above all those listed before it. */
  predicate IsPeak(tiers: seq<Tier>, i: nat)
    requires i < |tiers|
  {
    forall j :: 0 <= j < i ==> Num(tiers, j) < Num(tiers, i)
  }

  /** A tier above zero and above all those listed before it. */
  predicate InOrder(tiers: seq<Tier>, i: nat)
    requires i < |tiers|
  {
    Num(tiers, i) > 0 && IsPeak(tiers, i)
  }

  ghost predicate AllInOrder(tiers: seq<Tier>) {
    forall i :: 0 <= i < |tiers| ==> InOrder(tiers, i)
  }

  /** The positions of the peaks among the first n tiers. */
  function PeaksIn(tiers: seq<Tier>, n: nat): seq<nat>
    requires n <= |tiers|
  {
    if n == 0 then [] else PeaksIn(tiers, n - 1) + if IsPeak(tiers, n - 1) then [n - 1] else []
  }

  function Peaks(tiers: seq<Tier>): seq<nat> {
    PeaksIn(tiers, |tiers|)
  }

  /** How many peaks among the first n tiers are not above zero, where an alert starts. */
  function SkippedIn(tiers: seq<Tier>, n: nat): nat
    requires n <= |tiers|
  {
    if n == 0 then 0
    else SkippedIn(tiers, n - 1) + if IsPeak(tiers, n - 1) && Num(tiers, n - 1) <= 0 then 1 else 0
  }

  function Skipped(tiers: seq<Tier>): nat {
    SkippedIn(tiers, |tiers|)
  }

  ghost predicate ArePeaks(tiers: seq<Tier>, n: nat, g: seq<nat>)
    requires n <= |tiers|
  {
    && (forall x: nat :: x in g <==> x < n && IsPeak(tiers, x))
    && (forall k :: 0 <= k < |g| ==> g[k] < n)
    && (forall k, l :: 0 <= k < l < |g| ==> g[k] < g[l] && Num(tiers, g[k]) < Num(tiers, g[l]))
  }

  lemma {:induction false} OneMorePeak(tiers: seq<Tier>, n: nat, g: seq<nat>)
    requires n < |tiers| && ArePeaks(tiers, n, g) && IsPeak(tiers, n)
    ensures ArePeaks(tiers, n + 1, g + [n])
  {
    hide Num;
    forall k | 0 <= k < |g|
      ensures g[k] < n && Num(tiers, g[k]) < Num(tiers, n)
    {
    }
    hide IsPeak;
  }

  lemma {:induction false} PeaksInAre(tiers: seq<Tier>, n: nat)
    requires n <= |tiers|
    ensures ArePeaks(tiers, n, PeaksIn(tiers, n))
  {
    hide Num;
    hide IsPeak;
    if n > 0 {
      var g := PeaksIn(tiers, n - 1);
      PeaksInAre(tiers, n - 1);
      if IsPeak(tiers, n - 1) {
        OneMorePeak(tiers, n - 1, g);
      } else {
        assert PeaksIn(tiers, n) == g;
      }
    }
  }

  /** They are listed in order of position, and so of tier number; the first tier is one. */
  lemma {:induction false} PeaksAre(tiers: seq<Tier>)
    ensures ArePeaks(tiers, |tiers|, Peaks(tiers))
    ensures tiers != [] ==> Peaks(tiers) != [] && Peaks(tiers)[0] == 0
  {
    hide Num;
    var g := Peaks(tiers);
    PeaksInAre(tiers, |tiers|);
    hide PeaksIn;
    if tiers != [] {
      assert IsPeak(tiers, 0) && 0 in g;
      var k :| 0 <= k < |g| && g[k] == 0;
      assert g[0] <= g[k];
    }
  }

  /** The first r peaks are at or below the current tier, the others above it. */
  ghost predicate Passed(tiers: seq<Tier>, current: int, r: nat) {
    var g := Peaks(tiers);
    PeaksAre(tiers);
    && r <= |g|
    && (forall k :: 0 <= k < r ==> Num(tiers, g[k]) <= current)
    && (forall k :: r <= k < |g| ==> Num(tiers, g[k]) > current)
  }

  lemma {:induction false} SkippedInPassed(tiers: seq<Tier>, n: nat)
    requires n <= |tiers|
    ensures ArePeaks(tiers, n, PeaksIn(tiers, n))
    ensures var g, d := PeaksIn(tiers, n), SkippedIn(tiers, n);
            && d <= |g|
            && (forall k :: 0 <= k < d ==> Num(tiers, g[k]) <= 0)
            && (forall k :: d <= k < |g| ==> Num(tiers, g[k]) > 0)
  {
    hide Num;
    hide IsPeak;
    PeaksInAre(tiers, n);
    if n > 0 {
      SkippedInPassed(tiers, n - 1);
      var g, d := PeaksIn(tiers, n - 1), SkippedIn(tiers, n - 1);
      if IsPeak(tiers, n - 1) && Num(tiers, n - 1) <= 0 {
        var h := PeaksIn(tiers, n);
        assert h == g + [n - 1];
        assert d < |g| ==> Num(tiers, h[d]) < Num(tiers, h[|g|]);
      }
    }
  }

  lemma {:induction false} StartPassed(tiers: seq<Tier>)
    ensures Passed(tiers, 0, Skipped(tiers))
  {
    hide Num;
    SkippedInPassed(tiers, |tiers|);
  }

  /** From wherever it stands the engine goes to the next peak; after the last it starts over or stays. */
  lemma {:induction false} NextPeak(p: Policy, current: int, r: nat)
    requires Passed(p.tiers, current, r)
    ensures var g := Peaks(p.tiers);
            NextTier(p, current) ==
            if r < |g| then Some(g[r]) else if Repeats(p) && p.tiers != [] then Some(0) else None
  {
    var tiers, g := p.tiers, Peaks(p.tiers);
    PeaksAre(tiers);
    FirstAboveIs(tiers, current);
    assert forall j: nat :: j < |tiers| ==> Num(tiers, j) == Int32(tiers[j].tier);
    hide Int32;
    hide Num;
    hide Peaks;
    var k := FirstAbove(tiers, current);
    hide FirstAbove;
    if k.Some? {
      assert IsPeak(tiers, k.value);
      assert k.value in g;
      var x :| 0 <= x < |g| && g[x] == k.value;
      assert x >= r;
      assert g[r] <= g[x];
    }
  }

  // ----- Order under failures -----

  /** xs is what remains of ys after dropping some elements. */
  ghost predicate Subsequence(xs: seq<int>, ys: seq<int>) {
    if xs == [] then true
    else if ys == [] then false
    else if xs[|xs| - 1] == ys[|ys| - 1] && Subsequence(xs[..|xs| - 1], ys[..|ys| - 1]) then true
    else Subsequence(xs, ys[..|ys| - 1])
  }

  /** Counting round and round n places. */
  function Wrap(i: nat, n: nat): (r: nat)
    requires n >= 1
    ensures r < n
  {
    i % n
  }

  /** The tier of the i-th stop on the way round the peaks. */
  function Stop(tiers: seq<Tier>, i: nat): int {
    var g := Peaks(tiers);
    PeaksAre(tiers);
    if g == [] then 0 else Num(tiers, g[Wrap(i, |g|)])
  }

  /** How many peaks have been passed in the present round after `a` advances, the first of them to stop d. */
  function InRound(n: nat, d: nat, a: nat): nat {
    if a == 0 || n == 0 then d else Wrap(d + a - 1, n) + 1
  }

  lemma {:induction false} InRoundNext(n: nat, d: nat, a: nat)
    requires n >= 1 && d <= n
    ensures var r := InRound(n, d, a);
            && r <= n
            && (if r < n then Wrap(d + a, n) == r else Wrap(d + a, n) == 0)
            && InRound(n, d, a + 1) == Wrap(d + a, n) + 1
            && (r == n && d + a <= n ==> d + a == n)
  {
    DivModUnique(n, n, 1, 0);
    if a > 0 {
      NextTurnOf(d + a - 1, n);
      if d + a - 1 < n {
        DivModUnique(d + a - 1, n, 0, d + a - 1);
      }
    } else if d < n {
      DivModUnique(d, n, 0, d);
    }
  }

  /**
   The advances are the stops from the first tier above zero on, round and round only if the policy
   repeats; the events are some of them, and the alert row shows the last.
   */
  ghost predicate OrderKept(p: Policy, m: Machine, advances: seq<int>) {
    var n, d := |Peaks(p.tiers)|, Skipped(p.tiers);
    && (forall i :: 0 <= i < |advances| ==> advances[i] == Stop(p.tiers, d + i))
    && (p.tiers == [] ==> advances == [])
    && m.tier == (if advances == [] then None else Some(advances[|advances| - 1]))
    && Subsequence(m.events, advances)
    && Passed(p.tiers, Current(m.tier), InRound(n, d, |advances|))
    && (!Repeats(p) ==> d + |advances| <= n)
  }

  lemma {:induction false} SubsequenceGrows(xs: seq<int>, ys: seq<int>, y: int)
    requires Subsequence(xs, ys)
    ensures Subsequence(xs, ys + [y]) && Subsequence(xs + [y], ys + [y])
  {
    assert (ys + [y])[..|ys|] == ys && (xs + [y])[..|xs|] == xs;
  }

  lemma {:induction false} AfterPeak(tiers: seq<Tier>, k: nat)
    requires k < |Peaks(tiers)|
    ensures Peaks(tiers)[k] < |tiers| && Passed(tiers, Num(tiers, Peaks(tiers)[k]), k + 1)
  {
    PeaksAre(tiers);
    hide Num;
    hide Peaks;
  }

  /** Where an evaluation that finds something due takes an alert, after `a` advances. */
  lemma {:induction false} AdvanceGoesOn(p: Policy, current: int, a: nat, elapsed: int)
    requires var n, d := |Peaks(p.tiers)|, Skipped(p.tiers);
             Passed(p.tiers, current, InRound(n, d, a)) && (!Repeats(p) ==> d + a <= n)
    requires Advance(p, current, elapsed).Some?
    ensures var n, d, r := |Peaks(p.tiers)|, Skipped(p.tiers), Advance(p, current, elapsed).value;
            && n > 0 && r < |p.tiers| && Num(p.tiers, r) == Stop(p.tiers, d + a)
            && Passed(p.tiers, Num(p.tiers, r), InRound(n, d, a + 1))
            && (!Repeats(p) ==> d + a < n)
  {
    hide Wrap;
    hide Num;
    hide Due;
    hide Passed;
    var g, d := Peaks(p.tiers), Skipped(p.tiers);
    NextPeak(p, current, InRound(|g|, d, a));
    hide NextTier;
    PeaksAre(p.tiers);
    SkippedFewer(p.tiers);
    hide Peaks;
    hide Skipped;
    InRoundNext(|g|, d, a);
    if !Repeats(p) {
      InFirstRound(|g|, d, a);
    }
    AfterPeak(p.tiers, Wrap(d + a, |g|));
  }

  /** The next stop is there and due. */
  predicate StopDue(p: Policy, a: nat, elapsed: int) {
    var g, d := Peaks(p.tiers), Skipped(p.tiers);
    PeaksAre(p.tiers);
    p.tiers != [] && (Repeats(p) || d + a < |g|) && Due(p.tiers, g[Wrap(d + a, |g|)], elapsed)
  }

  /** An evaluation after `a` advances finds something due exactly when the next stop is. */
  lemma {:induction false} AdvanceIff(p: Policy, current: int, a: nat, elapsed: int)
    requires var n, d := |Peaks(p.tiers)|, Skipped(p.tiers);
             Passed(p.tiers, current, InRound(n, d, a)) && (!Repeats(p) ==> d + a <= n)
    ensures Advance(p, current, elapsed).Some? <==> StopDue(p, a, elapsed)
  {
    hide Wrap;
    hide Num;
    hide Due;
    hide Passed;
    var g, d := Peaks(p.tiers), Skipped(p.tiers);
    NextPeak(p, current, InRound(|g|, d, a));
    hide NextTier;
    PeaksAre(p.tiers);
    SkippedFewer(p.tiers);
    hide Peaks;
    hide Skipped;
    if p.tiers != [] {
      InRoundNext(|g|, d, a);
      if !Repeats(p) {
        InFirstRound(|g|, d, a);
      }
    }
  }

  lemma {:induction false} InFirstRound(n: nat, d: nat, a: nat)
    requires n >= 1 && d + a <= n
    ensures InRound(n, d, a) == d + a
  {
    if a > 0 {
      DivModUnique(d + a - 1, n, 0, d + a - 1);
    }
  }

  lemma {:induction false} SkippedFewer(tiers: seq<Tier>)
    ensures Skipped(tiers) <= |Peaks(tiers)|
  {
    StartPassed(tiers);
  }

  lemma {:induction false} TickKeepsOrder(p: Policy, m: Machine, a: seq<int>, elapsed: int, fault: Fault)
    requires OrderKept(p, m, a)
    ensures var m' := Tick(p, m, elapsed, fault);
            if Advance(p, Current(m.tier), elapsed).Some? && fault != UpdateFails
            then OrderKept(p, m', a + [Current(m'.tier)])
            else m' == m
  {
    hide Wrap;
    hide Peaks;
    hide Passed;
    hide Stop;
    hide Skipped;
    hide InRound;
    hide Subsequence;
    var r := Advance(p, Current(m.tier), elapsed);
    if r.Some? && fault != UpdateFails {
      AdvanceGoesOn(p, Current(m.tier), |a|, elapsed);
      assert Num(p.tiers, r.value) == Int32(p.tiers[r.value].tier);
      SubsequenceGrows(m.events, a, Num(p.tiers, r.value));
      hide Advance;
      hide Num;
      hide Int32;
    }
  }

  /**
   Escalation order: for every policy and whatever store calls fail, the recorded tiers go round the
   policy's peaks in order, and the event log is what is left of them after losing some.
   */
  lemma {:induction false} EscalationOrder(p: Policy, ticks: seq<(int, Fault)>)
    ensures OrderKept(p, Ticks(p, Machine(None, []), ticks), Advances(p, Machine(None, []), ticks))
  {
    hide Tick;
    hide OrderKept;
    hide Advance;
    if ticks == [] {
      NothingRecorded(p);
    } else {
      var n := |ticks| - 1;
      EscalationOrder(p, ticks[..n]);
      var m0 := Machine(None, []);
      var a := Advances(p, m0, ticks[..n]);
      TickKeepsOrder(p, Ticks(p, m0, ticks[..n]), a, ticks[n].0, ticks[n].1);
      assert a + [] == a;
    }
  }

  /** With tiers in order the peaks are all tiers. */
  lemma {:induction false} InOrderPeaks(tiers: seq<Tier>, n: nat)
    requires n <= |tiers| && forall i :: 0 <= i < n ==> InOrder(tiers, i)
    ensures PeaksIn(tiers, n) == seq(n, i requires 0 <= i < n => i) && SkippedIn(tiers, n) == 0
  {
    hide Num;
    hide IsPeak;
    if n > 0 {
      InOrderPeaks(tiers, n - 1);
      assert InOrder(tiers, n - 1);
    }
  }

  /** Within one round no tier is recorded twice. */
  lemma {:induction false} NoTierTwiceInARound(p: Policy, ticks: seq<(int, Fault)>, i: nat, j: nat)
    requires i < j < |Advances(p, Machine(None, []), ticks)| && j - i < |Peaks(p.tiers)|
    ensures Advances(p, Machine(None, []), ticks)[i] != Advances(p, Machine(None, []), ticks)[j]
  {
    hide Advances;
    hide Ticks;
    EscalationOrder(p, ticks);
    PeaksAre(p.tiers);
    hide Peaks;
    hide Num;
    var n, d := |Peaks(p.tiers)|, Skipped(p.tiers);
    var x, y := Wrap(d + i, n), Wrap(d + j, n);
    if x == y {
      SameTurn(d + i, d + j, n);
    }
    assert x < y || y < x;
  }

  lemma {:induction false} NothingRecorded(p: Policy)
    ensures OrderKept(p, Machine(None, []), [])
  {
    StartPassed(p.tiers);
  }

  /** Without repeat every advance uses up a peak. */
  lemma {:induction false} EveryAdvanceUsesATier(p: Policy, m: Machine, r: nat, elapsed: int, fault: Fault)
    requires !Repeats(p) && Passed(p.tiers, Current(m.tier), r)
    requires Tick(p, m, elapsed, fault).tier != m.tier
    ensures r < |Peaks(p.tiers)| && Passed(p.tiers, Current(Tick(p, m, elapsed, fault).tier), r + 1)
  {
    NextPeak(p, Current(m.tier), r);
    hide NextTier;
    hide Passed;
    hide Peaks;
    hide Due;
    if r < |Peaks(p.tiers)| {
      AfterPeak(p.tiers, r);
    }
  }
}
