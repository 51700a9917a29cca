/**
 The weekly on-call schedule of one roster as a value, and what one run of the generator
 makes of it. Days are day numbers; a stored week is keyed by the day it starts on.
 */
module RosterModel {
  import opened Wrappers

  datatype UserId = UserId(uuid: nat)

  /** One row of the schedule table. */
  datatype Entry = Entry(weekEnd: int, primary: Option<UserId>, secondary: Option<UserId>,
                         locked: bool, generated: bool, notes: Option<string>)

  type Schedule = map<int, Entry>

  const WEEK := 7

  /** What the generator reads besides the schedule: active members in joining order, and the cap. */
  datatype Config = Config(members: seq<UserId>, maxConsecutive: int)

  ghost predicate Distinct<T>(xs: seq<T>) {
    forall i, j :: 0 <= i < j < |xs| ==> xs[i] != xs[j]
  }

  function Min(a: int, b: int): int { if a <= b then a else b }

  function Max(a: int, b: int): int { if a <= b then b else a }

  // ----- Reading the schedule -----

  function PrimaryAt(s: Schedule, ws: int): Option<UserId> {
    if ws in s then s[ws].primary else None
  }

  predicate LockedAt(s: Schedule, ws: int) {
    ws in s && s[ws].locked
  }

  function PrimaryWeeksBefore(s: Schedule, u: UserId, before: int): nat {
    |set ws | ws in s && ws < before && s[ws].primary == Some(u)|
  }

  function SecondaryWeeksBefore(s: Schedule, u: UserId, before: int): nat {
    |set ws | ws in s && ws < before && s[ws].secondary == Some(u)|
  }

  /** The upsert keeps the week end of a row that already exists. */
  function Upserted(s: Schedule, ws: int, e: Entry): Schedule {
    s[ws := e.(weekEnd := if ws in s then s[ws].weekEnd else e.weekEnd)]
  }

  // ----- Choosing people -----

  /** A missing key reads as zero. */
  function At(m: map<UserId, int>, u: UserId): int {
    if u in m then m[u] else 0
  }

  function Without(us: seq<UserId>, u: UserId): seq<UserId> {
    if us == [] then []
    else
      var rest := Without(us[..|us| - 1], u);
      if us[|us| - 1] == u then rest else rest + [us[|us| - 1]]
  }

  /** The earliest candidate with the lowest score. */
  function FirstLeast(cands: seq<UserId>, score: map<UserId, int>): Option<UserId> {
    if cands == [] then None
    else
      var best := FirstLeast(cands[..|cands| - 1], score);
      var u := cands[|cands| - 1];
      if best.None? || At(score, u) < At(score, best.value) then Some(u) else best
  }

  predicate AtCap(max: int, run: int) {
    max > 0 && run >= max
  }

  function Eligible(c: Config, last: Option<UserId>, run: int): seq<UserId> {
    if last.Some? && AtCap(c.maxConsecutive, run) then Without(c.members, last.value) else c.members
  }

  function PrimaryPick(c: Config, primaryCount: map<UserId, int>, last: Option<UserId>, run: int): Option<UserId> {
    var e := Eligible(c, last, run);
    FirstLeast(if e == [] then c.members else e, primaryCount)
  }

  function Load(members: seq<UserId>, primaryCount: map<UserId, int>, secondaryCount: map<UserId, int>)
    : map<UserId, int>
  {
    map u | u in members :: At(primaryCount, u) + At(secondaryCount, u)
  }

  function SecondaryPick(members: seq<UserId>, primaryCount: map<UserId, int>, secondaryCount: map<UserId, int>,
                         primary: UserId): Option<UserId> {
    FirstLeast(Without(members, primary), Load(members, primaryCount, secondaryCount))
  }

  // ----- One run of the generator -----

  /** What the week loop carries from one week to the next. */
  datatype Tracker = Tracker(primaryCount: map<UserId, int>, secondaryCount: map<UserId, int>,
                             last: Option<UserId>, run: nat)

  function Bump(m: map<UserId, int>, u: UserId): map<UserId, int> {
    m[u := At(m, u) + 1]
  }

  function Noted(t: Tracker, p: UserId): Tracker {
    if t.last == Some(p) then t.(run := t.run + 1) else t.(last := Some(p), run := 1)
  }

  function Duties(c: Config, t: Tracker): (Option<UserId>, Option<UserId>) {
    var p := PrimaryPick(c, t.primaryCount, t.last, t.run);
    var q := if |c.members| > 1 && p.Some? then SecondaryPick(c.members, t.primaryCount, t.secondaryCount, p.value)
             else None;
    (p, q)
  }

  function AfterDuties(t: Tracker, p: Option<UserId>, q: Option<UserId>): Tracker {
    var t1 := if p.Some? then Noted(t.(primaryCount := Bump(t.primaryCount, p.value)), p.value) else t;
    if q.Some? then t1.(secondaryCount := Bump(t1.secondaryCount, q.value)) else t1
  }

  /** A locked week moves the consecutive tracker only; any other week is assigned and counted. */
  function WeekStep(c: Config, s: Schedule, t: Tracker, ws: int): Tracker {
    if LockedAt(s, ws) then
      if s[ws].primary.Some? then Noted(t, s[ws].primary.value) else t
    else
      var (p, q) := Duties(c, t);
      AfterDuties(t, p, q)
  }

  /** How many of the weeks i, i+1, ... up to max weeks back have u as primary without a break. */
  function RunFrom(s: Schedule, u: UserId, start: int, i: int, max: int): nat
    decreases max - i
  {
    if i <= max && PrimaryAt(s, start - WEEK * i) == Some(u) then 1 + RunFrom(s, u, start, i + 1, max) else 0
  }

  function PrimaryCounts(c: Config, s: Schedule, start: int): map<UserId, int> {
    map u | u in c.members :: PrimaryWeeksBefore(s, u, start)
  }

  function SecondaryCounts(c: Config, s: Schedule, start: int): map<UserId, int> {
    map u | u in c.members :: SecondaryWeeksBefore(s, u, start)
  }

  /** Counts of the weeks before the window, and the consecutive tracker seeded by looking back. */
  function Seed(c: Config, s: Schedule, start: int): Tracker {
    var last := PrimaryAt(s, start - WEEK);
    Tracker(PrimaryCounts(c, s, start), SecondaryCounts(c, s, start), last,
            if last.Some? then 1 + RunFrom(s, last.value, start, 2, c.maxConsecutive) else 0)
  }

  function Track(c: Config, s: Schedule, start: int, t0: Tracker, i: nat): Tracker {
    if i == 0 then t0 else WeekStep(c, s, Track(c, s, start, t0, i - 1), start + WEEK * (i - 1))
  }

  function TrackerAt(c: Config, s: Schedule, start: int, i: nat): Tracker {
    Track(c, s, start, Seed(c, s, start), i)
  }

  /** The row that week i of the window holds after the run. */
  function PlannedRow(c: Config, s: Schedule, start: int, i: nat): Entry {
    var ws := start + WEEK * i;
    if LockedAt(s, ws) then s[ws]
    else
      var (p, q) := Duties(c, TrackerAt(c, s, start, i));
      Entry(if ws in s then s[ws].weekEnd else ws + WEEK, p, q, false, true, None)
  }

  /** Rows written to consecutive weeks. */
  function Written(s: Schedule, start: int, rows: seq<Entry>): Schedule {
    if rows == [] then s
    else Written(s, start, rows[..|rows| - 1])[start + WEEK * (|rows| - 1) := rows[|rows| - 1]]
  }

  function Plan(c: Config, s: Schedule, start: int, n: nat): seq<Entry> {
    seq(n, i requires 0 <= i => PlannedRow(c, s, start, i))
  }

  /** The whole table after generating n weeks from start. */
  function Regenerated(c: Config, s: Schedule, start: int, n: nat): Schedule {
    Written(s, start, Plan(c, s, start, n))
  }

  /** With no active member the generator returns before touching the table. */
  function Generated(c: Config, s: Schedule, start: int, weeks: int): Schedule {
    if c.members == [] then s else Regenerated(c, s, start, Max(weeks, 0))
  }

  // ----- Handoff days -----

  /** 0 is Sunday; day 0 is 1970-01-01, a Thursday. */
  function Weekday(d: int): int { (d + 4) % 7 }

  function AlignToHandoffDay(d: int, handoffDay: int): int {
    var diff := Weekday(d) - handoffDay;
    d - (if diff < 0 then diff + 7 else diff)
  }

  /** The handoff day is not validated: alignment goes back to the latest such day exactly for 0 to 7. */
  lemma {:induction false} AlignIsLatestHandoffIff(handoffDay: int)
    ensures (forall d :: 0 <= d - AlignToHandoffDay(d, handoffDay) < WEEK) <==> 0 <= handoffDay <= 7
  {
    if 0 <= handoffDay <= 7 {
    } else {
      var sunday, saturday := 3, 9;
      assert Weekday(sunday) == 0 && Weekday(saturday) == 6;
      assert !(0 <= sunday - AlignToHandoffDay(sunday, handoffDay) < WEEK)
        || !(0 <= saturday - AlignToHandoffDay(saturday, handoffDay) < WEEK);
    }
  }

  lemma {:induction false} AlignMonotone(d: int, e: int, handoffDay: int)
    requires d <= e
    ensures AlignToHandoffDay(d, handoffDay) <= AlignToHandoffDay(e, handoffDay)
    ensures (AlignToHandoffDay(e, handoffDay) - AlignToHandoffDay(d, handoffDay)) % WEEK == 0
    ensures (Weekday(AlignToHandoffDay(d, handoffDay)) - handoffDay) % WEEK == 0
  {
    assert e - Weekday(e) >= d - Weekday(d);
    assert (e - Weekday(e) + 4) % 7 == 0 && (d - Weekday(d) + 4) % 7 == 0;
  }

  // ----- Facts about the choices -----

  lemma {:induction false} WithoutMembers(us: seq<UserId>, u: UserId)
    ensures forall v :: v in Without(us, u) <==> v in us && v != u
    ensures |Without(us, u)| <= |us|
  {
    if us != [] {
      WithoutMembers(us[..|us| - 1], u);
      assert us == us[..|us| - 1] + [us[|us| - 1]];
    }
  }

  lemma {:induction false} FirstLeastPlace(cands: seq<UserId>, score: map<UserId, int>) returns (k: nat)
    requires cands != []
    ensures k < |cands| && FirstLeast(cands, score) == Some(cands[k])
    ensures forall j :: 0 <= j < k ==> At(score, cands[j]) > At(score, cands[k])
    ensures forall j :: k <= j < |cands| ==> At(score, cands[k]) <= At(score, cands[j])
  {
    hide At;
    var n := |cands| - 1;
    if n == 0 {
      k := 0;
    } else {
      k := FirstLeastPlace(cands[..n], score);
      if At(score, cands[n]) < At(score, cands[k]) {
        assert forall j :: 0 <= j < n ==> cands[..n][j] == cands[j];
        k := n;
      }
    }
  }

  /** The chosen candidate has the lowest score, and everyone listed before has a higher one. */
  lemma {:induction false} FirstLeastIsLeast(cands: seq<UserId>, score: map<UserId, int>)
    requires cands != []
    ensures FirstLeast(cands, score).Some?
    ensures var b := FirstLeast(cands, score).value;
            && b in cands
            && (forall v :: v in cands ==> At(score, b) <= At(score, v))
            && (exists k :: 0 <= k < |cands| && cands[k] == b
                            && forall j :: 0 <= j < k ==> At(score, cands[j]) > At(score, b))
  {
    hide At;
    var k := FirstLeastPlace(cands, score);
    hide FirstLeast;
    forall v | v in cands
      ensures At(score, cands[k]) <= At(score, v)
    {
      var j :| 0 <= j < |cands| && cands[j] == v;
    }
  }

  /** The converse: a position that beats everyone before and ties or beats everyone after is chosen. */
  lemma {:induction false} FirstLeastAt(cands: seq<UserId>, score: map<UserId, int>, k: nat)
    requires k < |cands|
    requires forall j :: 0 <= j < k ==> At(score, cands[j]) > At(score, cands[k])
    requires forall j :: k <= j < |cands| ==> At(score, cands[k]) <= At(score, cands[j])
    ensures FirstLeast(cands, score) == Some(cands[k])
  {
    FirstLeastIsLeast(cands, score);
    var b := FirstLeast(cands, score).value;
    var m :| 0 <= m < |cands| && cands[m] == b && forall j :: 0 <= j < m ==> At(score, cands[j]) > At(score, b);
    assert cands[k] in cands;
  }

  lemma {:induction false} OthersRemain(us: seq<UserId>, u: UserId)
    requires Distinct(us) && |us| >= 2
    ensures Without(us, u) != []
  {
    WithoutMembers(us, u);
    assert us[0] != us[1];
    var v := if us[0] == u then us[1] else us[0];
    assert v in us && v != u;
  }

  /** No member has served less, but for the last primary when a positive cap is reached. */
  ghost predicate LeastBelowCap(c: Config, t: Tracker, p: UserId) {
    forall v :: v in c.members && !(c.maxConsecutive > 0 && t.run >= c.maxConsecutive && Some(v) == t.last) ==>
      At(t.primaryCount, p) <= At(t.primaryCount, v)
  }

  ghost predicate LeastLoadOfOthers(c: Config, t: Tracker, p: UserId, q: UserId) {
    forall v :: v in c.members && v != p ==>
      At(t.primaryCount, q) + At(t.secondaryCount, q) <= At(t.primaryCount, v) + At(t.secondaryCount, v)
  }

  /**
   What a generated week assigns when there are members: the least-served member among those
   below the cap (everyone, if nobody is below it), the earliest on ties; and, with a second
   member, the other member with the lightest total load.
   */
  lemma {:induction false} DutiesAreLeastServed(c: Config, t: Tracker)
    requires Distinct(c.members) && c.members != []
    ensures var p := Duties(c, t).0;
            && p.Some? && p.value in c.members
            && (|c.members| >= 2 && c.maxConsecutive > 0 && t.run >= c.maxConsecutive ==> p != t.last)
            && LeastBelowCap(c, t, p.value)
    ensures var (p, q) := Duties(c, t);
            && (q.Some? <==> |c.members| >= 2)
            && p != q
            && (p.Some? && q.Some? ==> q.value in c.members && LeastLoadOfOthers(c, t, p.value, q.value))
  {
    var e := Eligible(c, t.last, t.run);
    if t.last.Some? {
      WithoutMembers(c.members, t.last.value);
    }
    if |c.members| >= 2 && t.last.Some? {
      OthersRemain(c.members, t.last.value);
    }
    FirstLeastIsLeast(if e == [] then c.members else e, t.primaryCount);
    var p := PrimaryPick(c, t.primaryCount, t.last, t.run);
    if |c.members| == 1 {
      assert forall v :: v in c.members ==> v == c.members[0];
    } else {
      OthersRemain(c.members, p.value);
      WithoutMembers(c.members, p.value);
      FirstLeastIsLeast(Without(c.members, p.value), Load(c.members, t.primaryCount, t.secondaryCount));
    }
  }

  // ----- What one run leaves in the table -----

  predicate InWindow(start: int, n: nat, ws: int) {
    start <= ws < start + WEEK * n && (ws - start) % WEEK == 0
  }

  lemma {:induction false} WrittenAt(s: Schedule, start: int, rows: seq<Entry>, i: nat)
    requires i < |rows|
    ensures start + WEEK * i in Written(s, start, rows)
    ensures Written(s, start, rows)[start + WEEK * i] == rows[i]
  {
    if i < |rows| - 1 {
      WrittenAt(s, start, rows[..|rows| - 1], i);
    }
  }

  lemma {:induction false} WrittenElsewhere(s: Schedule, start: int, rows: seq<Entry>, ws: int)
    requires !InWindow(start, |rows|, ws)
    ensures ws in Written(s, start, rows) <==> ws in s
    ensures ws in s ==> Written(s, start, rows)[ws] == s[ws]
  {
    if rows != [] {
      assert InWindow(start, |rows|, start + WEEK * (|rows| - 1));
      WrittenElsewhere(s, start, rows[..|rows| - 1], ws);
    }
  }

  lemma {:induction false} WindowIndex(start: int, n: nat, ws: int) returns (i: nat)
    requires InWindow(start, n, ws)
    ensures i < n && ws == start + WEEK * i
  {
    i := (ws - start) / WEEK;
  }

  /** Week i of the window holds its planned row. */
  lemma {:induction false} PlannedRowStored(c: Config, s: Schedule, start: int, n: nat, i: nat)
    requires i < n
    ensures start + WEEK * i in Regenerated(c, s, start, n)
    ensures Regenerated(c, s, start, n)[start + WEEK * i] == PlannedRow(c, s, start, i)
  {
    hide PlannedRow;
    WrittenAt(s, start, Plan(c, s, start, n), i);
  }

  /** Nothing outside the window is created, removed or changed. */
  lemma {:induction false} OutsideWindowUntouched(c: Config, s: Schedule, start: int, n: nat, ws: int)
    requires !InWindow(start, n, ws)
    ensures ws in Regenerated(c, s, start, n) <==> ws in s
    ensures ws in s ==> Regenerated(c, s, start, n)[ws] == s[ws]
  {
    hide PlannedRow;
    WrittenElsewhere(s, start, Plan(c, s, start, n), ws);
  }

  /** Every week of the window ends up stored, and no row disappears. */
  lemma {:induction false} RegeneratedKeys(c: Config, s: Schedule, start: int, n: nat, ws: int)
    ensures ws in Regenerated(c, s, start, n) <==> ws in s || InWindow(start, n, ws)
  {
    hide PlannedRow;
    if InWindow(start, n, ws) {
      var i := WindowIndex(start, n, ws);
      PlannedRowStored(c, s, start, n, i);
    } else {
      OutsideWindowUntouched(c, s, start, n, ws);
    }
  }

  /** Locked weeks survive a run as they are, and no run changes which weeks are locked. */
  lemma {:induction false} LockedWeeksSurvive(c: Config, s: Schedule, start: int, n: nat, ws: int)
    ensures LockedAt(Regenerated(c, s, start, n), ws) == LockedAt(s, ws)
    ensures LockedAt(s, ws) ==> Regenerated(c, s, start, n)[ws] == s[ws]
  {
    hide Duties;
    if InWindow(start, n, ws) {
      var i := WindowIndex(start, n, ws);
      PlannedRowStored(c, s, start, n, i);
    } else {
      OutsideWindowUntouched(c, s, start, n, ws);
    }
  }

  predicate CountsMembers(c: Config, t: Tracker) {
    && t.primaryCount.Keys == (set u | u in c.members)
    && t.secondaryCount.Keys == (set u | u in c.members)
  }

  lemma {:induction false} TrackCountKeys(c: Config, s: Schedule, start: int, t0: Tracker, i: nat)
    requires Distinct(c.members) && c.members != []
    requires CountsMembers(c, t0)
    ensures CountsMembers(c, Track(c, s, start, t0, i))
  {
    hide WeekStep;
    if i > 0 {
      TrackCountKeys(c, s, start, t0, i - 1);
      WeekStepCountKeys(c, s, Track(c, s, start, t0, i - 1), start + WEEK * (i - 1));
    }
  }

  lemma {:induction false} WeekStepCountKeys(c: Config, s: Schedule, t: Tracker, ws: int)
    requires Distinct(c.members) && c.members != []
    requires CountsMembers(c, t)
    ensures CountsMembers(c, WeekStep(c, s, t, ws))
  {
    hide Duties;
    DutiesAreLeastServed(c, t);
    var (p, q) := Duties(c, t);
    assert Bump(t.primaryCount, p.value).Keys == t.primaryCount.Keys;
    if q.Some? {
      assert Bump(t.secondaryCount, q.value).Keys == t.secondaryCount.Keys;
    }
  }
}
