/** The life of one roster: every operation on its members and schedule, and what all runs keep. */
module RosterRuns {
  import opened Wrappers
  import opened RosterModel

  datatype Member = Member(user: UserId, active: bool)

  datatype Settings = Settings(handoffDay: int, maxConsecutive: int, weeksAhead: int)

  /** A cap or a horizon that is not positive is replaced by its default. */
  function Stored(handoffDay: int, maxConsecutive: int, weeksAhead: int): Settings {
    Settings(handoffDay, if maxConsecutive <= 0 then 2 else maxConsecutive, if weeksAhead <= 0 then 12 else weeksAhead)
  }

  /** Settings, members in joining order, and the schedule table. */
  datatype RosterState = RosterState(settings: Settings, members: seq<Member>, schedule: Schedule)

  datatype Op =
    | Generate(from: int, weeks: int)
    | EditWeek(ws: int, primary: Option<UserId>, secondary: Option<UserId>, notes: Option<string>)
    | UnlockWeek(ws: int)
    | AddMember(user: UserId, today: int)
    | SetActive(user: UserId, active: bool, today: int)
    | UpdateRoster(handoffDay: int, maxConsecutive: int, weeksAhead: int)

  function ActiveMembers(ms: seq<Member>): seq<UserId> {
    if ms == [] then []
    else ActiveMembers(ms[..|ms| - 1]) + (if ms[|ms| - 1].active then [ms[|ms| - 1].user] else [])
  }

  function ConfigOf(cfg: Settings, ms: seq<Member>): Config {
    Config(ActiveMembers(ms), cfg.maxConsecutive)
  }

  function WithActive(ms: seq<Member>, u: UserId, active: bool): seq<Member> {
    if ms == [] then []
    else
      var m := ms[|ms| - 1];
      WithActive(ms[..|ms| - 1], u, active) + [if m.user == u then m.(active := active) else m]
  }

  predicate IsMember(ms: seq<Member>, u: UserId) {
    exists i :: 0 <= i < |ms| && ms[i].user == u
  }

  function Joined(ms: seq<Member>, u: UserId): seq<Member> {
    if IsMember(ms, u) then WithActive(ms, u, true) else ms + [Member(u, true)]
  }

  /** Two equal users are turned away by the handler, and no user at all by the table's constraint. */
  predicate EditRejected(p: Option<UserId>, q: Option<UserId>) {
    p == q
  }

  function ScheduleAfter(cfg: Settings, ms: seq<Member>, s: Schedule, from: int, weeks: int): Schedule {
    Generated(ConfigOf(cfg, ms), s, AlignToHandoffDay(from, cfg.handoffDay), weeks)
  }

  function Apply(st: RosterState, op: Op): RosterState {
    var cfg := st.settings;
    match op
    case Generate(from, weeks) =>
      st.(schedule := ScheduleAfter(cfg, st.members, st.schedule, from, weeks))
    case EditWeek(ws, p, q, notes) =>
      if EditRejected(p, q) then st
      else st.(schedule := Upserted(st.schedule, ws, Entry(ws + WEEK, p, q, true, false, notes)))
    case UnlockWeek(ws) =>
      if ws in st.schedule then st.(schedule := st.schedule[ws := st.schedule[ws].(locked := false)]) else st
    case AddMember(u, today) =>
      var ms := Joined(st.members, u);
      RosterState(cfg, ms, ScheduleAfter(cfg, ms, st.schedule, today, cfg.weeksAhead))
    case SetActive(u, active, today) =>
      var ms := WithActive(st.members, u, active);
      RosterState(cfg, ms, ScheduleAfter(cfg, ms, st.schedule, today, cfg.weeksAhead))
    case UpdateRoster(handoffDay, maxConsecutive, weeksAhead) =>
      st.(settings := Stored(handoffDay, maxConsecutive, weeksAhead))
  }

  function Run(st: RosterState, ops: seq<Op>): RosterState {
    if ops == [] then st else Apply(Run(st, ops[..|ops| - 1]), ops[|ops| - 1])
  }

  // ----- What every run keeps -----

  ghost predicate RowsValid(s: Schedule) {
    forall ws :: ws in s ==> s[ws].weekEnd == ws + WEEK && s[ws].primary != s[ws].secondary
  }

  ghost predicate MembersValid(ms: seq<Member>) {
    forall i, j :: 0 <= i < j < |ms| ==> ms[i].user != ms[j].user
  }

  ghost predicate Valid(st: RosterState) {
    && RowsValid(st.schedule) && MembersValid(st.members)
    && st.settings.maxConsecutive >= 1 && st.settings.weeksAhead >= 1
  }

  lemma {:induction false} ActiveMembersAre(ms: seq<Member>)
    ensures forall u :: u in ActiveMembers(ms) <==> exists i :: 0 <= i < |ms| && ms[i] == Member(u, true)
  {
    if ms != [] {
      var n := |ms| - 1;
      ActiveMembersAre(ms[..n]);
      forall u
        ensures u in ActiveMembers(ms) <==> exists i :: 0 <= i < |ms| && ms[i] == Member(u, true)
      {
        if i :| 0 <= i < |ms| && ms[i] == Member(u, true) {
          if i < n {
            assert ms[..n][i] == Member(u, true);
          }
        }
        if u in ActiveMembers(ms[..n]) {
          var i :| 0 <= i < n && ms[..n][i] == Member(u, true);
          assert ms[i] == Member(u, true);
        }
      }
    }
  }

  lemma {:induction false} ActiveMembersDistinct(ms: seq<Member>)
    requires MembersValid(ms)
    ensures Distinct(ActiveMembers(ms))
  {
    if ms != [] {
      ActiveMembersDistinct(ms[..|ms| - 1]);
      ActiveMembersAre(ms[..|ms| - 1]);
    }
  }

  lemma {:induction false} WithActiveUsers(ms: seq<Member>, u: UserId, active: bool)
    ensures var r := WithActive(ms, u, active);
            && |r| == |ms|
            && forall i :: 0 <= i < |ms| ==> r[i] == if ms[i].user == u then ms[i].(active := active) else ms[i]
  {
    if ms != [] {
      WithActiveUsers(ms[..|ms| - 1], u, active);
    }
  }

  /** Generated weeks name two different active members, or the only one alone. */
  lemma {:induction false} GeneratedWeeksUseMembers(c: Config, s: Schedule, start: int, i: nat)
    requires Distinct(c.members) && c.members != []
    requires !LockedAt(s, start + WEEK * i)
    ensures var e := PlannedRow(c, s, start, i);
            && e.primary.Some? && e.primary.value in c.members
            && (e.secondary.Some? <==> |c.members| >= 2)
            && (e.secondary.Some? ==> e.secondary.value in c.members)
            && e.primary != e.secondary
  {
    hide TrackerAt;
    hide Duties;
    DutiesAreLeastServed(c, TrackerAt(c, s, start, i));
  }

  lemma {:induction false} GeneratedKeepsRows(c: Config, s: Schedule, start: int, weeks: int)
    requires Distinct(c.members) && RowsValid(s)
    ensures RowsValid(Generated(c, s, start, weeks))
  {
    hide PlannedRow;
    var n := Max(weeks, 0);
    if c.members != [] {
      forall ws | ws in Regenerated(c, s, start, n)
        ensures var e := Regenerated(c, s, start, n)[ws]; e.weekEnd == ws + WEEK && e.primary != e.secondary
      {
        if InWindow(start, n, ws) {
          var i := WindowIndex(start, n, ws);
          PlannedRowStored(c, s, start, n, i);
          PlannedRowValid(c, s, start, i);
        } else {
          OutsideWindowUntouched(c, s, start, n, ws);
        }
      }
    }
  }

  lemma {:induction false} PlannedRowValid(c: Config, s: Schedule, start: int, i: nat)
    requires Distinct(c.members) && c.members != [] && RowsValid(s)
    ensures PlannedRow(c, s, start, i).weekEnd == start + WEEK * i + WEEK
    ensures PlannedRow(c, s, start, i).primary != PlannedRow(c, s, start, i).secondary
  {
    hide Duties;
    if !LockedAt(s, start + WEEK * i) {
      GeneratedWeeksUseMembers(c, s, start, i);
    }
  }

  lemma {:induction false} ScheduleAfterKeepsRows(cfg: Settings, ms: seq<Member>, s: Schedule, from: int, weeks: int)
    requires MembersValid(ms) && RowsValid(s)
    ensures RowsValid(ScheduleAfter(cfg, ms, s, from, weeks))
  {
    hide Generated;
    hide RowsValid;
    ActiveMembersDistinct(ms);
    GeneratedKeepsRows(ConfigOf(cfg, ms), s, AlignToHandoffDay(from, cfg.handoffDay), weeks);
  }

  lemma {:induction false} MembersStayValid(ms: seq<Member>, u: UserId, active: bool)
    requires MembersValid(ms)
    ensures MembersValid(Joined(ms, u)) && MembersValid(WithActive(ms, u, active))
  {
    hide WithActive;
    WithActiveUsers(ms, u, true);
    WithActiveUsers(ms, u, active);
  }

  lemma {:induction false} ApplyKeepsValid(st: RosterState, op: Op)
    requires Valid(st)
    ensures Valid(Apply(st, op))
  {
    hide ScheduleAfter;
    hide WithActive;
    hide Joined;
    hide MembersValid;
    var cfg := st.settings;
    match op
    case Generate(from, weeks) =>
      ScheduleAfterKeepsRows(cfg, st.members, st.schedule, from, weeks);
    case AddMember(u, today) =>
      MembersStayValid(st.members, u, true);
      ScheduleAfterKeepsRows(cfg, Joined(st.members, u), st.schedule, today, cfg.weeksAhead);
    case SetActive(u, active, today) =>
      MembersStayValid(st.members, u, active);
      ScheduleAfterKeepsRows(cfg, WithActive(st.members, u, active), st.schedule, today, cfg.weeksAhead);
    case _ =>
  }

  /**
   Over any run, settings changed on the way or not, every row spans seven days and has two different
   duty holders, each member occurs once, and the cap and the horizon are at least one.
   */
  lemma {:induction false} EveryRunKeepsValid(st: RosterState, ops: seq<Op>)
    requires Valid(st)
    ensures Valid(Run(st, ops))
  {
    if ops != [] {
      EveryRunKeepsValid(st, ops[..|ops| - 1]);
      ApplyKeepsValid(Run(st, ops[..|ops| - 1]), ops[|ops| - 1]);
    }
  }

  /**
   A member who is switched off loses every unlocked week of the regenerated window when another
   active member remains; when none remains the schedule is left exactly as it was.
   */
  lemma {:induction false} SwitchedOffMemberIsReplaced(st: RosterState, u: UserId, today: int, ws: int)
    requires Valid(st)
    ensures var st', cfg := Apply(st, SetActive(u, false, today)), st.settings;
            var start := AlignToHandoffDay(today, cfg.handoffDay);
            if ActiveMembers(st'.members) == [] then st'.schedule == st.schedule
            else InWindow(start, cfg.weeksAhead, ws) && !LockedAt(st.schedule, ws) ==>
                   && ws in st'.schedule
                   && st'.schedule[ws].primary != Some(u) && st'.schedule[ws].secondary != Some(u)
  {
    var cfg := st.settings;
    hide PlannedRow;
    var ms := WithActive(st.members, u, false);
    var start, n := AlignToHandoffDay(today, cfg.handoffDay), cfg.weeksAhead;
    WithActiveUsers(st.members, u, false);
    ActiveMembersDistinct(ms);
    ActiveMembersAre(ms);
    var c := ConfigOf(cfg, ms);
    if c.members != [] && InWindow(start, n, ws) && !LockedAt(st.schedule, ws) {
      var i := WindowIndex(start, n, ws);
      PlannedRowStored(c, st.schedule, start, n, i);
      GeneratedWeeksUseMembers(c, st.schedule, start, i);
    }
  }

  // ----- Tiling -----

  ghost predicate Covers(s: Schedule, ws: int, d: int) {
    ws in s && ws <= d < s[ws].weekEnd
  }

  ghost predicate CoveredOnce(s: Schedule, d: int) {
    exists ws :: Covers(s, ws, d) && forall v :: Covers(s, v, d) ==> v == ws
  }

  predicate OnGrid(start: int, ws: int) {
    (ws - start) % WEEK == 0
  }

  /** A stored week that touches the window but does not start on its weekly grid. */
  ghost predicate OffGrid(s: Schedule, start: int, n: nat, ws: int) {
    ws in s && n > 0 && start - WEEK < ws < start + WEEK * n && !OnGrid(start, ws)
  }

  function GridDay(start: int, d: int): int {
    d - (d - start) % WEEK
  }

  lemma {:induction false} GridDayCovers(start: int, n: nat, d: int)
    requires start <= d < start + WEEK * n
    ensures InWindow(start, n, GridDay(start, d)) && GridDay(start, d) <= d < GridDay(start, d) + WEEK
    ensures forall v :: OnGrid(start, v) && v <= d < v + WEEK ==> v == GridDay(start, d)
  {
    var q := (d - start) / WEEK;
    assert GridDay(start, d) - start == WEEK * q;
  }

  lemma {:induction false} OnGridCoveredOnce(s: Schedule, r: Schedule, start: int, n: nat, d: int)
    requires RowsValid(r) && forall ws :: ws in r <==> ws in s || InWindow(start, n, ws)
    requires start <= d < start + WEEK * n
    requires forall ws :: !OffGrid(s, start, n, ws)
    ensures CoveredOnce(r, d)
  {
    GridDayCovers(start, n, d);
    assert Covers(r, GridDay(start, d), d);
    forall v | Covers(r, v, d)
      ensures v == GridDay(start, d)
    {
      assert !OffGrid(s, start, n, v);
    }
  }

  lemma {:induction false} OffGridCoveredTwice(s: Schedule, r: Schedule, start: int, n: nat, v: int) returns (d: int)
    requires RowsValid(r) && forall ws :: ws in r <==> ws in s || InWindow(start, n, ws)
    requires OffGrid(s, start, n, v)
    ensures start <= d < start + WEEK * n && !CoveredOnce(r, d)
  {
    d := Max(v, start);
    GridDayCovers(start, n, d);
    assert Covers(r, v, d) && Covers(r, GridDay(start, d), d);
    assert v != GridDay(start, d);
  }

  /**
   After generating, every day of the window is covered exactly once, if and only if nobody
   has stored a week off the roster's weekly grid there.
   */
  lemma {:induction false} WindowTiledIff(c: Config, s: Schedule, start: int, n: nat)
    requires Distinct(c.members) && c.members != [] && RowsValid(s)
    ensures (forall d :: start <= d < start + WEEK * n ==> CoveredOnce(Regenerated(c, s, start, n), d))
            <==> (forall ws :: !OffGrid(s, start, n, ws))
  {
    hide PlannedRow;
    hide CoveredOnce;
    var r := Regenerated(c, s, start, n);
    GeneratedKeepsRows(c, s, start, n);
    forall ws
      ensures ws in r <==> ws in s || InWindow(start, n, ws)
    {
      RegeneratedKeys(c, s, start, n, ws);
    }
    hide Regenerated;
    if forall ws :: !OffGrid(s, start, n, ws) {
      forall d | start <= d < start + WEEK * n
        ensures CoveredOnce(r, d)
      {
        OnGridCoveredOnce(s, r, start, n, d);
      }
    } else {
      var v :| OffGrid(s, start, n, v);
      var d := OffGridCoveredTwice(s, r, start, n, v);
    }
  }
}
