/** The roster service itself: the schedule generator's loops and the operations that call it. */
module RosterService {
  import opened Wrappers
  import opened RosterModel
  import opened RosterRuns

  datatype StoreError = CheckViolation | NoRows | SameUser

  /** The first loop skips the member at the cap; if that leaves nobody, the second one does not. */
  method PickPrimary(members: seq<UserId>, primaryCount: map<UserId, int>, last: Option<UserId>,
                     run: int, maxConsecutive: int) returns (best: Option<UserId>)
    ensures best == PrimaryPick(Config(members, maxConsecutive), primaryCount, last, run)
  {
    hide FirstLeast;
    hide Eligible;
    best := None;
    var bestCount := -1;
    assert members[..0] == [];
    FirstLeastNext([], primaryCount);
    EligibleNext([], maxConsecutive, last, run);
    for i := 0 to |members|
      invariant best == FirstLeast(Eligible(Config(members[..i], maxConsecutive), last, run), primaryCount)
      invariant best.Some? ==> bestCount == At(primaryCount, best.value)
    {
      var m := members[i];
      assert members[..i + 1] == members[..i] + [m];
      EligibleNext(members[..i + 1], maxConsecutive, last, run);
      FirstLeastNext(Eligible(Config(members[..i + 1], maxConsecutive), last, run), primaryCount);
      if maxConsecutive > 0 && last.Some? && m == last.value && run >= maxConsecutive {
        continue;
      }
      var count := At(primaryCount, m);
      if best == None || count < bestCount {
        best, bestCount := Some(m), count;
      }
    }
    assert members[..|members|] == members;
    FirstLeastNext(Eligible(Config(members, maxConsecutive), last, run), primaryCount);
    if best == None && |members| > 0 {
      FirstLeastNext([], primaryCount);
      for i := 0 to |members|
        invariant best == FirstLeast(members[..i], primaryCount)
        invariant best.Some? ==> bestCount == At(primaryCount, best.value)
      {
        assert members[..i + 1][..i] == members[..i];
        FirstLeastNext(members[..i + 1], primaryCount);
        var count := At(primaryCount, members[i]);
        if best == None || count < bestCount {
          best, bestCount := Some(members[i]), count;
        }
      }
    }
  }

  /** Lowest total of primary and secondary weeks, never the week's primary. */
  method PickSecondary(members: seq<UserId>, primaryCount: map<UserId, int>, secondaryCount: map<UserId, int>,
                       primary: UserId) returns (best: Option<UserId>)
    ensures best == SecondaryPick(members, primaryCount, secondaryCount, primary)
  {
    hide FirstLeast;
    hide Without;
    ghost var load := Load(members, primaryCount, secondaryCount);
    best := None;
    var bestTotal := -1;
    WithoutNext(members[..0], primary);
    FirstLeastNext([], load);
    for i := 0 to |members|
      invariant best == FirstLeast(Without(members[..i], primary), load)
      invariant best.Some? ==> bestTotal == At(load, best.value)
    {
      var m := members[i];
      assert members[..i + 1][..i] == members[..i];
      WithoutNext(members[..i + 1], primary);
      FirstLeastNext(Without(members[..i + 1], primary), load);
      if m == primary {
        continue;
      }
      var total := At(primaryCount, m) + At(secondaryCount, m);
      if best == None || total < bestTotal {
        best, bestTotal := Some(m), total;
      }
    }
    assert members[..|members|] == members;
  }

  lemma {:induction false} FirstLeastNext(cands: seq<UserId>, score: map<UserId, int>)
    ensures FirstLeast(cands, score) == None <==> cands == []
    ensures cands != [] ==>
              var best := FirstLeast(cands[..|cands| - 1], score);
              var u := cands[|cands| - 1];
              FirstLeast(cands, score) == if best.None? || At(score, u) < At(score, best.value) then Some(u) else best
  {
    if cands != [] {
      FirstLeastIsLeast(cands, score);
    }
  }

  lemma {:induction false} WithoutNext(us: seq<UserId>, u: UserId)
    ensures us == [] ==> Without(us, u) == []
    ensures us != [] ==>
              var rest, v := Without(us[..|us| - 1], u), us[|us| - 1];
              && Without(us, u) == (if v == u then rest else rest + [v])
              && (rest + [v])[..|rest|] == rest
  {
  }

  lemma {:induction false} EligibleNext(us: seq<UserId>, max: int, last: Option<UserId>, run: int)
    ensures Eligible(Config([], max), last, run) == []
    ensures us != [] ==>
              var rest, v := Eligible(Config(us[..|us| - 1], max), last, run), us[|us| - 1];
              && Eligible(Config(us, max), last, run)
                 == (if AtCap(max, run) && last == Some(v) then rest else rest + [v])
              && (rest + [v])[..|rest|] == rest
  {
    if last.Some? {
      WithoutNext(us, last.value);
    }
  }

  class Roster {
    var settings: Settings
    var isActive: bool
    var members: seq<Member>
    var schedule: Schedule

    constructor (handoffDay: int, maxConsecutive: int, weeksAhead: int)
      ensures isActive && State() == RosterState(Stored(handoffDay, maxConsecutive, weeksAhead), [], map[])
      ensures Valid(State())
    {
      settings := Settings(handoffDay, if maxConsecutive <= 0 then 2 else maxConsecutive,
                           if weeksAhead <= 0 then 12 else weeksAhead);
      isActive, members, schedule := true, [], map[];
    }

    ghost function State(): RosterState
      reads this
    {
      RosterState(settings, members, schedule)
    }

    /** The schedule is left as it is until it is next generated. */
    method UpdateRoster(handoffDay: int, maxConsecutive: int, weeksAhead: int)
      modifies this`settings
      ensures State() == Apply(old(State()), Op.UpdateRoster(handoffDay, maxConsecutive, weeksAhead))
      ensures settings.handoffDay == handoffDay
      ensures settings.maxConsecutive == if maxConsecutive > 0 then maxConsecutive else 2
      ensures settings.weeksAhead == if weeksAhead > 0 then weeksAhead else 12
    {
      var weeks, cap := weeksAhead, maxConsecutive;
      if weeks <= 0 {
        weeks := 12;
      }
      if cap <= 0 {
        cap := 2;
      }
      settings := Settings(handoffDay, cap, weeks);
    }

    function ListActiveMembers(): seq<UserId>
      reads this
    {
      ActiveMembers(members)
    }

    /** Rows whose week starts in the closed range, keyed by week start. */
    function ListSchedule(from: int, to: int): Schedule
      reads this
    {
      map ws | ws in schedule && from <= ws <= to :: schedule[ws]
    }

    /** Insert or update; the table's constraints turn the row away without a change. */
    method UpsertScheduleWeek(ws: int, weekEnd: int, primary: Option<UserId>, secondary: Option<UserId>,
                              locked: bool, generated: bool, notes: Option<string>)
      returns (r: Result<Entry, StoreError>)
      modifies this`schedule
      ensures r.Err? <==> primary == secondary || weekEnd <= ws
      ensures r.Err? ==> schedule == old(schedule) && r.error == CheckViolation
      ensures r.Ok? ==> r.value == Entry(weekEnd, primary, secondary, locked, generated, notes)
                        && schedule == Upserted(old(schedule), ws, r.value)
    {
      if primary == secondary || weekEnd <= ws {
        return Err(CheckViolation);
      }
      var e := Entry(weekEnd, primary, secondary, locked, generated, notes);
      if ws in schedule {
        schedule := schedule[ws := e.(weekEnd := schedule[ws].weekEnd)];
      } else {
        schedule := schedule[ws := e];
      }
      return Ok(e);
    }

    /** The consecutive tracker as it stands before the first week of the window. */
    method LookBack(start: int) returns (last: Option<UserId>, run: nat)
      ensures var t := Seed(ConfigOf(settings, members), schedule, start); last == t.last && run == t.run
    {
      last, run := None, 0;
      var prev := start - WEEK;
      if prev in schedule && schedule[prev].primary.Some? {
        last, run := schedule[prev].primary, 1;
        var i := 2;
        while i <= settings.maxConsecutive
          invariant run + RunFrom(schedule, last.value, start, i, settings.maxConsecutive)
                    == 1 + RunFrom(schedule, last.value, start, 2, settings.maxConsecutive)
        {
          var ws := start - WEEK * i;
          if ws in schedule && schedule[ws].primary == last {
            run := run + 1;
          } else {
            break;
          }
          i := i + 1;
        }
      }
    }

    /** What is handed back for a week is the row now stored, but with a computed end for an unlocked one. */
    static predicate RowReported(s: Schedule, ws: int, row: Entry) {
      ws in s && row == if s[ws].locked then s[ws] else s[ws].(weekEnd := ws + 7)
    }

    /** The rows handed back: stored rows for locked weeks, what was written for the others. */
    static function Reported(c: Config, s: Schedule, start: int, i: nat): Entry {
      var ws := start + WEEK * i;
      if LockedAt(s, ws) then s[ws] else PlannedRow(c, s, start, i).(weekEnd := ws + WEEK)
    }

    /**
     One unlocked turn of the week loop: choose, store, count. The table's constraint is met,
     so the error return of the upsert is never taken.
     */
    method AssignWeek(active: seq<UserId>, ws: int, primaryCount: map<UserId, int>, secondaryCount: map<UserId, int>,
                      last: Option<UserId>, run: nat)
      returns (row: Entry, primaryCount': map<UserId, int>, secondaryCount': map<UserId, int>,
               last': Option<UserId>, run': nat)
      requires Distinct(active) && active != []
      modifies this`schedule
      ensures var t := Tracker(primaryCount, secondaryCount, last, run);
              var (p, q) := Duties(Config(active, settings.maxConsecutive), t);
              && row == Entry(ws + WEEK, p, q, false, true, None)
              && schedule == Upserted(old(schedule), ws, row)
              && Tracker(primaryCount', secondaryCount', last', run') == AfterDuties(t, p, q)
    {
      hide PrimaryPick;
      hide SecondaryPick;
      primaryCount', secondaryCount', last', run' := primaryCount, secondaryCount, last, run;
      var primary := PickPrimary(active, primaryCount, last, run, settings.maxConsecutive);
      var secondary := None;
      if |active| > 1 && primary.Some? {
        secondary := PickSecondary(active, primaryCount, secondaryCount, primary.value);
      }
      DutiesAreLeastServed(Config(active, settings.maxConsecutive), Tracker(primaryCount, secondaryCount, last, run));
      var stored := UpsertScheduleWeek(ws, ws + WEEK, primary, secondary, false, true, None);
      row := stored.value;
      if primary.Some? {
        primaryCount' := primaryCount[primary.value := At(primaryCount, primary.value) + 1];
        if last == primary {
          run' := run + 1;
        } else {
          last', run' := primary, 1;
        }
      }
      if secondary.Some? {
        secondaryCount' := secondaryCount[secondary.value := At(secondaryCount, secondary.value) + 1];
      }
    }

    method GenerateSchedule(from: int, weeks: int) returns (generated: seq<Entry>)
      requires MembersValid(members)
      modifies this`schedule
      ensures State() == Apply(old(State()), Generate(from, weeks))
      ensures var c := ConfigOf(settings, members);
              var start := AlignToHandoffDay(from, settings.handoffDay);
              if c.members == [] then generated == []
              else && |generated| == Max(weeks, 0)
                   && forall i :: 0 <= i < |generated| ==> generated[i] == Reported(c, old(schedule), start, i)
      ensures var start := AlignToHandoffDay(from, settings.handoffDay);
              forall i :: 0 <= i < |generated| ==> RowReported(schedule, start + WEEK * i, generated[i])
    {
      hide RunFrom;
      hide TrackerAt;
      hide Regenerated;
      hide PlannedRow;
      hide PrimaryWeeksBefore;
      hide SecondaryWeeksBefore;
      hide Duties;
      hide AlignToHandoffDay;
      hide ActiveMembers;
      hide Distinct;
      hide WeekStep;
      var active := ListActiveMembers();
      if |active| == 0 {
        return [];
      }
      ghost var c := ConfigOf(settings, members);
      ghost var s := schedule;
      ActiveMembersDistinct(members);
      var start := AlignToHandoffDay(from, settings.handoffDay);
      var primaryCount := map u | u in active :: PrimaryWeeksBefore(schedule, u, start);
      var secondaryCount := map u | u in active :: SecondaryWeeksBefore(schedule, u, start);
      var existing := ListSchedule(start, start + WEEK * weeks);
      var last, run := LookBack(start);
      generated := [];
      FirstTurn(c, s, start);
      var i := 0;
      while i < weeks
        invariant 0 <= i <= Max(weeks, 0)
        invariant schedule == Regenerated(c, s, start, i)
        invariant Tracker(primaryCount, secondaryCount, last, run) == TrackerAt(c, s, start, i)
        invariant |generated| == i && forall j :: 0 <= j < i ==> generated[j] == Reported(c, s, start, j)
      {
        var ws := start + WEEK * i;
        NextTurn(c, s, start, i);
        TurnTracked(c, s, start, i);
        if ws in existing && existing[ws].locked {
          var e := existing[ws];
          if e.primary.Some? {
            if last == e.primary {
              run := run + 1;
            } else {
              last, run := e.primary, 1;
            }
          }
          generated := generated + [e];
        } else {
          var row;
          row, primaryCount, secondaryCount, last, run :=
            AssignWeek(active, ws, primaryCount, secondaryCount, last, run);
          generated := generated + [row];
        }
        i := i + 1;
      }
      ReportedStored(c, s, start, |generated|);
    }

    method UpdateScheduleWeek(ws: int, primary: Option<UserId>, secondary: Option<UserId>, notes: Option<string>)
      returns (r: Result<Entry, StoreError>)
      modifies this`schedule
      ensures State() == Apply(old(State()), EditWeek(ws, primary, secondary, notes))
      ensures r.Err? <==> EditRejected(primary, secondary)
      ensures r.Err? ==> r.error == if primary.Some? then SameUser else CheckViolation
      ensures r.Ok? ==> r.value == Entry(ws + 7, primary, secondary, true, false, notes)
    {
      if primary.Some? && secondary.Some? && primary.value == secondary.value {
        return Err(SameUser);
      }
      r := UpsertScheduleWeek(ws, ws + WEEK, primary, secondary, true, false, notes);
    }

    method UnlockScheduleWeek(ws: int) returns (r: Result<(), StoreError>)
      modifies this`schedule
      ensures State() == Apply(old(State()), UnlockWeek(ws))
      ensures r == if ws in old(schedule) then Ok(()) else Err(NoRows)
      ensures schedule == if r.Ok? then old(schedule)[ws := old(schedule)[ws].(locked := false)] else old(schedule)
    {
      if ws !in schedule {
        return Err(NoRows);
      }
      schedule := schedule[ws := schedule[ws].(locked := false)];
      return Ok(());
    }

    /** Its error is only logged by the callers; there is none. */
    method RegenerateFuture(today: int)
      requires MembersValid(members)
      modifies this`schedule
      ensures schedule == ScheduleAfter(settings, members, old(schedule), today, settings.weeksAhead)
    {
      var generated := GenerateSchedule(today, settings.weeksAhead);
    }

    /** A member who comes back keeps the old place in the order. */
    method AddMember(u: UserId, today: int) returns (m: Member)
      requires MembersValid(members)
      modifies this`members, this`schedule
      ensures State() == Apply(old(State()), Op.AddMember(u, today))
      ensures MembersValid(members) && m in members && m == Member(u, true)
    {
      hide ScheduleAfter;
      hide WithActive;
      WithActiveUsers(members, u, true);
      m := Member(u, true);
      if IsMember(members, u) {
        members := WithActive(members, u, true);
      } else {
        members := members + [m];
      }
      assert m in members;
      RegenerateFuture(today);
    }

    method SetMemberActive(u: UserId, active: bool, today: int)
      requires MembersValid(members)
      modifies this`members, this`schedule
      ensures State() == Apply(old(State()), SetActive(u, active, today))
      ensures MembersValid(members)
    {
      hide ScheduleAfter;
      hide WithActive;
      WithActiveUsers(members, u, active);
      members := WithActive(members, u, active);
      RegenerateFuture(today);
    }

    method DeactivateMember(u: UserId, today: int)
      requires MembersValid(members)
      modifies this`members, this`schedule
      ensures State() == Apply(old(State()), SetActive(u, false, today))
      ensures MembersValid(members)
    {
      SetMemberActive(u, false, today);
    }
  }

  /** One pass of the periodic worker over a tenant's rosters; switched-off rosters are left alone. */
  method TopUp(rosters: seq<Roster>, today: int)
    requires Distinct(rosters) && forall r :: r in rosters ==> MembersValid(r.members)
    modifies rosters
    ensures forall r :: r in rosters ==>
              r.isActive == old(r.isActive) && r.members == old(r.members) && r.settings == old(r.settings)
    ensures forall r :: r in rosters ==>
              r.schedule == if r.isActive
                            then ScheduleAfter(r.settings, r.members, old(r.schedule), today, r.settings.weeksAhead)
                            else old(r.schedule)
  {
    hide ScheduleAfter;
    for i := 0 to |rosters|
      invariant forall r :: r in rosters ==>
                  r.isActive == old(r.isActive) && r.members == old(r.members) && r.settings == old(r.settings)
      invariant forall j :: i <= j < |rosters| ==> rosters[j].schedule == old(rosters[j].schedule)
      invariant forall j :: 0 <= j < i ==>
                  var r := rosters[j];
                  r.schedule == if r.isActive
                                then ScheduleAfter(r.settings, r.members, old(r.schedule), today, r.settings.weeksAhead)
                                else old(r.schedule)
    {
      var r := rosters[i];
      if !r.isActive {
        continue;
      }
      var generated := r.GenerateSchedule(today, r.settings.weeksAhead);
    }
  }

  // ----- One turn of the week loop -----

  lemma {:induction false} FirstTurn(c: Config, s: Schedule, start: int)
    ensures TrackerAt(c, s, start, 0) == Seed(c, s, start)
    ensures Regenerated(c, s, start, 0) == s
  {
  }

  /** Week i has not been written yet when its turn comes; the turn follows the plan. */
  lemma {:induction false} NextTurn(c: Config, s: Schedule, start: int, i: nat)
    ensures var ws, t := start + WEEK * i, TrackerAt(c, s, start, i);
            var r, r' := Regenerated(c, s, start, i), Regenerated(c, s, start, i + 1);
            && TrackerAt(c, s, start, i + 1) == WeekStep(c, s, t, ws)
            && (LockedAt(s, ws) ==> Roster.Reported(c, s, start, i) == s[ws] && r' == r)
            && (!LockedAt(s, ws) ==>
                  var (p, q) := Duties(c, t);
                  && Roster.Reported(c, s, start, i) == Entry(ws + WEEK, p, q, false, true, None)
                  && r' == Upserted(r, ws, Entry(ws + WEEK, p, q, false, true, None)))
  {
    hide Duties;
    hide WeekStep;
    assert Plan(c, s, start, i + 1)[..i] == Plan(c, s, start, i);
    OutsideWindowUntouched(c, s, start, i, start + WEEK * i);
  }

  lemma {:induction false} TurnTracked(c: Config, s: Schedule, start: int, i: nat)
    ensures var ws, t, t' := start + WEEK * i, TrackerAt(c, s, start, i), TrackerAt(c, s, start, i + 1);
            if LockedAt(s, ws) then
              t' == if s[ws].primary.Some? then Noted(t, s[ws].primary.value) else t
            else
              var (p, q) := Duties(c, t);
              t' == AfterDuties(t, p, q)
  {
    hide Duties;
    hide AfterDuties;
    hide Noted;
  }

  lemma {:induction false} ReportedStored(c: Config, s: Schedule, start: int, n: nat)
    ensures forall i :: 0 <= i < n ==>
              Roster.RowReported(Regenerated(c, s, start, n), start + WEEK * i, Roster.Reported(c, s, start, i))
  {
    hide Regenerated;
    hide PlannedRow;
    forall i | 0 <= i < n
      ensures Roster.RowReported(Regenerated(c, s, start, n), start + WEEK * i, Roster.Reported(c, s, start, i))
    {
      PlannedRowStored(c, s, start, n, i);
      LockedWeeksSurvive(c, s, start, n, start + WEEK * i);
    }
  }
}
