/** What the roster's operations do, said of the members and rows themselves. */
module RosterOperations {
  import opened Wrappers
  import opened RosterModel
  import opened RosterRuns
  import opened RosterFairness
  import opened RosterRotation
  import opened RosterStability

  // ----- Joining order -----

  /** The listed users are those of the active members at these places, in order. */
  ghost predicate ListedAt(ms: seq<Member>, us: seq<UserId>, ps: seq<nat>) {
    && |ps| == |us|
    && (forall k :: 0 <= k < |ps| ==> ps[k] < |ms| && ms[ps[k]] == Member(us[k], true))
    && (forall k, l :: 0 <= k < l < |ps| ==> ps[k] < ps[l])
  }

  lemma {:induction false} OneMoreListed(ms: seq<Member>, m: Member, us: seq<UserId>, ps: seq<nat>)
    requires ListedAt(ms, us, ps)
    ensures ListedAt(ms + [m], us, ps)
    ensures m.active ==> ListedAt(ms + [m], us + [m.user], ps + [|ms|])
  {
  }

  /** The active members are listed in the order they joined, and none is left out. */
  lemma {:induction false} ActiveMembersInOrder(ms: seq<Member>) returns (ps: seq<nat>)
    ensures ListedAt(ms, ActiveMembers(ms), ps)
    ensures forall i :: 0 <= i < |ms| && ms[i].active ==> ms[i].user in ActiveMembers(ms)
  {
    hide ListedAt;
    ActiveMembersAre(ms);
    ps := PlacesOf(ms);
  }

  lemma {:induction false} PlacesOf(ms: seq<Member>) returns (ps: seq<nat>)
    ensures ListedAt(ms, ActiveMembers(ms), ps)
  {
    if ms == [] {
      ps := [];
    } else {
      hide ListedAt;
      var n := |ms| - 1;
      ps := PlacesOf(ms[..n]);
      OneMoreListed(ms[..n], ms[n], ActiveMembers(ms[..n]), ps);
      assert ms[..n] + [ms[n]] == ms;
      assert ActiveMembers(ms[..n]) + [] == ActiveMembers(ms[..n]);
      if ms[n].active {
        ps := ps + [n];
      }
    }
  }

  lemma {:induction false} EverybodyActive(ms: seq<Member>)
    requires forall i :: 0 <= i < |ms| ==> ms[i].active
    ensures |ActiveMembers(ms)| == |ms| && forall i :: 0 <= i < |ms| ==> ActiveMembers(ms)[i] == ms[i].user
  {
    if ms != [] {
      EverybodyActive(ms[..|ms| - 1]);
    }
  }

  /** A new member goes last; whoever comes back, or is switched, keeps the old place. */
  lemma {:induction false} JoinedInOrder(ms: seq<Member>, u: UserId)
    ensures var r := Joined(ms, u);
            && |r| == (if IsMember(ms, u) then |ms| else |ms| + 1)
            && (forall i :: 0 <= i < |ms| ==> r[i] == if ms[i].user == u then Member(u, true) else ms[i])
            && (!IsMember(ms, u) ==> r[|ms|] == Member(u, true))
  {
    WithActiveUsers(ms, u, true);
  }

  ghost predicate SamePlaces(before: seq<Member>, after: seq<Member>) {
    |before| <= |after| && forall i :: 0 <= i < |before| ==> after[i].user == before[i].user
  }

  /** Over any run nobody changes places. */
  lemma {:induction false} JoiningOrderStays(st: RosterState, ops: seq<Op>)
    ensures SamePlaces(st.members, Run(st, ops).members)
  {
    hide ScheduleAfter;
    hide WithActive;
    if ops != [] {
      JoiningOrderStays(st, ops[..|ops| - 1]);
      var was, op := Run(st, ops[..|ops| - 1]), ops[|ops| - 1];
      match op
      case AddMember(u, _) => JoinedInOrder(was.members, u);
      case SetActive(u, active, _) => WithActiveUsers(was.members, u, active);
      case _ =>
    }
  }

  // ----- Ties -----

  /** The last primary, when the cap is reached. */
  predicate Blocked(c: Config, t: Tracker, u: UserId) {
    c.maxConsecutive > 0 && t.run >= c.maxConsecutive && t.last == Some(u)
  }

  lemma {:induction false} FirstOfAll(us: seq<UserId>, score: map<UserId, int>, j: nat, k: nat)
    requires Distinct(us) && j < k < |us| && FirstLeast(us, score) == Some(us[k])
    ensures At(score, us[j]) > At(score, us[k])
  {
    FirstLeastIsLeast(us, score);
  }

  lemma {:induction false} FirstOfOthers(us: seq<UserId>, x: UserId, score: map<UserId, int>, j: nat, k: nat)
    requires Distinct(us) && j < k < |us| && us[j] != x && us[k] != x
    requires FirstLeast(Without(us, x), score) == Some(us[k])
    ensures At(score, us[j]) > At(score, us[k])
  {
    hide FirstLeast;
    hide Without;
    if x in us {
      var i :| 0 <= i < |us| && us[i] == x;
      WithoutAt(us, i);
      var e := us[..i] + us[i + 1..];
      var j', k' := if j < i then j else j - 1, if k < i then k else k - 1;
      LeftAt(us, i, j');
      LeftAt(us, i, k');
      DistinctWithout(us, i);
      FirstOfAll(e, score, j', k');
    } else {
      WithoutAbsent(us, x);
      FirstOfAll(us, score, j, k);
    }
  }

  lemma {:induction false} DistinctWithout(us: seq<UserId>, i: nat)
    requires Distinct(us) && i < |us|
    ensures Distinct(us[..i] + us[i + 1..])
  {
    var e := us[..i] + us[i + 1..];
    forall j, k | 0 <= j < k < |e|
      ensures e[j] != e[k]
    {
      LeftAt(us, i, j);
      LeftAt(us, i, k);
    }
  }

  /** Ties go to whoever joined first, for both duties. */
  lemma {:induction false} TiesGoToTheFirst(c: Config, t: Tracker, j: nat, k: nat)
    requires Distinct(c.members) && j < k < |c.members|
    ensures var (p, q) := Duties(c, t);
            var ms := c.members;
            && (p == Some(ms[k]) && !Blocked(c, t, ms[j]) ==> At(t.primaryCount, ms[j]) > At(t.primaryCount, ms[k]))
            && (q == Some(ms[k]) && p != Some(ms[j]) ==>
                  At(t.primaryCount, ms[j]) + At(t.secondaryCount, ms[j])
                  > At(t.primaryCount, ms[k]) + At(t.secondaryCount, ms[k]))
  {
    hide FirstLeast;
    hide Without;
    var ms := c.members;
    var (p, q) := Duties(c, t);
    DutiesAreLeastServed(c, t);
    assert ms[j] != ms[k];
    if p == Some(ms[k]) && !Blocked(c, t, ms[j]) {
      PrimaryAmong(c, t);
      if Blocked(c, t, ms[k]) {
        assert false;
      } else if t.last.Some? && AtCap(c.maxConsecutive, t.run) {
        FirstOfOthers(ms, t.last.value, t.primaryCount, j, k);
      } else {
        FirstOfAll(ms, t.primaryCount, j, k);
      }
    }
    if q == Some(ms[k]) && p != Some(ms[j]) {
      FirstOfOthers(ms, p.value, Load(ms, t.primaryCount, t.secondaryCount), j, k);
    }
  }

  /** The members the primary is chosen from. */
  lemma {:induction false} PrimaryAmong(c: Config, t: Tracker)
    requires Distinct(c.members) && |c.members| >= 2
    ensures Duties(c, t).0 ==
            FirstLeast(if t.last.Some? && AtCap(c.maxConsecutive, t.run) then Without(c.members, t.last.value)
                       else c.members, t.primaryCount)
  {
    hide FirstLeast;
    hide SecondaryPick;
    if t.last.Some? {
      OthersRemain(c.members, t.last.value);
    }
  }

  // ----- The first schedule -----

  /** Nobody of the roster has served, the week before is empty, and the window is free of locks. */
  ghost predicate NothingServed(st: RosterState, start: int, n: nat) {
    && (forall ws, i :: ws in st.schedule && ws < start && 0 <= i < |st.members| ==>
          && st.schedule[ws].primary != Some(st.members[i].user)
          && st.schedule[ws].secondary != Some(st.members[i].user))
    && (start - WEEK in st.schedule ==> st.schedule[start - WEEK].primary == None)
    && (forall k :: 0 <= k < n && start + WEEK * k in st.schedule ==> !st.schedule[start + WEEK * k].locked)
  }

  lemma {:induction false} NothingServedIsFresh(st: RosterState, start: int, n: nat)
    requires NothingServed(st, start, n)
    requires forall i :: 0 <= i < |st.members| ==> st.members[i].active
    ensures Fresh(ConfigOf(st.settings, st.members), st.schedule, start, n)
  {
    var c, s := ConfigOf(st.settings, st.members), st.schedule;
    EverybodyActive(st.members);
    hide ActiveMembers;
    forall u | u in c.members
      ensures PrimaryWeeksBefore(s, u, start) == 0 && SecondaryWeeksBefore(s, u, start) == 0
    {
      var i :| 0 <= i < |st.members| && st.members[i].user == u;
      var days := set ws | ws in s && ws < start && s[ws].primary == Some(u);
      var others := set ws | ws in s && ws < start && s[ws].secondary == Some(u);
      assert days == {} && others == {};
    }
  }

  /** Week ws is stored, for the member who joined i-th, round and round, and the next to join. */
  ghost predicate TurnStored(s: Schedule, ws: int, ms: seq<Member>, i: nat)
    requires ms != []
  {
    ws in s && s[ws].primary == Some(ms[i % |ms|].user) && s[ws].secondary == Some(ms[(i + 1) % |ms|].user)
  }

  /**
   On a fresh roster of two or more members, all active, generating gives week i of the window to the
   member who joined i-th, round and round, with the next to join as secondary.
   */
  lemma {:induction false} FreshRosterRotates(st: RosterState, from: int, weeks: int, i: nat)
    requires MembersValid(st.members) && |st.members| >= 2
    requires forall k :: 0 <= k < |st.members| ==> st.members[k].active
    requires i < weeks && NothingServed(st, AlignToHandoffDay(from, st.settings.handoffDay), weeks)
    ensures TurnStored(Apply(st, Generate(from, weeks)).schedule,
                       AlignToHandoffDay(from, st.settings.handoffDay) + WEEK * i, st.members, i)
  {
    hide AlignToHandoffDay;
    hide PlannedRow;
    hide Regenerated;
    var start, c := AlignToHandoffDay(from, st.settings.handoffDay), ConfigOf(st.settings, st.members);
    NothingServedIsFresh(st, start, weeks);
    EverybodyActive(st.members);
    ActiveMembersDistinct(st.members);
    hide NothingServed;
    hide Fresh;
    hide ActiveMembers;
    PlannedRowStored(c, st.schedule, start, weeks, i);
    GreedyIsRoundRobin(c, st.schedule, start, weeks, i);
    ModInRange(i, |st.members|);
    ModInRange(i + 1, |st.members|);
  }

  // ----- Rows -----

  /** No operation removes a row or moves the end of its week. */
  lemma {:induction false} RowsStay(st: RosterState, op: Op, ws: int)
    requires ws in st.schedule
    ensures var s := Apply(st, op).schedule; ws in s && s[ws].weekEnd == st.schedule[ws].weekEnd
  {
    hide Regenerated;
    hide ActiveMembers;
    hide WithActive;
    hide Joined;
    match op
    case Generate(from, weeks) =>
      GeneratedRowStays(ConfigOf(st.settings, st.members), st.schedule,
                        AlignToHandoffDay(from, st.settings.handoffDay), weeks, ws);
    case AddMember(u, today) =>
      GeneratedRowStays(ConfigOf(st.settings, Joined(st.members, u)), st.schedule,
                        AlignToHandoffDay(today, st.settings.handoffDay), st.settings.weeksAhead, ws);
    case SetActive(u, active, today) =>
      GeneratedRowStays(ConfigOf(st.settings, WithActive(st.members, u, active)), st.schedule,
                        AlignToHandoffDay(today, st.settings.handoffDay), st.settings.weeksAhead, ws);
    case _ =>
  }

  lemma {:induction false} GeneratedRowStays(c: Config, s: Schedule, start: int, weeks: int, ws: int)
    requires ws in s
    ensures var r := Generated(c, s, start, weeks);
            && ws in r && r[ws].weekEnd == s[ws].weekEnd
            && (s[ws].locked ==> r[ws] == s[ws])
  {
    hide Regenerated;
    hide Duties;
    var n := Max(weeks, 0);
    if c.members != [] {
      RegeneratedKeys(c, s, start, n, ws);
      LockedWeeksSurvive(c, s, start, n, ws);
      if InWindow(start, n, ws) {
        var i := WindowIndex(start, n, ws);
        PlannedRowStored(c, s, start, n, i);
        PlannedRowFrom(c, s, start, i, ws);
      } else {
        OutsideWindowUntouched(c, s, start, n, ws);
      }
    }
  }

  /** The row of a generated week: unlocked, without notes, for seven days if it is new. */
  ghost predicate GeneratedRow(s: Schedule, r: Schedule, ws: int) {
    && ws in r && !r[ws].locked && r[ws].generated && r[ws].notes == None
    && r[ws].weekEnd == (if ws in s then s[ws].weekEnd else ws + 7)
    && r[ws].primary.Some? && r[ws].primary != r[ws].secondary
  }

  ghost predicate SameRow(s: Schedule, r: Schedule, ws: int) {
    ws in s && ws in r && r[ws] == s[ws]
  }

  /** Every unlocked week of the window becomes a generated one. */
  lemma {:induction false} GeneratedRowIs(st: RosterState, from: int, weeks: int, i: nat)
    requires MembersValid(st.members) && i < weeks && ActiveMembers(st.members) != []
    ensures var ws := AlignToHandoffDay(from, st.settings.handoffDay) + WEEK * i;
            var r := Apply(st, Generate(from, weeks)).schedule;
            if ws in st.schedule && st.schedule[ws].locked then SameRow(st.schedule, r, ws)
            else GeneratedRow(st.schedule, r, ws)
  {
    hide AlignToHandoffDay;
    hide Regenerated;
    hide ActiveMembers;
    hide Duties;
    hide TrackerAt;
    var c, start := ConfigOf(st.settings, st.members), AlignToHandoffDay(from, st.settings.handoffDay);
    ActiveMembersDistinct(st.members);
    PlannedRowStored(c, st.schedule, start, weeks, i);
    PlannedRowFrom(c, st.schedule, start, i, start + WEEK * i);
    if !LockedAt(st.schedule, start + WEEK * i) {
      GeneratedWeeksUseMembers(c, st.schedule, start, i);
    }
  }

  ghost predicate ScheduledBy(st: RosterState, ms: seq<Member>, today: int, r: RosterState) {
    r == RosterState(st.settings, ms, Apply(st.(members := ms), Generate(today, st.settings.weeksAhead)).schedule)
  }

  /** Adding or switching a member changes that member only, and regenerates from today with the new list. */
  lemma {:induction false} MemberChangesRegenerate(st: RosterState, u: UserId, active: bool, today: int)
    ensures var joined := Apply(st, AddMember(u, today));
            ScheduledBy(st, joined.members, today, joined) && Member(u, true) in joined.members
    ensures var switched := Apply(st, SetActive(u, active, today));
            && ScheduledBy(st, switched.members, today, switched)
            && |switched.members| == |st.members|
            && forall i :: 0 <= i < |st.members| ==>
                 switched.members[i] == if st.members[i].user == u then Member(u, active) else st.members[i]
  {
    hide ScheduleAfter;
    WithActiveUsers(st.members, u, active);
    JoinedInOrder(st.members, u);
  }

  /** So an added member's roster is scheduled anew at once: every unlocked week of the window. */
  lemma {:induction false} WeeksAfterJoining(st: RosterState, u: UserId, today: int, i: nat)
    requires MembersValid(st.members) && i < st.settings.weeksAhead
    ensures var ws := AlignToHandoffDay(today, st.settings.handoffDay) + WEEK * i;
            var r := Apply(st, AddMember(u, today)).schedule;
            if ws in st.schedule && st.schedule[ws].locked then SameRow(st.schedule, r, ws)
            else GeneratedRow(st.schedule, r, ws)
  {
    hide AlignToHandoffDay;
    hide GeneratedRow;
    hide SameRow;
    hide Apply;
    MemberChangesRegenerate(st, u, true, today);
    var ms := Apply(st, AddMember(u, today)).members;
    ActiveMembersAre(ms);
    JoinedValid(st, u, today);
    assert u in ActiveMembers(ms);
    GeneratedRowIs(st.(members := ms), today, st.settings.weeksAhead, i);
  }

  lemma {:induction false} JoinedValid(st: RosterState, u: UserId, today: int)
    requires MembersValid(st.members)
    ensures MembersValid(Apply(st, AddMember(u, today)).members)
  {
    hide ScheduleAfter;
    JoinedInOrder(st.members, u);
  }

  // ----- Manual edits -----

  /** An edit stores exactly the given pair and notes, locked, and touches nothing else. */
  lemma {:induction false} EditStores(st: RosterState, ws: int, p: Option<UserId>, q: Option<UserId>,
                                      notes: Option<string>)
    requires p != q
    ensures var st' := Apply(st, EditWeek(ws, p, q, notes));
            && st'.members == st.members && st'.settings == st.settings
            && st'.schedule.Keys == st.schedule.Keys + {ws}
            && (forall v :: v in st.schedule && v != ws ==> st'.schedule[v] == st.schedule[v])
            && st'.schedule[ws].primary == p && st'.schedule[ws].secondary == q && st'.schedule[ws].notes == notes
            && st'.schedule[ws].locked && !st'.schedule[ws].generated
            && st'.schedule[ws].weekEnd == if ws in st.schedule then st.schedule[ws].weekEnd else ws + 7
  {
  }

  predicate Releases(op: Op, ws: int) {
    (op.UnlockWeek? && op.ws == ws) || (op.EditWeek? && op.ws == ws)
  }

  lemma {:induction false} LockedRowStays(st: RosterState, op: Op, ws: int)
    requires ws in st.schedule && st.schedule[ws].locked && !Releases(op, ws)
    ensures ws in Apply(st, op).schedule && Apply(st, op).schedule[ws] == st.schedule[ws]
  {
    hide Generated;
    hide ActiveMembers;
    hide WithActive;
    hide Joined;
    match op
    case Generate(from, weeks) =>
      GeneratedRowStays(ConfigOf(st.settings, st.members), st.schedule,
                        AlignToHandoffDay(from, st.settings.handoffDay), weeks, ws);
    case AddMember(u, today) =>
      GeneratedRowStays(ConfigOf(st.settings, Joined(st.members, u)), st.schedule,
                        AlignToHandoffDay(today, st.settings.handoffDay), st.settings.weeksAhead, ws);
    case SetActive(u, active, today) =>
      GeneratedRowStays(ConfigOf(st.settings, WithActive(st.members, u, active)), st.schedule,
                        AlignToHandoffDay(today, st.settings.handoffDay), st.settings.weeksAhead, ws);
    case _ =>
  }

  /** Over any run a manual edit stands, until somebody edits or unlocks that very week. */
  lemma {:induction false} EditStands(st: RosterState, ws: int, p: Option<UserId>, q: Option<UserId>,
                                      notes: Option<string>, ops: seq<Op>)
    requires p != q && forall k :: 0 <= k < |ops| ==> !Releases(ops[k], ws)
    ensures var s := Run(Apply(st, EditWeek(ws, p, q, notes)), ops).schedule;
            && ws in s && s[ws].locked && !s[ws].generated
            && s[ws].primary == p && s[ws].secondary == q && s[ws].notes == notes
  {
    hide Apply;
    if ops == [] {
      EditStores(st, ws, p, q, notes);
    } else {
      EditStands(st, ws, p, q, notes, ops[..|ops| - 1]);
      LockedRowStays(Run(Apply(st, EditWeek(ws, p, q, notes)), ops[..|ops| - 1]), ops[|ops| - 1], ws);
    }
  }

  /** Unlocking changes the lock of that row and nothing else. */
  lemma {:induction false} UnlockOnly(st: RosterState, ws: int)
    ensures var st' := Apply(st, UnlockWeek(ws));
            && st'.members == st.members && st'.settings == st.settings && st'.schedule.Keys == st.schedule.Keys
            && (forall v :: v in st.schedule ==>
                  st'.schedule[v] == if v == ws then st.schedule[v].(locked := false) else st.schedule[v])
  {
  }

  /** And once a week is unlocked, the next run over it assigns it anew. */
  lemma {:induction false} UnlockedIsReassigned(st: RosterState, from: int, weeks: int, i: nat)
    requires MembersValid(st.members) && i < weeks && ActiveMembers(st.members) != []
    ensures var ws := AlignToHandoffDay(from, st.settings.handoffDay) + WEEK * i;
            GeneratedRow(st.schedule, Apply(Apply(st, UnlockWeek(ws)), Generate(from, weeks)).schedule, ws)
  {
    hide AlignToHandoffDay;
    hide Generated;
    hide ActiveMembers;
    var ws := AlignToHandoffDay(from, st.settings.handoffDay) + WEEK * i;
    UnlockOnly(st, ws);
    GeneratedRowIs(Apply(st, UnlockWeek(ws)), from, weeks, i);
  }

  // ----- The worker -----

  /** The top-ups of the given days, as operations. */
  function TopUpOps(cfg: Settings, days: seq<int>): seq<Op> {
    seq(|days|, i requires 0 <= i < |days| => Generate(days[i], cfg.weeksAhead))
  }

  /** Topping up day after day is generating on those days for the configured number of weeks. */
  lemma {:induction false} TopUpsAreRuns(st: RosterState, days: seq<int>)
    ensures Run(st, TopUpOps(st.settings, days))
            == st.(schedule := ToppedUp(st.settings, ConfigOf(st.settings, st.members), st.schedule, days))
  {
    hide Generated;
    if days != [] {
      var n := |days| - 1;
      TopUpsAreRuns(st, days[..n]);
      assert TopUpOps(st.settings, days)[..n] == TopUpOps(st.settings, days[..n]);
    }
  }

  // ----- The calendar -----

  ghost predicate DayFollows(f: int -> int, x: int) {
    0 <= f(x) <= 6 && f(x + 1) == if f(x) == 6 then 0 else f(x) + 1
  }

  /** Sunday follows Saturday, and 1 January 1970 was a Thursday: that leaves one numbering of weekdays. */
  lemma {:induction false} WeekdaysGoRound(f: int -> int, d: int)
    requires f(0) == 4 && forall x :: DayFollows(f, x)
    ensures f(d) == Weekday(d)
    decreases if d >= 0 then d else -d
  {
    hide Weekday;
    WeekdayNext(0);
    WeekdayNext(d);
    WeekdayNext(d - 1);
    assert DayFollows(f, d);
    if d > 0 {
      WeekdaysGoRound(f, d - 1);
      assert DayFollows(f, d - 1);
    } else if d < 0 {
      WeekdaysGoRound(f, d + 1);
    }
  }

  lemma {:induction false} WeekdayNext(d: int)
    ensures 0 <= Weekday(d) <= 6 && Weekday(d + 1) == if Weekday(d) == 6 then 0 else Weekday(d) + 1
    ensures Weekday(0) == 4
  {
  }

  /** Some alignments around Sunday, 1 March 2026, which is day 20513. */
  lemma {:induction false} AlignmentsOfFebruary2026()
    ensures AlignToHandoffDay(20507, 1) == 20507 && AlignToHandoffDay(20509, 1) == 20507
    ensures AlignToHandoffDay(20513, 1) == 20507 && AlignToHandoffDay(20512, 1) == 20507
    ensures AlignToHandoffDay(20508, 0) == 20506 && AlignToHandoffDay(20506, 0) == 20506
  {
  }
}
