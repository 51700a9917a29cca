/** Who is on call, read directly and through the coverage report's prefetched rows; and the gaps it reports. */
module Coverage {
  import opened Wrappers
  import opened RosterModel
  import opened ActiveHours

  const DAY := DAY_MINUTES * MINUTE

  datatype Override = Override(user: UserId, startAt: int, endAt: int)

  /** A roster with its schedule table and its overrides in order of their start. */
  datatype RosterRow = RosterRow(id: nat, active: bool, shift: Shift, schedule: Schedule, overrides: seq<Override>)

  type Names = UserId -> string

  function DayOf(at: int): int { at / DAY }

  function NameOf(names: Names, u: Option<UserId>): string {
    if u.Some? then names(u.value) else ""
  }

  // ----- Direct lookup -----

  predicate OverrideActive(o: Override, at: int) {
    o.startAt <= at < o.endAt
  }

  /** Dates are compared by day number. */
  predicate WeekCovers(s: Schedule, ws: int, at: int) {
    ws in s && ws <= DayOf(at) < s[ws].weekEnd
  }

  ghost predicate AnyOverride(r: RosterRow, at: int) {
    exists i :: 0 <= i < |r.overrides| && OverrideActive(r.overrides[i], at)
  }

  ghost predicate AnyWeek(r: RosterRow, at: int) {
    exists ws :: WeekCovers(r.schedule, ws, at)
  }

  /** A primary the direct lookup may answer; its queries take any one matching row. */
  ghost predicate DirectPrimary(r: RosterRow, names: Names, at: int, answer: string) {
    if AnyOverride(r, at) then
      exists i :: 0 <= i < |r.overrides| && OverrideActive(r.overrides[i], at) && answer == names(r.overrides[i].user)
    else if AnyWeek(r, at) then
      exists ws :: WeekCovers(r.schedule, ws, at) && answer == NameOf(names, r.schedule[ws].primary)
    else answer == ""
  }

  ghost predicate NoOverlap(r: RosterRow, at: int) {
    && (forall i, j :: 0 <= i < j < |r.overrides| ==>
          !(OverrideActive(r.overrides[i], at) && OverrideActive(r.overrides[j], at)))
    && (forall v, w :: WeekCovers(r.schedule, v, at) && WeekCovers(r.schedule, w, at) ==> v == w)
  }

  // ----- Prefetched rows -----

  datatype CachedWeek = CachedWeek(start: int, end: int, primary: string, secondary: string)

  datatype Cache = Cache(weeks: seq<CachedWeek>, overrides: seq<Override>)

  datatype Source = FromOverride | FromSchedule | Unassigned

  function Cached(s: Schedule, names: Names, ws: int): CachedWeek
    requires ws in s
  {
    CachedWeek(ws, s[ws].weekEnd, NameOf(names, s[ws].primary), NameOf(names, s[ws].secondary))
  }

  /** Weeks that start on the days from..to, in order. */
  function ListWeeks(s: Schedule, names: Names, from: int, to: int): seq<CachedWeek>
    decreases Max(to - from + 1, 0)
  {
    if from > to then []
    else (if from in s then [Cached(s, names, from)] else []) + ListWeeks(s, names, from + 1, to)
  }

  function OverridesInRange(os: seq<Override>, from: int, to: int): seq<Override> {
    if os == [] then []
    else (if os[0].endAt > from && os[0].startAt < to then [os[0]] else []) + OverridesInRange(os[1..], from, to)
  }

  function Prefetch(r: RosterRow, names: Names, from: int, to: int): Cache {
    Cache(ListWeeks(r.schedule, names, DayOf(from - 7 * DAY), DayOf(to)), OverridesInRange(r.overrides, from, to))
  }

  function FirstOverride(os: seq<Override>, at: int): Option<Override> {
    if os == [] then None else if OverrideActive(os[0], at) then Some(os[0]) else FirstOverride(os[1..], at)
  }

  /** Here the stored dates are instants at midnight. */
  function FirstWeek(ws: seq<CachedWeek>, at: int): Option<CachedWeek> {
    if ws == [] then None
    else if ws[0].start * DAY <= at < ws[0].end * DAY then Some(ws[0])
    else FirstWeek(ws[1..], at)
  }

  function ResolveFromCache(c: Cache, names: Names, at: int): (string, string, Source) {
    var o := FirstOverride(c.overrides, at);
    if o.Some? then (names(o.value.user), "", FromOverride)
    else
      var w := FirstWeek(c.weeks, at);
      if w.Some? && w.value.primary != "" then (w.value.primary, w.value.secondary, FromSchedule)
      else ("", "", Unassigned)
  }

  lemma {:induction false} MidnightIsDay(d: int, at: int)
    ensures d * DAY <= at <==> d <= DayOf(at)
  {
    assert DAY * DayOf(at) <= at < DAY * (DayOf(at) + 1);
    if d <= DayOf(at) {
      assert d * DAY <= DayOf(at) * DAY;
    } else {
      assert d * DAY >= (DayOf(at) + 1) * DAY;
    }
  }

  lemma {:induction false} FirstOverrideFound(os: seq<Override>, from: int, to: int, at: int)
    requires from <= at < to
    ensures var o := FirstOverride(OverridesInRange(os, from, to), at);
            && (o.Some? <==> exists i :: 0 <= i < |os| && OverrideActive(os[i], at))
            && (o.Some? ==> exists i :: 0 <= i < |os| && OverrideActive(os[i], at) && o.value == os[i])
  {
    if os != [] {
      FirstOverrideFound(os[1..], from, to, at);
      var o := FirstOverride(OverridesInRange(os[1..], from, to), at);
      if o.Some? {
        var i :| 0 <= i < |os[1..]| && OverrideActive(os[1..][i], at) && o.value == os[1..][i];
        assert os[i + 1] == os[1..][i];
      }
      if i :| 0 <= i < |os| && OverrideActive(os[i], at) {
        assert i > 0 ==> os[1..][i - 1] == os[i];
      }
      if OverrideActive(os[0], at) {
        assert OverridesInRange(os, from, to)[0] == os[0];
      } else {
        var rest, all := OverridesInRange(os[1..], from, to), OverridesInRange(os, from, to);
        assert all == rest || (all == [os[0]] + rest && all[1..] == rest);
      }
    }
  }

  lemma {:induction false} FirstWeekFound(s: Schedule, names: Names, from: int, to: int, at: int)
    ensures FirstWeek(ListWeeks(s, names, from, to), at).Some?
            <==> (exists ws :: from <= ws <= to && WeekCovers(s, ws, at))
    ensures FirstWeek(ListWeeks(s, names, from, to), at).Some? ==>
              var w := FirstWeek(ListWeeks(s, names, from, to), at).value;
              exists ws :: from <= ws <= to && WeekCovers(s, ws, at)
                           && w.primary == NameOf(names, s[ws].primary) && w.secondary == NameOf(names, s[ws].secondary)
    decreases Max(to - from + 1, 0)
  {
    if from <= to {
      FirstWeekFound(s, names, from + 1, to, at);
      var rest := ListWeeks(s, names, from + 1, to);
      if from in s {
        var row := Cached(s, names, from);
        assert ListWeeks(s, names, from, to) == [row] + rest;
        assert ([row] + rest)[1..] == rest;
        MidnightIsDay(from, at);
        MidnightIsDay(s[from].weekEnd, at);
        assert WeekCovers(s, from, at) <==> row.start * DAY <= at < row.end * DAY;
      } else {
        assert ListWeeks(s, names, from, to) == rest;
      }
    }
  }

  /** Rows of at most eight days; the roster service only ever stores seven. */
  ghost predicate RowsShort(s: Schedule) {
    forall ws :: ws in s ==> s[ws].weekEnd <= ws + 8
  }

  /** The prefetched range misses no such row that covers an instant of the window. */
  lemma {:induction false} PrefetchReachesFarEnough(s: Schedule, ws: int, from: int, to: int, at: int)
    requires RowsShort(s) && from <= at < to && WeekCovers(s, ws, at)
    ensures DayOf(from - 7 * DAY) <= ws <= DayOf(to)
  {
    PrefetchStart(from);
    MidnightIsDay(DayOf(from), at);
    MidnightIsDay(DayOf(from), from);
    MidnightIsDay(DayOf(at), to);
    MidnightIsDay(DayOf(at), at);
  }

  lemma {:induction false} PrefetchStart(from: int)
    ensures DayOf(from - 7 * DAY) == DayOf(from) - 7
  {
    var d := DayOf(from);
    MidnightIsDay(d, from);
    MidnightIsDay(d + 1, from);
    MidnightIsDay(d - 7, from - 7 * DAY);
    MidnightIsDay(d - 6, from - 7 * DAY);
  }

  /**
   Cache agrees with lookup: over any schedule of rows that short, the primary resolved from the
   prefetched rows is one the direct lookup may give, for every instant of the window.
   */
  lemma {:induction false} CacheAnswersDirectly(r: RosterRow, names: Names, from: int, to: int, at: int)
    requires RowsShort(r.schedule) && from <= at < to
    ensures DirectPrimary(r, names, at, ResolveFromCache(Prefetch(r, names, from, to), names, at).0)
  {
    FirstOverrideFound(r.overrides, from, to, at);
    FirstWeekFound(r.schedule, names, DayOf(from - 7 * DAY), DayOf(to), at);
    if !AnyOverride(r, at) && AnyWeek(r, at) {
      var ws :| WeekCovers(r.schedule, ws, at);
      PrefetchReachesFarEnough(r.schedule, ws, from, to, at);
    }
  }

  /** Whatever the window, the cache gives what a lookup gives. */
  ghost predicate CacheAlwaysAgrees(r: RosterRow, names: Names) {
    forall from, to, at :: from <= at < to ==>
      DirectPrimary(r, names, at, ResolveFromCache(Prefetch(r, names, from, to), names, at).0)
  }

  /** The instant is covered only by rows that began more than a week earlier. */
  ghost predicate OnlyLateRows(r: RosterRow, at: int) {
    AnyWeek(r, at) && forall ws :: WeekCovers(r.schedule, ws, at) ==> DayOf(at) >= ws + 8
  }

  /** Then an override hides that, or one of the rows names no primary anyway. */
  ghost predicate LateRowsHarmless(r: RosterRow, names: Names) {
    forall at :: OnlyLateRows(r, at) ==> AnyOverride(r, at) || UnnamedWeek(r, names, at)
  }

  ghost predicate UnnamedWeek(r: RosterRow, names: Names, at: int) {
    exists ws :: WeekCovers(r.schedule, ws, at) && NameOf(names, r.schedule[ws].primary) == ""
  }

  lemma {:induction false} HarmlessAgrees(r: RosterRow, names: Names, from: int, to: int, at: int)
    requires LateRowsHarmless(r, names) && from <= at < to
    ensures DirectPrimary(r, names, at, ResolveFromCache(Prefetch(r, names, from, to), names, at).0)
  {
    FirstOverrideFound(r.overrides, from, to, at);
    FirstWeekFound(r.schedule, names, DayOf(from - 7 * DAY), DayOf(to), at);
    PrefetchStart(from);
    MidnightIsDay(DayOf(from), at);
    MidnightIsDay(DayOf(from), from);
    MidnightIsDay(DayOf(at), at);
    MidnightIsDay(DayOf(at), to);
    hide DayOf;
    if !AnyOverride(r, at) && AnyWeek(r, at) {
      if ws :| WeekCovers(r.schedule, ws, at) && DayOf(at) < ws + 8 {
        assert DayOf(from - 7 * DAY) <= ws <= DayOf(to);
      } else {
        assert OnlyLateRows(r, at);
      }
    }
  }

  lemma {:induction false} LateRowsMissed(r: RosterRow, names: Names, at: int)
    requires OnlyLateRows(r, at) && !AnyOverride(r, at) && !UnnamedWeek(r, names, at)
    ensures !DirectPrimary(r, names, at, ResolveFromCache(Prefetch(r, names, at, at + 1), names, at).0)
  {
    PrefetchStart(at);
    FirstOverrideFound(r.overrides, at, at + 1, at);
    FirstWeekFound(r.schedule, names, DayOf(at - 7 * DAY), DayOf(at + 1), at);
    hide DayOf;
  }

  /**
   Exactly when the prefetched range is enough, for every table and any overrides: the cache agrees
   with the lookup for every window if and only if rows that began more than a week earlier never
   alone cover an instant, unless an override or an unnamed row hides it. Rows of at most eight days
   never do.
   */
  lemma {:induction false} PrefetchSufficesIff(r: RosterRow, names: Names)
    ensures CacheAlwaysAgrees(r, names) <==> LateRowsHarmless(r, names)
    ensures RowsShort(r.schedule) ==> LateRowsHarmless(r, names)
  {
    hide DirectPrimary;
    hide ResolveFromCache;
    hide Prefetch;
    hide DayOf;
    if LateRowsHarmless(r, names) {
      forall from, to, at | from <= at < to
        ensures DirectPrimary(r, names, at, ResolveFromCache(Prefetch(r, names, from, to), names, at).0)
      {
        HarmlessAgrees(r, names, from, to, at);
      }
    } else {
      var at :| OnlyLateRows(r, at) && !(AnyOverride(r, at) || UnnamedWeek(r, names, at));
      LateRowsMissed(r, names, at);
    }
  }

  /**
   What the other two parts of the answer mean: an override hides the secondary, a week with a
   primary gives both of its own, and a week without one counts as unassigned even if it has a
   secondary.
   */
  lemma {:induction false} CacheSource(r: RosterRow, names: Names, from: int, to: int, at: int)
    requires RowsShort(r.schedule) && from <= at < to && NoOverlap(r, at)
    ensures var (p, q, source) := ResolveFromCache(Prefetch(r, names, from, to), names, at);
            && (source == FromOverride <==> AnyOverride(r, at))
            && (source == FromSchedule <==>
                  && !AnyOverride(r, at)
                  && exists ws :: WeekCovers(r.schedule, ws, at) && NameOf(names, r.schedule[ws].primary) != "")
            && (forall ws :: source == FromSchedule && WeekCovers(r.schedule, ws, at) ==>
                  p == NameOf(names, r.schedule[ws].primary) && q == NameOf(names, r.schedule[ws].secondary))
            && (source != FromSchedule ==> q == "")
            && (source == Unassigned ==> p == "")
  {
    FirstOverrideFound(r.overrides, from, to, at);
    FirstWeekFound(r.schedule, names, DayOf(from - 7 * DAY), DayOf(to), at);
    forall ws | WeekCovers(r.schedule, ws, at)
      ensures DayOf(from - 7 * DAY) <= ws <= DayOf(to)
    {
      PrefetchReachesFarEnough(r.schedule, ws, from, to, at);
    }
    hide DayOf;
  }

  /** And without overlapping rows the lookup has only that answer. */
  lemma {:induction false} DirectAnswerUnique(r: RosterRow, names: Names, at: int, a: string, b: string)
    requires NoOverlap(r, at) && DirectPrimary(r, names, at, a) && DirectPrimary(r, names, at, b)
    ensures a == b
  {
    if AnyOverride(r, at) {
      var i :| 0 <= i < |r.overrides| && OverrideActive(r.overrides[i], at) && a == names(r.overrides[i].user);
      var j :| 0 <= j < |r.overrides| && OverrideActive(r.overrides[j], at) && b == names(r.overrides[j].user);
      assert i == j;
    } else if AnyWeek(r, at) {
      var v :| WeekCovers(r.schedule, v, at) && a == NameOf(names, r.schedule[v].primary);
      var w :| WeekCovers(r.schedule, w, at) && b == NameOf(names, r.schedule[w].primary);
    }
  }

  /**
   An instance, with a two-week row. The service never stores one, so this only shows why short rows
   are required: the report would call a covered instant unassigned.
   */
  lemma {:induction false} LongRowEscapesPrefetch(names: Names, u: UserId)
    requires names(u) != ""
    ensures var r := RosterRow(0, true, Shift(false, None, 0, None, None),
                               map[0 := Entry(14, Some(u), None, false, true, None)], []);
            var at := 8 * DAY;
            && ResolveFromCache(Prefetch(r, names, at, at + DAY), names, at).0 == ""
            && !DirectPrimary(r, names, at, "")
  {
    var r := RosterRow(0, true, Shift(false, None, 0, None, None),
                       map[0 := Entry(14, Some(u), None, false, true, None)], []);
    var at := 8 * DAY;
    MidnightIsDay(8, at);
    MidnightIsDay(9, at);
    PrefetchStart(at);
    FirstOverrideFound(r.overrides, at, at + DAY, at);
    FirstWeekFound(r.schedule, names, DayOf(at - 7 * DAY), DayOf(at + DAY), at);
    hide DayOf;
    assert WeekCovers(r.schedule, 0, at);
  }

  // ----- The report -----

  datatype SlotRoster = SlotRoster(id: nat, primary: string, secondary: string, source: Source)

  datatype Slot = Slot(time: int, coverage: seq<SlotRoster>, gap: bool)

  datatype Gap = Gap(start: int, end: int)

  datatype Report = Report(slots: seq<Slot>, gaps: seq<Gap>, totalGapMinutes: int)

  function ActiveRosters(rs: seq<RosterRow>): seq<RosterRow> {
    if rs == [] then []
    else ActiveRosters(rs[..|rs| - 1]) + (if rs[|rs| - 1].active then [rs[|rs| - 1]] else [])
  }

  function Resolution(minutes: int): int {
    if minutes <= 0 then 60 else minutes
  }

  /** The rosters on duty at an instant, each with what its cache resolves to. */
  function CoverageAt(rs: seq<RosterRow>, names: Names, from: int, to: int, at: int): seq<SlotRoster> {
    if rs == [] then []
    else
      var r := rs[|rs| - 1];
      CoverageAt(rs[..|rs| - 1], names, from, to, at)
      + if IsActiveAt(r.shift, at) then
          var (p, q, src) := ResolveFromCache(Prefetch(r, names, from, to), names, at);
          [SlotRoster(r.id, p, q, src)]
        else []
  }

  /** Slots at from, from + step, ... up to but not including to. */
  ghost predicate SlotsTile(slots: seq<Slot>, from: int, to: int, step: int) {
    && (forall k :: 0 <= k < |slots| ==> slots[k].time < to)
    && (from < to <==> slots != [])
    && (slots != [] ==> slots[0].time == from && slots[|slots| - 1].time + step >= to)
    && (forall k :: 0 < k < |slots| ==> slots[k].time == slots[k - 1].time + step)
  }

  /** Where the slot at position b begins, or the end of the window. */
  function Edge(slots: seq<Slot>, to: int, b: int): int {
    if 0 <= b < |slots| then slots[b].time else to
  }

  /** A half-open range of slot positions. */
  datatype Span = Span(first: int, end: int)

  /** The runs of gap slots. */
  function Runs(slots: seq<Slot>): seq<Span> {
    if slots == [] then []
    else
      var n := |slots| - 1;
      var runs := Runs(slots[..n]);
      var m := |runs| - 1;
      if !slots[n].gap then runs
      else if runs != [] && runs[m].end == n then runs[..m] + [Span(runs[m].first, n + 1)]
      else runs + [Span(n, n + 1)]
  }

  ghost predicate GapsAreRuns(slots: seq<Slot>, to: int, gaps: seq<Gap>) {
    var runs := Runs(slots);
    && |gaps| == |runs|
    && forall i :: 0 <= i < |gaps| ==>
         && 0 <= runs[i].first < |slots| && runs[i].end <= |slots|
         && gaps[i] == Gap(slots[runs[i].first].time, Edge(slots, to, runs[i].end))
  }

  /** The time covered by nobody: every gap slot's span, the last one clipped at the end of the window. */
  function GapTime(slots: seq<Slot>, to: int, step: int): int {
    if slots == [] then 0
    else
      var last := slots[|slots| - 1];
      GapTime(slots[..|slots| - 1], to, step) + (if last.gap then Min(last.time + step, to) - last.time else 0)
  }

  ghost predicate IsReport(rs: seq<RosterRow>, names: Names, from: int, to: int, resolution: int, rep: Report) {
    var active, step := ActiveRosters(rs), Resolution(resolution) * MINUTE;
    if active == [] then rep == Report([], [], 0)
    else
      && SlotsTile(rep.slots, from, to, step)
      && (forall k :: 0 <= k < |rep.slots| ==>
            && rep.slots[k].coverage == CoverageAt(active, names, from, to, rep.slots[k].time)
            && rep.slots[k].gap == (rep.slots[k].coverage == []))
      && GapsAreRuns(rep.slots, to, rep.gaps)
      && rep.totalGapMinutes * MINUTE <= GapTime(rep.slots, to, step) < rep.totalGapMinutes * MINUTE + MINUTE
  }

  method CoverageOfSlot(active: seq<RosterRow>, caches: seq<Cache>, names: Names, from: int, to: int, at: int)
    returns (coverage: seq<SlotRoster>)
    requires |caches| == |active|
    requires forall i :: 0 <= i < |active| ==> caches[i] == Prefetch(active[i], names, from, to)
    ensures coverage == CoverageAt(active, names, from, to, at)
  {
    hide Prefetch;
    hide ResolveFromCache;
    hide IsActiveAt;
    coverage := [];
    for i := 0 to |active|
      invariant coverage == CoverageAt(active[..i], names, from, to, at)
    {
      var r := active[i];
      assert active[..i + 1][..i] == active[..i];
      if !IsActiveAt(r.shift, at) {
        continue;
      }
      var (primary, secondary, source) := ResolveFromCache(caches[i], names, at);
      coverage := coverage + [SlotRoster(r.id, primary, secondary, source)];
    }
    assert active[..|active|] == active;
  }

  method PrefetchAll(active: seq<RosterRow>, names: Names, from: int, to: int) returns (caches: seq<Cache>)
    ensures |caches| == |active|
    ensures forall i :: 0 <= i < |active| ==> caches[i] == Prefetch(active[i], names, from, to)
  {
    hide Prefetch;
    caches := [];
    for i := 0 to |active|
      invariant |caches| == i
      invariant forall j :: 0 <= j < i ==> caches[j] == Prefetch(active[j], names, from, to)
    {
      caches := caches + [Prefetch(active[i], names, from, to)];
    }
  }

  lemma {:induction false} GapTimeNext(slots: seq<Slot>, slot: Slot, to: int, step: int)
    ensures GapTime(slots + [slot], to, step)
            == GapTime(slots, to, step) + (if slot.gap then Min(slot.time + step, to) - slot.time else 0)
  {
    assert (slots + [slot])[..|slots|] == slots;
  }

  /** What the last slot adds to the runs of the slots before it. */
  ghost predicate Extends(slots: seq<Slot>, was: seq<Span>, now: seq<Span>)
    requires slots != []
  {
    var n, m := |slots| - 1, |was| - 1;
    if !slots[n].gap then now == was
    else if was != [] && was[m].end == n then now == was[..m] + [Span(was[m].first, n + 1)]
    else now == was + [Span(n, n + 1)]
  }

  lemma {:induction false} RunsExtend(slots: seq<Slot>, slot: Slot)
    ensures Extends(slots + [slot], Runs(slots), Runs(slots + [slot]))
  {
    assert (slots + [slot])[..|slots|] == slots;
  }

  /** The slots so far step from the start of the window to t. */
  ghost predicate Stepped(slots: seq<Slot>, from: int, to: int, step: int, t: int) {
    && (slots == [] ==> t == from)
    && (slots != [] ==> slots[0].time == from && slots[|slots| - 1].time + step == t && from < to)
    && (forall k :: 0 < k < |slots| ==> slots[k].time == slots[k - 1].time + step)
    && (forall k :: 0 <= k < |slots| ==> slots[k].time < to)
  }

  ghost predicate Resolved(slots: seq<Slot>, active: seq<RosterRow>, names: Names, from: int, to: int) {
    forall k :: 0 <= k < |slots| ==>
      && slots[k].coverage == CoverageAt(active, names, from, to, slots[k].time)
      && slots[k].gap == (slots[k].coverage == [])
  }

  ghost predicate ClosedGap(slots: seq<Slot>, run: Span, g: Gap) {
    && 0 <= run.first < |slots| && 0 <= run.end < |slots|
    && g == Gap(slots[run.first].time, slots[run.end].time)
  }

  ghost predicate OpenGap(slots: seq<Slot>, run: Span, gapStart: int) {
    0 <= run.first < |slots| && run.end == |slots| && gapStart == slots[run.first].time
  }

  /** The closed gaps are the runs that have ended; the open one, if any, is the last run. */
  ghost predicate GapsBooked(slots: seq<Slot>, runs: seq<Span>, gaps: seq<Gap>, inGap: bool, gapStart: int) {
    && |runs| == |gaps| + (if inGap then 1 else 0)
    && (inGap ==> OpenGap(slots, runs[|gaps|], gapStart))
    && forall i :: 0 <= i < |gaps| ==> ClosedGap(slots, runs[i], gaps[i])
  }

  /** Closed gaps are whole minutes; with the open one so far they make up the uncovered time so far. */
  ghost predicate TimeBooked(slots: seq<Slot>, from: int, to: int, step: int, t: int, total: int, inGap: bool,
                             gapStart: int) {
    && (t - from) % MINUTE == 0 && (gapStart - from) % MINUTE == 0
    && GapTime(slots, to, step) == total * MINUTE + (if inGap then Min(t, to) - gapStart else 0)
  }

  lemma {:induction false} GapsBookedNext(slots: seq<Slot>, slot: Slot, was: seq<Span>, now: seq<Span>,
                                          gaps: seq<Gap>, inGap: bool, gapStart: int)
    requires GapsBooked(slots, was, gaps, inGap, gapStart) && Extends(slots + [slot], was, now)
    ensures slot.gap ==> GapsBooked(slots + [slot], now, gaps, true, if inGap then gapStart else slot.time)
    ensures !slot.gap ==>
              GapsBooked(slots + [slot], now, if inGap then gaps + [Gap(gapStart, slot.time)] else gaps,
                         false, gapStart)
  {
    forall i | 0 <= i < |gaps|
      ensures ClosedGap(slots + [slot], was[i], gaps[i])
    {
    }
    assert !inGap && was != [] ==> ClosedGap(slots, was[|was| - 1], gaps[|was| - 1]);
    if inGap {
      assert OpenGap(slots, was[|gaps|], gapStart);
      if slot.gap {
        assert OpenGap(slots + [slot], now[|gaps|], gapStart);
      } else {
        assert ClosedGap(slots + [slot], now[|gaps|], Gap(gapStart, slot.time));
      }
    } else if slot.gap {
      assert OpenGap(slots + [slot], now[|gaps|], slot.time);
    }
    hide ClosedGap;
    hide OpenGap;
  }

  lemma {:induction false} SteppedNext(slots: seq<Slot>, slot: Slot, from: int, to: int, step: int, t: int)
    requires Stepped(slots, from, to, step, t) && slot.time == t < to && step > 0
    ensures Stepped(slots + [slot], from, to, step, t + step)
  {
    assert forall k :: 0 <= k < |slots| ==> (slots + [slot])[k] == slots[k];
  }

  lemma {:induction false} TimeBookedNext(slots: seq<Slot>, slot: Slot, from: int, to: int, minutes: int, t: int,
                                          total: int, inGap: bool, gapStart: int)
    requires TimeBooked(slots, from, to, minutes * MINUTE, t, total, inGap, gapStart)
    requires slot.time == t < to && minutes > 0
    ensures var step := minutes * MINUTE;
            && (slot.gap ==>
                  TimeBooked(slots + [slot], from, to, step, t + step, total, true, if inGap then gapStart else t))
            && (!slot.gap ==>
                  TimeBooked(slots + [slot], from, to, step, t + step,
                             if inGap then total + (t - gapStart) / MINUTE else total, false, gapStart))
  {
    GapTimeNext(slots, slot, to, minutes * MINUTE);
    hide GapTime;
    assert (t - gapStart) % MINUTE == 0;
  }

  lemma {:induction false} ResolvedNext(slots: seq<Slot>, slot: Slot, active: seq<RosterRow>, names: Names,
                                        from: int, to: int)
    requires Resolved(slots, active, names, from, to)
    requires slot.coverage == CoverageAt(active, names, from, to, slot.time) && slot.gap == (slot.coverage == [])
    ensures Resolved(slots + [slot], active, names, from, to)
  {
    hide CoverageAt;
  }

  lemma {:induction false} NothingYet(active: seq<RosterRow>, names: Names, from: int, to: int, step: int)
    ensures Stepped([], from, to, step, from) && Resolved([], active, names, from, to)
    ensures GapsBooked([], Runs([]), [], false, from)
    ensures TimeBooked([], from, to, step, from, 0, false, from)
  {
  }

  lemma {:induction false} LoopDone(rs: seq<RosterRow>, names: Names, from: int, to: int, resolution: int, t: int,
                                    slots: seq<Slot>, gaps: seq<Gap>, total: int, inGap: bool, gapStart: int)
    requires ActiveRosters(rs) != [] && to <= t
    requires Stepped(slots, from, to, Resolution(resolution) * MINUTE, t)
    requires Resolved(slots, ActiveRosters(rs), names, from, to)
    requires GapsBooked(slots, Runs(slots), gaps, inGap, gapStart)
    requires TimeBooked(slots, from, to, Resolution(resolution) * MINUTE, t, total, inGap, gapStart)
    ensures IsReport(rs, names, from, to, resolution,
                     if inGap then Report(slots, gaps + [Gap(gapStart, to)], total + (to - gapStart) / MINUTE)
                     else Report(slots, gaps, total))
  {
    hide CoverageAt;
    hide Runs;
    hide GapTime;
    forall i | 0 <= i < |gaps|
      ensures ClosedGap(slots, Runs(slots)[i], gaps[i])
    {
    }
  }

  /**
   The slot loop. What it reports is exactly the runs of uncovered slots, and the total is the
   uncovered time rounded down by less than a minute.
   */
  method GetCoverage(rs: seq<RosterRow>, names: Names, from: int, to: int, resolution: int) returns (rep: Report)
    ensures IsReport(rs, names, from, to, resolution, rep)
  {
    hide CoverageAt;
    hide Runs;
    hide Stepped;
    hide Resolved;
    hide GapsBooked;
    hide TimeBooked;
    hide SlotsTile;
    hide GapsAreRuns;
    var minutes := resolution;
    if minutes <= 0 {
      minutes := 60;
    }
    var active := ActiveRosters(rs);
    if |active| == 0 {
      return Report([], [], 0);
    }
    var caches := PrefetchAll(active, names, from, to);
    var step := minutes * MINUTE;
    var slots: seq<Slot>, gaps: seq<Gap> := [], [];
    var total, inGap, gapStart := 0, false, from;
    var t := from;
    NothingYet(active, names, from, to, step);
    while t < to
      invariant Stepped(slots, from, to, step, t)
      invariant Resolved(slots, active, names, from, to)
      invariant GapsBooked(slots, Runs(slots), gaps, inGap, gapStart)
      invariant TimeBooked(slots, from, to, step, t, total, inGap, gapStart)
    {
      var coverage := CoverageOfSlot(active, caches, names, from, to, t);
      var slot := Slot(t, coverage, |coverage| == 0);
      SteppedNext(slots, slot, from, to, step, t);
      ResolvedNext(slots, slot, active, names, from, to);
      RunsExtend(slots, slot);
      GapsBookedNext(slots, slot, Runs(slots), Runs(slots + [slot]), gaps, inGap, gapStart);
      TimeBookedNext(slots, slot, from, to, minutes, t, total, inGap, gapStart);
      slots := slots + [slot];
      if slot.gap {
        if !inGap {
          inGap, gapStart := true, t;
        }
      } else if inGap {
        inGap := false;
        total := total + (t - gapStart) / MINUTE;
        gaps := gaps + [Gap(gapStart, t)];
      }
      t := t + step;
    }
    LoopDone(rs, names, from, to, resolution, t, slots, gaps, total, inGap, gapStart);
    if inGap {
      total := total + (to - gapStart) / MINUTE;
      gaps := gaps + [Gap(gapStart, to)];
    }
    return Report(slots, gaps, total);
  }

  // ----- What the report means -----

  /** A run of gap slots that cannot be extended on either side. */
  ghost predicate MaximalRun(slots: seq<Slot>, run: Span) {
    && 0 <= run.first < run.end <= |slots|
    && (forall k :: run.first <= k < run.end ==> slots[k].gap)
    && (run.first > 0 ==> !slots[run.first - 1].gap)
    && (run.end < |slots| ==> !slots[run.end].gap)
  }

  ghost predicate AllMaximal(slots: seq<Slot>, runs: seq<Span>) {
    forall i :: 0 <= i < |runs| ==> MaximalRun(slots, runs[i])
  }

  ghost predicate Separated(runs: seq<Span>) {
    forall i, j :: 0 <= i < j < |runs| ==> runs[i].end < runs[j].first
  }

  ghost predicate InSomeRun(runs: seq<Span>, k: int) {
    exists i :: 0 <= i < |runs| && runs[i].first <= k < runs[i].end
  }

  ghost predicate AllFound(slots: seq<Slot>, runs: seq<Span>) {
    forall k :: 0 <= k < |slots| && slots[k].gap ==> InSomeRun(runs, k)
  }

  lemma {:induction false} LastRunEnd(past: seq<Slot>, was: seq<Span>)
    requires AllMaximal(past, was) && Separated(was) && AllFound(past, was)
    ensures past != [] && past[|past| - 1].gap <==> was != [] && was[|was| - 1].end == |past|
    ensures forall i :: 0 <= i < |was| - 1 ==> was[i].end < |past|
  {
    var n, m := |past|, |was| - 1;
    if was != [] {
      assert MaximalRun(past, was[m]);
      assert past[was[m].end - 1].gap;
    }
    if n > 0 && past[n - 1].gap {
      var i :| 0 <= i < |was| && was[i].first <= n - 1 < was[i].end;
    }
  }

  lemma {:induction false} OneStillMaximal(past: seq<Slot>, slot: Slot, was: seq<Span>, now: seq<Span>, i: nat)
    requires AllMaximal(past, was) && i < |now| && Extends(past + [slot], was, now)
    requires past != [] && past[|past| - 1].gap <==> was != [] && was[|was| - 1].end == |past|
    requires forall j :: 0 <= j < |was| - 1 ==> was[j].end < |past|
    ensures MaximalRun(past + [slot], now[i])
  {
    assert i < |was| ==> MaximalRun(past, was[i]);
  }

  lemma {:induction false} StillMaximal(past: seq<Slot>, slot: Slot, was: seq<Span>, now: seq<Span>)
    requires AllMaximal(past, was) && Separated(was) && AllFound(past, was) && Extends(past + [slot], was, now)
    ensures AllMaximal(past + [slot], now) && Separated(now)
  {
    LastRunEnd(past, was);
    hide MaximalRun;
    hide AllFound;
    forall i | 0 <= i < |now|
      ensures MaximalRun(past + [slot], now[i])
    {
      OneStillMaximal(past, slot, was, now, i);
    }
    RunsWithin(past, was);
    StillSeparated(past, slot, was, now);
  }

  lemma {:induction false} RunsWithin(past: seq<Slot>, was: seq<Span>)
    requires AllMaximal(past, was)
    ensures forall i :: 0 <= i < |was| ==> was[i].first < was[i].end <= |past|
  {
    assert forall i :: 0 <= i < |was| ==> MaximalRun(past, was[i]);
  }

  lemma {:induction false} StillSeparated(past: seq<Slot>, slot: Slot, was: seq<Span>, now: seq<Span>)
    requires Separated(was) && Extends(past + [slot], was, now)
    requires forall i :: 0 <= i < |was| ==> was[i].first < was[i].end <= |past|
    ensures Separated(now)
  {
  }

  lemma {:induction false} StillFound(past: seq<Slot>, slot: Slot, was: seq<Span>, now: seq<Span>)
    requires AllMaximal(past, was) && AllFound(past, was) && Extends(past + [slot], was, now)
    ensures AllFound(past + [slot], now)
  {
    var slots, n := past + [slot], |past|;
    forall k | 0 <= k < |slots| && slots[k].gap
      ensures InSomeRun(now, k)
    {
      if k < n {
        assert InSomeRun(was, k);
        var i :| 0 <= i < |was| && was[i].first <= k < was[i].end;
        assert now[i].first <= k < now[i].end;
      } else {
        assert was != [] ==> MaximalRun(past, was[|was| - 1]);
        assert now[|now| - 1].first <= k < now[|now| - 1].end;
      }
    }
  }

  /**
   The reported runs are maximal runs of gap slots, in order with a covered slot between them,
   and every gap slot is in one.
   */
  lemma {:induction false} RunsAreMaximal(slots: seq<Slot>)
    ensures AllMaximal(slots, Runs(slots)) && Separated(Runs(slots)) && AllFound(slots, Runs(slots))
  {
    if slots != [] {
      var n := |slots| - 1;
      var past, slot := slots[..n], slots[n];
      RunsAreMaximal(past);
      RunsExtend(past, slot);
      assert past + [slot] == slots;
      StillMaximal(past, slot, Runs(past), Runs(slots));
      StillFound(past, slot, Runs(past), Runs(slots));
    }
  }

  lemma {:induction false} SlotTimes(slots: seq<Slot>, from: int, to: int, step: int, k: nat, l: nat)
    requires SlotsTile(slots, from, to, step) && step > 0 && k <= l <= |slots|
    ensures Edge(slots, to, k) <= Edge(slots, to, l)
    ensures k < l ==> Edge(slots, to, k) < Edge(slots, to, l)
    decreases l - k
  {
    if k < l {
      SlotTimes(slots, from, to, step, k + 1, l);
    }
  }

  /** A slot's span, clipped at the end of the window, ends where the next one begins. */
  predicate InSlot(slots: seq<Slot>, to: int, step: int, k: int, t: int)
    requires 0 <= k < |slots|
  {
    slots[k].time <= t < Min(slots[k].time + step, to)
  }

  lemma {:induction false} SlotEnds(slots: seq<Slot>, from: int, to: int, step: int, k: nat, t: int)
    requires SlotsTile(slots, from, to, step) && step > 0 && k < |slots|
    ensures InSlot(slots, to, step, k, t) <==> Edge(slots, to, k) <= t < Edge(slots, to, k + 1)
  {
    if k + 1 < |slots| {
      assert slots[k + 1].time == slots[k].time + step;
    }
  }

  lemma {:induction false} SlotAt(slots: seq<Slot>, to: int, first: nat, end: nat, t: int) returns (k: nat)
    requires first < end && Edge(slots, to, first) <= t < Edge(slots, to, end)
    ensures first <= k < end && Edge(slots, to, k) <= t < Edge(slots, to, k + 1)
    decreases end
  {
    if t >= Edge(slots, to, end - 1) {
      k := end - 1;
    } else {
      k := SlotAt(slots, to, first, end - 1, t);
    }
  }

  predicate InGap(g: Gap, t: int) {
    g.start <= t < g.end
  }

  lemma {:induction false} GapHasSlot(slots: seq<Slot>, from: int, to: int, step: int, gaps: seq<Gap>, i: nat, t: int)
    returns (k: nat)
    requires SlotsTile(slots, from, to, step) && step > 0 && GapsAreRuns(slots, to, gaps)
    requires i < |gaps| && InGap(gaps[i], t)
    ensures k < |slots| && slots[k].gap && InSlot(slots, to, step, k, t)
  {
    RunsAreMaximal(slots);
    var run := Runs(slots)[i];
    assert MaximalRun(slots, run);
    hide Runs;
    hide SlotsTile;
    EdgeInside(slots, to, run.first);
    hide Edge;
    k := SlotAt(slots, to, run.first, run.end, t);
    SlotEnds(slots, from, to, step, k, t);
  }

  lemma {:induction false} SlotHasGap(slots: seq<Slot>, from: int, to: int, step: int, gaps: seq<Gap>, k: nat, t: int)
    returns (i: nat)
    requires SlotsTile(slots, from, to, step) && step > 0 && GapsAreRuns(slots, to, gaps)
    requires k < |slots| && slots[k].gap && InSlot(slots, to, step, k, t)
    ensures i < |gaps| && InGap(gaps[i], t)
  {
    RunsAreMaximal(slots);
    assert InSomeRun(Runs(slots), k);
    i :| 0 <= i < |Runs(slots)| && Runs(slots)[i].first <= k < Runs(slots)[i].end;
    var run := Runs(slots)[i];
    hide Runs;
    hide SlotsTile;
    hide AllMaximal;
    hide AllFound;
    hide Separated;
    EdgeInside(slots, to, run.first);
    hide Edge;
    SlotEnds(slots, from, to, step, k, t);
    SlotTimes(slots, from, to, step, run.first, k);
    SlotTimes(slots, from, to, step, k + 1, run.end);
  }

  /** An instant lies in a reported gap exactly when it lies in a gap slot. */
  lemma {:induction false} GapInstantsIff(rs: seq<RosterRow>, names: Names, from: int, to: int, resolution: int,
                                          rep: Report, t: int)
    requires IsReport(rs, names, from, to, resolution, rep) && ActiveRosters(rs) != []
    ensures (exists i :: 0 <= i < |rep.gaps| && InGap(rep.gaps[i], t))
            <==> (exists k :: 0 <= k < |rep.slots| && rep.slots[k].gap
                              && InSlot(rep.slots, to, Resolution(resolution) * MINUTE, k, t))
  {
    hide CoverageAt;
    hide GapTime;
    hide ActiveRosters;
    hide SlotsTile;
    hide GapsAreRuns;
    var step := Resolution(resolution) * MINUTE;
    if i :| 0 <= i < |rep.gaps| && InGap(rep.gaps[i], t) {
      var k := GapHasSlot(rep.slots, from, to, step, rep.gaps, i, t);
    }
    if k :| 0 <= k < |rep.slots| && rep.slots[k].gap && InSlot(rep.slots, to, step, k, t) {
      var i := SlotHasGap(rep.slots, from, to, step, rep.gaps, k, t);
    }
  }

  lemma {:induction false} EdgeInside(slots: seq<Slot>, to: int, b: nat)
    requires b < |slots|
    ensures Edge(slots, to, b) == slots[b].time
  {
  }

  /** Every gap lies in the window and has a length. */
  lemma {:induction false} GapInWindow(rs: seq<RosterRow>, names: Names, from: int, to: int, resolution: int,
                                       rep: Report, i: nat)
    requires IsReport(rs, names, from, to, resolution, rep) && i < |rep.gaps|
    ensures from <= rep.gaps[i].start < rep.gaps[i].end <= to
  {
    hide CoverageAt;
    hide Runs;
    hide GapTime;
    hide ActiveRosters;
    hide Edge;
    var slots, run, step := rep.slots, Runs(rep.slots)[i], Resolution(resolution) * MINUTE;
    RunsAreMaximal(slots);
    assert MaximalRun(slots, run);
    EdgeInside(slots, to, run.first);
    EdgeInside(slots, to, 0);
    SlotTimes(slots, from, to, step, 0, run.first);
    SlotTimes(slots, from, to, step, run.first, run.end);
    SlotTimes(slots, from, to, step, run.end, |slots|);
    LastEdge(slots, to);
  }

  /** The gaps are reported in order, and covered time lies between any two. */
  lemma {:induction false} GapsApart(rs: seq<RosterRow>, names: Names, from: int, to: int, resolution: int,
                                     rep: Report, i: nat, j: nat)
    requires IsReport(rs, names, from, to, resolution, rep) && i < j < |rep.gaps|
    ensures from <= rep.gaps[i].start < rep.gaps[i].end < rep.gaps[j].start < rep.gaps[j].end <= to
  {
    hide CoverageAt;
    hide Runs;
    hide GapTime;
    hide ActiveRosters;
    hide Edge;
    var slots, runs, step := rep.slots, Runs(rep.slots), Resolution(resolution) * MINUTE;
    GapInWindow(rs, names, from, to, resolution, rep, i);
    GapInWindow(rs, names, from, to, resolution, rep, j);
    RunsAreMaximal(slots);
    assert MaximalRun(slots, runs[i]) && MaximalRun(slots, runs[j]);
    EdgeInside(slots, to, runs[j].first);
    SlotTimes(slots, from, to, step, runs[i].end, runs[j].first);
  }

  lemma {:induction false} LastEdge(slots: seq<Slot>, to: int)
    ensures Edge(slots, to, |slots|) == to
  {
  }

  lemma {:induction false} CoveredIffSomeoneActive(rs: seq<RosterRow>, names: Names, from: int, to: int, at: int)
    ensures CoverageAt(rs, names, from, to, at) != [] <==> exists i :: 0 <= i < |rs| && IsActiveAt(rs[i].shift, at)
  {
    hide IsActiveAt;
    hide ResolveFromCache;
    if rs != [] {
      var n := |rs| - 1;
      CoveredIffSomeoneActive(rs[..n], names, from, to, at);
      if i :| 0 <= i < n && IsActiveAt(rs[..n][i].shift, at) {
        assert IsActiveAt(rs[i].shift, at);
      }
      if i :| 0 <= i < |rs| && IsActiveAt(rs[i].shift, at) {
        assert i < n ==> rs[..n][i] == rs[i];
      }
    }
  }

  lemma {:induction false} NoGapSlotsNoGaps(slots: seq<Slot>, to: int, step: int)
    requires forall k :: 0 <= k < |slots| ==> !slots[k].gap
    ensures Runs(slots) == [] && GapTime(slots, to, step) == 0
  {
    if slots != [] {
      NoGapSlotsNoGaps(slots[..|slots| - 1], to, step);
    }
  }

  /** Two active rosters whose shifts fill the day leave the report without a gap. */
  lemma {:induction false} FollowTheSunReportsNoGap(rs: seq<RosterRow>, names: Names, from: int, to: int,
                                                    resolution: int, rep: Report, i: nat, j: nat)
    requires IsReport(rs, names, from, to, resolution, rep)
    requires i < |ActiveRosters(rs)| && j < |ActiveRosters(rs)|
    requires FillTheDay(ActiveRosters(rs)[i].shift, ActiveRosters(rs)[j].shift)
    ensures rep.gaps == [] && rep.totalGapMinutes == 0
  {
    hide IsActiveAt;
    hide CoverageAt;
    hide FillTheDay;
    var active := ActiveRosters(rs);
    var a, b := active[i].shift, active[j].shift;
    assert OnDutyDaily(a) && OnDutyDaily(b) by { FillersKnown(a, b); }
    CoverAlwaysIff(a, b);
    forall k | 0 <= k < |rep.slots|
      ensures !rep.slots[k].gap
    {
      var at := rep.slots[k].time;
      CoveredIffSomeoneActive(active, names, from, to, at);
      assert IsActiveAt(a, at) || IsActiveAt(b, at);
    }
    NoGapSlotsNoGaps(rep.slots, to, Resolution(resolution) * MINUTE);
  }

  lemma {:induction false} FillersKnown(a: Shift, b: Shift)
    requires FillTheDay(a, b)
    ensures OnDutyDaily(a) && OnDutyDaily(b)
  {
  }
}
