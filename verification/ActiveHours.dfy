/** When a follow-the-sun roster is on duty. Instants are nanoseconds; zones are fixed minute offsets. */
module ActiveHours {
  import opened Wrappers

  const MINUTE := 60_000_000_000
  const DAY_MINUTES := 1440

  /** A zone of None is one that cannot be loaded. Times of day are minutes after midnight. */
  datatype Shift = Shift(followTheSun: bool, zone: Option<int>, handoff: int,
                         activeStart: Option<int>, activeEnd: Option<int>)

  predicate ShiftValid(s: Shift) {
    && 0 <= s.handoff < DAY_MINUTES
    && (s.activeStart.Some? ==> 0 <= s.activeStart.value < DAY_MINUTES)
    && (s.activeEnd.Some? ==> 0 <= s.activeEnd.value < DAY_MINUTES)
  }

  function LocalMinute(at: int, offset: int): int {
    (at / MINUTE + offset) % DAY_MINUTES
  }

  predicate IsInHandoffWindow(s: Shift, at: int) {
    if s.zone.None? then false
    else
      var now := LocalMinute(at, s.zone.value);
      var shiftEnd := s.handoff + 12 * 60;
      if shiftEnd >= 24 * 60 then now >= s.handoff || now < shiftEnd - 24 * 60
      else now >= s.handoff && now < shiftEnd
  }

  predicate IsInActiveHours(s: Shift, at: int) {
    if s.activeStart.None? || s.activeEnd.None? then IsInHandoffWindow(s, at)
    else if s.zone.None? then false
    else
      var now := LocalMinute(at, s.zone.value);
      if s.activeEnd.value > s.activeStart.value then now >= s.activeStart.value && now < s.activeEnd.value
      else now >= s.activeStart.value || now < s.activeEnd.value
  }

  predicate IsActiveAt(s: Shift, at: int) {
    !s.followTheSun || IsInActiveHours(s, at)
  }

  /** The one question both tests ask: is `now` within `length` minutes after `start`, around the clock? */
  predicate InDailyWindow(now: int, start: int, length: int) {
    (now - start) % DAY_MINUTES < length
  }

  function WindowStart(s: Shift): int {
    if s.activeStart.None? || s.activeEnd.None? then s.handoff else s.activeStart.value
  }

  /** Equal ends mean all day; without active hours the shift is twelve hours from the handoff. */
  function WindowLength(s: Shift): int {
    if s.activeStart.None? || s.activeEnd.None? then 720
    else if s.activeEnd == s.activeStart then DAY_MINUTES
    else (s.activeEnd.value - s.activeStart.value) % DAY_MINUTES
  }

  /** A roster that does not follow the sun is always on duty; another, inside its window. */
  lemma {:induction false} ActiveIffInDailyWindow(s: Shift, at: int)
    requires ShiftValid(s)
    ensures IsActiveAt(s, at) <==>
            || !s.followTheSun
            || (s.zone.Some? && InDailyWindow(at / MINUTE + s.zone.value, WindowStart(s), WindowLength(s)))
  {
    if s.zone.Some? {
      var m, st := at / MINUTE + s.zone.value, WindowStart(s);
      var now := m % DAY_MINUTES;
      assert (m - st) % DAY_MINUTES == if now >= st then now - st else now - st + DAY_MINUTES;
    }
  }

  /**
   Said of the fields alone: x minutes after its start a shift with active hours is on duty until its
   end, all day if that is its start; without them, until twelve hours after the handoff.
   */
  lemma {:induction false} OnDutyFromStartToEnd(s: Shift, at: int, x: int)
    requires ShiftValid(s) && s.followTheSun && s.zone.Some? && 0 <= x < 1440
    ensures s.activeStart.Some? && s.activeEnd.Some?
            && (at / MINUTE + s.zone.value - s.activeStart.value) % 1440 == x ==>
              (IsActiveAt(s, at) <==>
                 s.activeEnd == s.activeStart || x < (s.activeEnd.value - s.activeStart.value) % 1440)
    ensures (s.activeStart.None? || s.activeEnd.None?) && (at / MINUTE + s.zone.value - s.handoff) % 1440 == x ==>
              (IsActiveAt(s, at) <==> x < 720)
  {
    ActiveIffInDailyWindow(s, at);
    hide IsActiveAt;
  }

  /** A shift in a known zone that goes by the twelve-hour rule, because its active hours are incomplete. */
  predicate ByHandoff(s: Shift) {
    ShiftValid(s) && s.followTheSun && s.zone.Some? && (s.activeStart.None? || s.activeEnd.None?)
  }

  predicate HandoffPair(a: Shift, b: Shift) {
    ByHandoff(a) && ByHandoff(b)
  }

  /** Minutes from b's handoff to a's, both on the same clock. */
  function HandoffDistance(a: Shift, b: Shift): int
    requires HandoffPair(a, b)
  {
    ((a.handoff - a.zone.value) - (b.handoff - b.zone.value)) % DAY_MINUTES
  }

  /** Minutes on a common clock at which a shift begins, each day. */
  function Begin(s: Shift): int
    requires s.zone.Some?
  {
    WindowStart(s) - s.zone.value
  }

  predicate OnDutyDaily(s: Shift) {
    ShiftValid(s) && s.followTheSun && s.zone.Some?
  }

  lemma {:induction false} WindowLengthFits(s: Shift)
    requires OnDutyDaily(s)
    ensures 1 <= WindowLength(s) <= DAY_MINUTES
  {
  }

  /** Both shifts on a clock that starts with the first one. */
  lemma {:induction false} PairAt(a: Shift, b: Shift, at: int)
    requires OnDutyDaily(a) && OnDutyDaily(b)
    ensures var x := (at / MINUTE - Begin(a)) % DAY_MINUTES;
            && (IsActiveAt(a, at) <==> x < WindowLength(a))
            && (IsActiveAt(b, at) <==> (x - (Begin(b) - Begin(a)) % DAY_MINUTES) % DAY_MINUTES < WindowLength(b))
  {
    hide IsActiveAt;
    hide WindowStart;
    hide WindowLength;
    ActiveIffInDailyWindow(a, at);
    ActiveIffInDailyWindow(b, at);
    ClocksDiffer(at / MINUTE - Begin(a), Begin(b) - Begin(a));
  }

  lemma {:induction false} ClocksDiffer(x: int, d: int)
    ensures (x % DAY_MINUTES - d % DAY_MINUTES) % DAY_MINUTES == (x - d) % DAY_MINUTES
  {
  }

  /** b begins where a ends, and they fill the day. */
  predicate Complementary(a: Shift, b: Shift) {
    && OnDutyDaily(a) && OnDutyDaily(b)
    && WindowLength(a) + WindowLength(b) == DAY_MINUTES
    && (Begin(b) - Begin(a)) % DAY_MINUTES == WindowLength(a)
  }

  /** An instant x minutes after a begins. */
  function After(a: Shift, x: int): int
    requires a.zone.Some?
  {
    (Begin(a) + x) * MINUTE
  }

  lemma {:induction false} AfterIs(a: Shift, b: Shift, x: int)
    requires OnDutyDaily(a) && OnDutyDaily(b) && 0 <= x < DAY_MINUTES
    ensures IsActiveAt(a, After(a, x)) <==> x < WindowLength(a)
    ensures IsActiveAt(b, After(a, x)) <==> (x - (Begin(b) - Begin(a)) % DAY_MINUTES) % DAY_MINUTES < WindowLength(b)
  {
    PairAt(a, b, After(a, x));
    hide IsActiveAt;
    hide WindowStart;
    hide WindowLength;
    assert After(a, x) / MINUTE - Begin(a) == x;
  }

  /**
   Any two follow-the-sun shifts in known zones cover every instant exactly once if and only if
   together they last a day and one begins where the other ends.
   */
  lemma {:induction false} CoverExactlyOnceIff(a: Shift, b: Shift)
    requires OnDutyDaily(a) && OnDutyDaily(b)
    ensures (forall at :: IsActiveAt(a, at) != IsActiveAt(b, at)) <==> Complementary(a, b)
  {
    hide IsActiveAt;
    WindowLengthFits(a);
    WindowLengthFits(b);
    var d, la, lb := (Begin(b) - Begin(a)) % DAY_MINUTES, WindowLength(a), WindowLength(b);
    hide WindowStart;
    hide WindowLength;
    hide Begin;
    if Complementary(a, b) {
      forall at
        ensures IsActiveAt(a, at) != IsActiveAt(b, at)
      {
        PairAt(a, b, at);
      }
    } else {
      var x := Overlap(d, la, lb);
      AfterIs(a, b, x);
      assert IsActiveAt(a, After(a, x)) == IsActiveAt(b, After(a, x));
    }
  }

  /** A minute at which both windows are open or both closed. */
  lemma {:induction false} Overlap(d: int, la: int, lb: int) returns (x: int)
    requires 0 <= d < DAY_MINUTES && 1 <= la <= DAY_MINUTES && 1 <= lb <= DAY_MINUTES
    requires !(la + lb == DAY_MINUTES && d == la)
    ensures 0 <= x < DAY_MINUTES && (x < la <==> (x - d) % DAY_MINUTES < lb)
  {
    if d < la {
      x := d;
    } else if d > la {
      x := if (d - 1 - d) % DAY_MINUTES < lb then 0 else d - 1;
      if (d - 1 - d) % DAY_MINUTES < lb {
        assert lb == DAY_MINUTES;
      }
    } else if la + lb > DAY_MINUTES {
      x := 0;
      assert (0 - d) % DAY_MINUTES == DAY_MINUTES - d;
    } else {
      x := la + lb;
    }
  }

  /** One lasts all day, or b begins before a ends and lasts until a begins again. */
  predicate FillTheDay(a: Shift, b: Shift) {
    && OnDutyDaily(a) && OnDutyDaily(b)
    && (|| WindowLength(a) == DAY_MINUTES
        || WindowLength(b) == DAY_MINUTES
        || ((Begin(b) - Begin(a)) % DAY_MINUTES <= WindowLength(a)
            && (Begin(b) - Begin(a)) % DAY_MINUTES + WindowLength(b) >= DAY_MINUTES))
  }

  /** Any two such shifts leave no instant uncovered if and only if they fill the day. */
  lemma {:induction false} CoverAlwaysIff(a: Shift, b: Shift)
    requires OnDutyDaily(a) && OnDutyDaily(b)
    ensures (forall at :: IsActiveAt(a, at) || IsActiveAt(b, at)) <==> FillTheDay(a, b)
  {
    hide IsActiveAt;
    WindowLengthFits(a);
    WindowLengthFits(b);
    var d, la, lb := (Begin(b) - Begin(a)) % DAY_MINUTES, WindowLength(a), WindowLength(b);
    hide WindowStart;
    hide WindowLength;
    hide Begin;
    if FillTheDay(a, b) {
      forall at
        ensures IsActiveAt(a, at) || IsActiveAt(b, at)
      {
        PairAt(a, b, at);
      }
    } else {
      var x := if d > la then d - 1 else if la >= d + lb then la else d + lb;
      AfterIs(a, b, x);
      assert !IsActiveAt(a, After(a, x)) && !IsActiveAt(b, After(a, x));
    }
  }

  /** Complementary shifts do, and so do two that hand over twelve hours apart. */
  lemma {:induction false} ComplementaryFill(a: Shift, b: Shift)
    requires Complementary(a, b) || (HandoffPair(a, b) && HandoffDistance(a, b) == 720)
    ensures FillTheDay(a, b)
  {
    if HandoffPair(a, b) {
      HandoffsTwelveHoursApart(a, b);
    }
    hide WindowStart;
    hide WindowLength;
    hide Begin;
  }

  /** Two shifts that go by the twelve-hour rule are complementary exactly when their handoffs are as far apart. */
  lemma {:induction false} HandoffsTwelveHoursApart(a: Shift, b: Shift)
    requires HandoffPair(a, b)
    ensures Complementary(a, b) <==> HandoffDistance(a, b) == 720
  {
    ClockFlips(Begin(a) - Begin(b));
  }

  lemma {:induction false} ClockFlips(x: int)
    ensures x % DAY_MINUTES == 720 <==> (-x) % DAY_MINUTES == 720
  {
  }
}
