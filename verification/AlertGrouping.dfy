/** Alerts are put into groups as they arrive, or later when a rule is created; groups keep counters. */
module AlertGrouping {
  import opened Wrappers
  import opened GroupKeys
  import opened KeySeparation

  datatype Matcher = Matcher(key: string, op: string, value: string)

  /** Matching a pattern against a text; None when the pattern does not compile. */
  type Regexp = (string, string) -> Option<bool>

  datatype Rule = Rule(id: nat, enabled: bool, matchers: seq<Matcher>, groupBy: seq<string>)

  /** Labels of None could not be parsed. */
  datatype Alert = Alert(severity: string, labels: Option<Labels>, firing: bool)

  datatype GroupKey = GroupKey(rule: nat, key: string)

  datatype Group = Group(alertCount: nat, maxSeverity: string)

  /** The group table, and for each alert, in order of arrival, the group it is assigned to. */
  datatype State = State(groups: map<GroupKey, Group>, groupOf: seq<Option<GroupKey>>)

  // ----- Matching -----

  function Lookup(l: Labels, k: string): string {
    if k in l then l[k] else ""
  }

  predicate Matches(m: Matcher, l: Labels, re: Regexp) {
    var v := Lookup(l, m.key);
    if m.op == "=" then v == m.value
    else if m.op == "!=" then v != m.value
    else if m.op == "=~" then re(m.value, v) == Some(true)
    else if m.op == "!~" then re(m.value, v) == Some(false)
    else false
  }

  method MatchAlert(matchers: seq<Matcher>, l: Labels, re: Regexp) returns (r: bool)
    ensures r <==> forall i :: 0 <= i < |matchers| ==> Matches(matchers[i], l, re)
  {
    for i := 0 to |matchers|
      invariant forall j :: 0 <= j < i ==> Matches(matchers[j], l, re)
    {
      var m := matchers[i];
      var v := Lookup(l, m.key);
      if m.op == "=" {
        if v != m.value {
          return false;
        }
      } else if m.op == "!=" {
        if v == m.value {
          return false;
        }
      } else if m.op == "=~" {
        var compiled := re(m.value, v);
        if compiled.None? || !compiled.value {
          return false;
        }
      } else if m.op == "!~" {
        var compiled := re(m.value, v);
        if compiled.None? || compiled.value {
          return false;
        }
      } else {
        return false;
      }
    }
    return true;
  }

  function GroupByLabels(groupBy: seq<string>, l: Labels): Labels {
    map k | k in groupBy :: Lookup(l, k)
  }

  method ExtractGroupByLabels(groupBy: seq<string>, l: Labels) returns (result: Labels)
    ensures result == GroupByLabels(groupBy, l)
  {
    result := map[];
    for i := 0 to |groupBy|
      invariant result == map k | k in groupBy[..i] :: Lookup(l, k)
    {
      result := result[groupBy[i] := Lookup(l, groupBy[i])];
    }
    assert groupBy[..|groupBy|] == groupBy;
  }

  // ----- Severities -----

  function SeverityRank(s: string): nat {
    if s == "critical" then 4
    else if s == "major" then 3
    else if s == "warning" then 2
    else if s == "info" then 1
    else 0
  }

  function MaxSeverityOf(a: string, b: string): string {
    if SeverityRank(a) >= SeverityRank(b) then a else b
  }

  /** The CASE expression of the counter update. */
  function CaseSeverity(current: string, s: string): string {
    if s == "critical" then "critical"
    else if s == "major" && current != "critical" then "major"
    else if s == "warning" && current != "critical" && current != "major" then "warning"
    else current
  }

  /** The CASE is the rank maximum, except that it never raises an unknown severity to info. */
  lemma {:induction false} CaseIsMaxSeverityIff(current: string, s: string)
    ensures CaseSeverity(current, s) == MaxSeverityOf(current, s)
            <==> !(SeverityRank(current) == 0 && s == "info" && current != s)
  {
  }

  // ----- Joining a group -----

  function Joined(groups: map<GroupKey, Group>, k: GroupKey, severity: string): map<GroupKey, Group> {
    var g := if k in groups then groups[k] else Group(0, "info");
    groups[k := Group(g.alertCount + 1, CaseSeverity(g.maxSeverity, severity))]
  }

  function Assign(st: State, i: nat, k: GroupKey, severity: string): State
    requires i < |st.groupOf|
  {
    State(Joined(st.groups, k, severity), st.groupOf[i := Some(k)])
  }

  ghost predicate RuleMatches(r: Rule, l: Labels, re: Regexp) {
    forall i :: 0 <= i < |r.matchers| ==> Matches(r.matchers[i], l, re)
  }

  /** The one key of these labels. */
  ghost function KeyOf(l: Labels): (key: string)
    ensures IsKey(l, key)
  {
    KeyExists(l);
    var key :| IsKey(l, key);
    key
  }

  /** The group an enabled rule would put the alert in. */
  ghost function Target(r: Rule, a: Alert, re: Regexp): Option<GroupKey> {
    if r.enabled && a.labels.Some? && RuleMatches(r, a.labels.value, re)
    then Some(GroupKey(r.id, KeyOf(GroupByLabels(r.groupBy, a.labels.value))))
    else None
  }

  /** The first matching rule wins. */
  ghost function FirstTarget(rules: seq<Rule>, a: Alert, re: Regexp): Option<GroupKey> {
    if rules == [] then None
    else
      var r := FirstTarget(rules[..|rules| - 1], a, re);
      if r.Some? then r else Target(rules[|rules| - 1], a, re)
  }

  ghost function Evaluated(rules: seq<Rule>, alerts: seq<Alert>, st: State, i: nat, re: Regexp): State
    requires i < |alerts| && i < |st.groupOf|
  {
    var k := FirstTarget(rules, alerts[i], re);
    if k.Some? then Assign(st, i, k.value, alerts[i].severity) else st
  }

  ghost function BackfillStep(r: Rule, alerts: seq<Alert>, st: State, i: nat, re: Regexp): State
    requires i < |alerts| == |st.groupOf|
  {
    var k := Target(r, alerts[i], re);
    if st.groupOf[i].None? && alerts[i].firing && k.Some? then Assign(st, i, k.value, alerts[i].severity) else st
  }

  /** The first n alerts seen by a backfill of r. */
  ghost function Backfilled(r: Rule, alerts: seq<Alert>, st: State, n: nat, re: Regexp): (st': State)
    requires n <= |alerts| == |st.groupOf|
    ensures |st'.groupOf| == |st.groupOf|
  {
    if n == 0 then st else BackfillStep(r, alerts, Backfilled(r, alerts, st, n - 1, re), n - 1, re)
  }

  function Ungrouped(groupOf: seq<Option<GroupKey>>): nat {
    if groupOf == [] then 0
    else Ungrouped(groupOf[1..]) + if groupOf[0].None? then 1 else 0
  }

  lemma {:induction false} OneLessUngrouped(groupOf: seq<Option<GroupKey>>, i: nat, k: GroupKey)
    requires i < |groupOf| && groupOf[i].None?
    ensures Ungrouped(groupOf[i := Some(k)]) == Ungrouped(groupOf) - 1
  {
    if i == 0 {
      assert groupOf[0 := Some(k)][1..] == groupOf[1..];
    } else {
      OneLessUngrouped(groupOf[1..], i - 1, k);
      assert groupOf[i := Some(k)][1..] == groupOf[1..][i - 1 := Some(k)];
    }
  }

  // ----- The service -----

  class GroupingService {
    const re: Regexp
    var rules: seq<Rule>
    var alerts: seq<Alert>
    var groups: map<GroupKey, Group>
    var groupOf: seq<Option<GroupKey>>

    constructor (re: Regexp)
      ensures this.re == re && rules == [] && alerts == [] && groups == map[] && groupOf == []
    {
      this.re := re;
      rules, alerts, groups, groupOf := [], [], map[], [];
    }

    ghost function Current(): State
      reads this
    {
      State(groups, groupOf)
    }

    method FindOrCreateGroup(k: GroupKey)
      modifies this`groups
      ensures groups == if k in old(groups) then old(groups) else old(groups)[k := Group(0, "info")]
    {
      if k !in groups {
        groups := groups[k := Group(0, "info")];
      }
    }

    method AssignAlertToGroup(i: nat, k: GroupKey, severity: string)
      requires i < |groupOf| && k in groups
      modifies this`groups, this`groupOf
      ensures groupOf == old(groupOf)[i := Some(k)]
      ensures var g := old(groups)[k];
              groups == old(groups)[k := Group(g.alertCount + 1, CaseSeverity(g.maxSeverity, severity))]
    {
      groupOf := groupOf[i := Some(k)];
      groups := groups[k := Group(groups[k].alertCount + 1, CaseSeverity(groups[k].maxSeverity, severity))];
    }

    /** The shared tail of both loops: key, group, assignment. */
    method PutInGroup(i: nat, r: Rule, l: Labels) returns (k: GroupKey)
      requires i < |groupOf| && i < |alerts|
      requires r.enabled && alerts[i].labels == Some(l) && RuleMatches(r, l, re)
      modifies this`groups, this`groupOf
      ensures Target(r, alerts[i], re) == Some(k)
      ensures Current() == Assign(old(Current()), i, k, alerts[i].severity)
    {
      var labels := ExtractGroupByLabels(r.groupBy, l);
      var key := ComputeGroupKey(labels);
      KeyUnique(labels, key, KeyOf(labels));
      k := GroupKey(r.id, key);
      FindOrCreateGroup(k);
      AssignAlertToGroup(i, k, alerts[i].severity);
    }

    method Evaluate(i: nat) returns (matched: Option<GroupKey>)
      requires i < |alerts| == |groupOf|
      modifies this`groups, this`groupOf
      ensures Current() == Evaluated(rules, alerts, old(Current()), i, re)
      ensures matched == FirstTarget(rules, alerts[i], re)
    {
      if alerts[i].labels.None? {
        NoLabelsNoTarget(rules, alerts[i], re);
        return None;
      }
      var l := alerts[i].labels.value;
      for n := 0 to |rules|
        invariant FirstTarget(rules[..n], alerts[i], re) == None
        invariant unchanged(this)
      {
        assert rules[..n + 1][..n] == rules[..n];
        var r := rules[n];
        if !r.enabled {
          continue;
        }
        var matches := MatchAlert(r.matchers, l, re);
        if !matches {
          continue;
        }
        var k := PutInGroup(i, r, l);
        FirstTargetWins(rules, n, alerts[i], re);
        return Some(k);
      }
      assert rules[..|rules|] == rules;
      return None;
    }

    /** Alerts that are already grouped, no longer fire or do not match are passed over. */
    method BackfillRule(r: Rule) returns (grouped: nat)
      requires |alerts| == |groupOf|
      modifies this`groups, this`groupOf
      ensures Current() == Backfilled(r, alerts, old(Current()), |alerts|, re)
      ensures grouped == Ungrouped(old(groupOf)) - Ungrouped(groupOf)
    {
      grouped := 0;
      if !r.enabled {
        DisabledBackfill(r, alerts, Current(), |alerts|, re);
        return;
      }
      for i := 0 to |alerts|
        invariant |alerts| == |groupOf|
        invariant alerts == old(alerts)
        invariant Current() == Backfilled(r, alerts, old(Current()), i, re)
        invariant grouped == Ungrouped(old(groupOf)) - Ungrouped(groupOf)
      {
        if groupOf[i].Some? || !alerts[i].firing || alerts[i].labels.None? {
          continue;
        }
        var l := alerts[i].labels.value;
        var matches := MatchAlert(r.matchers, l, re);
        if !matches {
          continue;
        }
        ghost var before := groupOf;
        var k := PutInGroup(i, r, l);
        OneLessUngrouped(before, i, k);
        grouped := grouped + 1;
      }
    }
  }

  lemma {:induction false} NoLabelsNoTarget(rules: seq<Rule>, a: Alert, re: Regexp)
    requires a.labels.None?
    ensures FirstTarget(rules, a, re) == None
  {
    if rules != [] {
      NoLabelsNoTarget(rules[..|rules| - 1], a, re);
    }
  }

  lemma {:induction false} FirstTargetWins(rules: seq<Rule>, n: nat, a: Alert, re: Regexp)
    requires n < |rules| && FirstTarget(rules[..n], a, re) == None && Target(rules[n], a, re).Some?
    ensures FirstTarget(rules, a, re) == Target(rules[n], a, re)
    decreases |rules|
  {
    if n == |rules| - 1 {
    } else {
      assert rules[..|rules| - 1][..n] == rules[..n];
      FirstTargetWins(rules[..|rules| - 1], n, a, re);
    }
  }

  lemma {:induction false} DisabledBackfill(r: Rule, alerts: seq<Alert>, st: State, n: nat, re: Regexp)
    requires !r.enabled && n <= |alerts| == |st.groupOf|
    ensures Backfilled(r, alerts, st, n, re) == st
  {
    if n > 0 {
      DisabledBackfill(r, alerts, st, n - 1, re);
    }
  }

  // ----- Backfill equals online grouping -----

  /** The alerts as they arrive, each evaluated once against the same rules. */
  ghost function Online(rules: seq<Rule>, alerts: seq<Alert>, re: Regexp): (st: State)
    ensures |st.groupOf| == |alerts|
  {
    if alerts == [] then State(map[], [])
    else
      var n := |alerts| - 1;
      var st := Online(rules, alerts[..n], re);
      Evaluated(rules, alerts, State(st.groups, st.groupOf + [None]), n, re)
  }

  /** A rule with the highest position comes into play only when no other rule matches. */
  lemma {:induction false} LastRuleTarget(rules: seq<Rule>, r: Rule, a: Alert, re: Regexp)
    ensures FirstTarget(rules + [r], a, re) ==
            if FirstTarget(rules, a, re).Some? then FirstTarget(rules, a, re) else Target(r, a, re)
  {
    assert (rules + [r])[..|rules|] == rules;
  }

  lemma {:induction false} TargetRule(rules: seq<Rule>, a: Alert, re: Regexp)
    ensures FirstTarget(rules, a, re).Some? ==>
              exists i :: 0 <= i < |rules| && rules[i].id == FirstTarget(rules, a, re).value.rule
  {
    if rules != [] {
      var n := |rules| - 1;
      TargetRule(rules[..n], a, re);
      if FirstTarget(rules[..n], a, re).Some? {
        var i :| 0 <= i < n && rules[..n][i].id == FirstTarget(rules[..n], a, re).value.rule;
        assert rules[i].id == FirstTarget(rules, a, re).value.rule;
      } else if FirstTarget(rules, a, re).Some? {
        assert rules[n].id == FirstTarget(rules, a, re).value.rule;
      }
    }
  }

  lemma {:induction false} JoinsCommute(groups: map<GroupKey, Group>, k: GroupKey, s: string, k': GroupKey, s': string)
    requires k != k'
    ensures Joined(Joined(groups, k, s), k', s') == Joined(Joined(groups, k', s'), k, s)
  {
  }

  /** Backfilling earlier alerts is blind to one that arrives later, whatever other rule groups it. */
  lemma {:induction false} BackfillIgnoresLater(r: Rule, alerts: seq<Alert>, st: State, n: nat,
                                                last: Option<GroupKey>, re: Regexp)
    requires n < |alerts| == |st.groupOf| + 1 && n <= |st.groupOf|
    requires last.Some? ==> last.value.rule != r.id
    ensures var a := alerts[|st.groupOf|];
            var past := Backfilled(r, alerts[..|st.groupOf|], st, n, re);
            Backfilled(r, alerts, Arrived(st, last, a.severity), n, re) == Arrived(past, last, a.severity)
  {
    if n > 0 {
      BackfillIgnoresLater(r, alerts, st, n - 1, last, re);
      var past := Backfilled(r, alerts[..|st.groupOf|], st, n - 1, re);
      var k := Target(r, alerts[n - 1], re);
      if past.groupOf[n - 1].None? && alerts[n - 1].firing && k.Some? {
        ArrivalCommutes(past, n - 1, k.value, alerts[n - 1].severity, last, alerts[|st.groupOf|].severity);
      }
    }
  }

  /** One more alert, grouped under `last` if that is a group. */
  ghost function Arrived(st: State, last: Option<GroupKey>, severity: string): State {
    State(if last.Some? then Joined(st.groups, last.value, severity) else st.groups, st.groupOf + [last])
  }

  lemma {:induction false} ArrivalCommutes(st: State, i: nat, k: GroupKey, s: string, last: Option<GroupKey>,
                                           s': string)
    requires i < |st.groupOf| && (last.Some? ==> last.value != k)
    ensures Assign(Arrived(st, last, s'), i, k, s) == Arrived(Assign(st, i, k, s), last, s')
  {
    if last.Some? {
      JoinsCommute(st.groups, last.value, s', k, s);
    }
  }

  lemma {:induction false} OnlineNext(rules: seq<Rule>, alerts: seq<Alert>, re: Regexp)
    requires alerts != []
    ensures var n := |alerts| - 1;
            Online(rules, alerts, re)
            == Arrived(Online(rules, alerts[..n], re), FirstTarget(rules, alerts[n], re), alerts[n].severity)
  {
    var n := |alerts| - 1;
    var st, k := Online(rules, alerts[..n], re), FirstTarget(rules, alerts[n], re);
    assert (st.groupOf + [None])[n := k] == st.groupOf + [k];
  }

  /** Each alert is in the group of its first matching rule. */
  lemma {:induction false} OnlineAssigned(rules: seq<Rule>, alerts: seq<Alert>, re: Regexp, i: nat)
    requires i < |alerts|
    ensures Online(rules, alerts, re).groupOf[i] == FirstTarget(rules, alerts[i], re)
  {
    OnlineNext(rules, alerts, re);
    if i < |alerts| - 1 {
      OnlineAssigned(rules, alerts[..|alerts| - 1], re, i);
    }
  }

  /** Every alert that r would take, and no rule before it, still fires. */
  ghost predicate TakenStillFire(rules: seq<Rule>, r: Rule, alerts: seq<Alert>, re: Regexp) {
    forall i :: 0 <= i < |alerts| && FirstTarget(rules, alerts[i], re).None? && Target(r, alerts[i], re).Some? ==>
      alerts[i].firing
  }

  lemma {:induction false} BackfillEqualsOnline(rules: seq<Rule>, r: Rule, alerts: seq<Alert>, re: Regexp)
    requires forall i :: 0 <= i < |rules| ==> rules[i].id != r.id
    requires TakenStillFire(rules, r, alerts, re)
    ensures Backfilled(r, alerts, Online(rules, alerts, re), |alerts|, re) == Online(rules + [r], alerts, re)
  {
    hide Target;
    hide FirstTarget;
    if alerts != [] {
      var n := |alerts| - 1;
      var past, a := alerts[..n], alerts[n];
      var st, k := Online(rules, past, re), FirstTarget(rules, a, re);
      BackfillEqualsOnline(rules, r, past, re);
      OnlineNext(rules, alerts, re);
      OnlineNext(rules + [r], alerts, re);
      LastRuleTarget(rules, r, a, re);
      TargetRule(rules, a, re);
      BackfillIgnoresLater(r, alerts, st, n, k, re);
      BackfillLast(r, alerts, Arrived(st, k, a.severity), re);
      var before := Backfilled(r, past, st, n, re);
      assert before == Online(rules + [r], past, re);
      var t := Target(r, a, re);
      if k.None? && t.Some? {
        assert (before.groupOf + [None])[n := t] == before.groupOf + [t];
      }
    }
  }

  lemma {:induction false} BackfillSkips(r: Rule, alerts: seq<Alert>, st: State, n: nat, re: Regexp, i: nat)
    requires n <= |alerts| == |st.groupOf| && i < |alerts| && !alerts[i].firing
    ensures Backfilled(r, alerts, st, n, re).groupOf[i] == st.groupOf[i]
  {
    hide Target;
    if n > 0 {
      BackfillSkips(r, alerts, st, n - 1, re, i);
    }
  }

  /**
   Backfill equals online grouping: creating a rule after all others and backfilling it gives the
   very groups, counters and assignments that the rule would have produced had it been there from
   the first alert, if and only if every alert that only this rule takes still fires.
   */
  lemma {:induction false} BackfillEqualsOnlineIff(rules: seq<Rule>, r: Rule, alerts: seq<Alert>, re: Regexp)
    requires forall i :: 0 <= i < |rules| ==> rules[i].id != r.id
    ensures Backfilled(r, alerts, Online(rules, alerts, re), |alerts|, re) == Online(rules + [r], alerts, re)
            <==> TakenStillFire(rules, r, alerts, re)
  {
    hide Target;
    hide FirstTarget;
    if TakenStillFire(rules, r, alerts, re) {
      BackfillEqualsOnline(rules, r, alerts, re);
    } else {
      var i :| 0 <= i < |alerts| && FirstTarget(rules, alerts[i], re).None? && Target(r, alerts[i], re).Some?
               && !alerts[i].firing;
      BackfillSkips(r, alerts, Online(rules, alerts, re), |alerts|, re, i);
      OnlineAssigned(rules, alerts, re, i);
      OnlineAssigned(rules + [r], alerts, re, i);
      LastRuleTarget(rules, r, alerts[i], re);
    }
  }

  lemma {:induction false} BackfillLast(r: Rule, alerts: seq<Alert>, st: State, re: Regexp)
    requires alerts != [] && |alerts| == |st.groupOf|
    ensures var n := |alerts| - 1;
            Backfilled(r, alerts, st, |alerts|, re) == BackfillStep(r, alerts, Backfilled(r, alerts, st, n, re), n, re)
  {
  }

  // ----- Counters over whole runs -----

  /** A new alert is evaluated once; rules are created, changed or backfilled; alerts stop or resume firing. */
  datatype Op =
    | NewAlert(alert: Alert)
    | SetRules(rules: seq<Rule>)
    | Backfill(rule: Rule)
    | SetFiring(i: nat, firing: bool)

  datatype World = World(rules: seq<Rule>, alerts: seq<Alert>, st: State)

  ghost function Apply(w: World, op: Op, re: Regexp): World
    requires |w.alerts| == |w.st.groupOf|
  {
    match op
    case NewAlert(a) =>
      var alerts := w.alerts + [a];
      World(w.rules, alerts, Evaluated(w.rules, alerts, State(w.st.groups, w.st.groupOf + [None]), |w.alerts|, re))
    case SetRules(rules) => w.(rules := rules)
    case Backfill(r) => w.(st := Backfilled(r, w.alerts, w.st, |w.alerts|, re))
    case SetFiring(i, firing) =>
      if i < |w.alerts| then w.(alerts := w.alerts[i := w.alerts[i].(firing := firing)]) else w
  }

  ghost function Run(ops: seq<Op>, re: Regexp): (w: World)
    ensures |w.alerts| == |w.st.groupOf|
  {
    if ops == [] then World([], [], State(map[], []))
    else Apply(Run(ops[..|ops| - 1], re), ops[|ops| - 1], re)
  }

  function MembersOf(groupOf: seq<Option<GroupKey>>, k: GroupKey): set<int> {
    set i | 0 <= i < |groupOf| && groupOf[i] == Some(k)
  }

  /** The count is the number of members and the severity their highest, at least the initial info. */
  ghost predicate GroupExact(alerts: seq<Alert>, groupOf: seq<Option<GroupKey>>, k: GroupKey, g: Group)
    requires |alerts| == |groupOf|
  {
    var members := MembersOf(groupOf, k);
    && g.alertCount == |members|
    && SeverityRank(g.maxSeverity) >= 1
    && (forall i :: i in members ==> SeverityRank(alerts[i].severity) <= SeverityRank(g.maxSeverity))
    && (g.maxSeverity == "info" || exists i :: i in members && alerts[i].severity == g.maxSeverity)
  }

  ghost predicate CountersExact(alerts: seq<Alert>, st: State)
    requires |alerts| == |st.groupOf|
  {
    && (forall k :: k in st.groups ==> GroupExact(alerts, st.groupOf, k, st.groups[k]))
    && (forall i :: 0 <= i < |st.groupOf| && st.groupOf[i].Some? ==> st.groupOf[i].value in st.groups)
  }

  lemma {:induction false} CaseKeepsMaximum(current: string, s: string)
    requires SeverityRank(current) >= 1
    ensures CaseSeverity(current, s) == MaxSeverityOf(current, s)
    ensures SeverityRank(CaseSeverity(current, s)) >= SeverityRank(current)
    ensures SeverityRank(CaseSeverity(current, s)) >= SeverityRank(s)
    ensures CaseSeverity(current, s) == current || CaseSeverity(current, s) == s
  {
    CaseIsMaxSeverityIff(current, s);
  }

  /** The group an alert joins stays exact; it may be new. */
  lemma {:induction false} JoinedGroupExact(alerts: seq<Alert>, st: State, i: nat, k: GroupKey)
    requires i < |alerts| == |st.groupOf| && st.groupOf[i].None?
    requires CountersExact(alerts, st)
    ensures var st' := Assign(st, i, k, alerts[i].severity); GroupExact(alerts, st'.groupOf, k, st'.groups[k])
  {
    var st', g := Assign(st, i, k, alerts[i].severity), if k in st.groups then st.groups[k] else Group(0, "info");
    var members := MembersOf(st.groupOf, k);
    assert MembersOf(st'.groupOf, k) == members + {i};
    assert k !in st.groups ==> members == {};
    CaseKeepsMaximum(g.maxSeverity, alerts[i].severity);
    hide CaseSeverity;
    hide SeverityRank;
    if st'.groups[k].maxSeverity == alerts[i].severity {
      assert i in MembersOf(st'.groupOf, k);
    }
  }

  lemma {:induction false} OtherGroupExact(alerts: seq<Alert>, st: State, i: nat, k: GroupKey, k': GroupKey)
    requires i < |alerts| == |st.groupOf| && st.groupOf[i].None? && k' != k
    requires k' in st.groups && GroupExact(alerts, st.groupOf, k', st.groups[k'])
    ensures var st' := Assign(st, i, k, alerts[i].severity); GroupExact(alerts, st'.groupOf, k', st'.groups[k'])
  {
    assert MembersOf(st.groupOf[i := Some(k)], k') == MembersOf(st.groupOf, k');
  }

  lemma {:induction false} AssignKeepsExact(alerts: seq<Alert>, st: State, i: nat, k: GroupKey)
    requires i < |alerts| == |st.groupOf| && st.groupOf[i].None?
    requires CountersExact(alerts, st)
    ensures CountersExact(alerts, Assign(st, i, k, alerts[i].severity))
  {
    hide GroupExact;
    hide CaseSeverity;
    var st' := Assign(st, i, k, alerts[i].severity);
    forall k' | k' in st'.groups
      ensures GroupExact(alerts, st'.groupOf, k', st'.groups[k'])
    {
      if k' == k {
        JoinedGroupExact(alerts, st, i, k);
      } else {
        OtherGroupExact(alerts, st, i, k, k');
      }
    }
  }

  lemma {:induction false} NewAlertKeepsExact(alerts: seq<Alert>, st: State, a: Alert)
    requires |alerts| == |st.groupOf| && CountersExact(alerts, st)
    ensures CountersExact(alerts + [a], State(st.groups, st.groupOf + [None]))
  {
    forall k | k in st.groups
      ensures GroupExact(alerts + [a], st.groupOf + [None], k, st.groups[k])
    {
      assert GroupExact(alerts, st.groupOf, k, st.groups[k]);
      assert MembersOf(st.groupOf + [None], k) == MembersOf(st.groupOf, k);
    }
  }

  lemma {:induction false} BackfillKeepsExact(r: Rule, alerts: seq<Alert>, st: State, n: nat, re: Regexp)
    requires n <= |alerts| == |st.groupOf| && CountersExact(alerts, st)
    ensures CountersExact(alerts, Backfilled(r, alerts, st, n, re))
  {
    hide CountersExact;
    hide Target;
    if n > 0 {
      BackfillKeepsExact(r, alerts, st, n - 1, re);
      var st' := Backfilled(r, alerts, st, n - 1, re);
      var k := Target(r, alerts[n - 1], re);
      if st'.groupOf[n - 1].None? && k.Some? {
        AssignKeepsExact(alerts, st', n - 1, k.value);
      }
    }
  }

  /**
   Group counters: over any error-free run each group's count is the number of alerts assigned to
   it and its severity the highest of theirs, a group starting at info.
   */
  lemma {:induction false} RunsKeepCountersExact(ops: seq<Op>, re: Regexp)
    ensures CountersExact(Run(ops, re).alerts, Run(ops, re).st)
  {
    hide CountersExact;
    if ops == [] {
      NothingGrouped();
    } else {
      var w, op := Run(ops[..|ops| - 1], re), ops[|ops| - 1];
      RunsKeepCountersExact(ops[..|ops| - 1], re);
      match op
      case NewAlert(a) =>
        NewAlertKeepsExact(w.alerts, w.st, a);
        var st := State(w.st.groups, w.st.groupOf + [None]);
        var k := FirstTarget(w.rules, a, re);
        if k.Some? {
          AssignKeepsExact(w.alerts + [a], st, |w.alerts|, k.value);
        }
      case SetRules(_) =>
      case Backfill(r) => BackfillKeepsExact(r, w.alerts, w.st, |w.alerts|, re);
      case SetFiring(i, firing) =>
        if i < |w.alerts| {
          FiringDoesNotCount(w.alerts, w.st, i, firing);
        }
    }
  }

  lemma {:induction false} NothingGrouped()
    ensures CountersExact([], State(map[], []))
  {
  }

  lemma {:induction false} FiringDoesNotCount(alerts: seq<Alert>, st: State, i: nat, firing: bool)
    requires i < |alerts| == |st.groupOf| && CountersExact(alerts, st)
    ensures CountersExact(alerts[i := alerts[i].(firing := firing)], st)
  {
    var alerts' := alerts[i := alerts[i].(firing := firing)];
    forall k | k in st.groups
      ensures GroupExact(alerts', st.groupOf, k, st.groups[k])
    {
      assert GroupExact(alerts, st.groupOf, k, st.groups[k]);
    }
  }

  lemma {:induction false} GroupByAgrees(groupBy: seq<string>, l: Labels, l': Labels)
    ensures GroupByLabels(groupBy, l) == GroupByLabels(groupBy, l')
            <==> forall k :: k in groupBy ==> Lookup(l, k) == Lookup(l', k)
  {
    var x, y := GroupByLabels(groupBy, l), GroupByLabels(groupBy, l');
    if x == y {
      assert forall k :: k in groupBy ==> k in x && x[k] == y[k];
    }
  }

  function KeySet(groupBy: seq<string>): set<string> {
    set k | k in groupBy
  }

  ghost predicate PlainGroupValues(groupBy: seq<string>, l: Labels) {
    forall k :: k in groupBy ==> PlainValue(Lookup(l, k))
  }

  ghost predicate Agree(groupBy: seq<string>, l: Labels, l': Labels) {
    forall k :: k in groupBy ==> Lookup(l, k) == Lookup(l', k)
  }

  /**
   Under one rule none of whose group-by keys begins another, two alerts with plain values land in
   the same group exactly when they agree on every group-by label.
   */
  lemma {:induction false} SameGroupIff(r: Rule, a: Alert, b: Alert, re: Regexp)
    requires Target(r, a, re).Some? && Target(r, b, re).Some?
    requires NoneExtends(KeySet(r.groupBy))
    requires PlainGroupValues(r.groupBy, a.labels.value) && PlainGroupValues(r.groupBy, b.labels.value)
    ensures Target(r, a, re) == Target(r, b, re) <==> Agree(r.groupBy, a.labels.value, b.labels.value)
  {
    var x, y := GroupByLabels(r.groupBy, a.labels.value), GroupByLabels(r.groupBy, b.labels.value);
    GroupByAgrees(r.groupBy, a.labels.value, b.labels.value);
    hide NoneExtends;
    hide IsKey;
    hide RuleMatches;
    if KeyOf(x) == KeyOf(y) {
      assert x.Keys == y.Keys == KeySet(r.groupBy);
      SameKeysInjective(x, y, KeyOf(x));
    }
  }

  /** A rule's groups are what its group-by labels say, for all alerts with plain values. */
  ghost predicate GroupsByLabels(r: Rule, re: Regexp) {
    forall a, b :: Target(r, a, re).Some? && Target(r, b, re).Some?
                   && PlainGroupValues(r.groupBy, a.labels.value) && PlainGroupValues(r.groupBy, b.labels.value) ==>
      (Target(r, a, re) == Target(r, b, re) <==> Agree(r.groupBy, a.labels.value, b.labels.value))
  }

  lemma {:induction false} SeparateKeysGroup(r: Rule, re: Regexp)
    requires NoneExtends(KeySet(r.groupBy))
    ensures GroupsByLabels(r, re)
  {
    hide NoneExtends;
    hide RuleMatches;
    hide KeyOf;
    hide GroupByLabels;
    hide Agree;
    hide PlainGroupValues;
    forall a, b | Target(r, a, re).Some? && Target(r, b, re).Some?
                  && PlainGroupValues(r.groupBy, a.labels.value) && PlainGroupValues(r.groupBy, b.labels.value)
      ensures Target(r, a, re) == Target(r, b, re) <==> Agree(r.groupBy, a.labels.value, b.labels.value)
    {
      SameGroupIff(r, a, b, re);
    }
  }

  /**
   Which group-by lists work: every rule with this list groups by its labels if and only if no key
   of the list, with an equals sign after it, begins another.
   */
  lemma {:induction false} GroupsByLabelsIff(groupBy: seq<string>, re: Regexp)
    requires SingleTails(KeySet(groupBy))
    ensures (forall r: Rule :: r.groupBy == groupBy ==> GroupsByLabels(r, re)) <==> NoneExtends(KeySet(groupBy))
  {
    hide GroupsByLabels;
    if NoneExtends(KeySet(groupBy)) {
      forall r: Rule | r.groupBy == groupBy
        ensures GroupsByLabels(r, re)
      {
        SeparateKeysGroup(r, re);
      }
    } else {
      var k, k' :| k in KeySet(groupBy) && k' in KeySet(groupBy) && k != k' && k + "=" <= k';
      hide KeySet;
      StrayGroup(groupBy, k, k', re);
    }
  }

  lemma {:induction false} MatchesAll(groupBy: seq<string>, l: Labels, key: string, re: Regexp)
    requires l.Keys == KeySet(groupBy) && IsKey(l, key)
    ensures Target(Rule(0, true, [], groupBy), Alert("info", Some(l), true), re) == Some(GroupKey(0, key))
  {
    hide IsKey;
    assert GroupByLabels(groupBy, l) == l;
    KeyUnique(l, key, KeyOf(l));
  }

  lemma {:induction false} Strays(r: Rule, a: Alert, b: Alert, re: Regexp)
    requires Target(r, a, re).Some? && Target(r, b, re) == Target(r, a, re)
    requires PlainGroupValues(r.groupBy, a.labels.value) && PlainGroupValues(r.groupBy, b.labels.value)
    requires !Agree(r.groupBy, a.labels.value, b.labels.value)
    ensures !GroupsByLabels(r, re)
  {
    hide KeyOf;
    hide RuleMatches;
    hide PlainGroupValues;
    hide Agree;
  }

  lemma {:induction false} PlainGroups(groupBy: seq<string>, l: Labels)
    requires l.Keys == KeySet(groupBy) && PlainValues(l)
    ensures PlainGroupValues(groupBy, l)
  {
  }

  /** Two alerts that disagree, in one group of a rule that matches everything. */
  lemma {:induction false} StrayGroup(groupBy: seq<string>, k: string, k': string, re: Regexp)
    requires k in KeySet(groupBy) && k' in KeySet(groupBy) && k != k' && k + "=" <= k' && PlainValue(k'[|k| + 1..])
    ensures !GroupsByLabels(Rule(0, true, [], groupBy), re)
  {
    hide IsKey;
    hide PlainValue;
    hide PlainValues;
    hide Target;
    hide Agree;
    hide TwoSet;
    hide PlainGroupValues;
    hide GroupsByLabels;
    var l, l', key := ExtensionCollides(KeySet(groupBy), k, k');
    var a, b := Alert("info", Some(l), true), Alert("info", Some(l'), true);
    MatchesAll(groupBy, l, key, re);
    MatchesAll(groupBy, l', key, re);
    PlainGroups(groupBy, l);
    PlainGroups(groupBy, l');
    Disagree(groupBy, l, l');
    Strays(Rule(0, true, [], groupBy), a, b, re);
  }

  lemma {:induction false} Disagree(groupBy: seq<string>, l: Labels, l': Labels)
    requires l.Keys == KeySet(groupBy) && l'.Keys == KeySet(groupBy) && l != l'
    ensures !Agree(groupBy, l, l')
  {
    GroupByAgrees(groupBy, l, l');
    assert GroupByLabels(groupBy, l) == l && GroupByLabels(groupBy, l') == l';
  }
}
