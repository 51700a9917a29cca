/** What grouping does, said of the rules, labels and severities themselves. */
module GroupingOutcomes {
  import opened Wrappers
  import opened GroupKeys
  import opened AlertGrouping

  // ----- Matchers -----

  /** A label that is missing counts as empty. */
  predicate LabelIs(l: Labels, k: string, v: string) {
    if k in l then l[k] == v else v == ""
  }

  /**
   Each operator's meaning: "=" and "!=" are opposites; so are "=~" and "!~" as long as the pattern
   compiles, while a pattern that does not compile matches under neither; any other operator matches nothing.
   */
  lemma {:induction false} OperatorsMean(m: Matcher, l: Labels, re: Regexp, v: string)
    requires LabelIs(l, m.key, v)
    ensures m.op == "=" ==> (Matches(m, l, re) <==> LabelIs(l, m.key, m.value))
    ensures m.op == "!=" ==> (Matches(m, l, re) <==> !LabelIs(l, m.key, m.value))
    ensures m.op == "=~" ==> (Matches(m, l, re) <==> re(m.value, v) == Some(true))
    ensures m.op == "!~" ==> (Matches(m, l, re) <==> re(m.value, v) == Some(false))
    ensures m.op !in ["=", "!=", "=~", "!~"] ==> !Matches(m, l, re)
  {
  }

  // ----- Which rule takes an alert -----

  /** An enabled rule takes an alert whose labels are readable and meet every matcher. */
  ghost predicate Takes(r: Rule, a: Alert, re: Regexp) {
    r.enabled && a.labels.Some? && forall i :: 0 <= i < |r.matchers| ==> Matches(r.matchers[i], a.labels.value, re)
  }

  /** The labels of a group: one for each group-by key, with the alert's value or an empty one. */
  ghost predicate GroupLabels(groupBy: seq<string>, l: Labels, g: Labels) {
    && (forall k :: k in g <==> k in groupBy)
    && (forall k :: k in g ==> LabelIs(l, k, g[k]))
  }

  /** The group of rule r for an alert: the rule's id and the key of the group's labels. */
  ghost predicate GroupFor(r: Rule, a: Alert, k: GroupKey) {
    k.rule == r.id && a.labels.Some? && exists g :: GroupLabels(r.groupBy, a.labels.value, g) && IsKey(g, k.key)
  }

  lemma {:induction false} TargetIs(r: Rule, a: Alert, re: Regexp)
    ensures var k := Target(r, a, re); if Takes(r, a, re) then k.Some? && GroupFor(r, a, k.value) else k == None
  {
    hide IsKey;
    hide Matches;
    if Takes(r, a, re) {
      assert GroupLabels(r.groupBy, a.labels.value, GroupByLabels(r.groupBy, a.labels.value));
    }
  }

  /** Rule n takes the alert, and no rule before it does. */
  ghost predicate FirstTaker(rules: seq<Rule>, n: nat, a: Alert, re: Regexp) {
    n < |rules| && Takes(rules[n], a, re) && forall m :: 0 <= m < n ==> !Takes(rules[m], a, re)
  }

  /** An alert goes to its group of the first rule in position order that takes it, and nowhere if none does. */
  lemma {:induction false} FirstTakerWins(rules: seq<Rule>, a: Alert, re: Regexp)
    ensures var k := FirstTarget(rules, a, re);
            && (k == None <==> forall n :: 0 <= n < |rules| ==> !Takes(rules[n], a, re))
            && (forall n: nat :: FirstTaker(rules, n, a, re) ==> k.Some? && GroupFor(rules[n], a, k.value))
  {
    hide Takes;
    hide Target;
    hide GroupFor;
    if rules != [] {
      var n := |rules| - 1;
      FirstTakerWins(rules[..n], a, re);
      TargetIs(rules[n], a, re);
      forall m: nat | m < n && FirstTaker(rules, m, a, re)
        ensures FirstTaker(rules[..n], m, a, re)
      {
      }
    }
  }

  // ----- Assignments -----

  /** Each alert of a stream evaluated on arrival is with the first rule that takes it. */
  lemma {:induction false} ArrivalsGoToTheFirst(rules: seq<Rule>, alerts: seq<Alert>, re: Regexp, i: nat)
    requires i < |alerts|
    ensures var k := Online(rules, alerts, re).groupOf[i];
            && (k == None <==> forall n :: 0 <= n < |rules| ==> !Takes(rules[n], alerts[i], re))
            && (forall n: nat :: FirstTaker(rules, n, alerts[i], re) ==>
                  k.Some? && GroupFor(rules[n], alerts[i], k.value))
  {
    hide Takes;
    hide GroupFor;
    hide FirstTaker;
    OnlineAssigned(rules, alerts, re, i);
    FirstTakerWins(rules, alerts[i], re);
  }

  /** A backfill groups just the ungrouped firing alerts that its rule takes; the others stay where they are. */
  lemma {:induction false} BackfillAssigns(r: Rule, alerts: seq<Alert>, st: State, n: nat, re: Regexp, i: nat)
    requires n <= |alerts| == |st.groupOf| && i < |alerts|
    ensures var k := Backfilled(r, alerts, st, n, re).groupOf[i];
            if i < n && st.groupOf[i] == None && alerts[i].firing && Takes(r, alerts[i], re)
            then k.Some? && GroupFor(r, alerts[i], k.value)
            else k == st.groupOf[i]
  {
    hide Takes;
    hide Target;
    hide GroupFor;
    if n > 0 {
      BackfillAssigns(r, alerts, st, n - 1, re, i);
      TargetIs(r, alerts[n - 1], re);
    }
  }

  /** What an operation does to the assignments there are: only a backfill adds any, and none is ever changed. */
  lemma {:induction false} AssignmentsStay(w: World, op: Op, re: Regexp, i: nat)
    requires i < |w.alerts| == |w.st.groupOf|
    ensures var w' := Apply(w, op, re);
            && i < |w'.alerts| == |w'.st.groupOf|
            && w'.alerts[i].labels == w.alerts[i].labels && w'.alerts[i].severity == w.alerts[i].severity
            && (w.st.groupOf[i].Some? || !op.Backfill? ==> w'.st.groupOf[i] == w.st.groupOf[i])
            && (w'.alerts[i].firing == if op == SetFiring(i, !w.alerts[i].firing) then !w.alerts[i].firing
                                       else w.alerts[i].firing)
  {
    hide FirstTarget;
    hide Takes;
    hide GroupFor;
    if op.Backfill? {
      BackfillAssigns(op.rule, w.alerts, w.st, |w.alerts|, re, i);
    }
  }

  /** In any run a new alert goes to its group of the first rule there is then that takes it. */
  lemma {:induction false} ArrivalIsGrouped(w: World, a: Alert, re: Regexp)
    requires |w.alerts| == |w.st.groupOf|
    ensures var w' := Apply(w, NewAlert(a), re);
            var k := w'.st.groupOf[|w.alerts|];
            && w'.alerts == w.alerts + [a] && w'.rules == w.rules && w'.st.groupOf[..|w.alerts|] == w.st.groupOf
            && (k == None <==> forall n :: 0 <= n < |w.rules| ==> !Takes(w.rules[n], a, re))
            && forall n: nat :: FirstTaker(w.rules, n, a, re) ==> k.Some? && GroupFor(w.rules[n], a, k.value)
  {
    hide Takes;
    hide GroupFor;
    hide FirstTaker;
    FirstTakerWins(w.rules, a, re);
  }

  /** And a backfill groups just the ungrouped firing alerts that its rule takes. */
  lemma {:induction false} BackfillIsComplete(w: World, r: Rule, re: Regexp, i: nat)
    requires i < |w.alerts| == |w.st.groupOf|
    ensures var w' := Apply(w, Backfill(r), re);
            && w'.alerts == w.alerts && w'.rules == w.rules
            && if w.st.groupOf[i] == None && w.alerts[i].firing && Takes(r, w.alerts[i], re)
               then w'.st.groupOf[i].Some? && GroupFor(r, w.alerts[i], w'.st.groupOf[i].value)
               else w'.st.groupOf[i] == w.st.groupOf[i]
  {
    hide Takes;
    hide GroupFor;
    BackfillAssigns(r, w.alerts, w.st, |w.alerts|, re, i);
  }

  // ----- Counters -----

  ghost predicate HasMember(w: World, k: GroupKey, severity: string)
    requires |w.alerts| == |w.st.groupOf|
  {
    exists i :: 0 <= i < |w.alerts| && w.st.groupOf[i] == Some(k) && w.alerts[i].severity == severity
  }

  /** Critical with a critical member, else major with a major one, else warning with a warning, else info. */
  ghost predicate SeverityOfMembers(w: World, k: GroupKey, severity: string)
    requires |w.alerts| == |w.st.groupOf|
  {
    severity == if HasMember(w, k, "critical") then "critical"
                else if HasMember(w, k, "major") then "major"
                else if HasMember(w, k, "warning") then "warning"
                else "info"
  }

  /** Over any error-free run each group counts its members and has the severity they give it. */
  lemma {:induction false} GroupSeverities(ops: seq<Op>, re: Regexp, k: GroupKey)
    ensures var w := Run(ops, re);
            if k in w.st.groups then
              w.st.groups[k].alertCount == |MembersOf(w.st.groupOf, k)|
              && SeverityOfMembers(w, k, w.st.groups[k].maxSeverity)
            else MembersOf(w.st.groupOf, k) == {}
  {
    RunsKeepCountersExact(ops, re);
    var w := Run(ops, re);
    hide Run;
    hide SeverityOfMembers;
    if k in w.st.groups {
      ExactSeverity(w, k);
    }
  }

  lemma {:induction false} ExactSeverity(w: World, k: GroupKey)
    requires |w.alerts| == |w.st.groupOf| && k in w.st.groups
    requires GroupExact(w.alerts, w.st.groupOf, k, w.st.groups[k])
    ensures SeverityOfMembers(w, k, w.st.groups[k].maxSeverity)
  {
    var g := w.st.groups[k];
    assert forall i :: 0 <= i < |w.alerts| && w.st.groupOf[i] == Some(k) ==> i in MembersOf(w.st.groupOf, k);
  }
}
