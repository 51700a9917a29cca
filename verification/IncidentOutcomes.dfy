/** What becomes of incidents, said of the fields themselves. */
module IncidentOutcomes {
  import opened Wrappers
  import opened Incidents

  // ----- Severities -----

  ghost predicate CreatedAs(l: Ledger, r: Id, severity: string) {
    exists x :: x in Tree(l.db, r) && x in l.created && l.created[x].severity == severity
  }

  /**
   After any run without edits an incident that has not been merged away is critical if and only if
   one of its tree was created critical; short of that major if and only if one was created major;
   short of both a warning if and only if one was created a warning; and else of a severity that one
   was created with.
   */
  lemma {:induction false} SurvivorSeverity(ops: seq<Op>, r: Id)
    requires forall i :: 0 <= i < |ops| ==> !ops[i].Edit?
    requires r in Recorded(ops).db.incidents && Terminal(Recorded(ops).db, r)
    ensures var l, severity := Recorded(ops), Recorded(ops).db.incidents[r].fields.severity;
            && CreatedAs(l, r, severity)
            && (severity == "critical" <==> CreatedAs(l, r, "critical"))
            && (!CreatedAs(l, r, "critical") ==> (severity == "major" <==> CreatedAs(l, r, "major")))
            && (!CreatedAs(l, r, "critical") && !CreatedAs(l, r, "major") ==>
                  (severity == "warning" <==> CreatedAs(l, r, "warning")))
  {
    hide Recorded;
    hide CreatedAs;
    SurvivorSumsUp(ops, r);
    SeverityOfTree(Recorded(ops), r);
  }

  lemma {:induction false} SurvivorSumsUp(ops: seq<Op>, r: Id)
    requires forall i :: 0 <= i < |ops| ==> !ops[i].Edit?
    requires r in Recorded(ops).db.incidents && Terminal(Recorded(ops).db, r)
    ensures SumsUp(Recorded(ops).created, Tree(Recorded(ops).db, r), Recorded(ops).db.incidents[r].fields)
  {
    hide Recorded;
    hide Sound;
    hide Forest;
    hide SumsUp;
    hide Tree;
    MergesConserve(ops);
  }

  lemma {:induction false} SeverityOfTree(l: Ledger, r: Id)
    requires r in l.db.incidents && SumsUp(l.created, Tree(l.db, r), l.db.incidents[r].fields)
    ensures var severity := l.db.incidents[r].fields.severity;
            && CreatedAs(l, r, severity)
            && (CreatedAs(l, r, "critical") ==> severity == "critical")
            && (CreatedAs(l, r, "major") ==> severity == "critical" || severity == "major")
            && (CreatedAs(l, r, "warning") ==>
                  severity == "critical" || severity == "major" || severity == "warning")
  {
    hide Tree;
    hide SumsUp;
    hide CreatedAs;
    hide HasSeverity;
    SeverityOfSum(l.created, Tree(l.db, r), l.db.incidents[r].fields);
    SeverityCreated(l, r, l.db.incidents[r].fields.severity);
    SeverityCreated(l, r, "critical");
    SeverityCreated(l, r, "major");
    SeverityCreated(l, r, "warning");
  }

  lemma {:induction false} SeverityCreated(l: Ledger, r: Id, s: string)
    ensures CreatedAs(l, r, s) <==> HasSeverity(l.created, Tree(l.db, r), s)
  {
    hide Tree;
  }

  lemma {:induction false} SeverityOfSum(created: map<Id, Fields>, xs: set<Id>, f: Fields)
    requires SumsUp(created, xs, f)
    ensures HasSeverity(created, xs, f.severity)
    ensures HasSeverity(created, xs, "critical") ==> f.severity == "critical"
    ensures HasSeverity(created, xs, "major") ==> f.severity == "critical" || f.severity == "major"
    ensures HasSeverity(created, xs, "warning") ==>
              f.severity == "critical" || f.severity == "major" || f.severity == "warning"
  {
    hide HasSeverity;
    hide Lists;
    hide HasText;
    hide HasRunbook;
  }

  /** Of two severities the first stays unless the second is listed higher. */
  lemma {:induction false} SeverityStaysUnlessHigher(a: string, b: string)
    ensures BestSeverity(a, b) ==
            if b == "critical" && a != "critical" then b
            else if b == "major" && a != "critical" && a != "major" then b
            else if b == "warning" && a != "critical" && a != "major" && a != "warning" then b
            else a
  {
  }

  /** Of two texts the first stays unless it is missing or shorter. */
  lemma {:induction false} TextStaysUnlessShorter(a: Option<string>, b: Option<string>)
    ensures a.Some? && (b.None? || |b.value| <= |a.value|) ==> BestText(a, b) == a
    ensures b.Some? && (a.None? || |a.value| < |b.value|) ==> BestText(a, b) == b
    ensures BestText(None, None) == None
  {
  }

  // ----- Single operations -----

  ghost predicate OthersSame(db: Db, db': Db, touched: set<Id>) {
    && db'.incidents.Keys == db.incidents.Keys + touched
    && forall i :: i in db.incidents && i !in touched ==> db'.incidents[i] == db.incidents[i]
  }

  /** Creating adds an open incident with the given fields; it never replaces one. */
  lemma {:induction false} CreateAdds(db: Db, i: Id, f: Fields)
    requires i !in db.incidents
    ensures var db' := Apply(db, Create(i, f));
            && OthersSame(db, db', {i}) && db'.alerts == db.alerts
            && db'.incidents[i].fields == f && db'.incidents[i].mergedInto == None
  {
  }

  /** Editing replaces all fields of that incident, and neither its link nor any alert. */
  lemma {:induction false} EditReplacesAll(db: Db, i: Id, f: Fields)
    ensures var db' := Apply(db, Edit(i, f));
            if i in db.incidents then
              && OthersSame(db, db', {i}) && db'.alerts == db.alerts
              && db'.incidents[i].fields == f && db'.incidents[i].mergedInto == db.incidents[i].mergedInto
            else db' == db
  {
  }

  /** Archiving points an incident that has no link at itself and changes nothing else. */
  lemma {:induction false} ArchiveLinksItself(db: Db, i: Id)
    ensures var db' := Apply(db, Archive(i));
            if i in db.incidents && db.incidents[i].mergedInto == None then
              && OthersSame(db, db', {i}) && db'.alerts == db.alerts
              && db'.incidents[i].fields == db.incidents[i].fields && db'.incidents[i].mergedInto == Some(i)
            else db' == db
  {
  }

  /** Two different incidents that are there and have no link always merge; otherwise the first reason is given. */
  lemma {:induction false} MergeErrorIs(db: Db, t: Id, s: Id)
    ensures MergeError(db, t, s) == None <==>
            && t != s && t in db.incidents && s in db.incidents
            && db.incidents[t].mergedInto == None && db.incidents[s].mergedInto == None
    ensures t == s ==> MergeError(db, t, s) == Some(SameIncident)
    ensures t != s && t !in db.incidents ==> MergeError(db, t, s) == Some(TargetMissing)
    ensures t != s && t in db.incidents && db.incidents[t].mergedInto.Some? ==>
              MergeError(db, t, s) == Some(TargetMerged)
    ensures t != s && t in db.incidents && db.incidents[t].mergedInto == None && s !in db.incidents ==>
              MergeError(db, t, s) == Some(SourceMissing)
    ensures t != s && t in db.incidents && db.incidents[t].mergedInto == None && s in db.incidents
            && db.incidents[s].mergedInto.Some? ==>
              MergeError(db, t, s) == Some(SourceMerged)
  {
  }

  ghost predicate UnionOf(xs: seq<string>, ys: seq<string>, zs: seq<string>) {
    && (forall x :: x in zs <==> x in xs || x in ys)
    && (forall i, j :: 0 <= i < j < |zs| ==> zs[i] != zs[j])
  }

  /**
   What a merge leaves: the source as it was, with a link to the target; the target open, with its own
   title and category, its own runbook if it has one, the higher severity, the longer of each text, its
   own where they tie, and the union of each list; and the source's alerts with the target, if their
   reassignment succeeds.
   */
  lemma {:induction false} MergeLeaves(db: Db, t: Id, s: Id, reassigned: bool)
    requires t != s && t in db.incidents && s in db.incidents
    requires db.incidents[t].mergedInto == None && db.incidents[s].mergedInto == None
    ensures var db' := Apply(db, Merge(t, s, reassigned));
            var f, tf, sf := db'.incidents[t].fields, db.incidents[t].fields, db.incidents[s].fields;
            && OthersSame(db, db', {t, s})
            && db'.incidents[s].fields == sf && db'.incidents[s].mergedInto == Some(t)
            && db'.incidents[t].mergedInto == None
            && f.title == tf.title && f.category == tf.category
            && f.severity == BestSeverity(tf.severity, sf.severity)
            && f.symptoms == BestText(tf.symptoms, sf.symptoms)
            && f.rootCause == BestText(tf.rootCause, sf.rootCause)
            && f.solution == BestText(tf.solution, sf.solution)
            && f.runbook == (if tf.runbook.Some? then tf.runbook else sf.runbook)
            && UnionOf(tf.fingerprints, sf.fingerprints, f.fingerprints) && UnionOf(tf.tags, sf.tags, f.tags)
            && UnionOf(tf.services, sf.services, f.services) && UnionOf(tf.clusters, sf.clusters, f.clusters)
            && UnionOf(tf.namespaces, sf.namespaces, f.namespaces)
            && UnionOf(tf.errorPatterns, sf.errorPatterns, f.errorPatterns)
            && db'.alerts.Keys == db.alerts.Keys
            && forall a :: a in db.alerts ==>
                 db'.alerts[a] == if reassigned && db.alerts[a] == Some(s) then Some(t) else db.alerts[a]
  {
    var tf, sf := db.incidents[t].fields, db.incidents[s].fields;
    forall xs: seq<string>, ys: seq<string>
      ensures UnionOf(xs, ys, Dedup(xs + ys))
    {
      DedupIs(xs + ys);
    }
    hide UnionOf;
    hide Dedup;
  }

  predicate IsOpen(db: Db, i: Id) {
    i in db.incidents && db.incidents[i].mergedInto == None
  }

  /** An alert is matched once, to an incident without a link; a second time changes nothing. */
  lemma {:induction false} AlertMatchedOnce(db: Db, a: AlertId, i: Option<Id>)
    ensures var db' := Apply(db, NewAlert(a, i));
            && db'.incidents == db.incidents
            && db'.alerts == if a !in db.alerts && (i == None || IsOpen(db, i.value)) then db.alerts[a := i]
                             else db.alerts
  {
  }
}
