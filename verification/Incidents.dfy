/** The incident knowledge base: merging, archiving, and which incident an alert points at. */
module Incidents {
  import opened Wrappers

  type Id = nat
  type AlertId = nat

  datatype Fields = Fields(title: string, severity: string, category: Option<string>,
                           fingerprints: seq<string>, tags: seq<string>, services: seq<string>,
                           clusters: seq<string>, namespaces: seq<string>, errorPatterns: seq<string>,
                           symptoms: Option<string>, rootCause: Option<string>, solution: Option<string>,
                           runbook: Option<nat>)

  datatype ListField = Fingerprints | Tags | Services | Clusters | Namespaces | ErrorPatterns

  datatype TextField = Symptoms | RootCause | Solution

  function ListOf(f: Fields, k: ListField): seq<string> {
    match k
    case Fingerprints => f.fingerprints
    case Tags => f.tags
    case Services => f.services
    case Clusters => f.clusters
    case Namespaces => f.namespaces
    case ErrorPatterns => f.errorPatterns
  }

  function TextOf(f: Fields, k: TextField): Option<string> {
    match k
    case Symptoms => f.symptoms
    case RootCause => f.rootCause
    case Solution => f.solution
  }

  /** An archived incident points at itself; a merged one at the incident that took it over. */
  datatype Incident = Incident(fields: Fields, mergedInto: Option<Id>)

  /** Alerts carry the incident they are matched to, if any. */
  datatype Db = Db(incidents: map<Id, Incident>, alerts: map<AlertId, Option<Id>>)

  datatype Error = SameIncident | TargetMissing | TargetMerged | SourceMissing | SourceMerged | NoRows

  // ----- Combining fields -----

  /** First occurrences, in order. */
  function Dedup(xs: seq<string>): seq<string> {
    if xs == [] then []
    else
      var n := |xs| - 1;
      if xs[n] in xs[..n] then Dedup(xs[..n]) else Dedup(xs[..n]) + [xs[n]]
  }

  lemma {:induction false} DedupIs(xs: seq<string>)
    ensures forall x :: x in Dedup(xs) <==> x in xs
    ensures forall i, j :: 0 <= i < j < |Dedup(xs)| ==> Dedup(xs)[i] != Dedup(xs)[j]
  {
    if xs != [] {
      DedupIs(xs[..|xs| - 1]);
      assert xs == xs[..|xs| - 1] + [xs[|xs| - 1]];
    }
  }

  lemma {:induction false} DedupKeepsFront(xs: seq<string>, ys: seq<string>)
    ensures Dedup(xs) <= Dedup(xs + ys)
  {
    if ys == [] {
      assert xs + ys == xs;
    } else {
      assert (xs + ys)[..|xs + ys| - 1] == xs + ys[..|ys| - 1];
      DedupKeepsFront(xs, ys[..|ys| - 1]);
    }
  }

  /** The union holds the elements of both once each, the first list's in front and in their order. */
  method UnionSlice(a: seq<string>, b: seq<string>) returns (result: seq<string>)
    ensures result == Dedup(a + b)
    ensures Dedup(a) <= result
    ensures forall i, j :: 0 <= i < j < |result| ==> result[i] != result[j]
    ensures forall x :: x in result <==> x in a || x in b
  {
    hide Dedup;
    var seen: set<string> := {};
    result := [];
    DedupNothing(a);
    for i := 0 to |a|
      invariant result == Dedup(a[..i]) && forall x :: x in seen <==> x in a[..i]
    {
      DedupNext(a, i);
      if a[i] !in seen {
        seen := seen + {a[i]};
        result := result + [a[i]];
      }
    }
    assert a[..|a|] == a && (a + b)[..|a|] == a;
    for i := 0 to |b|
      invariant result == Dedup((a + b)[..|a| + i]) && forall x :: x in seen <==> x in (a + b)[..|a| + i]
    {
      DedupNext(a + b, |a| + i);
      if b[i] !in seen {
        seen := seen + {b[i]};
        result := result + [b[i]];
      }
    }
    assert (a + b)[..|a| + |b|] == a + b;
    DedupIs(a + b);
    DedupKeepsFront(a, b);
  }

  lemma {:induction false} DedupNothing(xs: seq<string>)
    ensures Dedup(xs[..0]) == []
  {
  }

  lemma {:induction false} DedupNext(xs: seq<string>, i: nat)
    requires i < |xs|
    ensures Dedup(xs[..i + 1]) == if xs[i] in xs[..i] then Dedup(xs[..i]) else Dedup(xs[..i]) + [xs[i]]
    ensures forall x :: x in xs[..i + 1] <==> x in xs[..i] || x == xs[i]
  {
    assert xs[..i + 1][..i] == xs[..i];
    assert xs[..i + 1] == xs[..i] + [xs[i]];
  }

  function BestText(a: Option<string>, b: Option<string>): Option<string> {
    if a.None? then b else if b.None? then a else if |b.value| > |a.value| then b else a
  }

  function SeverityOrder(s: string): nat {
    if s == "critical" then 3 else if s == "major" then 2 else if s == "warning" then 1 else 0
  }

  function BestSeverity(a: string, b: string): string {
    if SeverityOrder(b) > SeverityOrder(a) then b else a
  }

  function BestRunbook(a: Option<nat>, b: Option<nat>): Option<nat> {
    if a.Some? then a else b
  }

  function MergedFields(t: Fields, s: Fields): Fields {
    Fields(t.title, BestSeverity(t.severity, s.severity), t.category,
           Dedup(t.fingerprints + s.fingerprints), Dedup(t.tags + s.tags), Dedup(t.services + s.services),
           Dedup(t.clusters + s.clusters), Dedup(t.namespaces + s.namespaces), Dedup(t.errorPatterns + s.errorPatterns),
           BestText(t.symptoms, s.symptoms), BestText(t.rootCause, s.rootCause), BestText(t.solution, s.solution),
           BestRunbook(t.runbook, s.runbook))
  }

  // ----- Operations -----

  datatype Op =
    | Create(id: Id, fields: Fields)
    | Edit(id: Id, fields: Fields)
    | Archive(id: Id)
    | Merge(target: Id, source: Id, reassigned: bool)
    | NewAlert(alert: AlertId, incident: Option<Id>)

  predicate Open(db: Db, i: Id) {
    i in db.incidents && db.incidents[i].mergedInto.None?
  }

  function MergeError(db: Db, target: Id, source: Id): Option<Error> {
    if target == source then Some(SameIncident)
    else if target !in db.incidents then Some(TargetMissing)
    else if !Open(db, target) then Some(TargetMerged)
    else if source !in db.incidents then Some(SourceMissing)
    else if !Open(db, source) then Some(SourceMerged)
    else None
  }

  function WithFields(db: Db, i: Id, f: Fields): Db
    requires i in db.incidents
  {
    db.(incidents := db.incidents[i := db.incidents[i].(fields := f)])
  }

  function WithLink(db: Db, i: Id, to: Id): Db
    requires i in db.incidents
  {
    db.(incidents := db.incidents[i := db.incidents[i].(mergedInto := Some(to))])
  }

  function Reassigned(alerts: map<AlertId, Option<Id>>, source: Id, target: Id): map<AlertId, Option<Id>> {
    map a | a in alerts :: if alerts[a] == Some(source) then Some(target) else alerts[a]
  }

  /**
   Enrichment only ever matches a new alert to an incident that is open. A merge goes through even
   if reassigning the alerts fails.
   */
  function Apply(db: Db, op: Op): Db {
    match op
    case Create(i, f) => if i in db.incidents then db else db.(incidents := db.incidents[i := Incident(f, None)])
    case Edit(i, f) => if i in db.incidents then WithFields(db, i, f) else db
    case Archive(i) => if Open(db, i) then WithLink(db, i, i) else db
    case Merge(t, s, reassigned) =>
      if MergeError(db, t, s).Some? then db
      else
        var db1 := WithLink(WithFields(db, t, MergedFields(db.incidents[t].fields, db.incidents[s].fields)), s, t);
        if reassigned then db1.(alerts := Reassigned(db1.alerts, s, t)) else db1
    case NewAlert(a, i) =>
      if a in db.alerts || (i.Some? && !Open(db, i.value)) then db else db.(alerts := db.alerts[a := i])
  }

  class IncidentService {
    var incidents: map<Id, Incident>
    var alerts: map<AlertId, Option<Id>>

    ghost function State(): Db
      reads this
    {
      Db(incidents, alerts)
    }

    constructor ()
      ensures State() == Db(map[], map[])
    {
      incidents, alerts := map[], map[];
    }

    /** The database gives out the id. */
    method Create(id: Id, f: Fields)
      requires id !in incidents
      modifies this`incidents
      ensures State() == Apply(old(State()), Op.Create(id, f))
    {
      incidents := incidents[id := Incident(f, None)];
    }

    /** A new alert with the incident its enrichment found; every search leaves out merged incidents. */
    method AddAlert(a: AlertId, found: Option<Id>)
      requires a !in alerts && (found.Some? ==> Open(State(), found.value))
      modifies this`alerts
      ensures State() == Apply(old(State()), NewAlert(a, found))
    {
      alerts := alerts[a := found];
    }

    method Delete(id: Id) returns (r: Result<(), Error>)
      modifies this`incidents
      ensures State() == Apply(old(State()), Archive(id))
      ensures r == if Open(old(State()), id) then Ok(()) else Err(NoRows)
    {
      if id !in incidents || incidents[id].mergedInto.Some? {
        return Err(NoRows);
      }
      incidents := incidents[id := incidents[id].(mergedInto := Some(id))];
      return Ok(());
    }

    method Update(id: Id, f: Fields) returns (r: Result<Fields, Error>)
      modifies this`incidents
      ensures State() == Apply(old(State()), Edit(id, f))
      ensures r == if id in old(incidents) then Ok(f) else Err(NoRows)
    {
      if id !in incidents {
        return Err(NoRows);
      }
      incidents := incidents[id := incidents[id].(fields := f)];
      return Ok(f);
    }

    /** The update may fail, and then changes nothing. */
    method ReassignAlerts(source: Id, target: Id, fails: bool) returns (ok: bool)
      modifies this`alerts
      ensures ok == !fails
      ensures alerts == if fails then old(alerts) else Reassigned(old(alerts), source, target)
    {
      if fails {
        return false;
      }
      alerts := map a | a in alerts :: if alerts[a] == Some(source) then Some(target) else alerts[a];
      return true;
    }

    /** Checks first, then the target's fields, the source's link and the alerts, in that order. */
    method Merge(target: Id, source: Id, reassignFails: bool) returns (r: Result<Fields, Error>)
      modifies this
      ensures State() == Apply(old(State()), Op.Merge(target, source, !reassignFails))
      ensures var e := MergeError(old(State()), target, source);
              if e.Some? then r == Err(e.value) else r == Ok(incidents[target].fields)
    {
      if target == source {
        return Err(SameIncident);
      }
      if target !in incidents {
        return Err(TargetMissing);
      }
      var t := incidents[target];
      if t.mergedInto.Some? {
        return Err(TargetMerged);
      }
      if source !in incidents {
        return Err(SourceMissing);
      }
      var s := incidents[source];
      if s.mergedInto.Some? {
        return Err(SourceMerged);
      }
      var tf, sf := t.fields, s.fields;
      var fingerprints := UnionSlice(tf.fingerprints, sf.fingerprints);
      var tags := UnionSlice(tf.tags, sf.tags);
      var services := UnionSlice(tf.services, sf.services);
      var clusters := UnionSlice(tf.clusters, sf.clusters);
      var namespaces := UnionSlice(tf.namespaces, sf.namespaces);
      var errorPatterns := UnionSlice(tf.errorPatterns, sf.errorPatterns);
      var merged := Fields(tf.title, BestSeverity(tf.severity, sf.severity), tf.category,
                           fingerprints, tags, services, clusters, namespaces, errorPatterns,
                           BestText(tf.symptoms, sf.symptoms), BestText(tf.rootCause, sf.rootCause),
                           BestText(tf.solution, sf.solution), BestRunbook(tf.runbook, sf.runbook));
      r := Update(target, merged);
      incidents := incidents[source := incidents[source].(mergedInto := Some(target))];
      var reassigned := ReassignAlerts(source, target, reassignFails);
    }
  }

  // ----- Following the links -----

  /** n links up from x; a walk stops where there is no link. */
  function Walk(db: Db, x: Id, n: nat): Id
    decreases n
  {
    if n == 0 || x !in db.incidents || db.incidents[x].mergedInto.None? then x
    else Walk(db, db.incidents[x].mergedInto.value, n - 1)
  }

  /** Not merged into another incident: open, or archived. */
  predicate Terminal(db: Db, x: Id) {
    x in db.incidents && (db.incidents[x].mergedInto.None? || db.incidents[x].mergedInto == Some(x))
  }

  ghost predicate Settles(db: Db, x: Id) {
    exists n: nat :: Terminal(db, Walk(db, x, n))
  }

  /** Following the links terminates from every incident: no cycles but the archive's self-loops. */
  ghost predicate Forest(db: Db) {
    forall x :: x in db.incidents ==> Settles(db, x)
  }

  /** Where the links lead. */
  ghost function Root(db: Db, x: Id): Id
    requires Settles(db, x)
  {
    var n: nat :| Terminal(db, Walk(db, x, n));
    Walk(db, x, n)
  }

  lemma {:induction false} WalkStaysAtEnd(db: Db, x: Id, n: nat)
    requires Terminal(db, x)
    ensures Walk(db, x, n) == x
  {
    if n > 0 {
      WalkStaysAtEnd(db, x, n - 1);
    }
  }

  lemma {:induction false} WalkOn(db: Db, x: Id, n: nat, m: nat)
    requires Terminal(db, Walk(db, x, n))
    ensures Walk(db, x, n + m) == Walk(db, x, n)
    decreases n
  {
    if n == 0 || x !in db.incidents || db.incidents[x].mergedInto.None? {
      WalkStaysAtEnd(db, x, n + m);
    } else {
      WalkOn(db, db.incidents[x].mergedInto.value, n - 1, m);
    }
  }

  /** Any walk that ends, ends at the root. */
  lemma {:induction false} RootIs(db: Db, x: Id, n: nat)
    requires Terminal(db, Walk(db, x, n))
    ensures Settles(db, x) && Root(db, x) == Walk(db, x, n)
  {
    assert Settles(db, x);
    var m: nat :| Terminal(db, Walk(db, x, m)) && Root(db, x) == Walk(db, x, m);
    WalkOn(db, x, n, m);
    WalkOn(db, x, m, n);
  }

  lemma {:induction false} RootTerminal(db: Db, x: Id)
    requires Settles(db, x)
    ensures Terminal(db, Root(db, x))
  {
  }

  /** Two tables with the same links have the same walks. */
  ghost predicate SameLinks(db: Db, db': Db) {
    forall i :: i in db.incidents ==> i in db'.incidents && db'.incidents[i].mergedInto == db.incidents[i].mergedInto
  }

  lemma {:induction false} SameWalk(db: Db, db': Db, x: Id, n: nat)
    requires SameLinks(db, db') && Terminal(db, Walk(db, x, n))
    ensures Walk(db', x, n) == Walk(db, x, n)
    decreases n
  {
    if n > 0 && x in db.incidents && db.incidents[x].mergedInto.Some? {
      SameWalk(db, db', db.incidents[x].mergedInto.value, n - 1);
    }
  }

  lemma {:induction false} SameRoot(db: Db, db': Db, x: Id)
    requires SameLinks(db, db') && Settles(db, x)
    ensures Settles(db', x) && Root(db', x) == Root(db, x)
  {
    var n: nat :| Terminal(db, Walk(db, x, n));
    SameWalk(db, db', x, n);
    RootIs(db, x, n);
    RootIs(db', x, n);
  }

  /** Pointing an open incident at t, itself open or the incident in question. */
  lemma {:induction false} LinkedWalk(db: Db, s: Id, t: Id, x: Id, n: nat)
    requires Open(db, s) && (Open(db, t) || t == s) && Terminal(db, Walk(db, x, n))
    ensures var db' := WithLink(db, s, t);
            if Walk(db, x, n) == s then Walk(db', x, n + 1) == t else Walk(db', x, n) == Walk(db, x, n)
    decreases n
  {
    var db' := WithLink(db, s, t);
    if x == s {
      WalkStaysAtEnd(db, s, n);
      WalkStaysAtEnd(db', t, n);
    } else if n > 0 && x in db.incidents && db.incidents[x].mergedInto.Some? {
      LinkedWalk(db, s, t, db.incidents[x].mergedInto.value, n - 1);
    }
  }

  /** Linking s to t moves s's whole tree under t and leaves every other root alone. */
  lemma {:induction false} LinkedRoot(db: Db, s: Id, t: Id, x: Id)
    requires Open(db, s) && (Open(db, t) || t == s) && Settles(db, x)
    ensures var db' := WithLink(db, s, t);
            Settles(db', x) && Root(db', x) == if Root(db, x) == s then t else Root(db, x)
  {
    var db' := WithLink(db, s, t);
    var n: nat :| Terminal(db, Walk(db, x, n));
    LinkedWalk(db, s, t, x, n);
    RootIs(db, x, n);
    if Walk(db, x, n) == s {
      RootIs(db', x, n + 1);
    } else {
      RootIs(db', x, n);
    }
  }

  predicate Merges(db: Db, op: Op) {
    op.Merge? && MergeError(db, op.target, op.source).None?
  }

  lemma {:induction false} MergeLinks(db: Db, t: Id, s: Id)
    requires MergeError(db, t, s).None?
    ensures forall reassigned :: SameLinks(WithLink(db, s, t), Apply(db, Merge(t, s, reassigned)))
    ensures Open(db, s) && Open(db, t)
  {
    hide MergedFields;
  }

  lemma {:induction false} OtherLinks(db: Db, op: Op)
    requires !Merges(db, op) && !(op.Archive? && Open(db, op.id))
    ensures SameLinks(db, Apply(db, op))
  {
    hide MergedFields;
  }

  /** What every operation does to the roots of the incidents there are. */
  lemma {:induction false} ApplyRoots(db: Db, op: Op, x: Id)
    requires Forest(db) && x in db.incidents
    ensures Settles(db, x) && Settles(Apply(db, op), x)
    ensures Root(Apply(db, op), x) == if Merges(db, op) && Root(db, x) == op.source then op.target else Root(db, x)
  {
    assert Settles(db, x);
    hide Root;
    hide Settles;
    if op.Archive? && Open(db, op.id) {
      LinkedRoot(db, op.id, op.id, x);
    } else if Merges(db, op) {
      MergeLinks(db, op.target, op.source);
      LinkedRoot(db, op.source, op.target, x);
      SameRoot(WithLink(db, op.source, op.target), Apply(db, op), x);
    } else {
      OtherLinks(db, op);
      SameRoot(db, Apply(db, op), x);
    }
  }

  /** A new incident is its own root. */
  lemma {:induction false} OpenRoot(db: Db, x: Id)
    requires Open(db, x)
    ensures Settles(db, x) && Root(db, x) == x
  {
    assert Walk(db, x, 0) == x;
    RootIs(db, x, 0);
  }

  lemma {:induction false} NewIncident(db: Db, op: Op, x: Id)
    requires x in Apply(db, op).incidents && x !in db.incidents
    ensures op.Create? && x == op.id && Open(Apply(db, op), x)
  {
    hide MergedFields;
  }

  // ----- Whole runs -----

  /** A run, with what it has seen so far: the fields incidents were created with, and first matches. */
  datatype Ledger = Ledger(db: Db, created: map<Id, Fields>, firstMatch: map<AlertId, Id>)

  function Record(l: Ledger, op: Op): Ledger {
    var db' := Apply(l.db, op);
    Ledger(db',
           if op.Create? && op.id !in l.db.incidents then l.created[op.id := op.fields] else l.created,
           if op.NewAlert? && op.incident.Some? && db' != l.db then l.firstMatch[op.alert := op.incident.value]
           else l.firstMatch)
  }

  function Recorded(ops: seq<Op>): Ledger {
    if ops == [] then Ledger(Db(map[], map[]), map[], map[])
    else Record(Recorded(ops[..|ops| - 1]), ops[|ops| - 1])
  }

  /** Every matched alert points at the root of the incident it was first matched to. */
  ghost predicate Follows(l: Ledger, a: AlertId)
    requires a in l.db.alerts
  {
    if l.db.alerts[a].None? then a !in l.firstMatch
    else
      && a in l.firstMatch && l.firstMatch[a] in l.db.incidents
      && Settles(l.db, l.firstMatch[a]) && l.db.alerts[a] == Some(Root(l.db, l.firstMatch[a]))
  }

  ghost predicate AlertsFollow(l: Ledger) {
    forall a :: a in l.db.alerts ==> Follows(l, a)
  }

  ghost predicate Sound(l: Ledger) {
    && Forest(l.db)
    && l.created.Keys == l.db.incidents.Keys && l.firstMatch.Keys <= l.db.alerts.Keys
  }

  lemma {:induction false} ForestKept(db: Db, op: Op)
    requires Forest(db)
    ensures Forest(Apply(db, op))
  {
    hide Settles;
    forall x | x in Apply(db, op).incidents
      ensures Settles(Apply(db, op), x)
    {
      hide Apply;
      if x in db.incidents {
        ApplyRoots(db, op, x);
      } else {
        NewIncident(db, op, x);
        OpenRoot(Apply(db, op), x);
      }
    }
  }

  /** How the alert table changes. */
  lemma {:induction false} AlertsAfter(db: Db, op: Op, a: AlertId)
    requires a in Apply(db, op).alerts
    ensures var i := Apply(db, op).alerts[a];
            if a in db.alerts then
              i == if Merges(db, op) && op.reassigned && db.alerts[a] == Some(op.source) then Some(op.target)
                   else db.alerts[a]
            else op == NewAlert(a, i) && Apply(db, op) != db && (i.Some? ==> Open(Apply(db, op), i.value))
  {
    hide MergedFields;
  }

  lemma {:induction false} KeysGrow(l: Ledger, op: Op)
    requires l.created.Keys == l.db.incidents.Keys && l.firstMatch.Keys <= l.db.alerts.Keys
    ensures var l' := Record(l, op);
            && l'.created.Keys == l'.db.incidents.Keys && l'.firstMatch.Keys <= l'.db.alerts.Keys
            && l.db.incidents.Keys <= l'.db.incidents.Keys
            && (forall a :: a in l.db.alerts ==>
                  && (a in l'.firstMatch <==> a in l.firstMatch)
                  && (a in l.firstMatch ==> l'.firstMatch[a] == l.firstMatch[a]))
  {
    hide MergedFields;
  }

  /** A merge whose alerts are not reassigned although the source has some. */
  ghost predicate Strands(db: Db, op: Op) {
    Merges(db, op) && !op.reassigned && exists a :: a in db.alerts && db.alerts[a] == Some(op.source)
  }

  lemma {:induction false} AlertFollows(l: Ledger, op: Op, a: AlertId)
    requires Sound(l) && AlertsFollow(l) && !Strands(l.db, op) && a in Record(l, op).db.alerts
    ensures Follows(Record(l, op), a)
  {
    hide Apply;
    hide Root;
    hide Settles;
    assert a in l.db.alerts ==> Follows(l, a);
    KeysGrow(l, op);
    AlertsAfter(l.db, op, a);
    if a in l.db.alerts {
      if l.db.alerts[a].Some? {
        ApplyRoots(l.db, op, l.firstMatch[a]);
      }
    } else {
      var i := Apply(l.db, op).alerts[a];
      if i.Some? {
        OpenRoot(Apply(l.db, op), i.value);
      }
    }
  }

  lemma {:induction false} RecordSound(l: Ledger, op: Op)
    requires Sound(l)
    ensures Sound(Record(l, op))
    ensures AlertsFollow(l) && !Strands(l.db, op) ==> AlertsFollow(Record(l, op))
  {
    hide Apply;
    hide Follows;
    hide Forest;
    hide Strands;
    ForestKept(l.db, op);
    KeysGrow(l, op);
    if AlertsFollow(l) && !Strands(l.db, op) {
      forall a | a in Record(l, op).db.alerts
        ensures Follows(Record(l, op), a)
      {
        AlertFollows(l, op, a);
      }
    }
  }

  /** An alert whose incident has been merged into another. */
  ghost predicate Stranded(db: Db, a: AlertId) {
    && a in db.alerts && db.alerts[a].Some? && db.alerts[a].value in db.incidents
    && db.incidents[db.alerts[a].value].mergedInto.Some? && !Terminal(db, db.alerts[a].value)
  }

  lemma {:induction false} StrandedForGood(db: Db, op: Op, a: AlertId)
    requires Stranded(db, a)
    ensures Stranded(Apply(db, op), a)
  {
    hide MergedFields;
  }

  lemma {:induction false} StrandsSomebody(db: Db, op: Op)
    requires Strands(db, op)
    ensures exists a :: Stranded(Apply(db, op), a)
  {
    hide MergedFields;
    var a :| a in db.alerts && db.alerts[a] == Some(op.source);
    assert Stranded(Apply(db, op), a);
  }

  lemma {:induction false} StrandedDoesNotFollow(l: Ledger, a: AlertId)
    requires Stranded(l.db, a)
    ensures !AlertsFollow(l)
  {
    if Follows(l, a) {
      RootTerminal(l.db, l.firstMatch[a]);
    }
  }

  /** No merge of the run stranded an alert. */
  ghost predicate NoneStranded(ops: seq<Op>) {
    forall k :: 0 <= k < |ops| ==> !Strands(Recorded(ops[..k]).db, ops[k])
  }

  lemma {:induction false} NoneStrandedBefore(ops: seq<Op>)
    requires ops != []
    ensures var n := |ops| - 1;
            NoneStranded(ops) <==> NoneStranded(ops[..n]) && !Strands(Recorded(ops[..n]).db, ops[n])
  {
    hide Strands;
    hide Recorded;
    var n := |ops| - 1;
    assert forall k :: 0 <= k < n ==> ops[..n][..k] == ops[..k] && ops[..n][k] == ops[k];
  }

  lemma {:induction false} RunsSound(ops: seq<Op>)
    ensures Sound(Recorded(ops))
    ensures if NoneStranded(ops) then AlertsFollow(Recorded(ops)) else exists a :: Stranded(Recorded(ops).db, a)
  {
    hide Sound;
    hide Apply;
    hide Strands;
    hide Stranded;
    hide AlertsFollow;
    hide NoneStranded;
    if ops == [] {
      NothingRecorded();
    } else {
      var n := |ops| - 1;
      var l := Recorded(ops[..n]);
      RunsSound(ops[..n]);
      NoneStrandedBefore(ops);
      RecordSound(l, ops[n]);
      if !NoneStranded(ops[..n]) {
        var a :| Stranded(l.db, a);
        StrandedForGood(l.db, ops[n], a);
      } else if Strands(l.db, ops[n]) {
        StrandsSomebody(l.db, ops[n]);
      }
    }
  }

  lemma {:induction false} NothingRecorded()
    ensures Sound(Recorded([])) && AlertsFollow(Recorded([])) && NoneStranded([])
  {
  }

  /**
   Alert matches follow the merge forest: after any run following merged_into terminates from every
   incident; and each matched alert points at the root of the incident it first matched if and only
   if every merge whose reassignment failed had no alerts to reassign.
   */
  lemma {:induction false} AlertsPointAtRootsIff(ops: seq<Op>)
    ensures Forest(Recorded(ops).db)
    ensures AlertsFollow(Recorded(ops)) <==> NoneStranded(ops)
  {
    hide NoneStranded;
    RunsSound(ops);
    hide Forest;
    hide Recorded;
    if !NoneStranded(ops) {
      var a :| Stranded(Recorded(ops).db, a);
      StrandedDoesNotFollow(Recorded(ops), a);
    }
  }

  /** And where it does it points at no incident merged into another. */
  lemma {:induction false} FollowersAtTerminals(l: Ledger)
    requires AlertsFollow(l)
    ensures forall a :: a in l.db.alerts && l.db.alerts[a].Some? ==> Terminal(l.db, l.db.alerts[a].value)
  {
    forall a | a in l.db.alerts && l.db.alerts[a].Some?
      ensures Terminal(l.db, l.db.alerts[a].value)
    {
      assert Follows(l, a);
      RootTerminal(l.db, l.firstMatch[a]);
    }
  }

  /** When no reassignment fails, every alert of every run does. */
  lemma {:induction false} AlertsPointAtRoots(ops: seq<Op>)
    requires forall k :: 0 <= k < |ops| && ops[k].Merge? ==> ops[k].reassigned
    ensures AlertsFollow(Recorded(ops))
    ensures var db := Recorded(ops).db;
            forall a :: a in db.alerts && db.alerts[a].Some? ==> Terminal(db, db.alerts[a].value)
  {
    hide Recorded;
    AlertsPointAtRootsIff(ops);
    FollowersAtTerminals(Recorded(ops));
  }

  // ----- Nothing is lost in a merge -----

  ghost predicate HasText(created: map<Id, Fields>, xs: set<Id>, k: TextField, t: string) {
    exists x :: x in xs && x in created && TextOf(created[x], k) == Some(t)
  }

  ghost predicate HasRunbook(created: map<Id, Fields>, xs: set<Id>, b: nat) {
    exists x :: x in xs && x in created && created[x].runbook == Some(b)
  }

  ghost predicate Lists(created: map<Id, Fields>, xs: set<Id>, k: ListField, v: string) {
    exists x :: x in xs && x in created && v in ListOf(created[x], k)
  }

  ghost predicate HasSeverity(created: map<Id, Fields>, xs: set<Id>, s: string) {
    exists x :: x in xs && x in created && created[x].severity == s
  }

  /**
   f sums up the incidents xs as they were created: their list entries together, the highest
   severity, and for each text one of the longest.
   */
  ghost predicate SumsUp(created: map<Id, Fields>, xs: set<Id>, f: Fields) {
    && (forall k, v :: v in ListOf(f, k) <==> Lists(created, xs, k, v))
    && HasSeverity(created, xs, f.severity)
    && (forall s :: HasSeverity(created, xs, s) ==> SeverityOrder(s) <= SeverityOrder(f.severity))
    && (forall k :: TextOf(f, k).Some? ==> HasText(created, xs, k, TextOf(f, k).value))
    && (forall k, t :: HasText(created, xs, k, t) ==> TextOf(f, k).Some? && |t| <= |TextOf(f, k).value|)
    && (f.runbook.Some? ==> HasRunbook(created, xs, f.runbook.value))
    && (forall b :: HasRunbook(created, xs, b) ==> f.runbook.Some?)
  }

  lemma {:induction false} MergedLists(created: map<Id, Fields>, xs: set<Id>, ys: set<Id>, t: Fields, s: Fields,
                                       k: ListField, v: string)
    requires v in ListOf(t, k) <==> Lists(created, xs, k, v)
    requires v in ListOf(s, k) <==> Lists(created, ys, k, v)
    ensures v in ListOf(MergedFields(t, s), k) <==> Lists(created, xs + ys, k, v)
  {
    DedupIs(ListOf(t, k) + ListOf(s, k));
    hide Dedup;
    assert ListOf(MergedFields(t, s), k) == Dedup(ListOf(t, k) + ListOf(s, k));
  }

  lemma {:induction false} InEither(created: map<Id, Fields>, xs: set<Id>, ys: set<Id>)
    ensures forall v :: HasSeverity(created, xs + ys, v) <==> HasSeverity(created, xs, v) || HasSeverity(created, ys, v)
    ensures forall k, v :: HasText(created, xs + ys, k, v) <==> HasText(created, xs, k, v) || HasText(created, ys, k, v)
    ensures forall b :: HasRunbook(created, xs + ys, b) <==> HasRunbook(created, xs, b) || HasRunbook(created, ys, b)
  {
  }

  lemma {:induction false} MergedTexts(t: Fields, s: Fields, k: TextField)
    ensures TextOf(MergedFields(t, s), k) == BestText(TextOf(t, k), TextOf(s, k))
  {
  }

  lemma {:induction false} MergedSumsUp(created: map<Id, Fields>, xs: set<Id>, ys: set<Id>, t: Fields, s: Fields)
    requires SumsUp(created, xs, t) && SumsUp(created, ys, s)
    ensures SumsUp(created, xs + ys, MergedFields(t, s))
  {
    var f := MergedFields(t, s);
    forall k, v
      ensures v in ListOf(f, k) <==> Lists(created, xs + ys, k, v)
    {
      MergedLists(created, xs, ys, t, s, k, v);
    }
    InEither(created, xs, ys);
    assert f.severity == BestSeverity(t.severity, s.severity) && f.runbook == BestRunbook(t.runbook, s.runbook);
    hide MergedFields;
    hide ListOf;
    hide Lists;
    hide HasSeverity;
    hide HasText;
    hide HasRunbook;
    forall k
      ensures TextOf(f, k) == BestText(TextOf(t, k), TextOf(s, k))
    {
      MergedTexts(t, s, k);
    }
    hide TextOf;
  }

  /** The incidents whose links lead to r. */
  ghost function Tree(db: Db, r: Id): set<Id> {
    set x | x in db.incidents && Settles(db, x) && Root(db, x) == r
  }

  lemma {:induction false} TreePresent(db: Db, r: Id)
    ensures Tree(db, r) <= db.incidents.Keys
  {
  }

  ghost predicate Conserved(l: Ledger) {
    Forest(l.db) && forall r :: r in l.db.incidents && Terminal(l.db, r) ==>
      SumsUp(l.created, Tree(l.db, r), l.db.incidents[r].fields)
  }

  lemma {:induction false} CreatedGrows(created: map<Id, Fields>, i: Id, f: Fields, xs: set<Id>, g: Fields)
    requires i !in xs && SumsUp(created, xs, g)
    ensures SumsUp(created[i := f], xs, g)
  {
    var c := created[i := f];
    assert forall k, v :: Lists(c, xs, k, v) <==> Lists(created, xs, k, v);
    assert forall v :: HasSeverity(c, xs, v) <==> HasSeverity(created, xs, v);
    assert forall k, v :: HasText(c, xs, k, v) <==> HasText(created, xs, k, v);
    assert forall b :: HasRunbook(c, xs, b) <==> HasRunbook(created, xs, b);
  }

  lemma {:induction false} NewSumsUp(created: map<Id, Fields>, i: Id)
    requires i in created
    ensures SumsUp(created, {i}, created[i])
  {
  }

  /** What an operation does to the merge tree of an incident that was there. */
  lemma {:induction false} TreeAfter(db: Db, op: Op, r: Id)
    requires Forest(db) && r in db.incidents && !(Merges(db, op) && r == op.source)
    ensures Tree(Apply(db, op), r)
            == if Merges(db, op) && r == op.target then Tree(db, r) + Tree(db, op.source) else Tree(db, r)
  {
    hide Root;
    hide Settles;
    forall x
      ensures x in Tree(Apply(db, op), r) <==>
              x in if Merges(db, op) && r == op.target then Tree(db, r) + Tree(db, op.source) else Tree(db, r)
    {
      if x in db.incidents {
        ApplyRoots(db, op, x);
      } else if x in Apply(db, op).incidents {
        NewIncident(db, op, x);
        OpenRoot(Apply(db, op), x);
      }
    }
  }

  lemma {:induction false} NewTree(db: Db, op: Op, r: Id)
    requires Forest(db) && r !in db.incidents && r in Apply(db, op).incidents
    ensures Tree(Apply(db, op), r) == {r}
  {
    hide Root;
    hide Settles;
    forall x
      ensures x in Tree(Apply(db, op), r) <==> x == r
    {
      if x in db.incidents {
        ApplyRoots(db, op, x);
        RootPresent(db, x);
        if Merges(db, op) {
          MergeLinks(db, op.target, op.source);
        }
      } else if x in Apply(db, op).incidents {
        NewIncident(db, op, x);
        NewIncident(db, op, r);
        OpenRoot(Apply(db, op), x);
      }
    }
  }

  lemma {:induction false} RootPresent(db: Db, x: Id)
    requires Settles(db, x)
    ensures Root(db, x) in db.incidents
  {
    RootTerminal(db, x);
  }

  /** How an incident that stays unmerged changes, short of an edit. */
  lemma {:induction false} FieldsAfter(l: Ledger, op: Op, r: Id)
    requires !op.Edit? && r in Record(l, op).db.incidents
    ensures var l', i := Record(l, op), Record(l, op).db.incidents[r].fields;
            if r !in l.db.incidents then l'.created == l.created[r := i]
            else
              && (Merges(l.db, op) && r == op.target ==>
                    i == MergedFields(l.db.incidents[r].fields, l.db.incidents[op.source].fields))
              && (!(Merges(l.db, op) && r == op.target) ==> i == l.db.incidents[r].fields)
    ensures Terminal(Record(l, op).db, r) && r in l.db.incidents ==>
              Terminal(l.db, r) && !(Merges(l.db, op) && r == op.source)
    ensures var l' := Record(l, op);
            if op.Create? && op.id !in l.db.incidents then l'.created == l.created[op.id := op.fields]
            else l'.created == l.created
  {
    hide MergedFields;
  }

  lemma {:induction false} StillSumsUp(l: Ledger, op: Op, r: Id)
    requires Sound(l) && Conserved(l) && !op.Edit?
    ensures var l' := Record(l, op);
            r in l'.db.incidents && Terminal(l'.db, r) ==> SumsUp(l'.created, Tree(l'.db, r), l'.db.incidents[r].fields)
  {
    hide Forest;
    hide Settles;
    hide Apply;
    hide Tree;
    hide Follows;
    hide SumsUp;
    hide MergedFields;
    var l' := Record(l, op);
    if r !in l'.db.incidents || !Terminal(l'.db, r) {
      return;
    }
    FieldsAfter(l, op, r);
    assert l'.db == Apply(l.db, op);
    hide Record;
    if r !in l.db.incidents {
      NewTree(l.db, op, r);
      NewSumsUp(l'.created, r);
    } else {
      assert SumsUp(l.created, Tree(l.db, r), l.db.incidents[r].fields);
      TreeAfter(l.db, op, r);
      if Merges(l.db, op) && r == op.target {
        assert SumsUp(l.created, Tree(l.db, op.source), l.db.incidents[op.source].fields);
        MergedSumsUp(l.created, Tree(l.db, r), Tree(l.db, op.source),
                     l.db.incidents[r].fields, l.db.incidents[op.source].fields);
      } else if op.Create? && op.id !in l.db.incidents {
        TreePresent(l.db, r);
        CreatedGrows(l.created, op.id, op.fields, Tree(l.db, r), l.db.incidents[r].fields);
      }
    }
  }

  lemma {:induction false} RecordConserves(l: Ledger, op: Op)
    requires Sound(l) && Conserved(l) && !op.Edit?
    ensures Conserved(Record(l, op))
  {
    hide SumsUp;
    hide Apply;
    hide Tree;
    ForestKept(l.db, op);
    forall r | r in Record(l, op).db.incidents && Terminal(Record(l, op).db, r)
      ensures var l' := Record(l, op); SumsUp(l'.created, Tree(l'.db, r), l'.db.incidents[r].fields)
    {
      StillSumsUp(l, op, r);
    }
  }

  /**
   Merge conservation: after any run without edits, an incident that has not been merged away
   carries the lists of its whole merge tree together, the tree's highest severity and its longest
   texts, whatever order the merges came in.
   */
  lemma {:induction false} MergesConserve(ops: seq<Op>)
    requires forall i :: 0 <= i < |ops| ==> !ops[i].Edit?
    ensures Sound(Recorded(ops)) && Conserved(Recorded(ops))
  {
    RunsSound(ops);
    if ops != [] {
      MergesConserve(ops[..|ops| - 1]);
      RecordConserves(Recorded(ops[..|ops| - 1]), ops[|ops| - 1]);
    }
  }

  // ----- What an incident keeps of its own -----

  ghost predicate NoRepeats(xs: seq<string>) {
    forall i, j :: 0 <= i < j < |xs| ==> xs[i] != xs[j]
  }

  lemma {:induction false} DedupOfDistinct(xs: seq<string>)
    requires NoRepeats(xs)
    ensures Dedup(xs) == xs
  {
    if xs != [] {
      DedupOfDistinct(xs[..|xs| - 1]);
    }
  }

  /** Untouched, or without repeats and with its own elements in front, in their order. */
  ghost predicate GrownFrom(own: seq<string>, now: seq<string>) {
    now == own || (NoRepeats(now) && Dedup(own) <= now)
  }

  lemma {:induction false} UnionGrows(own: seq<string>, now: seq<string>, more: seq<string>)
    requires GrownFrom(own, now)
    ensures GrownFrom(own, Dedup(now + more))
  {
    DedupIs(now + more);
    DedupKeepsFront(now, more);
    if now != own {
      DedupOfDistinct(now);
    }
  }

  ghost predicate OwnKept(was: Fields, now: Fields) {
    && now.title == was.title && now.category == was.category
    && (was.runbook.Some? ==> now.runbook == was.runbook)
    && forall k :: GrownFrom(ListOf(was, k), ListOf(now, k))
  }

  lemma {:induction false} MergedKeepsOwn(was: Fields, t: Fields, s: Fields)
    requires OwnKept(was, t)
    ensures OwnKept(was, MergedFields(t, s))
  {
    forall k
      ensures GrownFrom(ListOf(was, k), ListOf(MergedFields(t, s), k))
    {
      UnionGrows(ListOf(was, k), ListOf(t, k), ListOf(s, k));
    }
  }

  lemma {:induction false} StepKeepsOwn(l: Ledger, op: Op, i: Id)
    requires Sound(l) && !op.Edit? && i in Record(l, op).db.incidents
    ensures var l' := Record(l, op);
            && i in l'.created
            && ((i in l.db.incidents ==> OwnKept(l.created[i], l.db.incidents[i].fields)) ==>
                  OwnKept(l'.created[i], l'.db.incidents[i].fields))
  {
    hide OwnKept;
    hide Apply;
    hide Forest;
    hide Follows;
    hide MergedFields;
    FieldsAfter(l, op, i);
    hide Record;
    if i !in l.db.incidents {
      OwnToBeginWith(Record(l, op).db.incidents[i].fields);
    } else if Merges(l.db, op) && i == op.target && OwnKept(l.created[i], l.db.incidents[i].fields) {
      MergedKeepsOwn(l.created[i], l.db.incidents[i].fields, l.db.incidents[op.source].fields);
    }
  }

  /**
   Short of edits, whatever is merged into an incident, and even once it is merged away itself, it
   keeps its title, category and runbook, and in each list its own elements stay in front.
   */
  lemma {:induction false} OwnFieldsStay(ops: seq<Op>, i: Id)
    requires forall n :: 0 <= n < |ops| ==> !ops[n].Edit?
    requires i in Recorded(ops).db.incidents
    ensures i in Recorded(ops).created && OwnKept(Recorded(ops).created[i], Recorded(ops).db.incidents[i].fields)
  {
    hide OwnKept;
    hide Sound;
    hide Record;
    if ops != [] {
      var l := Recorded(ops[..|ops| - 1]);
      RunsSound(ops[..|ops| - 1]);
      if i in l.db.incidents {
        OwnFieldsStay(ops[..|ops| - 1], i);
      }
      StepKeepsOwn(l, ops[|ops| - 1], i);
    }
  }

  lemma {:induction false} OwnToBeginWith(f: Fields)
    ensures OwnKept(f, f)
  {
  }
}
