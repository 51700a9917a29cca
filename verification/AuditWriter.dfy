/** The asynchronous audit writer: a bounded queue, a batch, and one loop that moves entries on. */
module AuditWriter {
  const BUFFER_SIZE := 256
  const FLUSH_BATCH := 32

  datatype Entry = Entry(schema: string, action: string, resource: string)

  // ----- Flushing a batch -----

  function OfSchema(entries: seq<Entry>, schema: string): seq<Entry> {
    if entries == [] then []
    else
      var n := |entries| - 1;
      OfSchema(entries[..n], schema) + if entries[n].schema == schema then [entries[n]] else []
  }

  function Schemas(entries: seq<Entry>): set<string> {
    set i | 0 <= i < |entries| :: entries[i].schema
  }

  function Table(tables: map<string, seq<Entry>>, schema: string): seq<Entry> {
    if schema in tables then tables[schema] else []
  }

  /**
   What goes wrong in one flush: schemas that cannot be reached, and rows the database refuses, by
   schema and by place among that schema's rows.
   */
  datatype Outage = Outage(broken: set<string>, refused: set<(string, int)>)

  const NO_OUTAGE := Outage({}, {})

  /** A schema's rows are written unless it is unnamed or cannot be reached. */
  predicate Writable(schema: string, o: Outage) {
    schema != "" && schema !in o.broken
  }

  /** The rows that are not refused. */
  function Kept(rows: seq<Entry>, schema: string, o: Outage): seq<Entry> {
    if rows == [] then []
    else
      var n := |rows| - 1;
      Kept(rows[..n], schema, o) + if (schema, n) in o.refused then [] else [rows[n]]
  }

  /** The tables once the schemas in `done` have been dealt with. */
  function WrittenFor(tables: map<string, seq<Entry>>, entries: seq<Entry>, done: set<string>, o: Outage)
    : map<string, seq<Entry>>
  {
    map s | s in tables.Keys + done && (s in tables || Writable(s, o)) ::
      if s in done && Writable(s, o) then Table(tables, s) + Kept(OfSchema(entries, s), s, o) else Table(tables, s)
  }

  function Written(tables: map<string, seq<Entry>>, entries: seq<Entry>, o: Outage): map<string, seq<Entry>> {
    WrittenFor(tables, entries, Schemas(entries), o)
  }

  lemma {:induction false} OfSchemaAbsent(entries: seq<Entry>, schema: string)
    requires schema !in Schemas(entries)
    ensures OfSchema(entries, schema) == []
  {
    if entries != [] {
      var n := |entries| - 1;
      assert entries[n].schema in Schemas(entries);
      forall s | s in Schemas(entries[..n])
        ensures s in Schemas(entries)
      {
        var i :| 0 <= i < n && entries[..n][i].schema == s;
        assert entries[i].schema == s;
      }
      OfSchemaAbsent(entries[..n], schema);
    }
  }

  // ----- The loop as a transition system -----

  /** Running until the context is seen cancelled; then draining; then gone, one way or the other. */
  datatype Phase = Running | Draining | ExitedByClose | ExitedByCancel

  /**
   The writer as seen between steps. `accepted` is everything Log took in, `flushed` everything
   handed to flush, both in order; `tables` are the audit logs, one for each schema.
   */
  datatype State = State(queue: seq<Entry>, closed: bool, cancelled: bool, batch: seq<Entry>, phase: Phase,
                         accepted: seq<Entry>, flushed: seq<Entry>, tables: map<string, seq<Entry>>)

  const INITIAL := State([], false, false, [], Running, [], [], map[])

  function Flushed(s: State, o: Outage): State {
    s.(batch := [], flushed := s.flushed + s.batch,
       tables := if s.batch == [] then s.tables else Written(s.tables, s.batch, o))
  }

  /** Log never blocks: a full buffer drops the entry. Logging after Close is not allowed. */
  function Logged(s: State, e: Entry): State {
    if |s.queue| < BUFFER_SIZE then s.(queue := s.queue + [e], accepted := s.accepted + [e]) else s
  }

  function Received(s: State): State
    requires s.queue != []
  {
    s.(queue := s.queue[1..], batch := s.batch + [s.queue[0]])
  }

  /** What the callers, the clock and the loop's choice among ready cases can do next. */
  datatype Action =
    | Log(entry: Entry)
    | Close
    | Cancel
    | TakeEntry
    | TickerFires
    | SeeCancelled
    | SeeClosed
    | FindEmpty

  predicate Exited(s: State) {
    s.phase == ExitedByClose || s.phase == ExitedByCancel
  }

  /** A closed channel still gives out what it holds; `default` is taken only when nothing is ready. */
  predicate Enabled(s: State, a: Action) {
    match a
    case Log(_) => !s.closed
    case Close => !s.closed
    case Cancel => true
    case TakeEntry => !Exited(s) && s.queue != []
    case TickerFires => s.phase == Running
    case SeeCancelled => s.phase == Running && s.cancelled
    case SeeClosed => !Exited(s) && s.queue == [] && s.closed
    case FindEmpty => s.phase == Draining && s.queue == [] && !s.closed
  }

  /** What goes wrong if this step flushes. */
  function Next(s: State, a: Action, o: Outage): State
    requires Enabled(s, a)
  {
    match a
    case Log(e) => Logged(s, e)
    case Close => s.(closed := true)
    case Cancel => s.(cancelled := true)
    case TakeEntry =>
      var r := Received(s);
      if s.phase == Running && |r.batch| >= FLUSH_BATCH then Flushed(r, o) else r
    case TickerFires => Flushed(s, o)
    case SeeCancelled => s.(phase := Draining)
    case SeeClosed => Flushed(s, o).(phase := ExitedByClose)
    case FindEmpty => Flushed(s, o).(phase := ExitedByCancel)
  }

  datatype Event = Event(action: Action, outage: Outage)

  ghost predicate IsStep(s: State, e: Event, s': State) {
    Enabled(s, e.action) && s' == Next(s, e.action, e.outage)
  }

  ghost predicate IsRun(run: seq<State>, events: seq<Event>) {
    && |run| == |events| + 1 && run[0] == INITIAL
    && forall i :: 0 <= i < |events| ==> IsStep(run[i], events[i], run[i + 1])
  }

  // ----- What every reachable state keeps -----

  ghost predicate Conserved(s: State) {
    && s.accepted == s.flushed + s.batch + s.queue
    && |s.queue| <= BUFFER_SIZE
    && (s.phase == Running ==> |s.batch| < FLUSH_BATCH)
    && (Exited(s) ==> s.batch == [])
    && (s.phase == ExitedByClose ==> s.closed && s.queue == [])
    && (s.phase == Draining || s.phase == ExitedByCancel ==> s.cancelled)
  }

  lemma {:induction false} FlushConserves(s: State, o: Outage)
    requires s.accepted == s.flushed + s.batch + s.queue
    ensures var f := Flushed(s, o); f.accepted == f.flushed + f.batch + f.queue
  {
    hide Written;
    assert s.flushed + s.batch + s.queue == (s.flushed + s.batch) + [] + s.queue;
  }

  lemma {:induction false} ReceiveConserves(s: State)
    requires s.accepted == s.flushed + s.batch + s.queue && s.queue != []
    ensures var r := Received(s); r.accepted == r.flushed + r.batch + r.queue
  {
    assert s.queue == [s.queue[0]] + s.queue[1..];
  }

  lemma {:induction false} StepConserves(s: State, e: Event, s': State)
    requires Conserved(s) && IsStep(s, e, s')
    ensures Conserved(s')
  {
    hide Written;
    match e.action
    case Log(entry) =>
      assert s.flushed + s.batch + (s.queue + [entry]) == s.flushed + s.batch + s.queue + [entry];
    case TakeEntry =>
      ReceiveConserves(s);
      FlushConserves(Received(s), e.outage);
    case Close =>
    case Cancel =>
    case SeeCancelled =>
    case _ =>
      FlushConserves(s, e.outage);
  }

  /**
   Conservation: at every point of every run the entries accepted are those flushed, then the
   batch, then the queue, in order; the queue stays within its capacity and the batch below the
   flush size while the loop runs.
   */
  lemma {:induction false} RunsConserve(run: seq<State>, events: seq<Event>, i: nat)
    requires IsRun(run, events) && i < |run|
    ensures Conserved(run[i])
  {
    hide Conserved;
    if i == 0 {
      InitialConserved();
    } else {
      RunsConserve(run, events, i - 1);
      assert IsStep(run[i - 1], events[i - 1], run[i - 1 + 1]);
      StepConserves(run[i - 1], events[i - 1], run[i]);
    }
  }

  lemma {:induction false} InitialConserved()
    ensures Conserved(INITIAL)
  {
  }

  // ----- The two exits -----

  lemma {:induction false} ExitIsFinal(run: seq<State>, events: seq<Event>, i: nat, j: nat)
    requires IsRun(run, events) && i <= j < |run| && Exited(run[i])
    ensures run[j].phase == run[i].phase && run[j].flushed == run[i].flushed
  {
    hide Written;
    if i < j {
      ExitIsFinal(run, events, i, j - 1);
      assert IsStep(run[j - 1], events[j - 1], run[j - 1 + 1]);
    }
  }

  /** Leaving because the channel was closed: everything ever accepted has been handed to flush. */
  lemma {:induction false} CloseFlushesEverything(run: seq<State>, events: seq<Event>, i: nat)
    requires IsRun(run, events) && i < |run| && run[i].phase == ExitedByClose
    ensures run[i].flushed == run[i].accepted
  {
    RunsConserve(run, events, i);
  }

  /** Leaving because of cancellation: everything accepted up to the last empty read has been. */
  lemma {:induction false} CancelFlushesUpToLastRead(run: seq<State>, events: seq<Event>, i: nat, j: nat)
    requires IsRun(run, events) && i < |events| && events[i].action == FindEmpty && i < j < |run|
    ensures run[j].flushed == run[i].accepted && run[j].phase == ExitedByCancel
  {
    hide Written;
    RunsConserve(run, events, i);
    RunsConserve(run, events, i + 1);
    assert IsStep(run[i], events[i], run[i + 1]);
    ExitIsFinal(run, events, i + 1, j);
  }

  lemma {:induction false} QueueAfterExit(run: seq<State>, events: seq<Event>, i: nat, j: nat)
    requires IsRun(run, events) && i < |events| && events[i].action == FindEmpty && i < j < |run|
    ensures Exited(run[j])
    ensures run[j].queue == [] <==> forall k :: i < k < j ==> !events[k].action.Log?
  {
    hide Written;
    assert IsStep(run[j - 1], events[j - 1], run[j - 1 + 1]);
    if j > i + 1 {
      QueueAfterExit(run, events, i, j - 1);
    }
  }

  /**
   After the loop has left because of cancellation, everything accepted was handed to flush exactly
   when nothing has been logged since: an entry logged later stays in the queue for good.
   */
  lemma {:induction false} AllFlushedIff(run: seq<State>, events: seq<Event>, i: nat, j: nat)
    requires IsRun(run, events) && i < |events| && events[i].action == FindEmpty && i < j < |run|
    ensures run[j].flushed == run[j].accepted <==> forall k :: i < k < j ==> !events[k].action.Log?
  {
    QueueAfterExit(run, events, i, j);
    RunsConserve(run, events, j);
    var s := run[j];
    assert s.accepted == s.flushed + s.queue;
    assert |s.accepted| == |s.flushed| + |s.queue|;
  }

  /** Such a run: cancel, leave, and only then log. */
  lemma {:induction false} LateEntryIsStranded(entry: Entry) returns (run: seq<State>, events: seq<Event>)
    ensures IsRun(run, events) && Exited(run[|run| - 1])
    ensures run[|run| - 1].accepted == [entry] && run[|run| - 1].flushed == []
  {
    events := [Event(Cancel, NO_OUTAGE), Event(SeeCancelled, NO_OUTAGE), Event(FindEmpty, NO_OUTAGE),
               Event(Log(entry), NO_OUTAGE)];
    var s1 := Next(INITIAL, Cancel, NO_OUTAGE);
    var s2 := Next(s1, SeeCancelled, NO_OUTAGE);
    var s3 := Next(s2, FindEmpty, NO_OUTAGE);
    run := [INITIAL, s1, s2, s3, Next(s3, Log(entry), NO_OUTAGE)];
  }

  /** Without new entries a drain ends: every step of it shortens the queue or leaves. */
  lemma {:induction false} DrainShrinks(s: State, a: Action, o: Outage)
    requires s.phase == Draining && Enabled(s, a) && (a == TakeEntry || a == SeeClosed || a == FindEmpty)
    ensures Exited(Next(s, a, o)) || |Next(s, a, o).queue| == |s.queue| - 1
  {
  }

  // ----- What ends up in the audit logs -----

  lemma {:induction false} OfSchemaAppends(a: seq<Entry>, b: seq<Entry>, schema: string)
    ensures OfSchema(a + b, schema) == OfSchema(a, schema) + OfSchema(b, schema)
  {
    if b == [] {
      assert a + b == a;
    } else {
      assert (a + b)[..|a + b| - 1] == a + b[..|b| - 1];
      OfSchemaAppends(a, b[..|b| - 1], schema);
    }
  }

  /** Nothing goes wrong for this schema. */
  ghost predicate Clear(schema: string, o: Outage) {
    Writable(schema, o) && forall k :: (schema, k) !in o.refused
  }

  lemma {:induction false} KeptAll(rows: seq<Entry>, schema: string, o: Outage)
    requires Clear(schema, o)
    ensures Kept(rows, schema, o) == rows
  {
    if rows != [] {
      KeptAll(rows[..|rows| - 1], schema, o);
    }
  }

  lemma {:induction false} FlushKeepsOrder(s: State, o: Outage, schema: string)
    requires Clear(schema, o) && Table(s.tables, schema) == OfSchema(s.flushed, schema)
    ensures Table(Flushed(s, o).tables, schema) == OfSchema(Flushed(s, o).flushed, schema)
  {
    OfSchemaAppends(s.flushed, s.batch, schema);
    KeptAll(OfSchema(s.batch, schema), schema, o);
    if schema !in Schemas(s.batch) {
      OfSchemaAbsent(s.batch, schema);
    }
  }

  lemma {:induction false} StepKeepsLogs(s: State, e: Event, s': State, schema: string)
    requires IsStep(s, e, s') && Clear(schema, e.outage)
    requires Table(s.tables, schema) == OfSchema(s.flushed, schema)
    ensures Table(s'.tables, schema) == OfSchema(s'.flushed, schema)
  {
    hide Flushed;
    hide Table;
    hide OfSchema;
    hide Clear;
    match e.action
    case TakeEntry =>
      var r := Received(s);
      assert r.tables == s.tables && r.flushed == s.flushed;
      FlushKeepsOrder(r, e.outage, schema);
    case TickerFires => FlushKeepsOrder(s, e.outage, schema);
    case SeeClosed => FlushKeepsOrder(s, e.outage, schema);
    case FindEmpty => FlushKeepsOrder(s, e.outage, schema);
    case _ =>
  }

  /**
   Each schema for which nothing ever went wrong holds exactly its own flushed entries, in the order
   they were accepted, however the batches fell and in whatever order the schemas were written.
   */
  lemma {:induction false} LogsHoldFlushed(run: seq<State>, events: seq<Event>, i: nat, schema: string)
    requires IsRun(run, events) && i < |run|
    requires forall j :: 0 <= j < |events| ==> Clear(schema, events[j].outage)
    ensures Table(run[i].tables, schema) == OfSchema(run[i].flushed, schema)
  {
    hide IsStep;
    if i > 0 {
      LogsHoldFlushed(run, events, i - 1, schema);
      assert IsStep(run[i - 1], events[i - 1], run[i - 1 + 1]);
      StepKeepsLogs(run[i - 1], events[i - 1], run[i], schema);
    }
  }

  /** After a clean close such a schema's log is the whole of what was accepted for it. */
  lemma {:induction false} CleanCloseWritesAll(run: seq<State>, events: seq<Event>, i: nat, schema: string)
    requires IsRun(run, events) && i < |run| && run[i].phase == ExitedByClose
    requires forall j :: 0 <= j < |events| ==> Clear(schema, events[j].outage)
    ensures Table(run[i].tables, schema) == OfSchema(run[i].accepted, schema)
  {
    CloseFlushesEverything(run, events, i);
    LogsHoldFlushed(run, events, i, schema);
  }

  // ----- Whatever goes wrong -----

  /** xs is ys with some entries left out. */
  ghost predicate Thinned(xs: seq<Entry>, ys: seq<Entry>) {
    if ys == [] then xs == []
    else
      || Thinned(xs, ys[..|ys| - 1])
      || (xs != [] && xs[|xs| - 1] == ys[|ys| - 1] && Thinned(xs[..|xs| - 1], ys[..|ys| - 1]))
  }

  lemma {:induction false} KeptThinned(rows: seq<Entry>, schema: string, o: Outage)
    ensures Thinned(Kept(rows, schema, o), rows)
  {
    if rows != [] {
      var n := |rows| - 1;
      var kept := Kept(rows[..n], schema, o);
      KeptThinned(rows[..n], schema, o);
      assert kept + [] == kept && (kept + [rows[n]])[..|kept|] == kept;
    }
  }

  lemma {:induction false} NothingThinned(ys: seq<Entry>)
    ensures Thinned([], ys)
  {
    if ys != [] {
      NothingThinned(ys[..|ys| - 1]);
    }
  }

  lemma {:induction false} ThinnedAppends(a: seq<Entry>, b: seq<Entry>, c: seq<Entry>, d: seq<Entry>)
    requires Thinned(a, b) && Thinned(c, d)
    ensures Thinned(a + c, b + d)
    decreases |d|
  {
    if d == [] {
      assert a + c == a && b + d == b;
    } else {
      var n := |d| - 1;
      assert (b + d)[..|b + d| - 1] == b + d[..n];
      if Thinned(c, d[..n]) {
        ThinnedAppends(a, b, c, d[..n]);
      } else {
        ThinnedAppends(a, b, c[..|c| - 1], d[..n]);
        assert (a + c)[..|a + c| - 1] == a + c[..|c| - 1];
      }
    }
  }

  lemma {:induction false} FlushThins(s: State, o: Outage, schema: string)
    requires Thinned(Table(s.tables, schema), OfSchema(s.flushed, schema))
    ensures Thinned(Table(Flushed(s, o).tables, schema), OfSchema(Flushed(s, o).flushed, schema))
  {
    OfSchemaAppends(s.flushed, s.batch, schema);
    var was, rows := Table(s.tables, schema), OfSchema(s.batch, schema);
    KeptThinned(rows, schema, o);
    NothingThinned(rows);
    hide Thinned;
    hide OfSchema;
    hide Kept;
    ThinnedAppends(was, OfSchema(s.flushed, schema), Kept(rows, schema, o), rows);
    ThinnedAppends(was, OfSchema(s.flushed, schema), [], rows);
    assert was + [] == was;
    if schema !in Schemas(s.batch) {
      OfSchemaAbsent(s.batch, schema);
    }
  }

  lemma {:induction false} StepThins(s: State, e: Event, s': State, schema: string)
    requires IsStep(s, e, s') && Thinned(Table(s.tables, schema), OfSchema(s.flushed, schema))
    ensures Thinned(Table(s'.tables, schema), OfSchema(s'.flushed, schema))
  {
    hide Flushed;
    hide Table;
    hide OfSchema;
    hide Thinned;
    match e.action
    case TakeEntry =>
      var r := Received(s);
      assert r.tables == s.tables && r.flushed == s.flushed;
      FlushThins(r, e.outage, schema);
    case TickerFires => FlushThins(s, e.outage, schema);
    case SeeClosed => FlushThins(s, e.outage, schema);
    case FindEmpty => FlushThins(s, e.outage, schema);
    case _ =>
  }

  /** Whatever went wrong, a schema's log holds only entries flushed for it, in order and at most once each. */
  lemma {:induction false} LogsOnlyLose(run: seq<State>, events: seq<Event>, i: nat, schema: string)
    requires IsRun(run, events) && i < |run|
    ensures Thinned(Table(run[i].tables, schema), OfSchema(run[i].flushed, schema))
  {
    hide IsStep;
    if i > 0 {
      LogsOnlyLose(run, events, i - 1, schema);
      assert IsStep(run[i - 1], events[i - 1], run[i - 1 + 1]);
      StepThins(run[i - 1], events[i - 1], run[i], schema);
    }
  }

  // ----- The writer and its methods -----

  class Writer {
    var entries: seq<Entry>
    var closed: bool
    var cancelled: bool
    var batch: seq<Entry>
    var phase: Phase
    ghost var accepted: seq<Entry>
    ghost var flushed: seq<Entry>
    var tables: map<string, seq<Entry>>

    constructor ()
      ensures Now() == INITIAL
    {
      entries, closed, cancelled, batch, phase := [], false, false, [], Running;
      accepted, flushed := [], [];
      tables := map[];
    }

    ghost function Now(): State
      reads this
    {
      State(entries, closed, cancelled, batch, phase, accepted, flushed, tables)
    }

    method Log(e: Entry) returns (dropped: bool)
      requires !closed
      modifies this`entries, this`accepted
      ensures Now() == Next(old(Now()), Action.Log(e), NO_OUTAGE)
      ensures dropped <==> |old(entries)| >= BUFFER_SIZE
    {
      if |entries| < BUFFER_SIZE {
        entries, accepted := entries + [e], accepted + [e];
        return false;
      }
      return true;
    }

    /** Hands the batch to flush and starts a new one. */
    method FlushBatch(o: Outage)
      modifies this
      ensures Now() == Flushed(old(Now()), o)
    {
      if |batch| == 0 {
        return;
      }
      tables := Flush(tables, batch, o);
      flushed := flushed + batch;
      batch := [];
    }

    /** One pass through the select of the running or the draining loop, taking a ready case. */
    method Step(a: Action, o: Outage)
      requires Enabled(Now(), a) && !a.Log? && !a.Close? && !a.Cancel?
      modifies this
      ensures Now() == Next(old(Now()), a, o)
    {
      match a
      case TakeEntry =>
        var e := entries[0];
        entries, batch := entries[1..], batch + [e];
        if phase == Running && |batch| >= FLUSH_BATCH {
          FlushBatch(o);
        }
      case TickerFires =>
        FlushBatch(o);
      case SeeCancelled =>
        phase := Draining;
      case SeeClosed =>
        FlushBatch(o);
        phase := ExitedByClose;
      case FindEmpty =>
        FlushBatch(o);
        phase := ExitedByCancel;
    }
  }

  // ----- Flushing, as the loops do it -----

  /** Groups the entries by schema, keeping their order within each. */
  method GroupBySchema(entries: seq<Entry>) returns (bySchema: map<string, seq<Entry>>)
    ensures bySchema == map s | s in Schemas(entries) :: OfSchema(entries, s)
  {
    bySchema := map[];
    for i := 0 to |entries|
      invariant bySchema.Keys == Schemas(entries[..i])
      invariant forall s :: s in bySchema ==> bySchema[s] == OfSchema(entries[..i], s)
    {
      var e := entries[i];
      SchemasNext(entries, i);
      assert entries[..i + 1][..i] == entries[..i];
      if e.schema !in bySchema {
        OfSchemaAbsent(entries[..i], e.schema);
      }
      bySchema := bySchema[e.schema := Table(bySchema, e.schema) + [e]];
    }
    assert entries[..|entries|] == entries;
  }

  lemma {:induction false} SchemasNext(entries: seq<Entry>, i: nat)
    requires i < |entries|
    ensures Schemas(entries[..i + 1]) == Schemas(entries[..i]) + {entries[i].schema}
  {
    forall s
      ensures s in Schemas(entries[..i + 1]) <==> s in Schemas(entries[..i]) + {entries[i].schema}
    {
      if s in Schemas(entries[..i]) {
        var j :| 0 <= j < i && entries[..i][j].schema == s;
        assert entries[..i + 1][j].schema == s;
      }
      assert entries[..i + 1][i] == entries[i];
      if s in Schemas(entries[..i + 1]) && s != entries[i].schema {
        var j :| 0 <= j < i + 1 && entries[..i + 1][j].schema == s;
        assert entries[..i][j].schema == s;
      }
    }
  }

  lemma {:induction false} WrittenNext(tables: map<string, seq<Entry>>, entries: seq<Entry>, done: set<string>,
                                       o: Outage, s: string)
    requires s !in done
    ensures var was, now := WrittenFor(tables, entries, done, o), WrittenFor(tables, entries, done + {s}, o);
            now == if Writable(s, o) then was[s := Table(was, s) + Kept(OfSchema(entries, s), s, o)] else was
  {
    hide OfSchema;
    hide Kept;
  }

  /** Writes one schema's rows, one by one; a refused row is passed over. */
  method WriteRows(table: seq<Entry>, rows: seq<Entry>, schema: string, o: Outage) returns (table': seq<Entry>)
    ensures table' == table + Kept(rows, schema, o)
  {
    table' := table;
    for k := 0 to |rows|
      invariant table' == table + Kept(rows[..k], schema, o)
    {
      assert rows[..k + 1][..k] == rows[..k];
      if (schema, k) in o.refused {
        continue;
      }
      table' := table' + [rows[k]];
    }
    assert rows[..|rows|] == rows;
  }

  /** Writes each schema's entries, in whatever order the map gives the schemas out. */
  method Flush(tables: map<string, seq<Entry>>, entries: seq<Entry>, o: Outage)
    returns (tables': map<string, seq<Entry>>)
    ensures tables' == Written(tables, entries, o)
  {
    var bySchema := GroupBySchema(entries);
    var rest := bySchema.Keys;
    tables' := tables;
    assert tables == WrittenFor(tables, entries, {}, o);
    hide OfSchema;
    hide Kept;
    hide WrittenFor;
    hide Schemas;
    while rest != {}
      invariant rest <= bySchema.Keys
      invariant tables' == WrittenFor(tables, entries, bySchema.Keys - rest, o)
    {
      var s :| s in rest;
      WrittenNext(tables, entries, bySchema.Keys - rest, o, s);
      assert bySchema.Keys - rest + {s} == bySchema.Keys - (rest - {s});
      rest := rest - {s};
      if s == "" {
        continue;
      }
      if s in o.broken {
        continue;
      }
      var rows := WriteRows(Table(tables', s), bySchema[s], s, o);
      tables' := tables'[s := rows];
    }
    assert bySchema.Keys - rest == Schemas(entries);
  }
}
