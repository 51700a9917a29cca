/** When audit entries are handed over and what reaches the logs, said step by step. */
module AuditOutcomes {
  import opened AuditWriter

  // ----- What each step does -----

  ghost predicate SameRest(s: State, s': State) {
    s'.accepted == s.accepted && s'.closed == s.closed && s'.cancelled == s.cancelled
  }

  /** Everything taken from the queue has been handed over. */
  ghost predicate AllHandedOver(s: State) {
    s.batch == [] && s.flushed + s.queue == s.accepted
  }

  lemma {:induction false} HandedOver(s: State)
    requires Conserved(s) && s.batch == []
    ensures AllHandedOver(s)
  {
    assert s.flushed + [] == s.flushed;
  }

  /** A logged entry is taken in, last in the queue, unless 256 are waiting; then nothing changes. */
  lemma {:induction false} LogTakesIn(run: seq<State>, events: seq<Event>, i: nat)
    requires IsRun(run, events) && i < |events| && events[i].action.Log?
    ensures var s, s', e := run[i], run[i + 1], events[i].action.entry;
            if |s.queue| < 256 then
              && s'.queue == s.queue + [e] && s'.accepted == s.accepted + [e]
              && s'.batch == s.batch && s'.flushed == s.flushed && s'.tables == s.tables && s'.phase == s.phase
            else s' == s
  {
    assert IsStep(run[i], events[i], run[i + 1]);
  }

  /** A tick hands over whatever has been taken. */
  lemma {:induction false} TickHandsOver(run: seq<State>, events: seq<Event>, i: nat)
    requires IsRun(run, events) && i < |events| && events[i].action == TickerFires
    ensures AllHandedOver(run[i + 1]) && run[i + 1].queue == run[i].queue && SameRest(run[i], run[i + 1])
    ensures run[i + 1].phase == Running
  {
    hide Written;
    assert IsStep(run[i], events[i], run[i + 1]);
    RunsConserve(run, events, i + 1);
    HandedOver(run[i + 1]);
  }

  /**
   Taking an entry takes the oldest. While the loop runs the 32nd hands the batch over; before that,
   and in a drain, entries only gather.
   */
  lemma {:induction false} TakingGathers(run: seq<State>, events: seq<Event>, i: nat)
    requires IsRun(run, events) && i < |events| && events[i].action == TakeEntry
    ensures run[i].queue != [] && run[i + 1].queue == run[i].queue[1..] && SameRest(run[i], run[i + 1])
    ensures run[i + 1].phase == run[i].phase
    ensures run[i].phase == Running && |run[i].batch| == 31 ==> AllHandedOver(run[i + 1])
    ensures run[i].phase != Running || |run[i].batch| < 31 ==>
              && run[i + 1].batch == run[i].batch + [run[i].queue[0]]
              && run[i + 1].flushed == run[i].flushed && run[i + 1].tables == run[i].tables
  {
    hide Written;
    assert IsStep(run[i], events[i], run[i + 1]);
    RunsConserve(run, events, i);
    RunsConserve(run, events, i + 1);
    if run[i].phase == Running && |run[i].batch| == 31 {
      HandedOver(run[i + 1]);
    }
  }

  /** Leaving, either way, hands over what was gathered, and happens with an empty queue. */
  lemma {:induction false} LeavingHandsOver(run: seq<State>, events: seq<Event>, i: nat)
    requires IsRun(run, events) && i < |events| && (events[i].action == SeeClosed || events[i].action == FindEmpty)
    ensures AllHandedOver(run[i + 1]) && run[i].queue == [] && SameRest(run[i], run[i + 1])
    ensures run[i + 1].phase == if run[i].closed then ExitedByClose else ExitedByCancel
  {
    hide Written;
    assert IsStep(run[i], events[i], run[i + 1]);
    RunsConserve(run, events, i + 1);
    HandedOver(run[i + 1]);
  }

  /** The other steps move no entry. */
  lemma {:induction false} OthersMoveNothing(run: seq<State>, events: seq<Event>, i: nat)
    requires IsRun(run, events) && i < |events|
    requires events[i].action == Close || events[i].action == Cancel || events[i].action == SeeCancelled
    ensures var s, s' := run[i], run[i + 1];
            && s'.queue == s.queue && s'.batch == s.batch && s'.accepted == s.accepted
            && s'.flushed == s.flushed && s'.tables == s.tables
            && (s'.closed <==> s.closed || events[i].action == Close)
            && (s'.cancelled <==> s.cancelled || events[i].action == Cancel)
            && s'.phase == if events[i].action == SeeCancelled then Draining else s.phase
  {
    assert IsStep(run[i], events[i], run[i + 1]);
  }

  // ----- The loop goes on -----

  /** Which cases of the select are ready. */
  lemma {:induction false} ReadyIff(s: State)
    ensures Enabled(s, TakeEntry) <==> (s.phase == Running || s.phase == Draining) && s.queue != []
    ensures Enabled(s, TickerFires) <==> s.phase == Running
    ensures Enabled(s, SeeCancelled) <==> s.phase == Running && s.cancelled
    ensures Enabled(s, SeeClosed) <==> (s.phase == Running || s.phase == Draining) && s.queue == [] && s.closed
    ensures Enabled(s, FindEmpty) <==> s.phase == Draining && s.queue == [] && !s.closed
    ensures forall e :: Enabled(s, Log(e)) <==> !s.closed
  {
  }

  lemma {:induction false} OneStepOn(run: seq<State>, events: seq<Event>, e: Event)
    requires IsRun(run, events) && Enabled(run[|run| - 1], e.action)
    ensures IsRun(run + [Next(run[|run| - 1], e.action, e.outage)], events + [e])
  {
    var s := run[|run| - 1];
    var run', events' := run + [Next(s, e.action, e.outage)], events + [e];
    forall i | 0 <= i < |events'|
      ensures IsStep(run'[i], events'[i], run'[i + 1])
    {
      if i < |events| {
        assert IsStep(run[i], events[i], run[i + 1]);
      }
    }
  }

  /** Once the writer is closed or cancelled it can always take what is queued and leave. */
  lemma {:induction false} CanAlwaysLeave(run: seq<State>, events: seq<Event>)
    returns (run': seq<State>, events': seq<Event>)
    requires IsRun(run, events) && var s := run[|run| - 1]; !Exited(s) && (s.closed || s.cancelled)
    ensures IsRun(run', events') && run <= run' && Exited(run'[|run'| - 1])
    ensures run'[|run'| - 1].flushed == run[|run| - 1].accepted
    decreases |run[|run| - 1].queue|, run[|run| - 1].phase == Running
  {
    hide Written;
    hide IsRun;
    NotLeft(run, events);
    var s := run[|run| - 1];
    var a := if s.queue != [] then TakeEntry
             else if s.closed then SeeClosed
             else if s.phase == Running then SeeCancelled
             else FindEmpty;
    assert Enabled(s, a);
    OneStepOn(run, events, Event(a, NO_OUTAGE));
    run', events' := run + [Next(s, a, NO_OUTAGE)], events + [Event(a, NO_OUTAGE)];
    if Exited(run'[|run'| - 1]) {
      LeftWithAll(run', events', |events|);
    } else {
      run', events' := CanAlwaysLeave(run', events');
    }
  }

  lemma {:induction false} NotLeft(run: seq<State>, events: seq<Event>)
    requires IsRun(run, events)
    ensures |run| == |events| + 1 && Conserved(run[|run| - 1])
  {
    RunsConserve(run, events, |run| - 1);
  }

  lemma {:induction false} LeftWithAll(run: seq<State>, events: seq<Event>, i: nat)
    requires IsRun(run, events) && i < |events| && i + 1 < |run|
    requires events[i].action == SeeClosed || events[i].action == FindEmpty
    ensures run[i + 1].flushed == run[i].accepted
  {
    LeavingHandsOver(run, events, i);
    assert run[i + 1].queue == [] by {
      assert IsStep(run[i], events[i], run[i + 1]);
    }
    assert run[i + 1].flushed + [] == run[i + 1].flushed;
  }

  // ----- What is in the logs -----

  /** The rows of a schema are its entries, in order and as often as they occur. */
  lemma {:induction false} OfSchemaIs(entries: seq<Entry>, schema: string)
    ensures Thinned(OfSchema(entries, schema), entries)
    ensures forall e :: multiset(OfSchema(entries, schema))[e]
                        == if e.schema == schema then multiset(entries)[e] else 0
  {
    if entries != [] {
      var n := |entries| - 1;
      var rows := OfSchema(entries[..n], schema);
      OfSchemaIs(entries[..n], schema);
      assert entries[..n] + [entries[n]] == entries;
      assert rows + [] == rows && (rows + [entries[n]])[..|rows|] == rows;
    }
  }

  /** Without outages every entry of a named schema that has been handed over is in that schema's log. */
  lemma {:induction false} HandedOverIsLogged(run: seq<State>, events: seq<Event>, i: nat, e: Entry)
    requires IsRun(run, events) && i < |run| && e in run[i].flushed && e.schema != ""
    requires forall j :: 0 <= j < |events| ==> events[j].outage == NO_OUTAGE
    ensures e in Table(run[i].tables, e.schema)
  {
    LogsHoldFlushed(run, events, i, e.schema);
    OfSchemaIs(run[i].flushed, e.schema);
    assert e in multiset(run[i].flushed);
    assert e in multiset(OfSchema(run[i].flushed, e.schema));
  }

  /** So after a tick, or the 32nd entry, everything that had been taken by then is in the logs. */
  lemma {:induction false} TakenIsLogged(run: seq<State>, events: seq<Event>, i: nat, e: Entry)
    requires IsRun(run, events) && i < |events| && e.schema != ""
    requires forall j :: 0 <= j < |events| ==> events[j].outage == NO_OUTAGE
    requires || (events[i].action == TickerFires && e in run[i].flushed + run[i].batch)
             || (events[i].action == TakeEntry && run[i].phase == Running && |run[i].batch| == 31
                 && (e in run[i].flushed + run[i].batch || (run[i].queue != [] && e == run[i].queue[0])))
    ensures e in Table(run[i + 1].tables, e.schema)
  {
    var s, s' := run[i], run[i + 1];
    RunsConserve(run, events, i);
    if events[i].action == TickerFires {
      TickHandsOver(run, events, i);
      SamePrefix(s.flushed + s.batch, s.queue, s'.flushed, s'.queue);
    } else {
      TakingGathers(run, events, i);
      assert s.queue == [s.queue[0]] + s.queue[1..];
      assert s.flushed + s.batch + s.queue == (s.flushed + s.batch + [s.queue[0]]) + s.queue[1..];
      SamePrefix(s.flushed + s.batch + [s.queue[0]], s.queue[1..], s'.flushed, s'.queue);
    }
    HandedOverIsLogged(run, events, i + 1, e);
  }

  lemma {:induction false} SamePrefix(a: seq<Entry>, b: seq<Entry>, a': seq<Entry>, b': seq<Entry>)
    requires a + b == a' + b' && b == b'
    ensures a == a'
  {
    assert |a| == |a'|;
    assert (a + b)[..|a|] == a && (a' + b')[..|a'|] == a';
  }

  // ----- One flush -----

  function Refusals(n: nat, schema: string, o: Outage): nat {
    if n == 0 then 0 else Refusals(n - 1, schema, o) + if (schema, n - 1) in o.refused then 1 else 0
  }

  /** Only the refused rows are missing; every other is written, in its order. */
  lemma {:induction false} OnlyRefusedMissing(rows: seq<Entry>, schema: string, o: Outage, k: nat)
    requires k < |rows|
    ensures |Kept(rows, schema, o)| == |rows| - Refusals(|rows|, schema, o)
    ensures (schema, k) !in o.refused ==>
              && k - Refusals(k, schema, o) < |Kept(rows, schema, o)|
              && Refusals(k, schema, o) <= k
              && Kept(rows, schema, o)[k - Refusals(k, schema, o)] == rows[k]
  {
    var n := |rows| - 1;
    RefusalsFit(n, schema, o);
    KeptSize(rows[..n], schema, o);
    if k < n {
      OnlyRefusedMissing(rows[..n], schema, o, k);
    }
  }

  lemma {:induction false} KeptSize(rows: seq<Entry>, schema: string, o: Outage)
    ensures |Kept(rows, schema, o)| == |rows| - Refusals(|rows|, schema, o)
  {
    if rows != [] {
      KeptSize(rows[..|rows| - 1], schema, o);
    }
  }

  lemma {:induction false} RefusalsFit(n: nat, schema: string, o: Outage)
    ensures Refusals(n, schema, o) <= n
  {
    if n > 0 {
      RefusalsFit(n - 1, schema, o);
    }
  }

  /** A flush appends to each named schema that can be reached, and touches no other. */
  lemma {:induction false} FlushAppends(tables: map<string, seq<Entry>>, entries: seq<Entry>, o: Outage, schema: string)
    ensures Table(Written(tables, entries, o), schema)
            == Table(tables, schema)
               + if schema == "" || schema in o.broken then [] else Kept(OfSchema(entries, schema), schema, o)
  {
    assert Table(tables, schema) + [] == Table(tables, schema);
    if schema !in Schemas(entries) {
      OfSchemaAbsent(entries, schema);
    }
  }
}
