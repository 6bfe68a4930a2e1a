/** The two workers as code: dictionaries filled and popped in loops, rows built in key order, tables
    written.  Each method is tied to the transaction function the run theorems are about.  */
module Writers {
  import opened Ids
  import opened Wrappers
  import opened Events
  import opened Rollups
  import opened TraceMerge
  import opened Store
  import Flags = GuardrailFlags

  class Database {
    var spans: Spans
    var traces: map<Id, TraceRow>
    var findings: set<FindingKey>

    constructor ()
      ensures Snapshot() == EMPTY
    {
      spans, traces, findings := map[], map[], {};
    }

    ghost function Snapshot(): Db
      reads this
    {
      Db(spans, traces, findings)
    }
  }

  /** `func.sum(...)` over the rows of one trace. */
  method SumRows(rows: Spans) returns (sum: Rollup)
    ensures sum == Total(rows)
  {
    sum := ZERO;
    var rest := rows;
    while rest.Keys != {}
      invariant Plus(Total(rest), sum) == Total(rows)
      decreases |rest.Keys|
    {
      var k :| k in rest.Keys;
      SumStep(rest, k, sum);
      sum := Plus(Contribution(rest[k]), sum);
      rest := rest - {k};
    }
  }

  lemma SumStep(rest: Spans, k: SpanKey, sum: Rollup)
    requires k in rest.Keys
    ensures Plus(Total(rest - {k}), Plus(Contribution(rest[k]), sum)) == Plus(Total(rest), sum)
    ensures (rest - {k}).Keys == rest.Keys - {k}
  {
    TotalRemove(rest, k);
  }

  class StorageWriter {
    const db: Database
    const cfg: Settings

    constructor (db: Database, cfg: Settings)
      ensures this.db == db && this.cfg == cfg
    {
      this.db, this.cfg := db, cfg;
    }

    /** Handle one parsed batch in one transaction. */
    method Process(events: seq<Event>)
      modifies db
      ensures db.Snapshot() == StorageTxn(cfg, old(db.Snapshot()), events)
    {
      var spanStarts, spanEnds, traceEvents := Collect(events);

      db.spans := InsertIgnore(db.spans, spanStarts);
      db.spans := UpsertSpans(db.spans, spanEnds);
      WriteTraceRows(traceEvents);
      RecomputeRollups(traceEvents.Keys);
      AfterBoth(cfg, old(db.Snapshot()), events, traceEvents, db.Snapshot());
    }

    /** Sort the batch into the rows to insert, the rows to upsert and the events of each trace. */
    method Collect(events: seq<Event>) returns (spanStarts: Spans, spanEnds: Spans, traceEvents: map<Id, seq<Event>>)
      ensures spanStarts == Starts(cfg, events) && spanEnds == Ends(cfg, events)
      ensures Grouped(events, traceEvents)
    {
      spanStarts, spanEnds, traceEvents := map[], map[], map[];
      for i := 0 to |events|
        invariant spanEnds == Ends(cfg, events[..i])
        invariant spanStarts - spanEnds.Keys == Starts(cfg, events[..i])
        invariant Grouped(events[..i], traceEvents)
      {
        var event := events[i];
        assert events[..i + 1] == events[..i] + [event];
        assert events[..i + 1][..i] == events[..i];
        GroupStep(events[..i], event, traceEvents);
        StartsStep(cfg, events[..i], event, spanStarts);
        traceEvents := traceEvents[event.trace :=
            (if event.trace in traceEvents then traceEvents[event.trace] else []) + [event]];
        if event.span.Some? {
          var key := KeyOf(event);
          var row := SpanRowOf(cfg, event);
          if event.etype.SpanEnd? {
            spanEnds := spanEnds[key := row];
          } else if event.etype.SpanStart? && key !in spanEnds {
            spanStarts := spanStarts[key := row];
          }
        }
      }
      assert events[..|events|] == events;
      spanStarts := spanStarts - spanEnds.Keys;
    }

    /** All rows are merged from the rows as they were, and then written in key order. */
    method WriteTraceRows(traceEvents: map<Id, seq<Event>>)
      requires forall t :: t in traceEvents ==> traceEvents[t] != []
      modifies db
      ensures db.spans == old(db.spans) && db.findings == old(db.findings)
      ensures db.traces.Keys == old(db.traces).Keys + traceEvents.Keys
      ensures forall t :: t in db.traces ==>
                db.traces[t] == if t in traceEvents then MergeRow(cfg, old(db.traces), t, traceEvents[t])
                    else old(db.traces)[t]
    {
      var existing := db.traces;
      var ids := SortIds(traceEvents.Keys);
      var rows: map<Id, TraceRow> := map[];
      for i := 0 to |ids|
        invariant db.Snapshot() == old(db.Snapshot())
        invariant rows.Keys == Elems(ids[..i])
        invariant forall t :: t in rows ==> t in traceEvents && rows[t] == MergeRow(cfg, existing, t, traceEvents[t])
      {
        assert ids[i] in Elems(ids);
        ElemsOneMore(ids, i);
        var row := MergedRow(ids[i], traceEvents[ids[i]], existing);
        rows := rows[ids[i] := row];
      }
      assert ids[..|ids|] == ids;
      db.traces := existing + rows;
    }

    method MergedRow(trace: Id, events: seq<Event>, existing: map<Id, TraceRow>) returns (row: TraceRow)
      requires events != []
      ensures row == MergeRow(cfg, existing, trace, events)
    {
      var current := if trace in existing then Some(existing[trace]) else None;
      var tenant, core := MergeTrace(trace, events, current);
      row := if current.Some? then current.value.(core := core) else TraceRow(tenant, core, ZERO, GUARD_DEFAULTS);
    }

    /** `_merge_trace`. */
    method MergeTrace(trace: Id, events: seq<Event>, current: Option<TraceRow>) returns (tenant: string, core: Core)
      requires events != []
      ensures core == MergeBatch(if current.Some? then current.value.core else MERGE_DEFAULTS,
                                 events, cfg.shouldSample(trace))
      ensures SortByTime(events) != [] && tenant == LastTenant(SortByTime(events))
    {
      core := if current.Some? then current.value.core else MERGE_DEFAULTS;
      tenant := if current.Some? then current.value.tenant else "default";
      ghost var start := core;
      var sorted := SortByTime(events);
      var sawTraceEnd := false;
      for i := 0 to |sorted|
        invariant core == MergeEvents(start, sorted[..i])
        invariant i > 0 ==> tenant == sorted[i - 1].tenant
        invariant sawTraceEnd <==> SawTraceEnd(sorted[..i])
      {
        MergeOneMore(start, sorted, i);
        SawMore(sorted, i);
        core := MergeEvent(core, sorted[i]);
        tenant := sorted[i].tenant;
        if sorted[i].etype.TraceEnd? { sawTraceEnd := true; }
      }
      assert sorted[..|sorted|] == sorted;
      SortNonEmpty(events);
      SawIsOrderFree(events);
      if sawTraceEnd {
        core := Finish(core, cfg.shouldSample(trace));
      }
    }

    /** Recompute each trace's rollup from the spans table; a trace without spans has no group. */
    method RecomputeRollups(traceIds: set<Id>)
      requires traceIds <= db.traces.Keys
      modifies db
      ensures db.spans == old(db.spans) && db.findings == old(db.findings) && db.traces.Keys == old(db.traces).Keys
      ensures forall t :: t in db.traces ==>
                db.traces[t] == if t in traceIds then Recompute(old(db.traces)[t], db.spans, t) else old(db.traces)[t]
    {
      var ids := SortIds(traceIds);
      for i := 0 to |ids|
        invariant db.spans == old(db.spans) && db.findings == old(db.findings) && db.traces.Keys == old(db.traces).Keys
        invariant forall t :: t in db.traces ==>
                    db.traces[t] == if t in Elems(ids[..i]) then Recompute(old(db.traces)[t], db.spans, t)
                        else old(db.traces)[t]
      {
        assert ids[i] in Elems(ids);
        assert ids[..i + 1] == ids[..i] + [ids[i]];
        FreshNext(ids, i);
        var rows := OfTrace(db.spans, ids[i]);
        if rows != map[] {
          var sum := SumRows(rows);
          db.traces := db.traces[ids[i] := db.traces[ids[i]].(rollup := sum)];
        }
      }
      assert ids[..|ids|] == ids;
    }
  }

  ghost predicate Grouped(events: seq<Event>, groups: map<Id, seq<Event>>)
  {
    && groups.Keys == TraceIds(events)
    && forall t :: t in groups ==> groups[t] == EventsOf(events, t) && groups[t] != []
  }

  lemma GroupStep(front: seq<Event>, e: Event, groups: map<Id, seq<Event>>)
    requires Grouped(front, groups)
    ensures Grouped(front + [e], groups[e.trace := (if e.trace in groups then groups[e.trace] else []) + [e]])
  {
    var all := front + [e];
    assert all[..|all| - 1] == front;
    assert TraceIds(all) == TraceIds(front) + {e.trace};
    if e.trace !in groups { NoEventsYet(front, e.trace); }
  }

  /** A start that arrives after its span's end never survives the final pop. */
  lemma StartsStep(cfg: Settings, front: seq<Event>, e: Event, starts: Spans)
    requires starts - Ends(cfg, front).Keys == Starts(cfg, front)
    ensures var all := front + [e];
            var ends := Ends(cfg, all);
            var next := if IsSpanEvent(e, SpanStart) && KeyOf(e) !in Ends(cfg, front)
                then starts[KeyOf(e) := SpanRowOf(cfg, e)] else starts;
            next - ends.Keys == Starts(cfg, all)
  {
    var all := front + [e];
    assert all[..|all| - 1] == front;
    var next := if IsSpanEvent(e, SpanStart) && KeyOf(e) !in Ends(cfg, front) then starts[KeyOf(e) := SpanRowOf(cfg, e)]
        else starts;
    var left, right := next - Ends(cfg, all).Keys, Starts(cfg, all);
    forall k ensures (k in left <==> k in right) && (k in left ==> left[k] == right[k]) {
      StartsStepAt(cfg, front, e, starts, k);
    }
    SameMaps(left, right);
  }

  lemma SameMaps(a: Spans, b: Spans)
    requires forall k :: (k in a <==> k in b) && (k in a ==> a[k] == b[k])
    ensures a == b
  {
  }

  lemma StartsStepAt(cfg: Settings, front: seq<Event>, e: Event, starts: Spans, k: SpanKey)
    requires starts - Ends(cfg, front).Keys == Starts(cfg, front)
    ensures var all := front + [e];
            var next := if IsSpanEvent(e, SpanStart) && KeyOf(e) !in Ends(cfg, front)
                then starts[KeyOf(e) := SpanRowOf(cfg, e)] else starts;
            var left, right := next - Ends(cfg, all).Keys, Starts(cfg, all);
            (k in left <==> k in right) && (k in left ==> left[k] == right[k])
  {
    var all := front + [e];
    assert all[..|all| - 1] == front;
    assert k in starts - Ends(cfg, front).Keys <==> k in Starts(cfg, front);
    if k in Starts(cfg, front) { assert (starts - Ends(cfg, front).Keys)[k] == Starts(cfg, front)[k]; }
  }

  lemma ElemsOneMore(ids: seq<Id>, i: nat)
    requires i < |ids|
    ensures Elems(ids[..i + 1]) == Elems(ids[..i]) + {ids[i]}
  {
  }

  lemma FreshNext(ids: seq<Id>, i: nat)
    requires Ascending(ids) && i < |ids|
    ensures ids[i] !in ids[..i] && ids[i] in Elems(ids) && ids[..i + 1] == ids[..i] + [ids[i]]
  {
  }

  lemma MergeOneMore(row: Core, s: seq<Event>, i: nat)
    requires i < |s|
    ensures MergeEvents(row, s[..i + 1]) == MergeEvent(MergeEvents(row, s[..i]), s[i])
  {
    assert s[..i + 1][..i] == s[..i];
  }

  lemma SawMore(s: seq<Event>, i: nat)
    requires i < |s|
    ensures SawTraceEnd(s[..i + 1]) <==> SawTraceEnd(s[..i]) || s[i].etype.TraceEnd?
  {
  }

  lemma SawIsOrderFree(events: seq<Event>)
    ensures SawTraceEnd(SortByTime(events)) <==> SawTraceEnd(events)
  {
    SortKeepsElems(events);
    SawMeans(events);
    SawMeans(SortByTime(events));
  }

  lemma SawMeans(events: seq<Event>)
    ensures SawTraceEnd(events) <==> HasEnd(Elems(events))
  {
  }

  lemma NoEventsYet(events: seq<Event>, t: Id)
    requires t !in TraceIds(events)
    ensures EventsOf(events, t) == []
  {
  }

  /** Writing the merged rows and then the rollups is the whole transaction. */
  lemma AfterBoth(cfg: Settings, before: Db, events: seq<Event>, traceEvents: map<Id, seq<Event>>, after: Db)
    requires Grouped(events, traceEvents)
    requires after.spans == WriteSpans(cfg, before.spans, events) && after.findings == before.findings
    requires after.traces.Keys == before.traces.Keys + traceEvents.Keys
    requires forall t :: t in after.traces ==>
               after.traces[t] == if t in traceEvents
                   then Recompute(MergeRow(cfg, before.traces, t, traceEvents[t]), after.spans, t)
                                  else before.traces[t]
    ensures after == StorageTxn(cfg, before, events)
  {
  }

  class GuardrailScanner {
    const db: Database

    constructor (db: Database)
      ensures this.db == db
    {
      this.db := db;
    }

    /** Persist one scanned batch, trace by trace in key order, in one transaction. */
    method Process(scans: seq<Scan>, outcomes: seq<Flags.Flags>)
      requires outcomes == FlagsOfAll(scans)
      modifies db
      ensures db.Snapshot() == ScanTxn(old(db.Snapshot()), scans)
    {
      var perTrace, flags := GroupByTrace(scans, outcomes);
      ghost var before := db.Snapshot();
      var ids := SortIds(perTrace.Keys);
      for i := 0 to |ids|
        invariant db.spans == before.spans
        invariant PersistedUpTo(before, db.Snapshot(), Expected(before, scans), perTrace, ids[..i])
      {
        FreshNext(ids, i);
        PersistNext(before, scans, perTrace, flags, ids[..i], ids[i]);
      }
      assert ids[..|ids|] == ids;
      ScanDone(before, db.Snapshot(), scans, perTrace, flags, ids);
    }

    /** One turn of the loop over the sorted traces. */
    method PersistNext(ghost before: Db, ghost scans: seq<Scan>, perTrace: map<Id, seq<Scan>>,
                       flags: map<Id, seq<Flags.Flags>>,
                       ghost done: seq<Id>, t: Id)
      requires GroupedScans(scans, perTrace, flags) && t in perTrace && t !in done
      requires db.spans == before.spans && PersistedUpTo(before, db.Snapshot(), Expected(before, scans), perTrace, done)
      modifies db
      ensures db.spans == before.spans &&
          PersistedUpTo(before, db.Snapshot(), Expected(before, scans), perTrace, done + [t])
    {
      ScansOfNonEmpty(scans, t);
      ghost var now := db.Snapshot();
      ExpectedRow(before, now, scans, t);
      Persist(t, perTrace[t], flags[t]);
      OneMorePersisted(before, now, db.Snapshot(), Expected(before, scans), perTrace, done, t);
    }

    method GroupByTrace(scans: seq<Scan>, outcomes: seq<Flags.Flags>)
      returns (perTrace: map<Id, seq<Scan>>, flags: map<Id, seq<Flags.Flags>>)
      requires outcomes == FlagsOfAll(scans)
      ensures GroupedScans(scans, perTrace, flags)
    {
      perTrace, flags := map[], map[];
      for i := 0 to |scans|
        invariant GroupedScans(scans[..i], perTrace, flags)
      {
        var t := scans[i].trace;
        assert scans[..i + 1] == scans[..i] + [scans[i]];
        GroupScanStep(scans[..i], scans[i], perTrace, flags);
        flags := flags[t := (if t in flags then flags[t] else []) + [outcomes[i]]];
        perTrace := perTrace[t := (if t in perTrace then perTrace[t] else []) + [scans[i]]];
      }
      assert scans[..|scans|] == scans;
    }

    method Combine(results: seq<Scan>, outcomes: seq<Flags.Flags>)
      returns (combined: Flags.Flags, found: set<FindingKey>, risk: nat, severity: Option<Flags.Severity>)
      requires |outcomes| == |results|
      ensures combined == Flags.MergeAll(Flags.NO_FLAGS, outcomes)
      ensures found == KeysOfAll(results)
      ensures risk == combined.risk && severity == combined.maxSeverity
    {
      combined, found, risk, severity := Flags.NO_FLAGS, {}, 0, None;
      for i := 0 to |results|
        invariant combined == Flags.MergeAll(Flags.NO_FLAGS, outcomes[..i])
        invariant found == KeysOfAll(results[..i])
        invariant risk == combined.risk && severity == combined.maxSeverity
      {
        assert outcomes[..i + 1][..i] == outcomes[..i];
        KeysOneMore(results, i);
        found := found + KeysOf(results[i]);
        combined := Flags.MergeFlags(combined, outcomes[i]);
        risk := if outcomes[i].risk > risk then outcomes[i].risk else risk;
        if outcomes[i].maxSeverity.Some? {
          severity := Some(Flags.MaxSeverity(if severity.Some? then severity.value
              else Flags.Info, outcomes[i].maxSeverity.value));
        }
      }
      assert outcomes[..|outcomes|] == outcomes && results[..|results|] == results;
    }

    /** `_persist`: findings first, then the merged summary of one trace. */
    method Persist(trace: Id, results: seq<Scan>, outcomes: seq<Flags.Flags>)
      requires results != [] && outcomes == FlagsOfAll(results)
      modifies db
      ensures db.spans == old(db.spans)
      ensures db.findings == old(db.findings) + KeysOfAll(results)
      ensures db.traces == old(db.traces)[trace := PersistRow(old(db.traces), trace, results)]
    {
      var combined, found, risk, severity := Combine(results, outcomes);
      db.findings := db.findings + found;

      var guard := if trace in db.traces then db.traces[trace].guard else GUARD_DEFAULTS;
      var merged := Flags.MergeFlags(guard.flags, combined);
      var written := Guard(if merged.findings > 0 then Flagged else Clean, merged,
                           if guard.risk > risk then guard.risk else risk, MergedSeverity(guard.severity, severity));
      var row := if trace in db.traces then db.traces[trace].(guard := written)
                 else TraceRow(results[0].tenant, SERVER_DEFAULTS, ZERO, written);
      db.traces := db.traces[trace := row];
    }
  }

  function KeysOfAll(scans: seq<Scan>): set<FindingKey>
  {
    set s, k | s in scans && k in KeysOf(s) :: k
  }

  ghost function FindingsOf(perTrace: map<Id, seq<Scan>>, ids: seq<Id>): set<FindingKey>
  {
    set t, k | t in ids && t in perTrace && k in KeysOfAll(perTrace[t]) :: k
  }

  lemma KeysOneMore(scans: seq<Scan>, i: nat)
    requires i < |scans|
    ensures KeysOfAll(scans[..i + 1]) == KeysOfAll(scans[..i]) + KeysOf(scans[i])
  {
  }

  ghost predicate GroupedScans(scans: seq<Scan>, perTrace: map<Id, seq<Scan>>, flags: map<Id, seq<Flags.Flags>>)
  {
    && perTrace.Keys == flags.Keys == ScanIds(scans)
    && forall t :: t in perTrace ==> perTrace[t] == ScansOf(scans, t) && flags[t] == FlagsOfAll(perTrace[t])
  }

  lemma GroupScanStep(front: seq<Scan>, s: Scan, perTrace: map<Id, seq<Scan>>, flags: map<Id, seq<Flags.Flags>>)
    requires GroupedScans(front, perTrace, flags)
    ensures var t := s.trace;
            GroupedScans(front + [s], perTrace[t := (if t in perTrace then perTrace[t] else []) + [s]],
                         flags[t := (if t in flags then flags[t] else []) + [FlagsOf(s)]])
  {
    ScanIdsOneMore(front, s);
    var seen, known := if s.trace in perTrace then perTrace[s.trace] else [],
        if s.trace in flags then flags[s.trace] else [];
    if s.trace !in perTrace { NoScansYet(front, s.trace); }
    assert seen == ScansOf(front, s.trace) && known == FlagsOfAll(seen);
    FlagsOneMore(seen, s);
    var groups, outcomes := perTrace[s.trace := seen + [s]], flags[s.trace := known + [FlagsOf(s)]];
    forall t | t in groups ensures groups[t] == ScansOf(front + [s], t) && outcomes[t] == FlagsOfAll(groups[t]) {
      ScansOneMore(front, s, t);
    }
  }

  lemma ScanIdsOneMore(front: seq<Scan>, s: Scan)
    ensures ScanIds(front + [s]) == ScanIds(front) + {s.trace}
  {
  }

  lemma ScansOneMore(front: seq<Scan>, s: Scan, t: Id)
    ensures ScansOf(front + [s], t) == if t == s.trace then ScansOf(front, t) + [s] else ScansOf(front, t)
  {
  }

  lemma FlagsOneMore(seen: seq<Scan>, s: Scan)
    ensures FlagsOfAll(seen + [s]) == FlagsOfAll(seen) + [FlagsOf(s)]
  {
  }

  /** The rows one scanner batch must leave behind. */
  ghost function Expected(before: Db, scans: seq<Scan>): map<Id, TraceRow>
  {
    map t | t in ScanIds(scans) :: (ScansOfNonEmpty(scans, t); PersistRow(before.traces, t, ScansOf(scans, t)))
  }

  lemma ExpectedRow(before: Db, now: Db, scans: seq<Scan>, t: Id)
    requires t in ScanIds(scans) && (t in before.traces <==> t in now.traces)
    requires t in now.traces ==> now.traces[t] == before.traces[t]
    ensures ScansOf(scans, t) != [] && Expected(before, scans)[t] == PersistRow(now.traces, t, ScansOf(scans, t))
  {
  }

  /** The traces listed so far have their new rows, the others are as before. */
  ghost predicate PersistedUpTo(before: Db, now: Db, rows: map<Id, TraceRow>, perTrace: map<Id, seq<Scan>>,
                                done: seq<Id>)
  {
    && now.traces.Keys == before.traces.Keys + Elems(done)
    && (forall t :: t in now.traces ==>
          if t in Elems(done) then t in rows && now.traces[t] == rows[t]
          else t in before.traces && now.traces[t] == before.traces[t])
    && now.findings == before.findings + FindingsOf(perTrace, done)
  }

  lemma OneMorePersisted(before: Db, now: Db, next: Db, rows: map<Id, TraceRow>, perTrace: map<Id, seq<Scan>>,
                         done: seq<Id>, t: Id)
    requires PersistedUpTo(before, now, rows, perTrace, done) && t !in done
    requires t in perTrace && t in rows
    requires next.traces == now.traces[t := rows[t]]
    requires next.findings == now.findings + KeysOfAll(perTrace[t])
    ensures PersistedUpTo(before, next, rows, perTrace, done + [t])
  {
  }

  lemma AllPersisted(before: Db, now: Db, scans: seq<Scan>, perTrace: map<Id, seq<Scan>>, ids: seq<Id>)
    requires PersistedUpTo(before, now, Expected(before, scans), perTrace, ids) && now.spans == before.spans
    requires ScanIds(scans) == Elems(ids)
    requires FindingsOf(perTrace, ids) == KeysOfAll(scans)
    ensures now == ScanTxn(before, scans)
  {
  }

  lemma ScanDone(before: Db, now: Db, scans: seq<Scan>, perTrace: map<Id, seq<Scan>>, flags: map<Id, seq<Flags.Flags>>,
                 ids: seq<Id>)
    requires GroupedScans(scans, perTrace, flags) && Elems(ids) == perTrace.Keys
    requires PersistedUpTo(before, now, Expected(before, scans), perTrace, ids) && now.spans == before.spans
    ensures now == ScanTxn(before, scans)
  {
    AllFindings(scans, perTrace, ids);
    AllPersisted(before, now, scans, perTrace, ids);
  }

  lemma NoScansYet(scans: seq<Scan>, t: Id)
    requires t !in ScanIds(scans)
    ensures ScansOf(scans, t) == []
  {
  }

  lemma AllFindings(scans: seq<Scan>, perTrace: map<Id, seq<Scan>>, ids: seq<Id>)
    requires perTrace.Keys == ScanIds(scans) == Elems(ids)
    requires forall t :: t in perTrace ==> perTrace[t] == ScansOf(scans, t)
    ensures FindingsOf(perTrace, ids) == KeysOfAll(scans)
  {
    forall k ensures k in FindingsOf(perTrace, ids) <==> k in KeysOfAll(scans) {
      if k in FindingsOf(perTrace, ids) {
        var t :| t in ids && t in perTrace && k in KeysOfAll(perTrace[t]);
        ScansOfElems(scans, t);
        var s :| s in perTrace[t] && k in KeysOf(s);
        assert s in scans;
      }
      if k in KeysOfAll(scans) {
        var s :| s in scans && k in KeysOf(s);
        ScansOfElems(scans, s.trace);
        assert s.trace in Elems(ids) && s in perTrace[s.trace];
        assert k in KeysOfAll(perTrace[s.trace]);
      }
    }
  }
}
