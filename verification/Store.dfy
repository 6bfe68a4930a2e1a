/** The ingestion store: the spans, traces and findings tables, and the two transactions that write
    them, each taken as one atomic step.  Redelivery, reordering, re-batching and any interleaving of
    the two consumer groups are runs of these steps.  */
module Store {
  import opened Ids
  import opened Wrappers
  import opened Events
  import opened Rollups
  import opened TraceMerge
  import Flags = GuardrailFlags

  datatype GuardStatus = GuardPending | Clean | Flagged
  datatype Guard = Guard(status: GuardStatus, flags: Flags.Flags, risk: nat, severity: Option<Flags.Severity>)

  datatype TraceRow = TraceRow(tenant: string, core: Core, rollup: Rollup, guard: Guard)

  datatype FindingKey = FindingKey(trace: Id, span: Option<Id>, isPii: bool, findingType: Id, field: Id, offset: int)

  datatype Db = Db(spans: Spans, traces: map<Id, TraceRow>, findings: set<FindingKey>)

  const EMPTY := Db(map[], map[], {})

  // --------------------------------------------------- server defaults (models)

  /** The columns a scanner-created stub row gets from the table definition. */
  const SERVER_DEFAULTS :=
    Core("", "unknown", "local", Running, None, None, None, map[], map[], map[], None, None, None, 2, NotSampled)
  const GUARD_DEFAULTS := Guard(GuardPending, Flags.NO_FLAGS, 0, None)

  // ----------------------------------------------------------- SQL primitives

  function InsertIgnore<K, V>(table: map<K, V>, rows: map<K, V>): map<K, V>
  {
    rows + table
  }

  /** `ON CONFLICT DO UPDATE` over `_SPAN_END_COLUMNS`: everything but the tenant. */
  function UpsertSpans(table: Spans, rows: Spans): Spans
  {
    map k | k in table.Keys + rows.Keys ::
      if k !in rows then table[k]
      else if k in table then rows[k].(tenant := table[k].tenant)
      else rows[k]
  }

  // ----------------------------------------------------------- StorageWriter

  function SpanRowOf(cfg: Settings, e: Event): SpanRow
  {
    var u := if e.usage.Some? then e.usage.value else Usage(0, 0, 0);
    SpanRow(e.tenant, e.parent, e.kind, Clip(e.name, 200), e.status, e.startedAt, e.endedAt,
            if e.latencyMs.Some? then e.latencyMs
            else if e.startedAt.Some? && e.endedAt.Some? then Some(ElapsedMs(e.startedAt.value, e.endedAt.value))
                else None,
            e.input, e.output, e.error, e.attributes, u.prompt, u.completion, u.total,
            cfg.costMicros(e.model, u.prompt, u.completion), e.model, e.schemaVersion)
  }

  predicate IsSpanEvent(e: Event, t: EventType)
  {
    e.span.Some? && e.etype == t
  }

  function KeyOf(e: Event): SpanKey
    requires e.span.Some?
  {
    SpanKey(e.trace, e.span.value)
  }

  /** The last row of each span among the events of one type. */
  function LastRows(cfg: Settings, events: seq<Event>, t: EventType): Spans
  {
    if events == [] then map[]
    else
      var rows, e := LastRows(cfg, events[..|events| - 1], t), events[|events| - 1];
      if IsSpanEvent(e, t) then rows[KeyOf(e) := SpanRowOf(cfg, e)] else rows
  }

  function Ends(cfg: Settings, events: seq<Event>): Spans
  {
    LastRows(cfg, events, SpanEnd)
  }

  /** The starts of spans that the batch does not end. */
  function Starts(cfg: Settings, events: seq<Event>): Spans
  {
    LastRows(cfg, events, SpanStart) - Ends(cfg, events).Keys
  }

  function WriteSpans(cfg: Settings, spans: Spans, events: seq<Event>): Spans
  {
    UpsertSpans(InsertIgnore(spans, Starts(cfg, events)), Ends(cfg, events))
  }

  function TraceIds(events: seq<Event>): set<Id>
  {
    set e | e in events :: e.trace
  }

  function EventsOf(events: seq<Event>, trace: Id): seq<Event>
  {
    if events == [] then []
    else
      var front, e := EventsOf(events[..|events| - 1], trace), events[|events| - 1];
      if e.trace == trace then front + [e] else front
  }

  function LastTenant(events: seq<Event>): string
    requires events != []
  {
    events[|events| - 1].tenant
  }

  /** `_merge_trace` plus the upsert over `_TRACE_UPDATE_COLUMNS`. */
  function MergeRow(cfg: Settings, traces: map<Id, TraceRow>, trace: Id, events: seq<Event>): TraceRow
    requires events != []
  {
    if trace in traces then
      traces[trace].(core := MergeBatch(traces[trace].core, events, cfg.shouldSample(trace)))
    else
      SortNonEmpty(events);
      TraceRow(LastTenant(SortByTime(events)), MergeBatch(MERGE_DEFAULTS, events, cfg.shouldSample(trace)),
               ZERO, GUARD_DEFAULTS)
  }

  lemma SortNonEmpty(events: seq<Event>)
    requires events != []
    ensures SortByTime(events) != []
  {
  }

  lemma NoneLater(events: seq<Event>, i: nat, j: nat)
    requires i < |events| && forall j :: 0 <= j < |events| && j != i ==> Precedes(events, j, i)
    requires j < |events|
    ensures !Precedes(events, i, j)
  {
    assert j != i ==> Precedes(events, j, i);
  }

  lemma LatestIsLast(events: seq<Event>, i: nat)
    requires i < |events| && forall j :: 0 <= j < |events| && j != i ==> Precedes(events, j, i)
    ensures var sorted := SortByTime(events); sorted != [] && sorted[|sorted| - 1] == events[i]
  {
    var place := SortIsStable(events);
    assert i in place;
    var k :| 0 <= k < |place| && place[k] == i;
    var last := |place| - 1;
    assert place[last] in place;
    NoneLater(events, i, place[last]);
    assert k == last;
  }

  /** A new row is of the tenant that the last event by time and position names; a stored one keeps its own. */
  lemma TenantOfRow(cfg: Settings, traces: map<Id, TraceRow>, trace: Id, events: seq<Event>, i: nat)
    requires i < |events| && forall j :: 0 <= j < |events| && j != i ==> Precedes(events, j, i)
    ensures MergeRow(cfg, traces, trace, events).tenant ==
        if trace in traces then traces[trace].tenant else events[i].tenant
  {
    LatestIsLast(events, i);
  }

  lemma {:induction false} EventsOfElems(events: seq<Event>, trace: Id)
    ensures forall e :: e in EventsOf(events, trace) <==> e in events && e.trace == trace
  {
    if events != [] {
      EventsOfElems(events[..|events| - 1], trace);
      assert events == events[..|events| - 1] + [events[|events| - 1]];
    }
  }

  /** part is the members of s at the places given, in the order of s. */
  ghost predicate IsPart<T>(part: seq<T>, s: seq<T>, place: seq<nat>)
  {
    && |part| == |place| && (forall k :: 0 <= k < |place| ==> place[k] < |s| && part[k] == s[place[k]])
    && (forall k, l :: 0 <= k < l < |place| ==> place[k] < place[l])
  }

  lemma PartGrows<T>(part: seq<T>, s: seq<T>, place: seq<nat>, x: T)
    requires IsPart(part, s, place)
    ensures IsPart(part, s + [x], place) && IsPart(part + [x], s + [x], place + [|s|])
  {
  }

  /** A trace's events keep the order of the batch. */
  lemma {:induction false} EventsOfKeepOrder(events: seq<Event>, trace: Id) returns (place: seq<nat>)
    ensures IsPart(EventsOf(events, trace), events, place)
    ensures forall i :: 0 <= i < |events| && events[i].trace == trace ==> i in place
  {
    place := [];
    if events != [] {
      var front, e := events[..|events| - 1], events[|events| - 1];
      place := EventsOfKeepOrder(front, trace);
      assert events == front + [e] && forall i :: 0 <= i < |front| ==> events[i] == front[i];
      PartGrows(EventsOf(front, trace), front, place, e);
      if e.trace == trace { place := place + [|front|]; }
    }
  }

  lemma EventsOfNonEmpty(events: seq<Event>, trace: Id)
    requires trace in TraceIds(events)
    ensures EventsOf(events, trace) != []
  {
  }

  ghost function Recompute(row: TraceRow, spans: Spans, trace: Id): TraceRow
  {
    if OfTrace(spans, trace) == map[] then row else row.(rollup := Aggregate(spans, trace))
  }

  ghost function WriteTraces(cfg: Settings, traces: map<Id, TraceRow>, spans: Spans, events: seq<Event>)
    : map<Id, TraceRow>
  {
    map t | t in traces.Keys + TraceIds(events) ::
      if t in TraceIds(events) then
        (EventsOfNonEmpty(events, t); Recompute(MergeRow(cfg, traces, t, EventsOf(events, t)), spans, t))
      else traces[t]
  }

  /** `StorageWriter.process` on one parsed batch. */
  ghost function StorageTxn(cfg: Settings, db: Db, events: seq<Event>): Db
  {
    var spans := WriteSpans(cfg, db.spans, events);
    db.(spans := spans, traces := WriteTraces(cfg, db.traces, spans, events))
  }

  // -------------------------------------------------------- GuardrailScanner

  datatype Hit = Hit(finding: Flags.Finding, offset: int)

  /** One scanned event: its identity and what the engine found in it. */
  datatype Scan = Scan(trace: Id, tenant: string, span: Option<Id>, hits: seq<Hit>, engines: Id)

  function Findings(hits: seq<Hit>): seq<Flags.Finding>
  {
    seq(|hits|, i requires 0 <= i < |hits| => hits[i].finding)
  }

  ghost function FlagsOf(s: Scan): Flags.Flags
  {
    Flags.Summarize(Findings(s.hits), s.engines)
  }

  function KeysOf(s: Scan): set<FindingKey>
  {
    set h | h in s.hits ::
        FindingKey(s.trace, s.span, h.finding.isPii, h.finding.findingType, h.finding.field, h.offset)
  }

  function ScanIds(scans: seq<Scan>): set<Id>
  {
    set s | s in scans :: s.trace
  }

  function ScansOf(scans: seq<Scan>, trace: Id): seq<Scan>
  {
    if scans == [] then []
    else
      var front, s := ScansOf(scans[..|scans| - 1], trace), scans[|scans| - 1];
      if s.trace == trace then front + [s] else front
  }

  ghost function FlagsOfAll(scans: seq<Scan>): seq<Flags.Flags>
  {
    seq(|scans|, i requires 0 <= i < |scans| => FlagsOf(scans[i]))
  }

  lemma {:induction false} ScansOfElems(scans: seq<Scan>, trace: Id)
    ensures forall s :: s in ScansOf(scans, trace) <==> s in scans && s.trace == trace
  {
    if scans != [] {
      ScansOfElems(scans[..|scans| - 1], trace);
      assert scans == scans[..|scans| - 1] + [scans[|scans| - 1]];
    }
  }

  /** A trace's scans keep the order of the batch. */
  lemma {:induction false} ScansOfKeepOrder(scans: seq<Scan>, trace: Id) returns (place: seq<nat>)
    ensures IsPart(ScansOf(scans, trace), scans, place)
    ensures forall i :: 0 <= i < |scans| && scans[i].trace == trace ==> i in place
  {
    place := [];
    if scans != [] {
      var front, s := scans[..|scans| - 1], scans[|scans| - 1];
      place := ScansOfKeepOrder(front, trace);
      assert scans == front + [s] && forall i :: 0 <= i < |front| ==> scans[i] == front[i];
      PartGrows(ScansOf(front, trace), front, place, s);
      if s.trace == trace { place := place + [|front|]; }
    }
  }

  lemma ScansOfNonEmpty(scans: seq<Scan>, trace: Id)
    requires trace in ScanIds(scans)
    ensures ScansOf(scans, trace) != []
  {
  }

  /** `merged_severity`: the stored one only counts when there is one. */
  function MergedSeverity(stored: Option<Flags.Severity>, combined: Option<Flags.Severity>): Option<Flags.Severity>
  {
    if stored.Some? then
      Some(Flags.MaxSeverity(if combined.Some? then combined.value else Flags.Info, stored.value))
    else combined
  }

  /** The four columns `_persist` writes. */
  ghost function Rescan(g: Guard, scans: seq<Scan>): Guard
  {
    var combined := Flags.MergeAll(Flags.NO_FLAGS, FlagsOfAll(scans));
    var flags := Flags.Merge(g.flags, combined);
    Guard(if flags.findings > 0 then Flagged else Clean, flags,
          if g.risk > combined.risk then g.risk else combined.risk,
          MergedSeverity(g.severity, combined.maxSeverity))
  }

  ghost function PersistRow(traces: map<Id, TraceRow>, trace: Id, scans: seq<Scan>): TraceRow
    requires scans != []
  {
    if trace in traces then traces[trace].(guard := Rescan(traces[trace].guard, scans))
    else TraceRow(scans[0].tenant, SERVER_DEFAULTS, ZERO, Rescan(GUARD_DEFAULTS, scans))
  }

  /** `GuardrailScanner.process` on one batch of scanned events. */
  ghost function ScanTxn(db: Db, scans: seq<Scan>): Db
  {
    var traces := map t | t in db.traces.Keys + ScanIds(scans) ::
      if t in ScanIds(scans) then (ScansOfNonEmpty(scans, t); PersistRow(db.traces, t, ScansOf(scans, t)))
      else db.traces[t];
    db.(traces := traces, findings := db.findings + (set s, k | s in scans && k in KeysOf(s) :: k))
  }

  // -------------------------------------------------------------------- runs

  datatype Step = StorageBatch(events: seq<Event>) | ScanBatch(scans: seq<Scan>)

  ghost function Apply(cfg: Settings, db: Db, step: Step): Db
  {
    match step
    case StorageBatch(events) => StorageTxn(cfg, db, events)
    case ScanBatch(scans) => ScanTxn(db, scans)
  }

  ghost function Run(cfg: Settings, steps: seq<Step>): Db
  {
    if steps == [] then EMPTY else Apply(cfg, Run(cfg, steps[..|steps| - 1]), steps[|steps| - 1])
  }

  /** Every event some storage batch of the run carried. */
  ghost function Delivered(steps: seq<Step>): set<Event>
  {
    if steps == [] then {}
    else Delivered(steps[..|steps| - 1]) +
         (match steps[|steps| - 1] case StorageBatch(events) => Elems(events) case ScanBatch(_) => {})
  }

  ghost function About(events: set<Event>, trace: Id): set<Event>
  {
    set e | e in events && e.trace == trace
  }

  /** At most one start and one end per span and one end per trace, and one tenant per trace. */
  ghost predicate WellFormed(events: set<Event>)
  {
    forall a, b :: a in events && b in events && a.trace == b.trace ==>
      && a.tenant == b.tenant
      && (a.etype.TraceEnd? && b.etype.TraceEnd? ==> a == b)
      && (a.span.Some? && a.span == b.span && a.etype == b.etype && (a.etype.SpanStart? || a.etype.SpanEnd?) ==> a == b)
  }

  /** The columns a trace shows, a missing row showing the defaults. */
  function CoreView(db: Db, t: Id): Core
  {
    if t in db.traces then db.traces[t].core else MERGE_DEFAULTS
  }

  function GuardView(db: Db, t: Id): Guard
  {
    if t in db.traces then db.traces[t].guard else GUARD_DEFAULTS
  }

  function RollupView(db: Db, t: Id): Rollup
  {
    if t in db.traces then db.traces[t].rollup else ZERO
  }

  /** A stub the scanner created shows and merges what a missing row does. */
  lemma StubLooksAbsent(cfg: Settings, db: Db, scans: seq<Scan>, t: Id, events: seq<Event>)
    requires t !in db.traces && t in ScanIds(scans) && events != []
    ensures var stubbed := ScanTxn(db, scans); t in stubbed.traces && CoreView(stubbed, t) == CoreView(db, t)
    ensures MergeRow(cfg, ScanTxn(db, scans).traces, t, events).core == MergeRow(cfg, db.traces, t, events).core
  {
  }

  // ---------------------------------------------- spans as a function of events

  /** e reports span k, as a start or as an end. */
  predicate Reports(e: Event, t: EventType, k: SpanKey)
  {
    IsSpanEvent(e, t) && KeyOf(e) == k
  }

  ghost predicate Started(events: set<Event>, k: SpanKey)
  {
    exists e :: e in events && Reports(e, SpanStart, k)
  }

  ghost predicate Ended(events: set<Event>, k: SpanKey)
  {
    exists e :: e in events && Reports(e, SpanEnd, k)
  }

  /** The row a span must have: its end's if the end was delivered, otherwise its start's. */
  ghost predicate SpanShows(cfg: Settings, spans: Spans, events: set<Event>, k: SpanKey)
  {
    && (k in spans <==> Started(events, k) || Ended(events, k))
    && (forall e :: e in events && Reports(e, SpanEnd, k) ==> k in spans && spans[k] == SpanRowOf(cfg, e))
    && (!Ended(events, k) ==>
          forall e :: e in events && Reports(e, SpanStart, k) ==> k in spans && spans[k] == SpanRowOf(cfg, e))
  }

  lemma {:induction false} LastRowsShow(cfg: Settings, events: seq<Event>, t: EventType, k: SpanKey)
    ensures k in LastRows(cfg, events, t) <==> exists e :: e in events && Reports(e, t, k)
    ensures k in LastRows(cfg, events, t) ==>
              exists e :: e in events && Reports(e, t, k) && LastRows(cfg, events, t)[k] == SpanRowOf(cfg, e)
  {
    if events != [] {
      var front, e := events[..|events| - 1], events[|events| - 1];
      LastRowsShow(cfg, front, t, k);
      assert events == front + [e];
      assert forall x :: x in events <==> x in front || x == e;
      if Reports(e, t, k) {
        assert e in events && LastRows(cfg, events, t)[k] == SpanRowOf(cfg, e);
      } else if k in LastRows(cfg, front, t) {
        var x :| x in front && Reports(x, t, k) && LastRows(cfg, front, t)[k] == SpanRowOf(cfg, x);
        assert x in events;
      }
    }
  }

  /** The row a batch holds for a span is the one event of that type that reports it. */
  lemma BatchRow(cfg: Settings, events: seq<Event>, all: set<Event>, t: EventType, k: SpanKey)
    requires Elems(events) <= all && WellFormed(all) && (t.SpanStart? || t.SpanEnd?)
    ensures k in LastRows(cfg, events, t) <==> exists e :: e in events && Reports(e, t, k)
    ensures forall e :: e in all && Reports(e, t, k) && k in LastRows(cfg, events, t) ==>
        LastRows(cfg, events, t)[k] == SpanRowOf(cfg, e)
  {
    LastRowsShow(cfg, events, t, k);
    if k in LastRows(cfg, events, t) {
      var x :| x in events && Reports(x, t, k) && LastRows(cfg, events, t)[k] == SpanRowOf(cfg, x);
      assert x in Elems(events);
      assert forall e :: e in all && Reports(e, t, k) ==> e == x;
    }
  }

  /** No batch changes the tenant of a stored span. */
  lemma SpanTenantStays(cfg: Settings, spans: Spans, events: seq<Event>, k: SpanKey)
    requires k in spans
    ensures k in WriteSpans(cfg, spans, events) && WriteSpans(cfg, spans, events)[k].tenant == spans[k].tenant
  {
  }

  lemma StoredTenant(cfg: Settings, spans: Spans, events: set<Event>, all: set<Event>, k: SpanKey, e: Event)
    requires SpanShows(cfg, spans, events, k) && k in spans && events <= all && WellFormed(all)
    requires e in all && e.trace == k.trace
    ensures spans[k].tenant == e.tenant
  {
  }

  lemma SpansStep(cfg: Settings, spans: Spans, before: set<Event>, events: seq<Event>, k: SpanKey)
    requires SpanShows(cfg, spans, before, k)
    requires WellFormed(before + Elems(events))
    ensures SpanShows(cfg, WriteSpans(cfg, spans, events), before + Elems(events), k)
  {
    var all := before + Elems(events);
    var after := WriteSpans(cfg, spans, events);
    BatchRow(cfg, events, all, SpanStart, k);
    BatchRow(cfg, events, all, SpanEnd, k);
    assert forall e :: e in all <==> e in before || e in events;
    forall e | e in all && Reports(e, SpanEnd, k)
      ensures k in after && after[k] == SpanRowOf(cfg, e)
    {
      if k in spans { StoredTenant(cfg, spans, before, all, k, e); }
    }
    if !Ended(all, k) {
      forall e | e in all && Reports(e, SpanStart, k)
        ensures k in after && after[k] == SpanRowOf(cfg, e)
      {
        if k in spans {
          assert !Ended(before, k) && Started(before, k);
          var x :| x in before && Reports(x, SpanStart, k);
          assert x in all && x == e;
        }
      }
    }
  }

  // ------------------------------------------------- the meaning of a whole run

  /** What the tables say about one trace, in terms of the set of delivered events only. */
  ghost predicate TraceMeans(cfg: Settings, db: Db, events: set<Event>, t: Id)
  {
    && Describes(CoreView(db, t), About(events, t), cfg.shouldSample(t))
    && RollupView(db, t) == Aggregate(db.spans, t)
    && (About(events, t) != {} ==> t in db.traces)
  }

  ghost predicate Means(cfg: Settings, db: Db, events: set<Event>)
  {
    && (forall k :: SpanShows(cfg, db.spans, events, k))
    && (forall t :: TraceMeans(cfg, db, events, t))
  }

  lemma EventsOfMember(events: seq<Event>, t: Id)
    requires EventsOf(events, t) != []
    ensures t in TraceIds(events)
  {
  }

  lemma AboutStep(before: set<Event>, events: seq<Event>, t: Id)
    ensures About(before + Elems(events), t) == About(before, t) + Elems(EventsOf(events, t))
    ensures t !in TraceIds(events) ==> EventsOf(events, t) == []
    ensures t in TraceIds(events) ==> EventsOf(events, t) != []
  {
    EventsOfElems(events, t);
    if t in TraceIds(events) {
      EventsOfNonEmpty(events, t);
    } else if EventsOf(events, t) != [] {
      EventsOfMember(events, t);
    }
  }

  lemma WrittenKeys(cfg: Settings, spans: Spans, events: seq<Event>, t: Id)
    ensures spans.Keys <= WriteSpans(cfg, spans, events).Keys
    ensures t !in TraceIds(events) ==> OfTrace(WriteSpans(cfg, spans, events), t) == OfTrace(spans, t)
  {
    var after := WriteSpans(cfg, spans, events);
    forall k | k in after && (k !in spans || after[k] != spans[k])
      ensures k.trace in TraceIds(events)
    {
      LastRowsShow(cfg, events, SpanStart, k);
      LastRowsShow(cfg, events, SpanEnd, k);
    }
  }

  lemma OneRowView(cfg: Settings, a: Db, events: seq<Event>, t: Id)
    ensures var c := StorageTxn(cfg, a, events);
            && (t in c.traces <==> t in a.traces || t in TraceIds(events))
            && GuardView(c, t) == GuardView(a, t)
            && CoreView(c, t) == (if t in TraceIds(events)
                then MergeBatch(CoreView(a, t), EventsOf(events, t), cfg.shouldSample(t)) else CoreView(a, t))
            && RollupView(c, t) == (if t in TraceIds(events) && OfTrace(c.spans, t) != map[] then Aggregate(c.spans, t)
                else RollupView(a, t))
  {
  }

  lemma StorageRollup(cfg: Settings, db: Db, events: seq<Event>, t: Id)
    requires RollupView(db, t) == Aggregate(db.spans, t)
    ensures var after := StorageTxn(cfg, db, events); RollupView(after, t) == Aggregate(after.spans, t)
  {
    var after := StorageTxn(cfg, db, events);
    OneRowView(cfg, db, events, t);
    WrittenKeys(cfg, db.spans, events, t);
    assert forall k :: k in OfTrace(db.spans, t) ==> k in OfTrace(after.spans, t);
    if t in TraceIds(events) && OfTrace(after.spans, t) == map[] {
      assert OfTrace(db.spans, t) == map[];
    }
  }

  lemma StorageStep(cfg: Settings, db: Db, before: set<Event>, events: seq<Event>, t: Id)
    requires TraceMeans(cfg, db, before, t)
    requires WellFormed(before + Elems(events))
    ensures TraceMeans(cfg, StorageTxn(cfg, db, events), before + Elems(events), t)
  {
    var mine, all := EventsOf(events, t), About(before + Elems(events), t);
    AboutStep(before, events, t);
    OneRowView(cfg, db, events, t);
    StorageRollup(cfg, db, events, t);
    if t in TraceIds(events) {
      assert OneEnd(all);
      BatchDescribes(CoreView(db, t), About(before, t), mine, cfg.shouldSample(t));
    } else {
      assert all == About(before, t);
    }
  }

  lemma NothingMeans(cfg: Settings, t: Id)
    ensures TraceMeans(cfg, EMPTY, {}, t)
  {
    DefaultsDescribe(cfg.shouldSample(t));
    assert About({}, t) == {};
    assert OfTrace(map[], t).Keys == {};
  }

  lemma ScanStep(cfg: Settings, db: Db, events: set<Event>, scans: seq<Scan>, t: Id)
    requires TraceMeans(cfg, db, events, t)
    ensures TraceMeans(cfg, ScanTxn(db, scans), events, t)
  {
    var after := ScanTxn(db, scans);
    assert CoreView(after, t) == CoreView(db, t) && RollupView(after, t) == RollupView(db, t) &&
        after.spans == db.spans;
  }

  lemma {:induction false} RunMeans(cfg: Settings, steps: seq<Step>)
    requires WellFormed(Delivered(steps))
    ensures Means(cfg, Run(cfg, steps), Delivered(steps))
  {
    if steps == [] {
      forall t ensures TraceMeans(cfg, EMPTY, {}, t) { NothingMeans(cfg, t); }
    } else {
      var front, step := steps[..|steps| - 1], steps[|steps| - 1];
      RunMeans(cfg, front);
      var db := Run(cfg, front);
      match step
      case StorageBatch(events) =>
        forall k ensures SpanShows(cfg, Run(cfg, steps).spans, Delivered(steps), k) {
          SpansStep(cfg, db.spans, Delivered(front), events, k);
        }
        forall t ensures TraceMeans(cfg, Run(cfg, steps), Delivered(steps), t) {
          StorageStep(cfg, db, Delivered(front), events, t);
        }
      case ScanBatch(scans) =>
        assert Delivered(steps) == Delivered(front);
        forall t ensures TraceMeans(cfg, Run(cfg, steps), Delivered(steps), t) {
          ScanStep(cfg, db, Delivered(front), scans, t);
        }
    }
  }

  /** Convergence: two runs that delivered the same events, in any order, batching and repetition and
      with any scanner batches in between, hold the same spans and agree on every trace. */
  lemma Convergence(cfg: Settings, xs: seq<Step>, ys: seq<Step>)
    requires WellFormed(Delivered(xs)) && Delivered(xs) == Delivered(ys)
    ensures Run(cfg, xs).spans == Run(cfg, ys).spans
    ensures forall t :: t in TraceIdsOf(Delivered(xs)) ==>
              && t in Run(cfg, xs).traces && t in Run(cfg, ys).traces
              && Agree(Run(cfg, xs).traces[t].core, Run(cfg, ys).traces[t].core, About(Delivered(xs), t))
              && Run(cfg, xs).traces[t].rollup == Run(cfg, ys).traces[t].rollup == Aggregate(Run(cfg, xs).spans, t)
  {
    var a, b, events := Run(cfg, xs), Run(cfg, ys), Delivered(xs);
    RunMeans(cfg, xs);
    RunMeans(cfg, ys);
    SameSpans(cfg, a.spans, b.spans, events);
    forall t | t in TraceIdsOf(events)
      ensures t in a.traces && t in b.traces && Agree(a.traces[t].core, b.traces[t].core, About(events, t))
      ensures a.traces[t].rollup == b.traces[t].rollup == Aggregate(a.spans, t)
    {
      var e :| e in events && e.trace == t;
      assert e in About(events, t);
      assert TraceMeans(cfg, a, events, t) && TraceMeans(cfg, b, events, t);
      DescriptionsAgree(a.traces[t].core, b.traces[t].core, About(events, t), cfg.shouldSample(t));
    }
  }

  function TraceIdsOf(events: set<Event>): set<Id>
  {
    set e | e in events :: e.trace
  }

  lemma SameSpans(cfg: Settings, a: Spans, b: Spans, events: set<Event>)
    requires forall k :: SpanShows(cfg, a, events, k)
    requires forall k :: SpanShows(cfg, b, events, k)
    ensures a == b
  {
    forall k ensures k in a <==> k in b {
      assert SpanShows(cfg, a, events, k) && SpanShows(cfg, b, events, k);
    }
    forall k | k in a ensures a[k] == b[k] {
      assert SpanShows(cfg, a, events, k) && SpanShows(cfg, b, events, k);
      if Ended(events, k) {
        var e :| e in events && Reports(e, SpanEnd, k);
      } else {
        var e :| e in events && Reports(e, SpanStart, k);
      }
    }
  }
}
