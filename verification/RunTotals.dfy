/** What the tables of a run say in terms of the delivered events' own fields: every column of a span row,
    the sums on a trace row, and the findings.  */
module RunTotals {
  import opened Ids
  import opened Wrappers
  import opened Events
  import opened Sums
  import opened Rollups
  import opened Store

  /** e decides what span k shows: it is its end, or its start while no end was delivered. */
  ghost predicate Tells(events: set<Event>, e: Event, k: SpanKey)
  {
    e in events && (Reports(e, SpanEnd, k) || (Reports(e, SpanStart, k) && !Ended(events, k)))
  }

  /** The deciding events of one trace's spans. */
  ghost function Telling(events: set<Event>, trace: Id): set<Event>
  {
    set e | e in events && e.trace == trace && e.span.Some? && Tells(events, e, KeyOf(e))
  }

  function PromptOf(e: Event): nat
  {
    if e.usage.Some? then e.usage.value.prompt else 0
  }

  function CompletionOf(e: Event): nat
  {
    if e.usage.Some? then e.usage.value.completion else 0
  }

  function TokensOf(e: Event): nat
  {
    if e.usage.Some? then e.usage.value.total else 0
  }

  /** Text cut to its first 200 characters. */
  predicate IsCut(shown: string, whole: string)
  {
    shown <= whole && (shown == whole || |shown| == 200 < |whole|)
  }

  /** The duration an event reports, or else the one its two instants give. */
  predicate IsDuration(v: Option<int>, e: Event)
  {
    if e.latencyMs.Some? then v == e.latencyMs
    else if e.startedAt.None? || e.endedAt.None? then v == None
    else
      var micros := e.endedAt.value - e.startedAt.value;
      v.Some? && v.value >= 0 && (if micros < 0 then v.value == 0 else v.value * 1000 <= micros < v.value * 1000 + 1000)
  }

  /** The row says, column by column, what the event does. */
  ghost predicate RowTells(cfg: Settings, r: SpanRow, e: Event)
  {
    && r.tenant == e.tenant && r.parent == e.parent && r.kind == e.kind && r.status == e.status
    && IsCut(r.name, e.name) && r.startedAt == e.startedAt && r.endedAt == e.endedAt && IsDuration(r.latencyMs, e)
    && r.input == e.input && r.output == e.output && r.error == e.error && r.attributes == e.attributes
    && r.promptTokens == PromptOf(e) && r.completionTokens == CompletionOf(e) && r.totalTokens == TokensOf(e)
    && r.costMicros == cfg.costMicros(e.model, PromptOf(e), CompletionOf(e))
    && r.model == e.model && r.schemaVersion == e.schemaVersion
  }

  lemma RowOfEventTells(cfg: Settings, e: Event)
    ensures RowTells(cfg, SpanRowOf(cfg, e), e)
  {
  }

  /** In every run a span's row shows what its deciding event says. */
  lemma SpanRowsTell(cfg: Settings, steps: seq<Step>, e: Event, k: SpanKey)
    requires WellFormed(Delivered(steps)) && Tells(Delivered(steps), e, k)
    ensures k in Run(cfg, steps).spans && RowTells(cfg, Run(cfg, steps).spans[k], e)
  {
    RunMeans(cfg, steps);
    assert SpanShows(cfg, Run(cfg, steps).spans, Delivered(steps), k);
    RowOfEventTells(cfg, e);
  }

  lemma TellersPairOff(cfg: Settings, steps: seq<Step>, trace: Id)
    requires WellFormed(Delivered(steps))
    ensures var tellers, rows := Telling(Delivered(steps), trace), OfTrace(Run(cfg, steps).spans, trace);
            && (forall e, f :: e in tellers && f in tellers && KeyOf(e) == KeyOf(f) ==> e == f)
            && rows.Keys == set e | e in tellers :: KeyOf(e)
  {
    var events, spans := Delivered(steps), Run(cfg, steps).spans;
    RunMeans(cfg, steps);
    forall e, f | e in Telling(events, trace) && f in Telling(events, trace) && KeyOf(e) == KeyOf(f) ensures e == f {
      if e.etype.SpanEnd? { assert Ended(events, KeyOf(f)); }
      if f.etype.SpanEnd? { assert Ended(events, KeyOf(e)); }
    }
    forall k ensures k in OfTrace(spans, trace) <==> exists e :: e in Telling(events, trace) && KeyOf(e) == k {
      assert SpanShows(cfg, spans, events, k);
      if k in OfTrace(spans, trace) {
        var e :| e in events && if Ended(events, k) then Reports(e, SpanEnd, k) else Reports(e, SpanStart, k);
        assert Tells(events, e, k) && KeyOf(e) == k;
      }
    }
  }

  /** One figure of the rows against the same figure of the deciding events. */
  lemma SameFigure(cfg: Settings, steps: seq<Step>, trace: Id, figure: SpanRow -> nat, told: Event -> nat)
    requires WellFormed(Delivered(steps))
    requires forall e :: e in Telling(Delivered(steps), trace) ==>
               KeyOf(e) in Run(cfg, steps).spans && figure(Run(cfg, steps).spans[KeyOf(e)]) == told(e)
    ensures var rows := OfTrace(Run(cfg, steps).spans, trace);
            SumOver(rows.Keys, ColumnOf(rows, figure)) == SumOver(Telling(Delivered(steps), trace), told)
  {
    var tellers, rows := Telling(Delivered(steps), trace), OfTrace(Run(cfg, steps).spans, trace);
    TellersPairOff(cfg, steps, trace);
    var to := (e: Event) => if e.span.Some? then KeyOf(e) else SpanKey(e.trace, e.trace);
    assert rows.Keys == set e | e in tellers :: to(e);
    SameSum(tellers, told, rows.Keys, ColumnOf(rows, figure), to);
  }

  /** In every run the token and cost columns of every trace are the sums of what the deciding events of its
      spans report: one event for each span, however often anything was delivered. */
  lemma RunAddsUp(cfg: Settings, steps: seq<Step>, trace: Id)
    requires WellFormed(Delivered(steps))
    ensures var r, tellers := RollupView(Run(cfg, steps), trace), Telling(Delivered(steps), trace);
            && r.promptTokens == SumOver(tellers, PromptOf)
            && r.completionTokens == SumOver(tellers, CompletionOf)
            && r.totalTokens == SumOver(tellers, TokensOf)
            && r.costMicros == SumOver(tellers, (e: Event) => cfg.costMicros(e.model, PromptOf(e), CompletionOf(e)))
  {
    RunMeans(cfg, steps);
    assert TraceMeans(cfg, Run(cfg, steps), Delivered(steps), trace);
    TotalSums(OfTrace(Run(cfg, steps).spans, trace));
    forall e | e in Telling(Delivered(steps), trace) ensures ShowsFigures(cfg, Run(cfg, steps).spans, e) {
      SpanRowsTell(cfg, steps, e, KeyOf(e));
    }
    SameFigure(cfg, steps, trace, (r: SpanRow) => r.promptTokens, PromptOf);
    SameFigure(cfg, steps, trace, (r: SpanRow) => r.completionTokens, CompletionOf);
    SameFigure(cfg, steps, trace, (r: SpanRow) => r.totalTokens, TokensOf);
    SameFigure(cfg, steps, trace, (r: SpanRow) => r.costMicros,
               (e: Event) => cfg.costMicros(e.model, PromptOf(e), CompletionOf(e)));
  }

  predicate ShowsFigures(cfg: Settings, spans: Spans, e: Event)
  {
    && e.span.Some? && KeyOf(e) in spans
    && var r := spans[KeyOf(e)];
       && r.promptTokens == PromptOf(e) && r.completionTokens == CompletionOf(e) && r.totalTokens == TokensOf(e)
       && r.costMicros == cfg.costMicros(e.model, PromptOf(e), CompletionOf(e))
  }

  /** As many keys as events, when the keys are different. */
  lemma {:induction false} KeysOfSpans(events: set<Event>, keys: set<SpanKey>)
    requires forall e :: e in events ==> e.span.Some?
    requires forall e, f :: e in events && f in events && KeyOf(e) == KeyOf(f) ==> e == f
    requires keys == set e | e in events :: KeyOf(e)
    ensures |keys| == |events|
    decreases |events|
  {
    if events != {} {
      var e :| e in events;
      assert keys - {KeyOf(e)} == set f | f in events - {e} :: KeyOf(f);
      KeysOfSpans(events - {e}, keys - {KeyOf(e)});
    }
  }

  lemma TellersShow(cfg: Settings, steps: seq<Step>, trace: Id)
    requires WellFormed(Delivered(steps))
    ensures var rows := OfTrace(Run(cfg, steps).spans, trace);
            forall e :: e in Telling(Delivered(steps), trace) ==>
              KeyOf(e) in rows && rows[KeyOf(e)].kind == e.kind && rows[KeyOf(e)].status == e.status
  {
    forall e | e in Telling(Delivered(steps), trace)
      ensures var rows := OfTrace(Run(cfg, steps).spans, trace);
              KeyOf(e) in rows && rows[KeyOf(e)].kind == e.kind && rows[KeyOf(e)].status == e.status
    {
      SpanRowsTell(cfg, steps, e, KeyOf(e));
    }
  }

  /** Rows of one kind against the deciding events of that kind. */
  lemma SameNumber(cfg: Settings, steps: seq<Step>, trace: Id, p: SpanRow -> bool, events: set<Event>)
    requires WellFormed(Delivered(steps)) && events <= Telling(Delivered(steps), trace)
    requires var rows := OfTrace(Run(cfg, steps).spans, trace);
             forall e :: e in Telling(Delivered(steps), trace) ==>
               KeyOf(e) in rows && (e in events <==> p(rows[KeyOf(e)]))
    ensures |Where(OfTrace(Run(cfg, steps).spans, trace), p)| == |events|
  {
    var rows := OfTrace(Run(cfg, steps).spans, trace);
    TellersPairOff(cfg, steps, trace);
    forall k ensures k in Where(rows, p) <==> exists e :: e in events && KeyOf(e) == k {
      if k in Where(rows, p) {
        assert k in rows.Keys;
        var e :| e in Telling(Delivered(steps), trace) && KeyOf(e) == k;
      }
    }
    KeysOfSpans(events, Where(rows, p));
  }

  /** Its counters are the numbers of its spans, of those the deciding event gives as a model call or a tool
      call, and of those it gives as failed. */
  lemma RunCounts(cfg: Settings, steps: seq<Step>, trace: Id)
    requires WellFormed(Delivered(steps))
    ensures var r, tellers := RollupView(Run(cfg, steps), trace), Telling(Delivered(steps), trace);
            && r.spanCount == |tellers|
            && r.llmCalls == |set e | e in tellers && e.kind.Llm?|
            && r.toolCalls == |set e | e in tellers && e.kind.Tool?|
            && r.errorCount == |set e | e in tellers && e.status.Error?|
  {
    RunMeans(cfg, steps);
    assert TraceMeans(cfg, Run(cfg, steps), Delivered(steps), trace);
    TotalCounts(OfTrace(Run(cfg, steps).spans, trace));
    SpansCount(cfg, steps, trace);
    TellersShow(cfg, steps, trace);
    var tellers := Telling(Delivered(steps), trace);
    SameNumber(cfg, steps, trace, IsLlm, set e | e in tellers && e.kind.Llm?);
    SameNumber(cfg, steps, trace, IsTool, set e | e in tellers && e.kind.Tool?);
    SameNumber(cfg, steps, trace, IsError, set e | e in tellers && e.status.Error?);
  }

  lemma SpansCount(cfg: Settings, steps: seq<Step>, trace: Id)
    requires WellFormed(Delivered(steps))
    ensures |OfTrace(Run(cfg, steps).spans, trace).Keys| == |Telling(Delivered(steps), trace)|
  {
    TellersPairOff(cfg, steps, trace);
    KeysOfSpans(Telling(Delivered(steps), trace), OfTrace(Run(cfg, steps).spans, trace).Keys);
  }
}
