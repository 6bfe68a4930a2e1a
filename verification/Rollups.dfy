/** The spans table and the per-trace aggregate the storage writer recomputes from it. */
module Rollups {
  import opened Ids
  import opened Wrappers
  import opened Events
  import opened Sums

  datatype SpanKey = SpanKey(trace: Id, span: Id)

  datatype SpanRow = SpanRow(
    tenant: string, parent: Option<Id>, kind: SpanKind, name: string, status: SpanStatus,
    startedAt: Option<int>, endedAt: Option<int>, latencyMs: Option<int>,
    input: Payload, output: Payload, error: Option<string>, attributes: Payload,
    promptTokens: nat, completionTokens: nat, totalTokens: nat, costMicros: nat,
    model: Option<string>, schemaVersion: int)

  type Spans = map<SpanKey, SpanRow>

  datatype Rollup = Rollup(promptTokens: nat, completionTokens: nat, totalTokens: nat, costMicros: nat,
                           spanCount: nat, llmCalls: nat, toolCalls: nat, errorCount: nat)

  const ZERO := Rollup(0, 0, 0, 0, 0, 0, 0, 0)

  function CaseWhen(b: bool): nat
  {
    if b then 1 else 0
  }

  /** What one span adds to its trace. */
  function Contribution(r: SpanRow): Rollup
  {
    Rollup(r.promptTokens, r.completionTokens, r.totalTokens, r.costMicros, 1,
           CaseWhen(r.kind.Llm?), CaseWhen(r.kind.Tool?), CaseWhen(r.status.Error?))
  }

  function Plus(a: Rollup, b: Rollup): Rollup
  {
    Rollup(a.promptTokens + b.promptTokens, a.completionTokens + b.completionTokens,
           a.totalTokens + b.totalTokens, a.costMicros + b.costMicros, a.spanCount + b.spanCount,
           a.llmCalls + b.llmCalls, a.toolCalls + b.toolCalls, a.errorCount + b.errorCount)
  }

  /** The sums and counts over a set of rows, taken in any order. */
  ghost function Total(rows: Spans): Rollup
  {
    if rows.Keys == {} then ZERO
    else
      var k :| k in rows.Keys;
      Plus(Total(rows - {k}), Contribution(rows[k]))
  }

  lemma RemoveBoth(rows: Spans, j: SpanKey, k: SpanKey)
    ensures rows - {j} - {k} == rows - {k} - {j}
  {
  }

  lemma PlusSwaps(a: Rollup, b: Rollup, c: Rollup)
    ensures Plus(Plus(a, b), c) == Plus(Plus(a, c), b)
  {
  }

  lemma {:induction false} TotalRemove(rows: Spans, k: SpanKey)
    requires k in rows
    ensures Total(rows) == Plus(Total(rows - {k}), Contribution(rows[k]))
    decreases |rows|
  {
    var j :| j in rows.Keys && Total(rows) == Plus(Total(rows - {j}), Contribution(rows[j]));
    if j != k {
      TotalRemove(rows - {j}, k);
      TotalRemove(rows - {k}, j);
      RemoveBoth(rows, j, k);
      PlusSwaps(Total(rows - {j} - {k}), Contribution(rows[k]), Contribution(rows[j]));
    }
  }

  predicate IsLlm(r: SpanRow)
  {
    r.kind.Llm?
  }

  predicate IsTool(r: SpanRow)
  {
    r.kind.Tool?
  }

  predicate IsError(r: SpanRow)
  {
    r.status.Error?
  }

  ghost function Where(rows: Spans, p: SpanRow -> bool): set<SpanKey>
  {
    set k | k in rows && p(rows[k])
  }

  lemma WhereRemove(rows: Spans, k: SpanKey, p: SpanRow -> bool)
    requires k in rows
    ensures |Where(rows, p)| == |Where(rows - {k}, p)| + CaseWhen(p(rows[k]))
  {
    if p(rows[k]) {
      assert Where(rows, p) == Where(rows - {k}, p) + {k};
    } else {
      assert Where(rows, p) == Where(rows - {k}, p);
    }
  }

  /** The counters are cardinalities. */
  lemma {:induction false} TotalCounts(rows: Spans)
    ensures Total(rows).spanCount == |rows.Keys|
    ensures Total(rows).llmCalls == |Where(rows, IsLlm)|
    ensures Total(rows).toolCalls == |Where(rows, IsTool)|
    ensures Total(rows).errorCount == |Where(rows, IsError)|
    decreases |rows|
  {
    if rows.Keys == {} {
      assert Where(rows, IsLlm) == {} && Where(rows, IsTool) == {} && Where(rows, IsError) == {};
    } else {
      var k :| k in rows.Keys;
      TotalRemove(rows, k);
      TotalCounts(rows - {k});
      WhereRemove(rows, k, IsLlm);
      WhereRemove(rows, k, IsTool);
      WhereRemove(rows, k, IsError);
      assert rows.Keys == (rows - {k}).Keys + {k};
    }
  }

  /** One figure of a row, by key. */
  function ColumnOf(rows: Spans, figure: SpanRow -> nat): SpanKey -> nat
  {
    k => if k in rows then figure(rows[k]) else 0
  }

  lemma ColumnRemove(rows: Spans, k: SpanKey, figure: SpanRow -> nat)
    requires k in rows
    ensures SumOver(rows.Keys, ColumnOf(rows, figure)) ==
        SumOver((rows - {k}).Keys, ColumnOf(rows - {k}, figure)) + figure(rows[k])
  {
    SumWithout(rows.Keys, k, ColumnOf(rows, figure));
    assert (rows - {k}).Keys == rows.Keys - {k};
    SameSum((rows - {k}).Keys, ColumnOf(rows - {k}, figure), rows.Keys - {k}, ColumnOf(rows, figure),
            (x: SpanKey) => x);
  }

  /** The sums are those of the column of that name. */
  lemma {:induction false} TotalSums(rows: Spans)
    ensures Total(rows).promptTokens == SumOver(rows.Keys, ColumnOf(rows, (r: SpanRow) => r.promptTokens))
    ensures Total(rows).completionTokens == SumOver(rows.Keys, ColumnOf(rows, (r: SpanRow) => r.completionTokens))
    ensures Total(rows).totalTokens == SumOver(rows.Keys, ColumnOf(rows, (r: SpanRow) => r.totalTokens))
    ensures Total(rows).costMicros == SumOver(rows.Keys, ColumnOf(rows, (r: SpanRow) => r.costMicros))
    decreases |rows|
  {
    if rows.Keys != {} {
      var k :| k in rows.Keys;
      TotalRemove(rows, k);
      TotalSums(rows - {k});
      ColumnRemove(rows, k, (r: SpanRow) => r.promptTokens);
      ColumnRemove(rows, k, (r: SpanRow) => r.completionTokens);
      ColumnRemove(rows, k, (r: SpanRow) => r.totalTokens);
      ColumnRemove(rows, k, (r: SpanRow) => r.costMicros);
    }
  }

  function OfTrace(spans: Spans, trace: Id): Spans
  {
    map k | k in spans && k.trace == trace :: spans[k]
  }

  /** One group of the `GROUP BY trace_id`. */
  ghost function Aggregate(spans: Spans, trace: Id): Rollup
  {
    Total(OfTrace(spans, trace))
  }
}
