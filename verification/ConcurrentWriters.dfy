/** Storage-writer and scanner transactions interleaved statement by statement: row locks held until
    commit, reads that see committed rows plus the transaction's own writes.  A trace row is reduced to
    its rollup here; locks on trace rows are taken one at a time in the order of the statement.  */
module ConcurrentWriters {
  import opened Ids
  import opened Rollups

  datatype SpanWrite = InsertIgnored(key: SpanKey, row: SpanRow) | Upserted(key: SpanKey, row: SpanRow)

  /** Where a transaction stands: spans written so far, then trace locks, then rollups, then finished. */
  datatype Phase = Spanning(done: nat) | Locking | Updating(computed: map<Id, Rollup>, updated: nat) | Finished

  /** `ids` are the traces it upserts, in that order, and `locked` how many it has; `own` and `rows` are
      its uncommitted writes.  A scanner transaction has no span writes and never recomputes. */
  datatype Txn = Txn(isWriter: bool, writes: seq<SpanWrite>, ids: seq<Id>, phase: Phase, locked: nat,
                     own: Spans, rows: map<Id, Rollup>)
  {
    predicate Active()
    {
      !phase.Finished?
    }

    predicate HoldsTrace(t: Id)
      requires locked <= |ids|
    {
      Active() && t in ids[..locked]
    }

    predicate HoldsSpan(k: SpanKey)
    {
      Active() && k in own
    }

    /** The next trace row it asks for. */
    predicate Wants(t: Id)
    {
      phase.Locking? && locked < |ids| && ids[locked] == t
    }
  }

  datatype State = State(spans: Spans, traces: map<Id, Rollup>, txns: seq<Txn>)

  datatype Action =
    | Begin(txn: Txn)
    | WriteSpan(i: nat)
    | LockTrace(i: nat)
    | ReadSpans(i: nat)
    | UpdateRollup(i: nat)
    | Commit(i: nat)
    | Abort(i: nat)

  // ------------------------------------------------------------------- steps

  /** A transaction as `process` starts it: each trace once, spans of its own traces only. */
  predicate Fresh(x: Txn)
  {
    && x.locked == 0 && x.own == map[] && x.rows == map[]
    && x.phase == (if x.writes == [] then Locking else Spanning(0))
    && (!x.isWriter ==> x.writes == [])
    && (forall n :: 0 <= n < |x.writes| ==> x.writes[n].key.trace in x.ids)
    && (forall m, n :: 0 <= m < n < |x.ids| ==> x.ids[m] != x.ids[n])
  }

  predicate SpanFree(s: State, i: nat, k: SpanKey)
  {
    forall j :: 0 <= j < |s.txns| && j != i ==> !s.txns[j].HoldsSpan(k)
  }

  predicate LocksInRange(s: State)
  {
    forall j :: 0 <= j < |s.txns| ==> s.txns[j].locked <= |s.txns[j].ids|
  }

  predicate TraceFree(s: State, i: nat, t: Id)
    requires LocksInRange(s)
  {
    forall j :: 0 <= j < |s.txns| && j != i ==> !s.txns[j].HoldsTrace(t)
  }

  /** What a statement of transaction x sees: committed rows overlaid with its own writes. */
  function View(s: State, x: Txn): Spans
  {
    s.spans + x.own
  }

  predicate Enabled(s: State, a: Action)
    requires LocksInRange(s)
  {
    match a
    case Begin(x) => Fresh(x)
    case WriteSpan(i) =>
      && i < |s.txns| && s.txns[i].phase.Spanning? && s.txns[i].phase.done < |s.txns[i].writes|
      && var w := s.txns[i].writes[s.txns[i].phase.done];
         // DO NOTHING does not wait when the row is already there
         (w.InsertIgnored? && w.key in View(s, s.txns[i])) || SpanFree(s, i, w.key)
    case LockTrace(i) =>
      && i < |s.txns| && s.txns[i].locked < |s.txns[i].ids|
      && s.txns[i].phase.Locking? && TraceFree(s, i, s.txns[i].ids[s.txns[i].locked])
    case ReadSpans(i) =>
      i < |s.txns| && s.txns[i].isWriter && s.txns[i].phase.Locking? && s.txns[i].locked == |s.txns[i].ids|
    case UpdateRollup(i) =>
      i < |s.txns| && s.txns[i].phase.Updating? && s.txns[i].phase.updated < |s.txns[i].ids|
    case Commit(i) =>
      && i < |s.txns|
      && if s.txns[i].isWriter then s.txns[i].phase.Updating? && s.txns[i].phase.updated == |s.txns[i].ids|
         else s.txns[i].phase.Locking? && s.txns[i].locked == |s.txns[i].ids|
    case Abort(i) => i < |s.txns| && s.txns[i].Active()
  }

  /** How many of its span writes it has made. */
  function Done(x: Txn): nat
  {
    if x.phase.Spanning? then x.phase.done else |x.writes|
  }

  function Advance(x: Txn): Phase
    requires x.phase.Spanning?
  {
    if x.phase.done + 1 < |x.writes| then Spanning(x.phase.done + 1) else Locking
  }

  ghost function Recomputed(spans: Spans, ids: seq<Id>): map<Id, Rollup>
  {
    map t | t in ids && OfTrace(spans, t) != map[] :: Aggregate(spans, t)
  }

  /** One row of the upsert: an existing row keeps its rollup columns, a new one gets the defaults. */
  function AfterLock(x: Txn, traces: map<Id, Rollup>): Txn
    requires x.locked < |x.ids|
  {
    var t := x.ids[x.locked];
    x.(locked := x.locked + 1, rows := x.rows[t := if t in traces then traces[t] else ZERO])
  }

  /** One UPDATE of the recompute loop; a trace without a group is not updated. */
  function AfterUpdate(x: Txn): Txn
    requires x.phase.Updating? && x.phase.updated < |x.ids|
  {
    var t := x.ids[x.phase.updated];
    x.(rows := if t in x.phase.computed then x.rows[t := x.phase.computed[t]] else x.rows,
       phase := Updating(x.phase.computed, x.phase.updated + 1))
  }

  /** The transaction after its own step. */
  ghost function Stepped(s: State, a: Action): Txn
    requires LocksInRange(s) && Enabled(s, a) && !a.Begin?
  {
    var x := s.txns[a.i];
    match a
    case WriteSpan(_) =>
      var w := x.writes[x.phase.done];
      var view := View(s, x);
      var own := if w.InsertIgnored? then (if w.key in view then x.own else x.own[w.key := w.row])
                 else x.own[w.key := if w.key in view then w.row.(tenant := view[w.key].tenant) else w.row];
      x.(own := own, phase := Advance(x))
    case LockTrace(_) => AfterLock(x, s.traces)
    case ReadSpans(_) => x.(phase := Updating(Recomputed(View(s, x), x.ids), 0))
    case UpdateRollup(_) => AfterUpdate(x)
    case Commit(_) => x.(phase := Finished)
    case Abort(_) => x.(phase := Finished)
  }

  ghost function Step(s: State, a: Action): State
    requires LocksInRange(s) && Enabled(s, a)
  {
    if a.Begin? then s.(txns := s.txns + [a.txn])
    else
      var x := s.txns[a.i];
      var txns := s.txns[a.i := Stepped(s, a)];
      if a.Commit? then State(s.spans + x.own, s.traces + x.rows, txns) else s.(txns := txns)
  }

  // --------------------------------------------------------------- invariant

  /** Every committed trace row carries the aggregate of its committed spans, and every committed span
      has its trace row. */
  ghost predicate Consistent(spans: Spans, traces: map<Id, Rollup>)
  {
    && (forall t :: t in traces ==> traces[t] == Aggregate(spans, t))
    && (forall k :: k in spans ==> k.trace in traces)
  }

  ghost predicate TxnOk(spans: Spans, x: Txn)
  {
    && x.locked <= |x.ids|
    && (forall m, n :: 0 <= m < n < |x.ids| ==> x.ids[m] != x.ids[n])
    && (x.Active() ==>
          && (forall k :: k in x.own ==> k.trace in x.ids)
          && (forall n :: 0 <= n < |x.writes| ==> x.writes[n].key.trace in x.ids)
          && (!x.isWriter ==> x.own == map[] && x.phase.Locking?)
          && x.rows.Keys == Elems(x.ids[..x.locked])
          && (x.phase.Spanning? ==> x.locked == 0 && x.phase.done < |x.writes|)
          && RowsOk(spans, x))
  }

  /** Before the recompute a held row still has the committed aggregate; afterwards it has the aggregate
      the transaction is about to commit. */
  ghost predicate RowsOk(spans: Spans, x: Txn)
    requires x.locked <= |x.ids|
  {
    if x.phase.Updating? then
      && x.locked == |x.ids| && x.phase.updated <= |x.ids|
      && x.phase.computed == Recomputed(spans + x.own, x.ids)
      && (forall n :: 0 <= n < |x.ids| ==> x.ids[n] in x.rows)
      && (forall n :: 0 <= n < x.phase.updated ==> x.rows[x.ids[n]] == Aggregate(spans + x.own, x.ids[n]))
      && (forall n :: x.phase.updated <= n < |x.ids| ==> x.rows[x.ids[n]] == Aggregate(spans, x.ids[n]))
    else
      forall t :: t in x.rows ==> x.rows[t] == Aggregate(spans, t)
  }

  ghost predicate Exclusive(x: Txn, y: Txn)
    requires x.locked <= |x.ids| && y.locked <= |y.ids|
  {
    && (forall t :: !(x.HoldsTrace(t) && y.HoldsTrace(t)))
    && (forall k :: !(x.HoldsSpan(k) && y.HoldsSpan(k)))
  }

  ghost predicate Inv(s: State)
  {
    && LocksInRange(s)
    && Consistent(s.spans, s.traces)
    && (forall i :: 0 <= i < |s.txns| ==> TxnOk(s.spans, s.txns[i]))
    && (forall i, j :: 0 <= i < j < |s.txns| ==> Exclusive(s.txns[i], s.txns[j]))
  }

  /** Spans of other traces do not show in a group, under whatever own writes. */
  lemma SameGroup(spans: Spans, others: Spans, own: Spans, t: Id)
    requires forall k :: k in others ==> k.trace != t
    ensures OfTrace(spans + others + own, t) == OfTrace(spans + own, t)
    ensures Aggregate(spans + others + own, t) == Aggregate(spans + own, t)
  {
  }

  lemma SameCommittedGroup(spans: Spans, others: Spans, t: Id)
    requires forall k :: k in others ==> k.trace != t
    ensures Aggregate(spans + others, t) == Aggregate(spans, t)
  {
    SameGroup(spans, others, map[], t);
    assert spans + others + map[] == spans + others && spans + map[] == spans;
  }

  lemma SameRecompute(spans: Spans, others: Spans, own: Spans, ids: seq<Id>)
    requires forall k :: k in others ==> k.trace !in ids
    ensures Recomputed(spans + others + own, ids) == Recomputed(spans + own, ids)
  {
    forall t | t in ids
      ensures OfTrace(spans + others + own, t) == OfTrace(spans + own, t)
      ensures Aggregate(spans + others + own, t) == Aggregate(spans + own, t)
    {
      SameGroup(spans, others, own, t);
    }
  }

  /** A commit of another transaction only changes groups of traces whose rows that one held, so it
      keeps this one's invariant. */
  lemma OthersOk(spans: Spans, others: Spans, y: Txn)
    requires TxnOk(spans, y)
    requires y.Active() ==> forall k :: k in others ==> k.trace !in y.ids[..y.locked]
    ensures TxnOk(spans + others, y)
  {
    if y.Active() {
      if y.phase.Updating? {
        assert y.ids[..y.locked] == y.ids;
        SameRecompute(spans, others, y.own, y.ids);
        forall n | 0 <= n < |y.ids|
          ensures Aggregate(spans + others + y.own, y.ids[n]) == Aggregate(spans + y.own, y.ids[n])
          ensures Aggregate(spans + others, y.ids[n]) == Aggregate(spans, y.ids[n])
        {
          assert y.ids[n] in y.ids;
          SameGroup(spans, others, y.own, y.ids[n]);
          SameCommittedGroup(spans, others, y.ids[n]);
        }
      } else {
        forall t | t in y.rows ensures y.rows[t] == Aggregate(spans + others, t) {
          assert t in Elems(y.ids[..y.locked]);
          SameCommittedGroup(spans, others, t);
        }
      }
    }
  }

  // ------------------------------------------------------- one step at a time

  lemma WriteSpanOk(s: State, i: nat)
    requires Inv(s) && Enabled(s, WriteSpan(i))
    ensures TxnOk(s.spans, Stepped(s, WriteSpan(i)))
  {
  }

  lemma LockTraceOk(spans: Spans, traces: map<Id, Rollup>, x: Txn)
    requires Consistent(spans, traces) && TxnOk(spans, x) && x.phase.Locking? && x.locked < |x.ids|
    ensures TxnOk(spans, AfterLock(x, traces))
  {
    LockedKeys(x, traces);
    LockedRows(spans, traces, x);
  }

  lemma LockedRows(spans: Spans, traces: map<Id, Rollup>, x: Txn)
    requires Consistent(spans, traces) && x.phase.Locking? && x.locked < |x.ids| && RowsOk(spans, x)
    ensures RowsOk(spans, AfterLock(x, traces))
  {
  }

  lemma LockedKeys(x: Txn, traces: map<Id, Rollup>)
    requires x.locked < |x.ids| && x.rows.Keys == Elems(x.ids[..x.locked])
    ensures AfterLock(x, traces).rows.Keys == Elems(x.ids[..x.locked + 1])
  {
  }

  lemma ReadSpansOk(s: State, i: nat)
    requires Inv(s) && Enabled(s, ReadSpans(i))
    ensures TxnOk(s.spans, Stepped(s, ReadSpans(i)))
  {
  }

  lemma UpdatedRow(spans: Spans, x: Txn)
    requires TxnOk(spans, x) && x.phase.Updating? && x.phase.updated < |x.ids|
    ensures var t := x.ids[x.phase.updated];
            t in x.rows && AfterUpdate(x).rows.Keys == x.rows.Keys &&
                AfterUpdate(x).rows[t] == Aggregate(spans + x.own, t)
  {
  }

  /** The other rows of the transaction are untouched. */
  lemma OtherRows(spans: Spans, x: Txn, m: nat)
    requires TxnOk(spans, x) && x.phase.Updating? && x.phase.updated < |x.ids| && m < |x.ids| && m != x.phase.updated
    ensures x.ids[m] in x.rows && x.ids[m] in AfterUpdate(x).rows && AfterUpdate(x).rows[x.ids[m]] == x.rows[x.ids[m]]
  {
  }

  lemma UpdateRollupOk(spans: Spans, x: Txn)
    requires TxnOk(spans, x) && x.phase.Updating? && x.phase.updated < |x.ids|
    ensures TxnOk(spans, AfterUpdate(x))
  {
    var y := AfterUpdate(x);
    UpdatedRow(spans, x);
    forall m | 0 <= m < |x.ids| && m != x.phase.updated
      ensures x.ids[m] in y.rows && y.rows[x.ids[m]] == x.rows[x.ids[m]]
    {
      OtherRows(spans, x, m);
    }
    assert RowsOk(spans, y);
  }

  ghost predicate CanCommit(spans: Spans, x: Txn)
  {
    TxnOk(spans, x) && x.Active() && x.locked == |x.ids| &&
        (x.isWriter ==> x.phase.Updating? && x.phase.updated == |x.ids|)
  }

  /** A row the commit publishes is the aggregate of the spans it publishes. */
  lemma PublishedRow(spans: Spans, x: Txn, t: Id)
    requires CanCommit(spans, x) && t in x.rows
    ensures x.rows[t] == Aggregate(spans + x.own, t)
  {
    if x.isWriter {
      assert x.ids[..x.locked] == x.ids && t in Elems(x.ids);
      var n :| 0 <= n < |x.ids| && x.ids[n] == t;
    } else {
      assert spans + x.own == spans;
    }
  }

  /** A row it leaves alone belongs to a trace it has no spans of. */
  lemma UntouchedRow(spans: Spans, x: Txn, t: Id)
    requires CanCommit(spans, x) && t !in x.rows
    ensures Aggregate(spans + x.own, t) == Aggregate(spans, t)
  {
    assert x.ids[..x.locked] == x.ids;
    forall k | k in x.own ensures k.trace != t { assert k.trace in Elems(x.ids); }
    SameCommittedGroup(spans, x.own, t);
  }

  /** What a commit publishes keeps every committed rollup equal to the aggregate. */
  lemma CommitConsistent(s: State, i: nat)
    requires Inv(s) && Enabled(s, Commit(i))
    ensures Consistent(s.spans + s.txns[i].own, s.traces + s.txns[i].rows)
  {
    var x := s.txns[i];
    var spans, traces := s.spans + x.own, s.traces + x.rows;
    assert x.ids[..x.locked] == x.ids;
    forall t | t in traces ensures traces[t] == Aggregate(spans, t) {
      if t in x.rows { PublishedRow(s.spans, x, t); } else { UntouchedRow(s.spans, x, t); }
    }
    forall k | k in spans ensures k.trace in traces {
      if k in x.own { assert k.trace in Elems(x.ids); }
    }
  }

  lemma SteppedOk(s: State, a: Action)
    requires Inv(s) && Enabled(s, a) && !a.Begin?
    ensures TxnOk(Step(s, a).spans, Stepped(s, a))
  {
    match a
    case WriteSpan(i) => WriteSpanOk(s, i);
    case LockTrace(i) => LockTraceOk(s.spans, s.traces, s.txns[i]);
    case ReadSpans(i) => ReadSpansOk(s, i);
    case UpdateRollup(i) => UpdateRollupOk(s.spans, s.txns[i]);
    case Commit(i) =>
    case Abort(i) =>
  }

  lemma SteppedExclusive(s: State, a: Action, j: nat)
    requires Inv(s) && Enabled(s, a) && !a.Begin? && j < |s.txns| && j != a.i
    ensures Stepped(s, a).locked <= |Stepped(s, a).ids|
    ensures Exclusive(Stepped(s, a), s.txns[j]) && Exclusive(s.txns[j], Stepped(s, a))
  {
  }

  lemma BeginKeepsInv(s: State, x: Txn)
    requires Inv(s) && Fresh(x)
    ensures Inv(Step(s, Begin(x)))
  {
  }

  lemma OthersKeepTxns(s: State, a: Action, j: nat)
    requires Inv(s) && Enabled(s, a) && !a.Begin? && j < |s.txns| && j != a.i
    ensures TxnOk(Step(s, a).spans, s.txns[j])
  {
    if a.Commit? {
      CommitterHoldsItsTraces(s, a.i, j);
      OthersOk(s.spans, s.txns[a.i].own, s.txns[j]);
    } else {
      assert Step(s, a).spans == s.spans;
    }
  }

  lemma StepKeepsTxns(s: State, a: Action, j: nat)
    requires Inv(s) && Enabled(s, a) && !a.Begin? && j < |s.txns|
    ensures TxnOk(Step(s, a).spans, Step(s, a).txns[j])
  {
    if j == a.i { SteppedOk(s, a); } else { OthersKeepTxns(s, a, j); }
  }

  lemma StepKeepsExclusive(s: State, a: Action, j: nat, k: nat)
    requires Inv(s) && Enabled(s, a) && !a.Begin? && j < k < |s.txns|
    requires LocksInRange(Step(s, a))
    ensures Exclusive(Step(s, a).txns[j], Step(s, a).txns[k])
  {
    if j == a.i {
      SteppedExclusive(s, a, k);
    } else if k == a.i {
      SteppedExclusive(s, a, j);
    } else {
      assert Exclusive(s.txns[j], s.txns[k]);
    }
  }

  lemma StepKeepsInv(s: State, a: Action)
    requires Inv(s) && Enabled(s, a)
    ensures Inv(Step(s, a))
  {
    var next := Step(s, a);
    if a.Begin? {
      BeginKeepsInv(s, a.txn);
    } else {
      if a.Commit? { CommitConsistent(s, a.i); }
      forall j | 0 <= j < |s.txns| ensures TxnOk(next.spans, next.txns[j]) { StepKeepsTxns(s, a, j); }
      forall j, k | 0 <= j < k < |s.txns| ensures Exclusive(next.txns[j], next.txns[k]) {
        StepKeepsExclusive(s, a, j, k);
      }
    }
  }

  lemma CommitterHoldsItsTraces(s: State, i: nat, j: nat)
    requires Inv(s) && Enabled(s, Commit(i)) && j < |s.txns| && j != i
    ensures s.txns[j].Active() ==> forall k :: k in s.txns[i].own ==> k.trace !in s.txns[j].ids[..s.txns[j].locked]
  {
    var x, y := s.txns[i], s.txns[j];
    assert x.ids[..x.locked] == x.ids;
    assert Exclusive(x, y) || Exclusive(y, x);
    forall k | k in x.own ensures y.Active() ==> k.trace !in y.ids[..y.locked] {
      assert x.HoldsTrace(k.trace);
    }
  }

  // -------------------------------------------------------------------- runs

  /** A run: any number of transactions, their statements interleaved in any way, any of them aborted. */
  ghost predicate IsRun(states: seq<State>, actions: seq<Action>)
  {
    && |states| == |actions| + 1
    && states[0].txns == [] && Consistent(states[0].spans, states[0].traces)
    && forall n :: 0 <= n < |actions| ==>
         LocksInRange(states[n]) && Enabled(states[n], actions[n]) && states[n + 1] == Step(states[n], actions[n])
  }

  lemma {:induction false} RunKeepsInv(states: seq<State>, actions: seq<Action>, n: nat)
    requires IsRun(states, actions) && n < |states|
    ensures Inv(states[n])
  {
    if n > 0 {
      RunKeepsInv(states, actions, n - 1);
      StepKeepsInv(states[n - 1], actions[n - 1]);
    }
  }

  /** In every reachable state every committed trace row carries exactly the aggregate of the committed
      spans of its trace, and no committed span is without a row. */
  lemma RollupsAlwaysExact(states: seq<State>, actions: seq<Action>, n: nat)
    requires IsRun(states, actions) && n < |states|
    ensures forall t :: t in states[n].traces ==> states[n].traces[t] == Aggregate(states[n].spans, t)
    ensures forall k :: k in states[n].spans ==> k.trace in states[n].traces
  {
    RunKeepsInv(states, actions, n);
  }

  // ------------------------------------------------------------ no deadlock

  /** Both workers ask for their trace rows in ascending key order. */
  predicate Ordered(x: Txn)
  {
    Ascending(x.ids)
  }

  /** Transaction i waits for a trace row that j holds. */
  ghost predicate WaitsFor(s: State, i: nat, j: nat)
    requires LocksInRange(s)
  {
    i < |s.txns| && j < |s.txns| && i != j && exists t :: s.txns[i].Wants(t) && s.txns[j].HoldsTrace(t)
  }

  ghost predicate IsWaitCycle(s: State, cycle: seq<nat>)
    requires LocksInRange(s)
  {
    && cycle != []
    && (forall n :: 0 <= n < |cycle| - 1 ==> WaitsFor(s, cycle[n], cycle[n + 1]))
    && WaitsFor(s, cycle[|cycle| - 1], cycle[0])
  }

  /** The place in key order of the row a waiting transaction wants. */
  function WantedKey(x: Txn): int
  {
    if x.phase.Locking? && x.locked < |x.ids| then x.ids[x.locked].order else 0
  }

  /** Along a wait the wanted key grows: who holds t and waits, waits for a larger one. */
  lemma WaitsAscend(s: State, i: nat, j: nat, k: nat)
    requires LocksInRange(s) && WaitsFor(s, i, j) && WaitsFor(s, j, k) && Ordered(s.txns[j])
    ensures WantedKey(s.txns[i]) < WantedKey(s.txns[j])
  {
  }

  lemma {:induction false} ChainAscends(s: State, cycle: seq<nat>, n: nat)
    requires LocksInRange(s) && IsWaitCycle(s, cycle) && n < |cycle|
    requires forall i :: 0 <= i < |s.txns| ==> Ordered(s.txns[i])
    ensures cycle[0] < |s.txns| && cycle[n] < |s.txns|
    ensures WantedKey(s.txns[cycle[0]]) + n <= WantedKey(s.txns[cycle[n]])
  {
    var next := if n + 1 < |cycle| then cycle[n + 1] else cycle[0];
    assert WaitsFor(s, cycle[n], next);
    if n > 0 {
      ChainAscends(s, cycle, n - 1);
      assert WaitsFor(s, cycle[n - 1], cycle[n]);
      WaitsAscend(s, cycle[n - 1], cycle[n], next);
    }
  }

  /** With ascending requests no set of transactions can wait for one another in a circle. */
  lemma NoWaitCycle(s: State, cycle: seq<nat>)
    requires LocksInRange(s) && forall i :: 0 <= i < |s.txns| ==> Ordered(s.txns[i])
    ensures !IsWaitCycle(s, cycle)
  {
    if IsWaitCycle(s, cycle) {
      var last := |cycle| - 1;
      ChainAscends(s, cycle, last);
      var next := if last > 0 then cycle[1] else cycle[0];
      assert WaitsFor(s, cycle[last], cycle[0]) && WaitsFor(s, cycle[0], next);
      WaitsAscend(s, cycle[last], cycle[0], next);
    }
  }

  /** Steps a transaction still has to take before it is finished. */
  function Remaining(x: Txn): nat
    requires x.locked <= |x.ids|
  {
    match x.phase
    case Spanning(done) => (if done <= |x.writes| then |x.writes| - done else 0) + |x.ids| + 3 + |x.ids|
    case Locking => (|x.ids| - x.locked) + 2 + |x.ids|
    case Updating(_, updated) => 1 + (if updated <= |x.ids| then |x.ids| - updated else 0)
    case Finished => 0
  }

  function TotalRemaining(txns: seq<Txn>): nat
    requires forall x :: x in txns ==> x.locked <= |x.ids|
  {
    if txns == [] then 0 else TotalRemaining(txns[..|txns| - 1]) + Remaining(txns[|txns| - 1])
  }

  lemma {:induction false} TotalDrops(txns: seq<Txn>, i: nat, x: Txn)
    requires i < |txns| && x.locked <= |x.ids| && forall y :: y in txns ==> y.locked <= |y.ids|
    requires forall y :: y in txns[i := x] ==> y.locked <= |y.ids|
    ensures TotalRemaining(txns[i := x]) == TotalRemaining(txns) - Remaining(txns[i]) + Remaining(x)
  {
    var last := |txns| - 1;
    if i == last {
      assert txns[i := x][..last] == txns[..last];
    } else {
      assert txns[i := x][..last] == txns[..last][i := x];
      TotalDrops(txns[..last], i, x);
    }
  }

  ghost predicate AllInRange(txns: seq<Txn>)
  {
    forall x :: x in txns ==> x.locked <= |x.ids|
  }

  /** Every step but a new arrival uses up work, so the transactions present cannot run for ever. */
  lemma StepUsesUpWork(s: State, a: Action)
    requires Inv(s) && Enabled(s, a) && !a.Begin?
    ensures AllInRange(s.txns) && AllInRange(Step(s, a).txns)
    ensures TotalRemaining(Step(s, a).txns) < TotalRemaining(s.txns)
  {
    var y := Stepped(s, a);
    StepKeepsInv(s, a);
    RangeOfMembers(s);
    RangeOfMembers(Step(s, a));
    assert Remaining(y) < Remaining(s.txns[a.i]);
    TotalDrops(s.txns, a.i, y);
  }

  lemma RangeOfMembers(s: State)
    requires LocksInRange(s)
    ensures AllInRange(s.txns)
  {
  }

  predicate WaitsForTrace(x: Txn)
  {
    x.phase.Locking? && x.locked < |x.ids|
  }

  /** Of the transactions that still want a trace row, one that wants the largest key. */
  lemma {:induction false} LargestWanted(txns: seq<Txn>) returns (i: nat)
    requires exists j :: 0 <= j < |txns| && WaitsForTrace(txns[j])
    ensures i < |txns| && WaitsForTrace(txns[i])
    ensures forall j :: 0 <= j < |txns| && WaitsForTrace(txns[j]) ==> WantedKey(txns[j]) <= WantedKey(txns[i])
  {
    var front, last := txns[..|txns| - 1], |txns| - 1;
    if exists j :: 0 <= j < |front| && WaitsForTrace(front[j]) {
      i := LargestWanted(front);
      assert forall j :: 0 <= j < |front| ==> txns[j] == front[j];
      if WaitsForTrace(txns[last]) && WantedKey(txns[i]) < WantedKey(txns[last]) { i := last; }
    } else {
      i := last;
      assert forall j :: 0 <= j < |front| ==> txns[j] == front[j];
    }
  }

  /** The wanted row of the largest key is free: whoever holds it waits for no trace row, or for a smaller one. */
  lemma LargestIsFree(s: State, i: nat)
    requires Inv(s) && (forall j :: 0 <= j < |s.txns| ==> Ordered(s.txns[j])) && i < |s.txns| &&
        WaitsForTrace(s.txns[i])
    requires forall j :: 0 <= j < |s.txns| && s.txns[j].Active() && !s.txns[j].phase.Spanning? ==>
        WaitsForTrace(s.txns[j])
    requires forall j :: 0 <= j < |s.txns| && WaitsForTrace(s.txns[j]) ==> WantedKey(s.txns[j]) <= WantedKey(s.txns[i])
    ensures Enabled(s, LockTrace(i))
  {
    var t := s.txns[i].ids[s.txns[i].locked];
    forall j | 0 <= j < |s.txns| && j != i ensures !s.txns[j].HoldsTrace(t) {
      assert TxnOk(s.spans, s.txns[j]);
      if s.txns[j].HoldsTrace(t) { HeldBelowWanted(s.txns[j], t); }
    }
  }

  /** The transaction is not blocked on a span row. */
  ghost predicate Unblocked(s: State, i: nat)
    requires LocksInRange(s) && i < |s.txns|
  {
    s.txns[i].Active() && (s.txns[i].phase.Spanning? ==> Enabled(s, WriteSpan(i)))
  }

  /** Some unfinished transaction can take its next step exactly when not all of them are blocked on span
      rows: trace rows never block everybody. */
  lemma SomebodyCanStep(s: State)
    requires Inv(s) && forall i :: 0 <= i < |s.txns| ==> Ordered(s.txns[i])
    ensures (exists a :: Enabled(s, a) && !a.Begin? && !a.Abort?) <==> exists i :: 0 <= i < |s.txns| && Unblocked(s, i)
  {
    if a :| Enabled(s, a) && !a.Begin? && !a.Abort? {
      assert Unblocked(s, a.i);
    }
    if i :| 0 <= i < |s.txns| && Unblocked(s, i) {
      if s.txns[i].phase.Spanning? {
        assert Enabled(s, WriteSpan(i));
      } else {
        var a := StepBeyondSpans(s, i);
      }
    }
  }

  lemma StepBeyondSpans(s: State, i: nat) returns (a: Action)
    requires Inv(s) && (forall j :: 0 <= j < |s.txns| ==> Ordered(s.txns[j]))
    requires i < |s.txns| && s.txns[i].Active() && !s.txns[i].phase.Spanning?
    ensures Enabled(s, a) && !a.Begin? && !a.Abort?
  {
    if j :| 0 <= j < |s.txns| && s.txns[j].Active() && !s.txns[j].phase.Spanning? && !WaitsForTrace(s.txns[j]) {
      var x := s.txns[j];
      assert TxnOk(s.spans, x);
      a := if x.phase.Updating? then (if x.phase.updated < |x.ids| then UpdateRollup(j) else Commit(j))
           else if x.isWriter then ReadSpans(j) else Commit(j);
    } else {
      var j := LargestWanted(s.txns);
      LargestIsFree(s, j);
      a := LockTrace(j);
    }
  }

  lemma HeldBelowWanted(x: Txn, t: Id)
    requires Ordered(x) && x.locked < |x.ids| && x.HoldsTrace(t)
    ensures t.order < x.ids[x.locked].order
  {
  }

  /** Locking in arrival order instead does deadlock: two batches over the same two traces. */
  lemma ArrivalOrderDeadlocks(a: Id, b: Id, s: State)
    requires a != b && s.txns == []
    ensures var x, y := Txn(false, [], [a, b], Locking, 0, map[], map[]),
        Txn(false, [], [b, a], Locking, 0, map[], map[]);
            var s1 := s.(txns := [x, y]);
            LocksInRange(s1) && Enabled(s1, LockTrace(0)) &&
            var s2 := Step(s1, LockTrace(0));
            LocksInRange(s2) && Enabled(s2, LockTrace(1)) &&
            var s3 := Step(s2, LockTrace(1));
            LocksInRange(s3) && IsWaitCycle(s3, [0, 1])
  {
    var x, y := Txn(false, [], [a, b], Locking, 0, map[], map[]), Txn(false, [], [b, a], Locking, 0, map[], map[]);
    var s1 := s.(txns := [x, y]);
    var s2 := Step(s1, LockTrace(0));
    assert Enabled(s2, LockTrace(1));
    var s3 := Step(s2, LockTrace(1));
    assert s3.txns[0].Wants(b) && s3.txns[1].ids[..1] == [b];
    assert s3.txns[1].Wants(a) && s3.txns[0].ids[..1] == [a];
    assert WaitsFor(s3, 0, 1) && WaitsFor(s3, 1, 0);
  }
}
