/** What the spans table shows when storage-writer transactions interleave statement by statement: the
    insert-ignore and upsert rules converge without any atomicity of transactions. */
module ConcurrentSpans {
  import opened Rollups
  import opened ConcurrentWriters

  /** The row the start event of a span gives, and the one its end event gives. */
  datatype Rows = Rows(starts: SpanKey -> SpanRow, ends: SpanKey -> SpanRow)

  /** A span has one tenant. */
  ghost predicate OneTenantEach(r: Rows)
  {
    forall k :: r.starts(k).tenant == r.ends(k).tenant
  }

  function RowFor(r: Rows, k: SpanKey, ended: bool): SpanRow
  {
    if ended then r.ends(k) else r.starts(k)
  }

  /** Starts are insert-ignored and ends are upserted, each with its event's row. */
  ghost predicate Honest(r: Rows, x: Txn)
  {
    forall d :: 0 <= d < |x.writes| ==> x.writes[d].row == RowFor(r, x.writes[d].key, x.writes[d].Upserted?)
  }

  /** Among the first n span writes of x is the start (or the end) of span k. */
  ghost predicate Wrote(x: Txn, n: nat, k: SpanKey, ended: bool)
  {
    exists d :: 0 <= d < n && d < |x.writes| && x.writes[d].key == k && x.writes[d].Upserted? == ended
  }

  /** x's own view of span k: its end once it has written one; its start only if nobody committed the span. */
  ghost predicate KeyOk(r: Rows, spans: Spans, x: Txn, k: SpanKey)
  {
    var start, end := Wrote(x, Done(x), k, false), Wrote(x, Done(x), k, true);
    && (k in x.own ==> (start || end) && x.own[k] == RowFor(r, k, end) && (!end ==> k !in spans))
    && (end ==> k in x.own)
    && (start ==> k in x.own || k in spans)
  }

  ghost predicate TxnShows(r: Rows, spans: Spans, x: Txn)
  {
    x.Active() ==> Honest(r, x) && forall k :: KeyOk(r, spans, x, k)
  }

  /** A committed row is its span's start or end row. */
  ghost predicate RowsKnown(r: Rows, spans: Spans)
  {
    forall k :: k in spans ==> spans[k] == r.starts(k) || spans[k] == r.ends(k)
  }

  lemma WroteOneMore(x: Txn, y: Txn, n: nat, k: SpanKey, ended: bool)
    requires n < |x.writes| && y.writes == x.writes
    ensures Wrote(y, n + 1, k, ended) <==>
        Wrote(x, n, k, ended) || (x.writes[n].key == k && x.writes[n].Upserted? == ended)
  {
    if Wrote(x, n, k, ended) {
      var d :| 0 <= d < n && d < |x.writes| && x.writes[d].key == k && x.writes[d].Upserted? == ended;
      assert y.writes[d].key == k;
    }
    if x.writes[n].key == k && x.writes[n].Upserted? == ended { assert y.writes[n].key == k; }
  }

  lemma WriteShows(r: Rows, s: State, i: nat, k: SpanKey)
    requires OneTenantEach(r) && RowsKnown(r, s.spans)
    requires LocksInRange(s) && Enabled(s, WriteSpan(i)) && TxnShows(r, s.spans, s.txns[i])
    ensures KeyOk(r, s.spans, Stepped(s, WriteSpan(i)), k)
  {
    var x, y := s.txns[i], Stepped(s, WriteSpan(i));
    var w := x.writes[x.phase.done];
    assert KeyOk(r, s.spans, x, k) && KeyOk(r, s.spans, x, w.key);
    assert Done(y) == Done(x) + 1;
    WroteOneMore(x, y, Done(x), k, true);
    WroteOneMore(x, y, Done(x), k, false);
  }

  /** No other step of a transaction changes what it wrote. */
  lemma StepShows(r: Rows, s: State, a: Action)
    requires OneTenantEach(r) && RowsKnown(r, s.spans)
    requires LocksInRange(s) && Enabled(s, a) && !a.Begin? && TxnShows(r, s.spans, s.txns[a.i])
    ensures TxnShows(r, s.spans, Stepped(s, a))
  {
    var x, y := s.txns[a.i], Stepped(s, a);
    if y.Active() {
      forall k ensures KeyOk(r, s.spans, y, k) {
        if a.WriteSpan? {
          WriteShows(r, s, a.i, k);
        } else {
          assert KeyOk(r, s.spans, x, k);
          assert forall ended :: Wrote(y, Done(y), k, ended) <==> Wrote(x, Done(x), k, ended);
        }
      }
    }
  }

  /** A commit elsewhere publishes no span this transaction has written. */
  lemma OthersShow(r: Rows, spans: Spans, others: Spans, y: Txn)
    requires TxnShows(r, spans, y) && (y.Active() ==> forall k :: k in others ==> k !in y.own)
    ensures TxnShows(r, spans + others, y)
  {
    if y.Active() {
      forall k ensures KeyOk(r, spans + others, y, k) { assert KeyOk(r, spans, y, k); }
    }
  }

  /** Some transaction committed in the first n steps wrote the start (or the end) of span k. */
  ghost predicate Committed(states: seq<State>, actions: seq<Action>, n: nat, k: SpanKey, ended: bool)
    requires |states| > |actions| >= n
  {
    exists m :: 0 <= m < n && CommitsAt(states[m], actions[m], k, ended)
  }

  ghost predicate CommitsAt(s: State, a: Action, k: SpanKey, ended: bool)
  {
    a.Commit? && a.i < |s.txns| && Wrote(s.txns[a.i], |s.txns[a.i].writes|, k, ended)
  }

  /** The table shows exactly what was committed: the end if there is one, else the start. */
  ghost predicate Shows(r: Rows, spans: Spans, k: SpanKey, start: bool, end: bool)
  {
    (k in spans <==> start || end) && (k in spans ==> spans[k] == RowFor(r, k, end))
  }

  lemma CommittedOneMore(states: seq<State>, actions: seq<Action>, n: nat, k: SpanKey, ended: bool)
    requires |states| > |actions| > n
    ensures Committed(states, actions, n + 1, k, ended) <==>
        Committed(states, actions, n, k, ended) || CommitsAt(states[n], actions[n], k, ended)
  {
    if Committed(states, actions, n, k, ended) {
      var m :| 0 <= m < n && CommitsAt(states[m], actions[m], k, ended);
    }
  }

  lemma CommitShows(r: Rows, spans: Spans, x: Txn, k: SpanKey, start: bool, end: bool)
    requires Shows(r, spans, k, start, end) && KeyOk(r, spans, x, k) && Done(x) == |x.writes|
    ensures Shows(r, spans + x.own, k, start || Wrote(x, |x.writes|, k, false), end || Wrote(x, |x.writes|, k, true))
  {
  }

  /** Every transaction that ever begins writes the rows of its events. */
  ghost predicate HonestRun(r: Rows, states: seq<State>, actions: seq<Action>)
  {
    && IsRun(states, actions) && states[0].spans == map[] && OneTenantEach(r)
    && forall m :: 0 <= m < |actions| && actions[m].Begin? ==> Honest(r, actions[m].txn)
  }

  ghost predicate AllShow(r: Rows, states: seq<State>, actions: seq<Action>, n: nat)
    requires |states| > |actions| >= n
  {
    && (forall j :: 0 <= j < |states[n].txns| ==> TxnShows(r, states[n].spans, states[n].txns[j]))
    && (forall k :: Shows(r, states[n].spans, k, Committed(states, actions, n, k, false),
        Committed(states, actions, n, k, true)))
  }

  lemma StepTxnsShow(r: Rows, s: State, a: Action, j: nat)
    requires OneTenantEach(r) && RowsKnown(r, s.spans) && Inv(s) && Enabled(s, a)
    requires forall i :: 0 <= i < |s.txns| ==> TxnShows(r, s.spans, s.txns[i])
    requires a.Begin? ==> Honest(r, a.txn)
    requires j < |Step(s, a).txns|
    ensures TxnShows(r, Step(s, a).spans, Step(s, a).txns[j])
  {
    if a.Begin? {
      if j == |s.txns| { FreshShows(r, s.spans, a.txn); }
    } else if j == a.i {
      StepShows(r, s, a);
    } else if a.Commit? {
      assert if j < a.i then Exclusive(s.txns[j], s.txns[a.i]) else Exclusive(s.txns[a.i], s.txns[j]);
      forall k | k in s.txns[a.i].own && s.txns[j].Active() ensures k !in s.txns[j].own {
        assert s.txns[a.i].HoldsSpan(k);
        assert !s.txns[j].HoldsSpan(k);
      }
      OthersShow(r, s.spans, s.txns[a.i].own, s.txns[j]);
    }
  }

  lemma FreshShows(r: Rows, spans: Spans, x: Txn)
    requires Fresh(x) && Honest(r, x)
    ensures TxnShows(r, spans, x)
  {
    forall k ensures KeyOk(r, spans, x, k) {
      assert Done(x) == 0;
    }
  }

  lemma {:induction false} RunShows(r: Rows, states: seq<State>, actions: seq<Action>, n: nat)
    requires HonestRun(r, states, actions) && n <= |actions|
    ensures AllShow(r, states, actions, n)
  {
    if n > 0 {
      var s, a := states[n - 1], actions[n - 1];
      RunShows(r, states, actions, n - 1);
      RunKeepsInv(states, actions, n - 1);
      forall k | k in s.spans ensures s.spans[k] == r.starts(k) || s.spans[k] == r.ends(k) {
        assert Shows(r, s.spans, k, Committed(states, actions, n - 1, k, false),
            Committed(states, actions, n - 1, k, true));
      }
      forall j | 0 <= j < |states[n].txns| ensures TxnShows(r, states[n].spans, states[n].txns[j]) {
        StepTxnsShow(r, s, a, j);
      }
      forall k
        ensures Shows(r, states[n].spans, k, Committed(states, actions, n, k, false),
                      Committed(states, actions, n, k, true)) {
        OneMoreShows(r, states, actions, n - 1, k);
      }
    }
  }

  /** One more step of a run, seen from one span. */
  lemma OneMoreShows(r: Rows, states: seq<State>, actions: seq<Action>, n: nat, k: SpanKey)
    requires IsRun(states, actions) && n < |actions| && AllShow(r, states, actions, n)
    ensures Shows(r, states[n + 1].spans, k, Committed(states, actions, n + 1, k, false),
        Committed(states, actions, n + 1, k, true))
  {
    var s, a := states[n], actions[n];
    var start, end := Committed(states, actions, n, k, false), Committed(states, actions, n, k, true);
    assert Shows(r, s.spans, k, start, end) && Enabled(s, a) && states[n + 1] == Step(s, a);
    CommittedOneMore(states, actions, n, k, false);
    CommittedOneMore(states, actions, n, k, true);
    if a.Commit? {
      assert TxnShows(r, s.spans, s.txns[a.i]);
      assert KeyOk(r, s.spans, s.txns[a.i], k);
      CommitShows(r, s.spans, s.txns[a.i], k, start, end);
    }
  }

  /** In every reachable state, whatever the interleaving, aborts and repetitions: the table holds a span
      exactly when a committed transaction carried one of its events, and shows its end row if one carried
      the end. */
  lemma SpansShowCommittedEvents(r: Rows, states: seq<State>, actions: seq<Action>, n: nat, k: SpanKey)
    requires HonestRun(r, states, actions) && n <= |actions|
    ensures k in states[n].spans <==> Committed(states, actions, n, k, false) || Committed(states, actions, n, k, true)
    ensures k in states[n].spans ==> states[n].spans[k] == RowFor(r, k, Committed(states, actions, n, k, true))
  {
    RunShows(r, states, actions, n);
    assert Shows(r, states[n].spans, k, Committed(states, actions, n, k, false),
        Committed(states, actions, n, k, true));
  }

  /** Two interleavings that committed the same events have the same spans and, on every trace both have a
      row for, the same rollups. */
  lemma InterleavingsConverge(r: Rows, states: seq<State>, actions: seq<Action>, n: nat,
                              others: seq<State>, moves: seq<Action>, m: nat)
    requires HonestRun(r, states, actions) && n <= |actions| && HonestRun(r, others, moves) && m <= |moves|
    requires forall k, ended :: Committed(states, actions, n, k, ended) <==> Committed(others, moves, m, k, ended)
    ensures states[n].spans == others[m].spans
    ensures forall t :: t in states[n].traces && t in others[m].traces ==> states[n].traces[t] == others[m].traces[t]
  {
    SameSpans(r, states, actions, n, others, moves, m);
    RollupsAlwaysExact(states, actions, n);
    RollupsAlwaysExact(others, moves, m);
  }

  lemma SameSpans(r: Rows, states: seq<State>, actions: seq<Action>, n: nat, others: seq<State>, moves: seq<Action>,
                  m: nat)
    requires HonestRun(r, states, actions) && n <= |actions| && HonestRun(r, others, moves) && m <= |moves|
    requires forall k, ended :: Committed(states, actions, n, k, ended) <==> Committed(others, moves, m, k, ended)
    ensures states[n].spans == others[m].spans
  {
    forall k
      ensures k in states[n].spans <==> k in others[m].spans
      ensures k in states[n].spans ==> states[n].spans[k] == others[m].spans[k]
    {
      SpansShowCommittedEvents(r, states, actions, n, k);
      SpansShowCommittedEvents(r, others, moves, m, k);
    }
  }
}
