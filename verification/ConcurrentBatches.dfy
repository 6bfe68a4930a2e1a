/** A batch of events as one transaction: what its statements do when nothing comes in between, and which
    batches can block one another.  */
module ConcurrentBatches {
  import opened Ids
  import opened Events
  import opened Rollups
  import opened ConcurrentWriters
  import opened SpanDeadlocks
  import Store

  // ----------------------------------------------------- the transaction of a batch

  predicate KeysAscend(s: seq<SpanKey>)
  {
    forall i, j :: 0 <= i < j < |s| ==> KeyBefore(s[i], s[j])
  }

  ghost predicate ListsKeys(r: seq<SpanKey>, s: set<SpanKey>)
  {
    KeysAscend(r) && Elems(r) == s
  }

  lemma {:induction false} LeastKey(s: set<SpanKey>) returns (m: SpanKey)
    requires s != {}
    ensures m in s && forall k :: k in s && k != m ==> KeyBefore(m, k)
  {
    m :| m in s;
    if s != {m} {
      var first := m;
      var rest := LeastKey(s - {first});
      if !KeyBefore(first, rest) { m := rest; }
      forall k | k in s && k != m ensures KeyBefore(m, k) {
        if k != first { assert k in s - {first}; }
      }
    }
  }

  lemma {:induction false} SortedKeysExist(s: set<SpanKey>) returns (r: seq<SpanKey>)
    ensures ListsKeys(r, s)
  {
    if s == {} {
      r := [];
    } else {
      var m := LeastKey(s);
      var rest := SortedKeysExist(s - {m});
      r := [m] + rest;
      forall i | 0 <= i < |rest| ensures KeyBefore(m, rest[i]) { assert rest[i] in Elems(rest); }
      assert forall k :: k in r <==> k == m || k in Elems(rest);
    }
  }

  /** `sorted(keys)`. */
  ghost function SortedKeys(s: set<SpanKey>): (r: seq<SpanKey>)
    ensures ListsKeys(r, s)
  {
    assert exists r :: ListsKeys(r, s) by { var r := SortedKeysExist(s); }
    var r :| ListsKeys(r, s);
    r
  }

  function Inserts(rows: Spans, keys: seq<SpanKey>): seq<SpanWrite>
    requires Elems(keys) <= rows.Keys
  {
    seq(|keys|, i requires 0 <= i < |keys| => assert keys[i] in Elems(keys); InsertIgnored(keys[i], rows[keys[i]]))
  }

  function Upserts(rows: Spans, keys: seq<SpanKey>): seq<SpanWrite>
    requires Elems(keys) <= rows.Keys
  {
    seq(|keys|, i requires 0 <= i < |keys| => assert keys[i] in Elems(keys); Upserted(keys[i], rows[keys[i]]))
  }

  /** The two span statements of a batch: its starts in key order, then its ends in key order. */
  ghost function WritesOf(cfg: Settings, events: seq<Event>): seq<SpanWrite>
  {
    var starts, ends := Store.Starts(cfg, events), Store.Ends(cfg, events);
    Inserts(starts, SortedKeys(starts.Keys)) + Upserts(ends, SortedKeys(ends.Keys))
  }

  /** The transaction `process` opens for a batch. */
  ghost function TxnOf(cfg: Settings, events: seq<Event>): Txn
  {
    var writes := WritesOf(cfg, events);
    Txn(true, writes, Sorted(Store.TraceIds(events)), if writes == [] then Locking else Spanning(0), 0, map[], map[])
  }

  lemma RowsAreReported(cfg: Settings, events: seq<Event>, t: EventType, k: SpanKey)
    requires k in Store.LastRows(cfg, events, t)
    ensures k.trace in Store.TraceIds(events)
  {
    Store.LastRowsShow(cfg, events, t, k);
  }

  lemma TxnOfIsFresh(cfg: Settings, events: seq<Event>)
    ensures Fresh(TxnOf(cfg, events)) && Ordered(TxnOf(cfg, events))
  {
    var x := TxnOf(cfg, events);
    var ids := Store.TraceIds(events);
    forall n | 0 <= n < |x.writes| ensures x.writes[n].key.trace in x.ids {
      WriteIsReported(cfg, events, n);
      assert x.writes[n].key.trace in Elems(x.ids);
    }
  }

  lemma WriteIsReported(cfg: Settings, events: seq<Event>, n: nat)
    requires n < |WritesOf(cfg, events)|
    ensures WritesOf(cfg, events)[n].key.trace in Store.TraceIds(events)
  {
    var starts, ends := Store.Starts(cfg, events), Store.Ends(cfg, events);
    var s, e := SortedKeys(starts.Keys), SortedKeys(ends.Keys);
    if n < |s| {
      assert s[n] in Elems(s);
      RowsAreReported(cfg, events, SpanStart, s[n]);
    } else {
      assert e[n - |s|] in Elems(e);
      RowsAreReported(cfg, events, SpanEnd, e[n - |s|]);
    }
  }

  // --------------------------------------------------------- its statements in sequence

  /** The spans table after some single-row statements. */
  function Effect(spans: Spans, writes: seq<SpanWrite>): Spans
  {
    if writes == [] then spans
    else
      var front, w := Effect(spans, writes[..|writes| - 1]), writes[|writes| - 1];
      if w.key !in front then front[w.key := w.row]
      else if w.InsertIgnored? then front
      else front[w.key := w.row.(tenant := front[w.key].tenant)]
  }

  lemma {:induction false} EffectConcat(spans: Spans, a: seq<SpanWrite>, b: seq<SpanWrite>)
    ensures Effect(spans, a + b) == Effect(Effect(spans, a), b)
  {
    if b == [] {
      assert a + b == a;
    } else {
      assert (a + b)[..|a + b| - 1] == a + b[..|b| - 1];
      EffectConcat(spans, a, b[..|b| - 1]);
    }
  }

  lemma {:induction false} EffectOfInserts(spans: Spans, rows: Spans, keys: seq<SpanKey>, k: SpanKey)
    requires Elems(keys) <= rows.Keys
    ensures var r := Effect(spans, Inserts(rows, keys));
            (k in r <==> k in spans || k in keys) && (k in r ==> r[k] == if k in spans then spans[k] else rows[k])
  {
    if keys != [] {
      var front, last := keys[..|keys| - 1], keys[|keys| - 1];
      assert keys == front + [last] && Elems(front) <= Elems(keys);
      EffectOfInserts(spans, rows, front, k);
      EffectOfInserts(spans, rows, front, last);
      assert Inserts(rows, keys)[..|keys| - 1] == Inserts(rows, front);
    }
  }

  lemma {:induction false} EffectOfUpserts(spans: Spans, rows: Spans, keys: seq<SpanKey>, k: SpanKey)
    requires Elems(keys) <= rows.Keys
    ensures var r := Effect(spans, Upserts(rows, keys));
            && (k in r <==> k in spans || k in keys)
            && (k in r ==> r[k] == if k !in keys then spans[k]
                else if k in spans then rows[k].(tenant := spans[k].tenant) else rows[k])
  {
    if keys != [] {
      var front, last := keys[..|keys| - 1], keys[|keys| - 1];
      assert keys == front + [last] && Elems(front) <= Elems(keys);
      EffectOfUpserts(spans, rows, front, k);
      EffectOfUpserts(spans, rows, front, last);
      assert Upserts(rows, keys)[..|keys| - 1] == Upserts(rows, front);
    }
  }

  lemma InsertsAreOneStatement(spans: Spans, rows: Spans, keys: seq<SpanKey>)
    requires Elems(keys) == rows.Keys
    ensures Effect(spans, Inserts(rows, keys)) == Store.InsertIgnore(spans, rows)
  {
    var r := Effect(spans, Inserts(rows, keys));
    forall k ensures k in r <==> k in spans || k in rows {
      EffectOfInserts(spans, rows, keys, k);
      assert k in keys <==> k in Elems(keys);
    }
    forall k | k in r ensures r[k] == Store.InsertIgnore(spans, rows)[k] { EffectOfInserts(spans, rows, keys, k); }
  }

  lemma UpsertsAreOneStatement(spans: Spans, rows: Spans, keys: seq<SpanKey>)
    requires Elems(keys) == rows.Keys
    ensures Effect(spans, Upserts(rows, keys)) == Store.UpsertSpans(spans, rows)
  {
    var r := Effect(spans, Upserts(rows, keys));
    forall k ensures k in r <==> k in spans || k in rows {
      EffectOfUpserts(spans, rows, keys, k);
      assert k in keys <==> k in Elems(keys);
    }
    forall k | k in r ensures r[k] == Store.UpsertSpans(spans, rows)[k] {
      EffectOfUpserts(spans, rows, keys, k);
      assert k in keys <==> k in Elems(keys);
    }
  }

  /** Row by row or as two statements on whole tables: the same. */
  lemma EffectOfBatch(cfg: Settings, spans: Spans, events: seq<Event>)
    ensures Effect(spans, WritesOf(cfg, events)) == Store.WriteSpans(cfg, spans, events)
  {
    var starts, ends := Store.Starts(cfg, events), Store.Ends(cfg, events);
    var s, e := SortedKeys(starts.Keys), SortedKeys(ends.Keys);
    EffectConcat(spans, Inserts(starts, s), Upserts(ends, e));
    InsertsAreOneStatement(spans, starts, s);
    UpsertsAreOneStatement(Store.InsertIgnore(spans, starts), ends, e);
  }

  // ------------------------------------------------------------- the transaction alone

  /** While nobody has finished, the committed tables are those of the beginning and everybody sees the
      effect of its own writes on them. */
  ghost predicate SeesItsWrites(start: State, s: State)
  {
    AllActive(s) ==>
      && s.spans == start.spans && s.traces == start.traces
      && forall j :: 0 <= j < |s.txns| ==> Sees(start.spans, s.txns[j])
  }

  ghost predicate Sees(spans: Spans, x: Txn)
  {
    Done(x) <= |x.writes| && spans + x.own == Effect(spans, x.writes[..Done(x)])
  }

  lemma WriteSees(s: State, i: nat)
    requires LocksInRange(s) && Enabled(s, WriteSpan(i)) && Sees(s.spans, s.txns[i])
    ensures Sees(s.spans, Stepped(s, WriteSpan(i)))
  {
    var x, y := s.txns[i], Stepped(s, WriteSpan(i));
    var w := x.writes[x.phase.done];
    assert Done(y) == Done(x) + 1 && y.writes == x.writes;
    assert y.writes[..Done(y)][..Done(x)] == x.writes[..Done(x)];
    var view := View(s, x);
    if w.key !in view {
      assert s.spans + y.own == view[w.key := w.row];
    } else if w.InsertIgnored? {
      assert s.spans + y.own == view;
    } else {
      assert s.spans + y.own == view[w.key := w.row.(tenant := view[w.key].tenant)];
    }
  }

  lemma StepSees(start: State, s: State, a: Action)
    requires LocksInRange(s) && Enabled(s, a) && SeesItsWrites(start, s)
    ensures SeesItsWrites(start, Step(s, a))
  {
    var next := Step(s, a);
    if AllActive(next) {
      if a.Begin? {
        assert forall j :: 0 <= j < |s.txns| ==> next.txns[j] == s.txns[j];
        assert next.txns[|s.txns|] == a.txn && start.spans + map[] == start.spans;
        forall j | 0 <= j < |s.txns| ensures s.txns[j].Active() { assert next.txns[j].Active(); }
      } else {
        assert forall j :: 0 <= j < |s.txns| && j != a.i ==> next.txns[j] == s.txns[j];
        assert next.txns[a.i] == Stepped(s, a);
        forall j | 0 <= j < |s.txns| ensures s.txns[j].Active() { assert j != a.i ==> next.txns[j].Active(); }
        if a.WriteSpan? { WriteSees(s, a.i); }
      }
    }
  }

  lemma {:induction false} RunSees(states: seq<State>, actions: seq<Action>, n: nat)
    requires IsRun(states, actions) && n < |states|
    ensures SeesItsWrites(states[0], states[n])
  {
    if n > 0 {
      RunSees(states, actions, n - 1);
      StepSees(states[0], states[n - 1], actions[n - 1]);
    }
  }

  function RollupsOf(db: Store.Db): map<Id, Rollup>
  {
    map t | t in db.traces :: db.traces[t].rollup
  }

  /** A run on the tables of db in which no transaction but the batch's begins, and which ends with its commit. */
  ghost predicate CommitsAlone(cfg: Settings, db: Store.Db, events: seq<Event>, states: seq<State>,
                               actions: seq<Action>)
  {
    && IsRun(states, actions) && states[0] == State(db.spans, RollupsOf(db), [])
    && Begun(actions) == [TxnOf(cfg, events)] && actions != [] && actions[|actions| - 1].Commit?
  }

  lemma AloneWhenCommitting(cfg: Settings, db: Store.Db, events: seq<Event>, states: seq<State>, actions: seq<Action>)
    requires CommitsAlone(cfg, db, events, states, actions)
    ensures var s := states[|actions| - 1];
            && |s.txns| == 1 && SameBatch(s.txns[0], TxnOf(cfg, events)) && Inv(s) && Enabled(s, Commit(0))
            && actions[|actions| - 1] == Commit(0) && s.spans == db.spans && s.traces == RollupsOf(db)
            && db.spans + s.txns[0].own == Effect(db.spans, s.txns[0].writes)
  {
    var n := |actions| - 1;
    var s := states[n];
    RunKeepsInv(states, actions, n);
    RunTracks(states, actions, n);
    RunSees(states, actions, n);
    assert Enabled(s, actions[n]) && Begun(actions) == Begun(actions[..n]) + [];
    assert SameBatch(s.txns[0], [TxnOf(cfg, events)][0]);
    assert AllActive(s) && Sees(db.spans, s.txns[0]);
    assert s.txns[0].writes[..|s.txns[0].writes|] == s.txns[0].writes;
  }

  /** A transaction that runs alone leaves exactly the spans and the rollups of the atomic one. */
  lemma AloneIsAtomic(cfg: Settings, db: Store.Db, events: seq<Event>, states: seq<State>, actions: seq<Action>)
    requires CommitsAlone(cfg, db, events, states, actions)
    ensures states[|actions|].spans == Store.StorageTxn(cfg, db, events).spans
    ensures states[|actions|].traces == RollupsOf(Store.StorageTxn(cfg, db, events))
  {
    var s := states[|actions| - 1];
    AloneWhenCommitting(cfg, db, events, states, actions);
    assert states[|actions|] == Step(s, Commit(0));
    EffectOfBatch(cfg, db.spans, events);
    CommittedTables(s);
    SameRollups(cfg, db, events, states[|actions|].spans, states[|actions|].traces);
  }

  lemma CommittedTables(s: State)
    requires Inv(s) && Enabled(s, Commit(0))
    ensures var next := Step(s, Commit(0));
            && next.spans == s.spans + s.txns[0].own && next.traces.Keys == s.traces.Keys + Elems(s.txns[0].ids)
            && Consistent(next.spans, next.traces)
  {
    CommitConsistent(s, 0);
    var x := s.txns[0];
    assert TxnOk(s.spans, x);
    assert x.ids[..x.locked] == x.ids;
  }

  lemma SameRollups(cfg: Settings, db: Store.Db, events: seq<Event>, spans: Spans, traces: map<Id, Rollup>)
    requires Consistent(db.spans, RollupsOf(db)) && Consistent(spans, traces)
    requires spans == Store.StorageTxn(cfg, db, events).spans && traces.Keys == db.traces.Keys + Store.TraceIds(events)
    ensures traces == RollupsOf(Store.StorageTxn(cfg, db, events))
  {
    var after := Store.StorageTxn(cfg, db, events);
    forall t | t in traces ensures t in after.traces && traces[t] == after.traces[t].rollup {
      Store.OneRowView(cfg, db, events, t);
      assert t in db.traces ==> RollupsOf(db)[t] == Aggregate(db.spans, t);
      NoRowNoSpans(db, t);
      Store.StorageRollup(cfg, db, events, t);
      assert Store.RollupView(after, t) == Aggregate(after.spans, t);
    }
    forall t | t in after.traces ensures t in traces { Store.OneRowView(cfg, db, events, t); }
  }

  lemma NoRowNoSpans(db: Store.Db, t: Id)
    requires Consistent(db.spans, RollupsOf(db))
    ensures Store.RollupView(db, t) == Aggregate(db.spans, t)
  {
    if t in db.traces {
      assert RollupsOf(db)[t] == Aggregate(db.spans, t);
    } else {
      forall k | k in db.spans ensures k.trace != t { assert k.trace in RollupsOf(db); }
      assert OfTrace(db.spans, t).Keys == {};
    }
  }

  // --------------------------------------------------------------- and it can commit

  lemma OneCanStep(s: State) returns (a: Action)
    requires Inv(s) && |s.txns| == 1 && Ordered(s.txns[0]) && s.txns[0].Active()
    ensures Enabled(s, a) && !a.Begin? && !a.Abort? && a.i == 0
  {
    assert TxnOk(s.spans, s.txns[0]);
    if s.txns[0].phase.Spanning? {
      a := WriteSpan(0);
    } else {
      a := StepBeyondSpans(s, 0);
    }
  }

  lemma {:induction false} RunOn(states: seq<State>, actions: seq<Action>, x: Txn)
    returns (longer: seq<State>, more: seq<Action>)
    requires IsRun(states, actions) && Begun(actions) == [x] && Ordered(x)
    requires |states[|actions|].txns| == 1 && SameBatch(states[|actions|].txns[0], x) &&
        states[|actions|].txns[0].Active()
    ensures IsRun(longer, more) && longer[0] == states[0] && Begun(more) == [x] && more != [] &&
        more[|more| - 1].Commit?
    decreases (RunKeepsInv(states, actions, |actions|); Remaining(states[|actions|].txns[0]))
  {
    var s := states[|actions|];
    RunKeepsInv(states, actions, |actions|);
    var a := OneCanStep(s);
    longer, more := Extend(states, actions, a);
    if !a.Commit? {
      RunKeepsInv(longer, more, |more|);
      assert Remaining(Stepped(s, a)) < Remaining(s.txns[0]);
      longer, more := RunOn(longer, more, x);
    }
  }

  lemma CanCommitAlone(cfg: Settings, db: Store.Db, events: seq<Event>)
    returns (states: seq<State>, actions: seq<Action>)
    requires Consistent(db.spans, RollupsOf(db))
    ensures CommitsAlone(cfg, db, events, states, actions)
  {
    var s, x := State(db.spans, RollupsOf(db), []), TxnOf(cfg, events);
    TxnOfIsFresh(cfg, events);
    states, actions := Extend([s], [], Begin(x));
    states, actions := RunOn(states, actions, x);
  }

  // ---------------------------------------------------------------- blocking batches

  lemma ConcatAscends(s: seq<SpanKey>, e: seq<SpanKey>)
    requires KeysAscend(s) && KeysAscend(e)
    ensures KeysAscend(s + e) <==> forall k, l :: k in s && l in e ==> KeyBefore(k, l)
  {
    var all := s + e;
    if KeysAscend(all) {
      forall k, l | k in s && l in e ensures KeyBefore(k, l) {
        var i :| 0 <= i < |s| && s[i] == k;
        var j :| 0 <= j < |e| && e[j] == l;
        assert all[i] == k && all[|s| + j] == l;
      }
    }
  }

  /** The writes of a batch ascend exactly when every span it starts comes before every span it ends. */
  lemma AscendsIff(cfg: Settings, events: seq<Event>)
    ensures WritesAscend(TxnOf(cfg, events)) <==>
            forall k, l :: k in Store.Starts(cfg, events) && l in Store.Ends(cfg, events) ==> KeyBefore(k, l)
  {
    var starts, ends := Store.Starts(cfg, events), Store.Ends(cfg, events);
    var s, e, x := SortedKeys(starts.Keys), SortedKeys(ends.Keys), TxnOf(cfg, events);
    assert |x.writes| == |s + e| && forall i :: 0 <= i < |x.writes| ==> x.writes[i].key == (s + e)[i];
    assert WritesAscend(x) <==> KeysAscend(s + e);
    ConcatAscends(s, e);
    assert forall k :: (k in starts <==> k in Elems(s)) && (k in ends <==> k in Elems(e));
  }

  lemma {:induction false} OneKey(k: SpanKey)
    ensures SortedKeys({k}) == [k]
  {
    var r := SortedKeys({k});
    assert k in Elems(r) && k in r;
    forall i | 0 <= i < |r| ensures r[i] == k { assert r[i] in Elems(r); }
    var first, last := r[0], r[|r| - 1];
    assert !KeyBefore(first, last);
  }

  lemma StartAndEnd(cfg: Settings, a: Event, b: Event)
    requires Store.IsSpanEvent(a, SpanStart) && Store.IsSpanEvent(b, SpanEnd) && Store.KeyOf(a) != Store.KeyOf(b)
    ensures WritesOf(cfg, [a, b]) ==
        [InsertIgnored(Store.KeyOf(a), Store.SpanRowOf(cfg, a)), Upserted(Store.KeyOf(b), Store.SpanRowOf(cfg, b))]
  {
    assert [a, b][..1] == [a] && [a][..0] == [];
    assert Store.LastRows(cfg, [a], SpanEnd) == map[];
    assert Store.LastRows(cfg, [a, b], SpanStart) == Store.LastRows(cfg, [a], SpanStart);
    assert Store.LastRows(cfg, [a], SpanStart) == map[Store.KeyOf(a) := Store.SpanRowOf(cfg, a)];
    assert Store.Starts(cfg, [a, b]) == map[Store.KeyOf(a) := Store.SpanRowOf(cfg, a)];
    assert Store.Ends(cfg, [a, b]) == map[Store.KeyOf(b) := Store.SpanRowOf(cfg, b)];
    assert Store.Starts(cfg, [a, b]).Keys == {Store.KeyOf(a)} && Store.Ends(cfg, [a, b]).Keys == {Store.KeyOf(b)};
    OneKey(Store.KeyOf(a));
    OneKey(Store.KeyOf(b));
  }

  lemma SecondWritesCross(spans: Spans, x: Txn, y: Txn)
    requires |x.writes| == 2 && |y.writes| == 2 && x.writes[0].key !in spans && y.writes[0].key !in spans
    requires x.writes[0].key == y.writes[1].key && y.writes[0].key == x.writes[1].key &&
        x.writes[0].key != y.writes[0].key
    ensures CrossAt(spans, x, y, 1, 1)
  {
    OneMoreLocked(spans, x, 0);
    OneMoreLocked(spans, y, 0);
    assert Locked(spans, x, 0) == {} && Locked(spans, y, 0) == {};
    assert Locked(spans, x, 1) == {x.writes[0].key} && Locked(spans, y, 1) == {y.writes[0].key};
  }

  /** Two batches of two events each can block one another: one starts the span the other ends, and the
      other way round. */
  lemma StartsAndEndsCanBlock(cfg: Settings, s: State, a: Event, b: Event, c: Event, d: Event)
    requires s.txns == [] && Consistent(s.spans, s.traces)
    requires Store.IsSpanEvent(a, SpanStart) && Store.IsSpanEvent(b, SpanEnd)
    requires Store.IsSpanEvent(c, SpanStart) && Store.IsSpanEvent(d, SpanEnd)
    requires Store.KeyOf(a) == Store.KeyOf(d) && Store.KeyOf(b) == Store.KeyOf(c) && Store.KeyOf(a) != Store.KeyOf(b)
    requires Store.KeyOf(a) !in s.spans && Store.KeyOf(b) !in s.spans
    ensures CanBlock(s, TxnOf(cfg, [a, b]), TxnOf(cfg, [c, d]))
  {
    var x, y := TxnOf(cfg, [a, b]), TxnOf(cfg, [c, d]);
    TxnOfIsFresh(cfg, [a, b]);
    TxnOfIsFresh(cfg, [c, d]);
    StartAndEnd(cfg, a, b);
    StartAndEnd(cfg, c, d);
    SecondWritesCross(s.spans, x, y);
    TwoWritersBlockIff(s, x, y);
  }
}
