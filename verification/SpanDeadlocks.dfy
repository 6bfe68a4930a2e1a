/** Deadlocks on span rows.  Trace rows are locked in one global order, span rows are not: the starts of a
    batch and its ends are two statements, each sorted on its own.  When can writers block one another?  */
module SpanDeadlocks {
  import opened Rollups
  import opened ConcurrentWriters

  /** Somebody is unfinished and nobody can take a step; only a new arrival or an abort can happen. */
  ghost predicate Stuck(s: State)
    requires LocksInRange(s)
  {
    && (exists i :: 0 <= i < |s.txns| && s.txns[i].Active())
    && forall a :: Enabled(s, a) ==> a.Begin? || a.Abort?
  }

  // ------------------------------------------------ ascending writes never block

  /** The key order (trace, span). */
  predicate KeyBefore(a: SpanKey, b: SpanKey)
  {
    a.trace.order < b.trace.order || (a.trace == b.trace && a.span.order < b.span.order)
  }

  predicate WritesAscend(x: Txn)
  {
    forall m, n :: 0 <= m < n < |x.writes| ==> KeyBefore(x.writes[m].key, x.writes[n].key)
  }

  ghost predicate Wrote(x: Txn, k: SpanKey)
  {
    exists d :: 0 <= d < Done(x) && d < |x.writes| && x.writes[d].key == k
  }

  /** It holds no span row but those it has written. */
  ghost predicate OwnIsWritten(x: Txn)
  {
    x.Active() ==> forall k :: k in x.own ==> Wrote(x, k)
  }

  /** Every batch asks for trace rows and for span rows in ascending key order. */
  ghost predicate AscendingRun(states: seq<State>, actions: seq<Action>)
  {
    && IsRun(states, actions)
    && forall m :: 0 <= m < |actions| && actions[m].Begin? ==> Ordered(actions[m].txn) && WritesAscend(actions[m].txn)
  }

  ghost predicate Orderly(s: State)
  {
    forall j :: 0 <= j < |s.txns| ==> Ordered(s.txns[j]) && WritesAscend(s.txns[j]) && OwnIsWritten(s.txns[j])
  }

  lemma SteppedIsOrderly(s: State, a: Action)
    requires LocksInRange(s) && Enabled(s, a) && !a.Begin?
    requires Ordered(s.txns[a.i]) && WritesAscend(s.txns[a.i]) && OwnIsWritten(s.txns[a.i])
    ensures Ordered(Stepped(s, a)) && WritesAscend(Stepped(s, a)) && OwnIsWritten(Stepped(s, a))
  {
    var x, y := s.txns[a.i], Stepped(s, a);
    if y.Active() {
      forall k | k in y.own ensures Wrote(y, k) {
        if k in x.own {
          assert Wrote(x, k);
          var d :| 0 <= d < Done(x) && d < |x.writes| && x.writes[d].key == k;
          assert y.writes[d].key == k;
        } else {
          assert y.writes[x.phase.done].key == k;
        }
      }
    }
  }

  lemma {:induction false} RunIsOrderly(states: seq<State>, actions: seq<Action>, n: nat)
    requires AscendingRun(states, actions) && n < |states|
    ensures Orderly(states[n])
  {
    if n > 0 {
      var s, a := states[n - 1], actions[n - 1];
      RunIsOrderly(states, actions, n - 1);
      assert LocksInRange(s) && Enabled(s, a) && states[n] == Step(s, a);
      if !a.Begin? { SteppedIsOrderly(s, a); }
    }
  }

  function NextKey(x: Txn): SpanKey
    requires x.phase.Spanning? && x.phase.done < |x.writes|
  {
    x.writes[x.phase.done].key
  }

  predicate IsSpanning(x: Txn)
  {
    x.phase.Spanning? && x.phase.done < |x.writes|
  }

  /** Of the transactions still writing spans, one that wants the largest key. */
  lemma {:induction false} LargestNext(txns: seq<Txn>) returns (i: nat)
    requires exists j :: 0 <= j < |txns| && IsSpanning(txns[j])
    ensures i < |txns| && IsSpanning(txns[i])
    ensures forall j :: 0 <= j < |txns| && IsSpanning(txns[j]) ==> !KeyBefore(NextKey(txns[i]), NextKey(txns[j]))
  {
    var front, last := txns[..|txns| - 1], |txns| - 1;
    assert forall j :: 0 <= j < |front| ==> txns[j] == front[j];
    if exists j :: 0 <= j < |front| && IsSpanning(front[j]) {
      i := LargestNext(front);
      if IsSpanning(txns[last]) && KeyBefore(NextKey(txns[i]), NextKey(txns[last])) { i := last; }
    } else {
      i := last;
    }
  }

  /** Whoever writes spans holds only rows below the one it wants. */
  lemma HeldBelowNext(x: Txn, k: SpanKey)
    requires IsSpanning(x) && WritesAscend(x) && OwnIsWritten(x) && x.HoldsSpan(k)
    ensures KeyBefore(k, NextKey(x))
  {
    assert Wrote(x, k);
  }

  /** Batches whose span writes ascend never block one another for good, however many there are. */
  lemma AscendingNeverStuck(states: seq<State>, actions: seq<Action>, n: nat)
    requires AscendingRun(states, actions) && n < |states|
    ensures LocksInRange(states[n]) && !Stuck(states[n])
  {
    var s := states[n];
    RunKeepsInv(states, actions, n);
    RunIsOrderly(states, actions, n);
    if i :| 0 <= i < |s.txns| && s.txns[i].Active() && !s.txns[i].phase.Spanning? {
      assert Unblocked(s, i);
      SomebodyCanStep(s);
    } else if i :| 0 <= i < |s.txns| && s.txns[i].Active() {
      assert TxnOk(s.spans, s.txns[i]);
      assert IsSpanning(s.txns[i]);
      var top := LargestNext(s.txns);
      TopIsFree(s, top);
      assert Unblocked(s, top);
      SomebodyCanStep(s);
    }
  }

  lemma TopIsFree(s: State, top: nat)
    requires Inv(s) && Orderly(s) && top < |s.txns| && IsSpanning(s.txns[top])
    requires forall j :: 0 <= j < |s.txns| && s.txns[j].Active() ==> s.txns[j].phase.Spanning?
    requires forall j :: 0 <= j < |s.txns| && IsSpanning(s.txns[j]) ==>
        !KeyBefore(NextKey(s.txns[top]), NextKey(s.txns[j]))
    ensures SpanFree(s, top, NextKey(s.txns[top]))
  {
    var k := NextKey(s.txns[top]);
    forall j | 0 <= j < |s.txns| && j != top ensures !s.txns[j].HoldsSpan(k) {
      assert TxnOk(s.spans, s.txns[j]);
      if s.txns[j].HoldsSpan(k) { HeldBelowNext(s.txns[j], k); }
    }
  }

  // ------------------------------------------ exactly which two writers can block

  /** The transactions a run begins, in order. */
  function Begun(actions: seq<Action>): seq<Txn>
  {
    if actions == [] then []
    else Begun(actions[..|actions| - 1]) + if actions[|actions| - 1].Begin? then [actions[|actions| - 1].txn] else []
  }

  /** The statement waits for the row if somebody holds it: an insert does not when the row is committed. */
  predicate Asks(spans: Spans, w: SpanWrite)
  {
    w.Upserted? || w.key !in spans
  }

  /** The span rows x holds once it has made n writes. */
  function Locked(spans: Spans, x: Txn, n: nat): set<SpanKey>
  {
    set d | 0 <= d < n && d < |x.writes| && Asks(spans, x.writes[d]) :: x.writes[d].key
  }

  /** After m writes x wants a row that y holds after n, and the other way round; so far they held nothing in common. */
  predicate CrossAt(spans: Spans, x: Txn, y: Txn, m: nat, n: nat)
    requires m < |x.writes| && n < |y.writes|
  {
    && Asks(spans, x.writes[m]) && x.writes[m].key in Locked(spans, y, n)
    && Asks(spans, y.writes[n]) && y.writes[n].key in Locked(spans, x, m)
    && Locked(spans, x, m) !! Locked(spans, y, n)
  }

  ghost predicate Crossing(spans: Spans, x: Txn, y: Txn)
  {
    exists m: nat, n: nat :: m < |x.writes| && n < |y.writes| && CrossAt(spans, x, y, m, n)
  }

  ghost predicate RunOfTwo(s: State, x: Txn, y: Txn, states: seq<State>, actions: seq<Action>)
  {
    IsRun(states, actions) && states[0] == s && Begun(actions) == [x, y]
  }

  /** Some run of the two ends in a state where neither can go on. */
  ghost predicate CanBlock(s: State, x: Txn, y: Txn)
  {
    exists states, actions :: RunOfTwo(s, x, y, states, actions) &&
        LocksInRange(states[|actions|]) && Stuck(states[|actions|])
  }

  predicate SameBatch(x: Txn, begun: Txn)
  {
    x.writes == begun.writes && x.ids == begun.ids && x.isWriter == begun.isWriter
  }

  ghost predicate AllActive(s: State)
  {
    forall j :: 0 <= j < |s.txns| ==> s.txns[j].Active()
  }

  ghost predicate HoldsItsWrites(spans: Spans, x: Txn)
  {
    x.own.Keys == Locked(spans, x, Done(x))
  }

  /** While nobody has finished, the committed spans are those of the beginning and everybody holds what
      its writes so far have asked for. */
  ghost predicate Tracks(spans: Spans, s: State, begun: seq<Txn>)
  {
    && |s.txns| == |begun|
    && (forall j :: 0 <= j < |begun| ==> SameBatch(s.txns[j], begun[j]))
    && (AllActive(s) ==> s.spans == spans && forall j :: 0 <= j < |begun| ==> HoldsItsWrites(spans, s.txns[j]))
  }

  lemma OneMoreLocked(spans: Spans, x: Txn, n: nat)
    requires n < |x.writes|
    ensures Locked(spans, x, n + 1) == Locked(spans, x, n) + if Asks(spans, x.writes[n]) then {x.writes[n].key} else {}
  {
  }

  lemma WriteTracks(s: State, i: nat)
    requires LocksInRange(s) && Enabled(s, WriteSpan(i)) && HoldsItsWrites(s.spans, s.txns[i])
    ensures HoldsItsWrites(s.spans, Stepped(s, WriteSpan(i)))
  {
    var x, y := s.txns[i], Stepped(s, WriteSpan(i));
    assert Done(y) == Done(x) + 1;
    OneMoreLocked(s.spans, x, Done(x));
    assert Locked(s.spans, y, Done(y)) == Locked(s.spans, x, Done(x) + 1);
  }

  lemma SteppedTracks(s: State, a: Action)
    requires LocksInRange(s) && Enabled(s, a) && !a.Begin? && HoldsItsWrites(s.spans, s.txns[a.i])
    ensures SameBatch(Stepped(s, a), s.txns[a.i])
    ensures Stepped(s, a).Active() ==> HoldsItsWrites(s.spans, Stepped(s, a)) && Step(s, a).spans == s.spans
  {
    if a.WriteSpan? {
      WriteTracks(s, a.i);
    } else {
      var x, y := s.txns[a.i], Stepped(s, a);
      assert y.Active() ==> Locked(s.spans, y, Done(y)) == Locked(s.spans, x, Done(x));
    }
  }

  lemma StepTracks(spans: Spans, s: State, a: Action, begun: seq<Txn>)
    requires LocksInRange(s) && Enabled(s, a) && !a.Begin? && Tracks(spans, s, begun)
    ensures Tracks(spans, Step(s, a), begun)
  {
    var next := Step(s, a);
    assert forall j :: 0 <= j < |s.txns| && j != a.i ==> next.txns[j] == s.txns[j];
    if AllActive(next) {
      assert s.txns[a.i].Active() && next.txns[a.i] == Stepped(s, a);
      forall j | 0 <= j < |s.txns| ensures s.txns[j].Active() { assert j != a.i ==> next.txns[j].Active(); }
      SteppedTracks(s, a);
    }
  }

  lemma BeginTracks(spans: Spans, s: State, x: Txn, begun: seq<Txn>)
    requires Fresh(x) && Tracks(spans, s, begun)
    ensures Tracks(spans, s.(txns := s.txns + [x]), begun + [x])
  {
    var next := s.(txns := s.txns + [x]);
    assert forall j :: 0 <= j < |s.txns| ==> next.txns[j] == s.txns[j];
    assert next.txns[|s.txns|] == x && Locked(spans, x, 0) == {};
    if AllActive(next) {
      forall j | 0 <= j < |s.txns| ensures s.txns[j].Active() { assert next.txns[j].Active(); }
    }
  }

  lemma {:induction false} RunTracks(states: seq<State>, actions: seq<Action>, n: nat)
    requires IsRun(states, actions) && n <= |actions|
    ensures Tracks(states[0].spans, states[n], Begun(actions[..n]))
  {
    if n > 0 {
      var s, a, begun := states[n - 1], actions[n - 1], Begun(actions[..n - 1]);
      RunTracks(states, actions, n - 1);
      assert actions[..n][..n - 1] == actions[..n - 1];
      assert LocksInRange(s) && Enabled(s, a) && states[n] == Step(s, a);
      if a.Begin? {
        BeginTracks(states[0].spans, s, a.txn, begun);
      } else {
        StepTracks(states[0].spans, s, a, begun);
        assert begun + [] == begun;
      }
    }
  }

  lemma TracksPair(spans: Spans, s: State, x: Txn, y: Txn)
    requires Tracks(spans, s, [x, y])
    ensures |s.txns| == 2 && SameBatch(s.txns[0], x) && SameBatch(s.txns[1], y)
    ensures AllActive(s) ==> s.spans == spans && HoldsItsWrites(spans, s.txns[0]) && HoldsItsWrites(spans, s.txns[1])
  {
    assert [x, y][0] == x && [x, y][1] == y;
  }

  /** Transaction i writes spans and wants a row that the other one holds. */
  ghost predicate BlockedBy(s: State, x: Txn, y: Txn)
  {
    IsSpanning(x) && Asks(s.spans, x.writes[x.phase.done]) && y.HoldsSpan(NextKey(x))
  }

  /** In a stuck state of two, both are writing spans and each wants a row the other holds. */
  lemma BothBlocked(s: State)
    requires Inv(s) && Stuck(s) && |s.txns| == 2 && Ordered(s.txns[0]) && Ordered(s.txns[1])
    ensures BlockedBy(s, s.txns[0], s.txns[1]) && BlockedBy(s, s.txns[1], s.txns[0]) && AllActive(s)
  {
    if s.txns[0].Active() { BlockedByOther(s, 0); }
    if s.txns[1].Active() { BlockedByOther(s, 1); }
  }

  lemma PairCrosses(spans: Spans, s: State, x: Txn, y: Txn)
    requires Inv(s) && Tracks(spans, s, [x, y]) && |s.txns| == 2 && AllActive(s)
    requires BlockedBy(s, s.txns[0], s.txns[1]) && BlockedBy(s, s.txns[1], s.txns[0])
    ensures Crossing(spans, x, y)
  {
    TracksPair(spans, s, x, y);
    assert Exclusive(s.txns[0], s.txns[1]);
    HoldersCross(s, s.txns[0], s.txns[1]);
    CrossTransfers(spans, s.txns[0], s.txns[1], x, y, s.txns[0].phase.done, s.txns[1].phase.done);
  }

  lemma CrossTransfers(spans: Spans, x: Txn, y: Txn, v: Txn, w: Txn, m: nat, n: nat)
    requires v.writes == x.writes && w.writes == y.writes && m < |x.writes| && n < |y.writes| &&
        CrossAt(spans, x, y, m, n)
    ensures CrossAt(spans, v, w, m, n)
  {
    assert Locked(spans, v, m) == Locked(spans, x, m) && Locked(spans, w, n) == Locked(spans, y, n);
  }

  lemma HoldersCross(s: State, x: Txn, y: Txn)
    requires x.locked <= |x.ids| && y.locked <= |y.ids| && Exclusive(x, y)
    requires HoldsItsWrites(s.spans, x) && HoldsItsWrites(s.spans, y) && BlockedBy(s, x, y) && BlockedBy(s, y, x)
    ensures CrossAt(s.spans, x, y, x.phase.done, y.phase.done)
  {
    NothingInCommon(x, y);
  }

  lemma NothingInCommon(x: Txn, y: Txn)
    requires x.locked <= |x.ids| && y.locked <= |y.ids| && Exclusive(x, y) && x.Active() && y.Active()
    ensures x.own.Keys !! y.own.Keys
  {
    forall k | k in x.own ensures k !in y.own {
      assert !(x.HoldsSpan(k) && y.HoldsSpan(k));
    }
  }

  lemma StuckTwoCross(s: State, x: Txn, y: Txn, states: seq<State>, actions: seq<Action>)
    requires RunOfTwo(s, x, y, states, actions) && Ordered(x) && Ordered(y)
    requires LocksInRange(states[|actions|]) && Stuck(states[|actions|])
    ensures Crossing(s.spans, x, y)
  {
    var last := states[|actions|];
    assert actions[..|actions|] == actions;
    RunKeepsInv(states, actions, |actions|);
    RunTracks(states, actions, |actions|);
    TracksPair(s.spans, last, x, y);
    BothBlocked(last);
    PairCrosses(s.spans, last, x, y);
  }

  lemma BlockedByOther(s: State, i: nat)
    requires Inv(s) && Stuck(s) && |s.txns| == 2 && i < 2 && s.txns[i].Active() && Ordered(s.txns[0]) &&
        Ordered(s.txns[1])
    ensures BlockedBy(s, s.txns[i], s.txns[1 - i])
  {
    if !s.txns[i].phase.Spanning? {
      var a := StepBeyondSpans(s, i);
    }
    assert TxnOk(s.spans, s.txns[i]);
    assert !Enabled(s, WriteSpan(i));
    assert !SpanFree(s, i, NextKey(s.txns[i]));
  }

  // ----------------------------------------------------- and such a run exists

  lemma Extend(states: seq<State>, actions: seq<Action>, a: Action) returns (longer: seq<State>, more: seq<Action>)
    requires IsRun(states, actions) && LocksInRange(states[|actions|]) && Enabled(states[|actions|], a)
    ensures more == actions + [a] && longer == states + [Step(states[|actions|], a)]
    ensures IsRun(longer, more) && Begun(more) == Begun(actions) + if a.Begin? then [a.txn] else []
  {
    longer, more := states + [Step(states[|actions|], a)], actions + [a];
    assert more[..|more| - 1] == actions;
    forall n | 0 <= n < |more|
      ensures LocksInRange(longer[n]) && Enabled(longer[n], more[n]) && longer[n + 1] == Step(longer[n], more[n])
    {
      if n < |actions| { assert longer[n] == states[n] && longer[n + 1] == states[n + 1] && more[n] == actions[n]; }
    }
  }

  lemma BeginBoth(s: State, x: Txn, y: Txn) returns (states: seq<State>, actions: seq<Action>)
    requires s.txns == [] && Consistent(s.spans, s.traces) && Fresh(x) && Fresh(y)
    ensures RunOfTwo(s, x, y, states, actions) && states[|actions|] == s.(txns := [x, y])
  {
    states, actions := Extend([s], [], Begin(x));
    states, actions := Extend(states, actions, Begin(y));
  }

  /** Both are unfinished, and transaction i has made n writes and the other nothing but what it had. */
  ghost predicate Midway(spans: Spans, s: State, i: nat, n: nat, other: Txn)
  {
    && i < 2 && |s.txns| == 2 && AllActive(s) && s.spans == spans && LocksInRange(s)
    && s.txns[1 - i] == other && s.txns[i].phase == Spanning(n) && n < |s.txns[i].writes|
  }

  lemma NextWrite(spans: Spans, s: State, i: nat, n: nat, other: Txn)
    requires Midway(spans, s, i, n, other) && n + 1 < |s.txns[i].writes|
    requires Asks(spans, s.txns[i].writes[n]) ==> s.txns[i].writes[n].key !in other.own
    ensures Enabled(s, WriteSpan(i)) && Midway(spans, Step(s, WriteSpan(i)), i, n + 1, other)
    ensures Step(s, WriteSpan(i)).txns[i].writes == s.txns[i].writes
  {
    var w := s.txns[i].writes[n];
    if Asks(spans, w) {
      forall j | 0 <= j < |s.txns| && j != i ensures !s.txns[j].HoldsSpan(w.key) { assert j == 1 - i; }
    }
    assert Enabled(s, WriteSpan(i));
  }

  lemma WriteOneMore(s: State, x: Txn, y: Txn, states: seq<State>, actions: seq<Action>, i: nat, n: nat, other: Txn)
    returns (longer: seq<State>, more: seq<Action>)
    requires RunOfTwo(s, x, y, states, actions) && Midway(s.spans, states[|actions|], i, n, other)
    requires n + 1 < |states[|actions|].txns[i].writes|
    requires var w := states[|actions|].txns[i].writes[n]; Asks(s.spans, w) ==> w.key !in other.own
    ensures RunOfTwo(s, x, y, longer, more) && Midway(s.spans, longer[|more|], i, n + 1, other)
    ensures longer[|more|].txns[i].writes == states[|actions|].txns[i].writes
  {
    NextWrite(s.spans, states[|actions|], i, n, other);
    longer, more := Extend(states, actions, WriteSpan(i));
  }

  /** Transaction i makes its first n writes, nobody else holding what it asks for. */
  lemma {:induction false} WriteFirst(s: State, x: Txn, y: Txn, states: seq<State>, actions: seq<Action>,
                                      i: nat, n: nat, writer: Txn, other: Txn)
    returns (longer: seq<State>, more: seq<Action>)
    requires RunOfTwo(s, x, y, states, actions) && Midway(s.spans, states[|actions|], i, 0, other)
    requires writer == states[|actions|].txns[i] && n < |writer.writes| && other.own.Keys !! Locked(s.spans, writer, n)
    ensures RunOfTwo(s, x, y, longer, more) && Midway(s.spans, longer[|more|], i, n, other)
    ensures longer[|more|].txns[i].writes == writer.writes
  {
    if n == 0 {
      longer, more := states, actions;
    } else {
      OneMoreLocked(s.spans, writer, n - 1);
      longer, more := WriteFirst(s, x, y, states, actions, i, n - 1, writer, other);
      longer, more := WriteOneMore(s, x, y, longer, more, i, n - 1, other);
    }
  }

  /** A state that two crossing writers have written themselves into. */
  lemma CrossedIsStuck(spans: Spans, s: State, m: nat, n: nat)
    requires LocksInRange(s) && |s.txns| == 2 && s.spans == spans && HoldsItsWrites(spans, s.txns[0]) &&
        HoldsItsWrites(spans, s.txns[1])
    requires s.txns[0].phase == Spanning(m) && s.txns[1].phase == Spanning(n)
    requires m < |s.txns[0].writes| && n < |s.txns[1].writes| && CrossAt(spans, s.txns[0], s.txns[1], m, n)
    ensures Stuck(s)
  {
    var x, y := s.txns[0], s.txns[1];
    assert x.HoldsSpan(y.writes[n].key) && y.HoldsSpan(x.writes[m].key) && x.Active();
    assert !SpanFree(s, 0, x.writes[m].key) && !SpanFree(s, 1, y.writes[n].key);
    forall a | Enabled(s, a) ensures a.Begin? || a.Abort? {
      if !a.Begin? { assert a.i == 0 || a.i == 1; }
    }
  }

  lemma CrossingBlocks(s: State, x: Txn, y: Txn, m: nat, n: nat)
    requires s.txns == [] && Consistent(s.spans, s.traces) && Fresh(x) && Fresh(y)
    requires m < |x.writes| && n < |y.writes| && CrossAt(s.spans, x, y, m, n)
    ensures CanBlock(s, x, y)
  {
    var states, actions := BeginBoth(s, x, y);
    states, actions := WriteFirst(s, x, y, states, actions, 0, m, x, y);
    HoldsLocked(s, x, y, states, actions);
    var first := states[|actions|].txns[0];
    assert Locked(s.spans, x, m) == Locked(s.spans, first, m);
    states, actions := WriteFirst(s, x, y, states, actions, 1, n, y, first);
    HoldsLocked(s, x, y, states, actions);
    CrossTransfers(s.spans, x, y, states[|actions|].txns[0], states[|actions|].txns[1], m, n);
    CrossedIsStuck(s.spans, states[|actions|], m, n);
  }

  lemma HoldsLocked(s: State, x: Txn, y: Txn, states: seq<State>, actions: seq<Action>)
    requires RunOfTwo(s, x, y, states, actions) && |states[|actions|].txns| == 2 && AllActive(states[|actions|])
    ensures var last := states[|actions|];
            && SameBatch(last.txns[0], x) && HoldsItsWrites(s.spans, last.txns[0])
            && SameBatch(last.txns[1], y) && HoldsItsWrites(s.spans, last.txns[1])
  {
    RunTracks(states, actions, |actions|);
    assert actions[..|actions|] == actions && [x, y][0] == x && [x, y][1] == y;
  }

  /** Two writers can block one another if and only if their writes cross: each comes to want a row the
      other already holds. */
  lemma TwoWritersBlockIff(s: State, x: Txn, y: Txn)
    requires s.txns == [] && Consistent(s.spans, s.traces) && Fresh(x) && Fresh(y) && Ordered(x) && Ordered(y)
    ensures CanBlock(s, x, y) <==> Crossing(s.spans, x, y)
  {
    if CanBlock(s, x, y) {
      var states, actions :| RunOfTwo(s, x, y, states, actions) &&
        LocksInRange(states[|actions|]) && Stuck(states[|actions|]);
      StuckTwoCross(s, x, y, states, actions);
    }
    if m: nat, n: nat :| m < |x.writes| && n < |y.writes| && CrossAt(s.spans, x, y, m, n) {
      CrossingBlocks(s, x, y, m, n);
    }
  }
}
