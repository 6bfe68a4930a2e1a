/** One trace row under concurrent storage transactions.  Each reads the row when it starts to merge and
    locks it only when it writes, so what another transaction committed in between is overwritten.  The
    state remembers which events were committed, and which of them the row has kept.  */
module LostUpdates {
  import opened Ids
  import opened Wrappers
  import opened Events
  import opened TraceMerge

  datatype Phase = Begun | HasRead | Holding | Finished

  /** `seen` is the row as it was read; the two sets are what was kept and committed at that moment. */
  datatype Txn = Txn(events: seq<Event>, phase: Phase, seen: Core, seenKept: set<Event>, seenCommitted: set<Event>)

  datatype State = State(row: Option<Core>, kept: set<Event>, committed: set<Event>, txns: seq<Txn>)

  datatype Action =
    | Begin(events: seq<Event>)
    | Read(i: nat)
    | Lock(i: nat)
    | Commit(i: nat)
    | Abort(i: nat)
    | Stub

  const NOTHING := State(None, {}, {}, [])

  /** What the row shows, a missing one showing the defaults. */
  function View(s: State): Core
  {
    if s.row.Some? then s.row.value else MERGE_DEFAULTS
  }

  predicate Free(s: State)
  {
    forall j :: 0 <= j < |s.txns| ==> !s.txns[j].phase.Holding?
  }

  /** `Stub` is the scanner creating the row. */
  predicate Enabled(s: State, a: Action)
  {
    match a
    case Begin(_) => true
    case Read(i) => i < |s.txns| && s.txns[i].phase.Begun?
    case Lock(i) => i < |s.txns| && s.txns[i].phase.HasRead? && Free(s)
    case Commit(i) => i < |s.txns| && s.txns[i].phase.Holding?
    case Abort(i) => i < |s.txns| && !s.txns[i].phase.Finished?
    case Stub => s.row.None? && Free(s)
  }

  function Step(sampled: bool, s: State, a: Action): State
    requires Enabled(s, a)
  {
    match a
    case Begin(events) => s.(txns := s.txns + [Txn(events, Begun, MERGE_DEFAULTS, {}, {})])
    case Read(i) => s.(txns := s.txns[i := Txn(s.txns[i].events, HasRead, View(s), s.kept, s.committed)])
    case Lock(i) => s.(txns := s.txns[i := s.txns[i].(phase := Holding)])
    case Commit(i) =>
      var x := s.txns[i];
      State(Some(MergeBatch(x.seen, x.events, sampled)), x.seenKept + Elems(x.events), s.committed + Elems(x.events),
            s.txns[i := x.(phase := Finished)])
    case Abort(i) => s.(txns := s.txns[i := s.txns[i].(phase := Finished)])
    case Stub => s.(row := Some(MERGE_DEFAULTS))
  }

  ghost predicate IsRun(sampled: bool, states: seq<State>, actions: seq<Action>)
  {
    && |states| == |actions| + 1 && states[0] == NOTHING
    && forall n :: 0 <= n < |actions| ==>
        Enabled(states[n], actions[n]) && states[n + 1] == Step(sampled, states[n], actions[n])
  }

  /** All events that ever arrive. */
  ghost predicate Among(actions: seq<Action>, all: set<Event>)
  {
    forall n :: 0 <= n < |actions| && actions[n].Begin? ==> Elems(actions[n].events) <= all
  }

  // ------------------------------------------------------- what the row describes

  ghost predicate TxnTrue(sampled: bool, s: State, all: set<Event>, x: Txn)
  {
    && Elems(x.events) <= all
    && (x.phase.HasRead? || x.phase.Holding? ==>
          Describes(x.seen, x.seenKept, sampled) && x.seenKept <= x.seenCommitted <= s.committed)
  }

  ghost predicate Inv(sampled: bool, s: State, all: set<Event>)
  {
    && Describes(View(s), s.kept, sampled) && s.kept <= s.committed <= all
    && forall i :: 0 <= i < |s.txns| ==> TxnTrue(sampled, s, all, s.txns[i])
  }

  lemma CommitDescribes(sampled: bool, s: State, all: set<Event>, i: nat)
    requires OneEnd(all) && Inv(sampled, s, all) && Enabled(s, Commit(i))
    ensures var next := Step(sampled, s, Commit(i));
            Describes(View(next), next.kept, sampled) && next.kept <= next.committed <= all
  {
    var x := s.txns[i];
    assert TxnTrue(sampled, s, all, x);
    OneEndOfFewer(x.seenKept + Elems(x.events), all);
    BatchDescribes(x.seen, x.seenKept, x.events, sampled);
  }

  lemma OthersStayTrue(sampled: bool, s: State, next: State, all: set<Event>, x: Txn)
    requires TxnTrue(sampled, s, all, x) && s.committed <= next.committed
    ensures TxnTrue(sampled, next, all, x)
  {
  }

  lemma StepKeepsInv(sampled: bool, s: State, all: set<Event>, a: Action)
    requires OneEnd(all) && Inv(sampled, s, all) && Enabled(s, a) && (a.Begin? ==> Elems(a.events) <= all)
    ensures Inv(sampled, Step(sampled, s, a), all)
  {
    var next := Step(sampled, s, a);
    if a.Commit? { CommitDescribes(sampled, s, all, a.i); }
    forall j | 0 <= j < |next.txns| ensures TxnTrue(sampled, next, all, next.txns[j]) {
      if j < |s.txns| {
        assert TxnTrue(sampled, s, all, s.txns[j]);
        OthersStayTrue(sampled, s, next, all, s.txns[j]);
      }
    }
  }

  lemma {:induction false} RunKeepsInv(sampled: bool, states: seq<State>, actions: seq<Action>, all: set<Event>, n: nat)
    requires IsRun(sampled, states, actions) && Among(actions, all) && OneEnd(all) && n < |states|
    ensures Inv(sampled, states[n], all)
  {
    if n == 0 {
      DefaultsDescribe(sampled);
    } else {
      RunKeepsInv(sampled, states, actions, all, n - 1);
      StepKeepsInv(sampled, states[n - 1], all, actions[n - 1]);
    }
  }

  /** In every run the row describes exactly the events it has kept: those its last writer saw or brought. */
  lemma RowDescribesKept(sampled: bool, states: seq<State>, actions: seq<Action>, all: set<Event>, n: nat)
    requires IsRun(sampled, states, actions) && Among(actions, all) && OneEnd(all) && n < |states|
    ensures Describes(View(states[n]), states[n].kept, sampled) && states[n].kept <= states[n].committed
  {
    RunKeepsInv(sampled, states, actions, all, n);
  }

  // --------------------------------------------------------- when nothing is lost

  /** The committer of step n brings every event that was committed since it read the row. */
  ghost predicate CatchesUp(s: State, a: Action)
  {
    a.Commit? && a.i < |s.txns| ==> s.committed <= s.txns[a.i].seenCommitted + Elems(s.txns[a.i].events)
  }

  ghost predicate AllCatchUp(states: seq<State>, actions: seq<Action>)
    requires |states| > |actions|
  {
    forall n :: 0 <= n < |actions| ==> CatchesUp(states[n], actions[n])
  }

  ghost predicate NothingLost(s: State)
  {
    s.kept == s.committed
  }

  /** Who has read saw a row that had lost nothing. */
  ghost predicate SawAll(s: State)
  {
    forall i :: 0 <= i < |s.txns| ==> s.txns[i].seenKept == s.txns[i].seenCommitted
  }

  lemma {:induction false} CatchingUpLosesNothing(sampled: bool, states: seq<State>, actions: seq<Action>, n: nat)
    requires IsRun(sampled, states, actions) && AllCatchUp(states, actions) && n < |states|
    ensures NothingLost(states[n]) && SawAll(states[n])
  {
    if n > 0 {
      CatchingUpLosesNothing(sampled, states, actions, n - 1);
      CommittedOnlyGrows(sampled, states, actions, n - 1);
      assert CatchesUp(states[n - 1], actions[n - 1]);
    }
  }

  /** What a reader saw committed stays committed. */
  lemma {:induction false} CommittedOnlyGrows(sampled: bool, states: seq<State>, actions: seq<Action>, n: nat)
    requires IsRun(sampled, states, actions) && n < |states|
    ensures forall i :: 0 <= i < |states[n].txns| ==> states[n].txns[i].seenCommitted <= states[n].committed
  {
    if n > 0 {
      CommittedOnlyGrows(sampled, states, actions, n - 1);
      assert Enabled(states[n - 1], actions[n - 1]) && states[n] == Step(sampled, states[n - 1], actions[n - 1]);
    }
  }

  lemma {:induction false} LosingNothingSeesAll(sampled: bool, states: seq<State>, actions: seq<Action>, n: nat)
    requires IsRun(sampled, states, actions) && n < |states|
    requires forall m :: 0 <= m < n ==> NothingLost(states[m])
    ensures SawAll(states[n])
  {
    if n > 0 {
      LosingNothingSeesAll(sampled, states, actions, n - 1);
      assert NothingLost(states[n - 1]);
    }
  }

  /** A run never loses an event if and only if every committer brings whatever others committed between
      its read and its commit. */
  lemma NothingLostIff(sampled: bool, states: seq<State>, actions: seq<Action>)
    requires IsRun(sampled, states, actions)
    ensures (forall n :: 0 <= n < |states| ==> NothingLost(states[n])) <==> AllCatchUp(states, actions)
  {
    if AllCatchUp(states, actions) {
      forall n | 0 <= n < |states| ensures NothingLost(states[n]) {
        CatchingUpLosesNothing(sampled, states, actions, n);
      }
    }
    if forall n :: 0 <= n < |states| ==> NothingLost(states[n]) {
      forall n | 0 <= n < |actions| ensures CatchesUp(states[n], actions[n]) {
        LosingNothingSeesAll(sampled, states, actions, n);
        assert NothingLost(states[n + 1]);
      }
    }
  }

  /** Somebody else committed the row since transaction i read it. */
  ghost predicate Overtaken(states: seq<State>, actions: seq<Action>, n: nat, i: nat)
    requires n <= |actions| < |states|
  {
    exists r, c :: 0 <= r < c < n && actions[r] == Read(i) && actions[c].Commit? && actions[c].i != i
  }

  lemma {:induction false} NotOvertakenIsCurrent(sampled: bool, states: seq<State>, actions: seq<Action>, n: nat,
                                                 i: nat)
    requires IsRun(sampled, states, actions) && n <= |actions| && !Overtaken(states, actions, n, i)
    requires i < |states[n].txns| && (states[n].txns[i].phase.HasRead? || states[n].txns[i].phase.Holding?)
    ensures states[n].txns[i].seenCommitted == states[n].committed
    ensures exists r :: 0 <= r < n && actions[r] == Read(i)
  {
    if n > 0 {
      var s, a := states[n - 1], actions[n - 1];
      assert Enabled(s, a) && states[n] == Step(sampled, s, a);
      if a == Read(i) {
        assert actions[n - 1] == Read(i);
      } else {
        assert !Overtaken(states, actions, n - 1, i);
        NotOvertakenIsCurrent(sampled, states, actions, n - 1, i);
        var r :| 0 <= r < n - 1 && actions[r] == Read(i);
      }
    }
  }

  /** If no committer was overtaken, the row always describes exactly the committed events. */
  lemma UndisturbedRunsConverge(sampled: bool, states: seq<State>, actions: seq<Action>, all: set<Event>, n: nat)
    requires IsRun(sampled, states, actions) && Among(actions, all) && OneEnd(all) && n < |states|
    requires forall m :: 0 <= m < |actions| && actions[m].Commit? ==> !Overtaken(states, actions, m, actions[m].i)
    ensures Describes(View(states[n]), states[n].committed, sampled)
  {
    forall m | 0 <= m < |actions| ensures CatchesUp(states[m], actions[m]) {
      assert Enabled(states[m], actions[m]);
      if actions[m].Commit? { NotOvertakenIsCurrent(sampled, states, actions, m, actions[m].i); }
    }
    CatchingUpLosesNothing(sampled, states, actions, n);
    RowDescribesKept(sampled, states, actions, all, n);
  }

  /** Overtaking happens before the lock: nobody else commits the row while it is held. */
  lemma {:induction false} OneHolder(sampled: bool, states: seq<State>, actions: seq<Action>, n: nat, i: nat, j: nat)
    requires IsRun(sampled, states, actions) && n < |states| && i < |states[n].txns| && j < |states[n].txns|
    requires states[n].txns[i].phase.Holding? && states[n].txns[j].phase.Holding?
    ensures i == j
  {
    if n > 0 && i != j {
      var s, a := states[n - 1], actions[n - 1];
      assert Enabled(s, a) && states[n] == Step(sampled, s, a);
      if i < |s.txns| && j < |s.txns| && s.txns[i].phase.Holding? && s.txns[j].phase.Holding? {
        OneHolder(sampled, states, actions, n - 1, i, j);
      }
    }
  }

  lemma Extend(sampled: bool, states: seq<State>, actions: seq<Action>, a: Action)
    returns (longer: seq<State>, more: seq<Action>)
    requires IsRun(sampled, states, actions) && Enabled(states[|actions|], a)
    ensures more == actions + [a] && IsRun(sampled, longer, more) &&
        longer[|more|] == Step(sampled, states[|actions|], a)
  {
    longer, more := states + [Step(sampled, states[|actions|], a)], actions + [a];
    forall n | 0 <= n < |more|
        ensures Enabled(longer[n], more[n]) && longer[n + 1] == Step(sampled, longer[n], more[n]) {
      if n < |actions| { assert longer[n] == states[n] && longer[n + 1] == states[n + 1] && more[n] == actions[n]; }
    }
  }

  function Reader(e: Event): Txn
  {
    Txn([e], HasRead, MERGE_DEFAULTS, {}, {})
  }

  lemma BothRead(sampled: bool, e: Event, f: Event) returns (states: seq<State>, actions: seq<Action>)
    ensures IsRun(sampled, states, actions) && actions == [Begin([e]), Begin([f]), Read(0), Read(1)]
    ensures states[|actions|] == State(None, {}, {}, [Reader(e), Reader(f)])
  {
    states, actions := Extend(sampled, [NOTHING], [], Begin([e]));
    states, actions := Extend(sampled, states, actions, Begin([f]));
    states, actions := Extend(sampled, states, actions, Read(0));
    states, actions := Extend(sampled, states, actions, Read(1));
  }

  lemma WriteRow(sampled: bool, states: seq<State>, actions: seq<Action>, i: nat)
    returns (longer: seq<State>, more: seq<Action>)
    requires IsRun(sampled, states, actions) && Free(states[|actions|])
    requires i < |states[|actions|].txns| && states[|actions|].txns[i].phase.HasRead?
    ensures IsRun(sampled, longer, more) && more == actions + [Lock(i), Commit(i)]
    ensures var s := states[|actions|]; var x := s.txns[i];
            longer[|more|] == State(Some(MergeBatch(x.seen, x.events, sampled)), x.seenKept + Elems(x.events),
                                    s.committed + Elems(x.events), s.txns[i := x.(phase := Finished)])
  {
    longer, more := Extend(sampled, states, actions, Lock(i));
    longer, more := Extend(sampled, longer, more, Commit(i));
  }

  lemma BothCommit(sampled: bool, e: Event, f: Event, states: seq<State>, actions: seq<Action>)
    returns (longer: seq<State>, more: seq<Action>)
    requires IsRun(sampled, states, actions) && states[|actions|] == State(None, {}, {}, [Reader(e), Reader(f)])
    ensures IsRun(sampled, longer, more) && more == actions + [Lock(0), Commit(0), Lock(1), Commit(1)]
    ensures var last := longer[|more|];
            View(last) == MergeBatch(MERGE_DEFAULTS, [f], sampled) && last.kept == Elems([f]) &&
                last.committed == Elems([e]) + Elems([f])
  {
    longer, more := WriteRow(sampled, states, actions, 0);
    longer, more := WriteRow(sampled, longer, more, 1);
  }

  lemma OnlyShowsItself(sampled: bool, f: Event)
    requires !f.status.Error?
    ensures !MergeBatch(MERGE_DEFAULTS, [f], sampled).status.Error?
  {
    assert [f][..0] == [];
    assert SortByTime([f]) == [f] && MergeEvents(MERGE_DEFAULTS, [f]) == MergeEvent(MERGE_DEFAULTS, f);
  }

  /** A failure is lost for good: both read the missing row, the first commits a failed event, and the second
      overwrites the row with its own merge, which shows no error. */
  lemma FailureIsLost(sampled: bool, e: Event, f: Event) returns (states: seq<State>, actions: seq<Action>)
    requires e.status.Error? && !f.status.Error?
    ensures IsRun(sampled, states, actions) && Among(actions, {e, f})
    ensures var last := states[|actions|];
            last.committed == {e, f} && last.kept == {f} && !Describes(View(last), last.committed, sampled)
  {
    states, actions := BothRead(sampled, e, f);
    states, actions := BothCommit(sampled, e, f, states, actions);
    OnlyShowsItself(sampled, f);
    assert Elems([e]) == {e} && Elems([f]) == {f};
    assert e in states[|actions|].committed;
    var last := states[|actions|];
    assert HasError(last.committed);
    if Describes(View(last), last.committed, sampled) { Described(View(last), last.committed, sampled); }
  }
}
