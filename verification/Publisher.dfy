/** The buffered publisher: producers put events on a bounded queue and never wait; one drain thread
    takes batches off it and writes them to the stream or drops them.  Producers, the drain thread and
    the connection interleave freely; a batch is written as a whole or not at all. */
module Publisher {
  import opened Ids

  /** A queue size of zero or less is no bound. */
  datatype Config = Config(queueSize: int, batchSize: nat)

  /** A producer between `put_nowait` and the counter that records how it went. */
  datatype Producer = Resting | Accepted | Refused

  datatype Drain = Testing | Filling | Holding | Writing | Exited

  /** `taken` and `sent` are history: the events whose fate is settled, and which of them were written. */
  datatype State = State(queue: seq<Id>, batch: seq<Id>, inFlight: nat, drain: Drain, stop: bool,
      producers: seq<Producer>,
                         calls: nat, queued: nat, droppedQueueFull: nat, droppedError: nat, published: nat,
                         stream: seq<Id>, taken: seq<Id>, sent: seq<bool>)

  datatype Step =
    | Put(i: nat, event: Id)
    | Count(i: nat)
    | Stop
    | Test
    | Take
    | EndFilling
    | Connect(ok: bool)
    | Write(ok: bool)

  predicate Full(cfg: Config, s: State)
  {
    cfg.queueSize > 0 && |s.queue| >= cfg.queueSize
  }

  predicate Enabled(cfg: Config, s: State, step: Step)
  {
    match step
    case Put(i, _) => i < |s.producers| && s.producers[i].Resting?
    case Count(i) => i < |s.producers| && !s.producers[i].Resting?
    case Stop => true
    case Test => s.drain.Testing?
    case Take => s.drain.Filling? && |s.batch| < cfg.batchSize && s.queue != []
    case EndFilling => s.drain.Filling?
    case Connect(_) => s.drain.Holding?
    case Write(_) => s.drain.Writing?
  }

  /** The batch in hand is written or dropped, and the loop starts over. */
  function Settle(s: State, ok: bool): State
  {
    s.(batch := [], inFlight := 0, drain := Testing, taken := s.taken + s.batch,
        sent := s.sent + seq(|s.batch|, _ => ok),
       stream := if ok then s.stream + s.batch else s.stream,
       published := if ok then s.published + |s.batch| else s.published,
       droppedError := if ok then s.droppedError else s.droppedError + |s.batch|)
  }

  function Next(cfg: Config, s: State, step: Step): State
    requires Enabled(cfg, s, step)
  {
    match step
    case Put(i, event) =>
      if Full(cfg, s) then s.(calls := s.calls + 1, producers := s.producers[i := Refused])
      else s.(calls := s.calls + 1, producers := s.producers[i := Accepted], queue := s.queue + [event])
    case Count(i) =>
      var t := s.(producers := s.producers[i := Resting]);
      if s.producers[i].Accepted? then t.(queued := s.queued + 1) else t.(droppedQueueFull := s.droppedQueueFull + 1)
    case Stop => s.(stop := true)
    case Test => s.(drain := if s.stop && s.queue == [] then Exited else Filling)
    case Take => s.(batch := s.batch + [s.queue[0]], queue := s.queue[1..])
    case EndFilling => if s.batch == [] then s.(drain := Testing) else s.(drain := Holding, inFlight := |s.batch|)
    case Connect(ok) => if ok then s.(drain := Writing) else Settle(s, false)
    case Write(ok) => Settle(s, ok)
  }

  function Fresh(producers: nat): State
  {
    State([], [], 0, Testing, false, seq(producers, _ => Resting), 0, 0, 0, 0, 0, [], [], [])
  }

  ghost predicate Reaches(cfg: Config, s: State, steps: seq<Step>, t: State)
    decreases |steps|
  {
    if steps == [] then s == t
    else Enabled(cfg, s, steps[0]) && Reaches(cfg, Next(cfg, s, steps[0]), steps[1..], t)
  }

  /** Every event a put has accepted, in the order of the puts. */
  function AllAccepted(s: State): seq<Id>
  {
    s.taken + s.batch + s.queue
  }

  function Uncounted(producers: seq<Producer>, which: Producer): nat
  {
    if producers == [] then 0
    else Uncounted(producers[..|producers| - 1], which) + if producers[|producers| - 1] == which then 1 else 0
  }

  lemma {:induction false} UncountedUpdate(producers: seq<Producer>, i: nat, p: Producer, which: Producer)
    requires i < |producers|
    ensures Uncounted(producers[i := p], which) + (if producers[i] == which then 1 else 0)
         == Uncounted(producers, which) + (if p == which then 1 else 0)
  {
    var front := producers[..|producers| - 1];
    if i < |producers| - 1 {
      UncountedUpdate(front, i, p, which);
      assert producers[i := p][..|producers| - 1] == front[i := p];
    } else {
      assert producers[i := p][..|producers| - 1] == front;
    }
  }

  lemma {:induction false} RestingUncounted(n: nat, which: Producer)
    requires which != Resting
    ensures Uncounted(seq(n, _ => Resting), which) == 0
  {
    if n > 0 {
      assert seq(n, _ => Resting)[..n - 1] == seq(n - 1, _ => Resting);
      RestingUncounted(n - 1, which);
    }
  }

  // --------------------------------------------------------- the order of events

  /** The marked elements, in order. */
  function Pick(s: seq<Id>, marks: seq<bool>): seq<Id>
    requires |s| == |marks|
  {
    if s == [] then []
    else Pick(s[..|s| - 1], marks[..|s| - 1]) + if marks[|s| - 1] then [s[|s| - 1]] else []
  }

  lemma {:induction false} PickMore(s: seq<Id>, marks: seq<bool>, more: seq<Id>, ok: bool)
    requires |s| == |marks|
    ensures Pick(s + more, marks + seq(|more|, _ => ok)) == Pick(s, marks) + if ok then more else []
    decreases more
  {
    var n := |more|;
    if n == 0 {
      assert s + more == s && marks + seq(n, _ => ok) == marks;
    } else {
      PickMore(s, marks, more[..n - 1], ok);
      assert (s + more)[..|s| + n - 1] == s + more[..n - 1];
      assert (marks + seq(n, _ => ok))[..|s| + n - 1] == marks + seq(n - 1, _ => ok);
    }
  }

  // ------------------------------------------------------------- what always holds

  ghost predicate Inv(cfg: Config, s: State)
  {
    && s.calls == s.queued + s.droppedQueueFull + Uncounted(s.producers, Accepted) + Uncounted(s.producers, Refused)
    && s.queued + Uncounted(s.producers, Accepted) == s.published + s.droppedError + |s.batch| + |s.queue|
    && |s.taken| == |s.sent| == s.published + s.droppedError && s.published == |s.stream|
    && s.stream == Pick(s.taken, s.sent)
    && (cfg.queueSize > 0 ==> |s.queue| <= cfg.queueSize) && |s.batch| <= cfg.batchSize
    && (s.drain.Testing? || s.drain.Exited? ==> s.batch == [])
    && s.inFlight == (if s.drain.Holding? || s.drain.Writing? then |s.batch| else 0)
  }

  lemma SettleKeepsInv(cfg: Config, s: State, ok: bool)
    requires Inv(cfg, s) && (s.drain.Holding? || s.drain.Writing?)
    ensures Inv(cfg, Settle(s, ok))
  {
    PickMore(s.taken, s.sent, s.batch, ok);
  }

  lemma ProducerKeepsInv(cfg: Config, s: State, step: Step)
    requires Inv(cfg, s) && Enabled(cfg, s, step) && (step.Put? || step.Count?)
    ensures Inv(cfg, Next(cfg, s, step))
  {
    var p := Next(cfg, s, step).producers[step.i];
    UncountedUpdate(s.producers, step.i, p, Accepted);
    UncountedUpdate(s.producers, step.i, p, Refused);
  }

  lemma StepKeepsInv(cfg: Config, s: State, step: Step)
    requires Inv(cfg, s) && Enabled(cfg, s, step)
    ensures Inv(cfg, Next(cfg, s, step))
  {
    if step.Put? || step.Count? {
      ProducerKeepsInv(cfg, s, step);
    } else if step.Write? || (step.Connect? && !step.ok) {
      SettleKeepsInv(cfg, s, step.Write? && step.ok);
    }
  }

  lemma {:induction false} RunKeepsInv(cfg: Config, s: State, steps: seq<Step>, t: State)
    requires Inv(cfg, s) && Reaches(cfg, s, steps, t)
    ensures Inv(cfg, t)
    decreases |steps|
  {
    if steps != [] {
      StepKeepsInv(cfg, s, steps[0]);
      RunKeepsInv(cfg, Next(cfg, s, steps[0]), steps[1..], t);
    }
  }

  /** Nothing is lost uncounted, in every reachable state; while no producer is between its put and its
      counter the two equations are exact. */
  lemma EveryEventIsAccountedFor(cfg: Config, n: nat, steps: seq<Step>, t: State)
    requires Reaches(cfg, Fresh(n), steps, t)
    ensures t.queued + t.droppedQueueFull <= t.calls <= t.queued + t.droppedQueueFull + n
    ensures (forall i :: 0 <= i < |t.producers| ==> t.producers[i].Resting?) ==>
              && t.calls == t.queued + t.droppedQueueFull
              && t.queued == t.published + t.droppedError + |t.queue| + |t.batch|
    ensures cfg.queueSize > 0 ==> |t.queue| <= cfg.queueSize
  {
    RestingUncounted(n, Accepted);
    RestingUncounted(n, Refused);
    RunKeepsInv(cfg, Fresh(n), steps, t);
    ProducersStay(cfg, Fresh(n), steps, t);
    UncountedAtMost(t.producers);
  }

  lemma {:induction false} ProducersStay(cfg: Config, s: State, steps: seq<Step>, t: State)
    requires Reaches(cfg, s, steps, t)
    ensures |t.producers| == |s.producers|
    decreases |steps|
  {
    if steps != [] { ProducersStay(cfg, Next(cfg, s, steps[0]), steps[1..], t); }
  }

  lemma {:induction false} UncountedAtMost(producers: seq<Producer>)
    ensures Uncounted(producers, Accepted) + Uncounted(producers, Refused) <= |producers|
    ensures (forall i :: 0 <= i < |producers| ==> producers[i].Resting?) ==>
              Uncounted(producers, Accepted) + Uncounted(producers, Refused) == 0
  {
    if producers != [] { UncountedAtMost(producers[..|producers| - 1]); }
  }

  /** The events accepted in a run, in the order of the puts. */
  function Puts(cfg: Config, s: State, steps: seq<Step>): seq<Id>
    decreases |steps|
  {
    if steps == [] || !Enabled(cfg, s, steps[0]) then []
    else
      (if steps[0].Put? && !Full(cfg, s) then [steps[0].event] else [])
      + Puts(cfg, Next(cfg, s, steps[0]), steps[1..])
  }

  lemma StepAccepts(cfg: Config, s: State, step: Step)
    requires Enabled(cfg, s, step)
    ensures AllAccepted(Next(cfg, s, step)) == AllAccepted(s) +
        (if step.Put? && !Full(cfg, s) then [step.event] else [])
  {
  }

  /** A put joins the end of the queue unless the queue has a bound and has reached it; then nothing but the call
      is counted. */
  lemma PutIsAcceptedIff(cfg: Config, s: State, i: nat, event: Id)
    requires Enabled(cfg, s, Put(i, event))
    ensures var t := Next(cfg, s, Put(i, event));
            if cfg.queueSize <= 0 || |s.queue| < cfg.queueSize then
              t.queue == s.queue + [event] && t.producers[i].Accepted? && t.stream == s.stream
            else t.queue == s.queue && t.producers[i].Refused? && t.stream == s.stream
  {
  }

  /** A write that succeeds puts the whole batch on the stream; any failure counts the whole batch as dropped. */
  lemma BatchIsSettled(cfg: Config, s: State, step: Step)
    requires Enabled(cfg, s, step) && (step.Write? || (step.Connect? && !step.ok))
    ensures var t := Next(cfg, s, step);
            && t.batch == [] && t.queue == s.queue
            && (if step.Write? && step.ok then
                  t.stream == s.stream + s.batch && t.published == s.published + |s.batch| &&
                  t.droppedError == s.droppedError
                else t.stream == s.stream && t.published == s.published &&
                     t.droppedError == s.droppedError + |s.batch|)
  {
  }

  lemma {:induction false} RunAccepts(cfg: Config, s: State, steps: seq<Step>, t: State)
    requires Reaches(cfg, s, steps, t)
    ensures AllAccepted(t) == AllAccepted(s) + Puts(cfg, s, steps)
    decreases |steps|
  {
    if steps != [] {
      StepAccepts(cfg, s, steps[0]);
      RunAccepts(cfg, Next(cfg, s, steps[0]), steps[1..], t);
    }
  }

  /** The stream is an in-order selection of the accepted events: nothing is written twice, out of order
      or uninvited, and the selection leaves out exactly what was dropped or is still on its way. */
  lemma StreamIsInOrder(cfg: Config, n: nat, steps: seq<Step>, t: State)
    requires Reaches(cfg, Fresh(n), steps, t)
    ensures exists marks: seq<bool> ::
              |marks| == |Puts(cfg, Fresh(n), steps)| && t.stream == Pick(Puts(cfg, Fresh(n), steps), marks)
    ensures t.published == |t.stream|
    ensures |Puts(cfg, Fresh(n), steps)| == t.published + t.droppedError + |t.batch| + |t.queue|
  {
    RestingUncounted(n, Accepted);
    RestingUncounted(n, Refused);
    RunKeepsInv(cfg, Fresh(n), steps, t);
    RunAccepts(cfg, Fresh(n), steps, t);
    var rest := t.batch + t.queue;
    PickMore(t.taken, t.sent, rest, false);
    var accepted := Puts(cfg, Fresh(n), steps);
    assert accepted == AllAccepted(t) == t.taken + rest;
    assert t.stream == Pick(accepted, t.sent + seq(|rest|, _ => false));
  }

  /** When the drain thread exits, every event accepted so far has been written or counted as dropped. */
  lemma ExitLeavesNothing(cfg: Config, n: nat, steps: seq<Step>, t: State)
    requires Reaches(cfg, Fresh(n), steps, t) && t.drain.Testing? && Next(cfg, t, Test).drain.Exited?
    ensures t.stop && t.queue == [] && t.batch == []
    ensures |Puts(cfg, Fresh(n), steps)| == t.published + t.droppedError
  {
    StreamIsInOrder(cfg, n, steps, t);
    RestingUncounted(n, Accepted);
    RestingUncounted(n, Refused);
    RunKeepsInv(cfg, Fresh(n), steps, t);
  }

  /** What `flush` looks at. */
  predicate LooksFlushed(s: State)
  {
    s.queue == [] && s.inFlight == 0
  }

  /** Exactly when the answer of `flush` is right: it is, unless the drain thread has taken events and has
      not yet stopped filling its batch, since only then are they counted in flight. */
  lemma FlushIsRightIff(cfg: Config, n: nat, steps: seq<Step>, t: State)
    requires Reaches(cfg, Fresh(n), steps, t) && LooksFlushed(t)
    ensures |Puts(cfg, Fresh(n), steps)| == t.published + t.droppedError <==> !(t.drain.Filling? && t.batch != [])
  {
    StreamIsInOrder(cfg, n, steps, t);
    RestingUncounted(n, Accepted);
    RestingUncounted(n, Refused);
    RunKeepsInv(cfg, Fresh(n), steps, t);
  }

  /** Such a moment can be reached: one event, taken but not yet in flight. */
  lemma FlushMayAnswerEarly(event: Id)
    ensures var cfg := Config(1, 1);
            exists steps, t :: Reaches(cfg, Fresh(1), steps, t) && LooksFlushed(t) && t.published + t.droppedError == 0
              && Puts(cfg, Fresh(1), steps) == [event]
  {
    var cfg, s0 := Config(1, 1), Fresh(1);
    var s1 := Next(cfg, s0, Test);
    var s2 := Next(cfg, s1, Put(0, event));
    var s3 := Next(cfg, s2, Take);
    var steps := [Test, Put(0, event), Take];
    assert steps[1..] == [Put(0, event), Take] && steps[1..][1..] == [Take] && [Take][1..] == [];
    assert Reaches(cfg, s2, [Take], s3);
    assert Reaches(cfg, s1, [Put(0, event), Take], s3);
    assert Reaches(cfg, s0, steps, s3);
    assert Puts(cfg, s2, [Take]) == [];
    assert Puts(cfg, s1, [Put(0, event), Take]) == [event];
    assert Puts(cfg, s0, steps) == [event];
  }

  // ------------------------------------------------------ the publisher's methods

  class RedisStreamPublisher {
    const cfg: Config
    var queue: seq<Id>
    var inFlight: nat
    var stop: bool
    var queued: nat
    var droppedQueueFull: nat
    var droppedError: nat
    var published: nat
    var stream: seq<Id>

    constructor (cfg: Config)
      ensures this.cfg == cfg && queue == [] && stream == [] && inFlight == 0 && !stop
      ensures queued == droppedQueueFull == droppedError == published == 0
    {
      this.cfg, queue, stream, inFlight, stop := cfg, [], [], 0, false;
      queued, droppedQueueFull, droppedError, published := 0, 0, 0, 0;
    }

    /** The object as a state of the protocol, with one producer and the history given. */
    ghost function View(batch: seq<Id>, drain: Drain, producer: Producer, calls: nat, taken: seq<Id>,
                        sent: seq<bool>): State
      reads this
    {
      State(queue, batch, inFlight, drain, stop, [producer], calls, queued, droppedQueueFull, droppedError, published,
          stream, taken, sent)
    }

    /** `publish` is a put and its counter; an event is refused exactly when the queue is full. */
    method Publish(event: Id, ghost drain: Drain, ghost batch: seq<Id>, ghost calls: nat, ghost taken: seq<Id>,
                   ghost sent: seq<bool>)
      returns (ok: bool)
      modifies `queue, `queued, `droppedQueueFull
      ensures ok <==> cfg.queueSize <= 0 || |old(queue)| < cfg.queueSize
      ensures queue == old(queue) + if ok then [event] else []
      ensures if ok then queued == old(queued) + 1 && droppedQueueFull == old(droppedQueueFull)
              else queued == old(queued) && droppedQueueFull == old(droppedQueueFull) + 1
      ensures Reaches(cfg, old(View(batch, drain, Resting, calls, taken, sent)), [Put(0, event), Count(0)],
                      View(batch, drain, Resting, calls + 1, taken, sent))
    {
      ghost var s := View(batch, drain, Resting, calls, taken, sent);
      ok := !(cfg.queueSize > 0 && |queue| >= cfg.queueSize);
      if ok {
        queue := queue + [event];
        queued := queued + 1;
      } else {
        droppedQueueFull := droppedQueueFull + 1;
      }
      assert [Put(0, event), Count(0)][1..] == [Count(0)] && [Count(0)][1..] == [];
      assert Reaches(cfg, Next(cfg, s, Put(0, event)), [Count(0)], View(batch, drain, Resting, calls + 1, taken, sent));
    }

    /** Take events until the batch is full, the queue is empty, or the time is up after `patience` gets. */
    method DrainBatch(patience: nat) returns (batch: seq<Id>)
      modifies `queue
      ensures batch + queue == old(queue) && |batch| <= cfg.batchSize && |batch| <= patience
      ensures |batch| < cfg.batchSize && |batch| < patience ==> queue == []
    {
      batch := [];
      while |batch| < cfg.batchSize && |batch| < patience && queue != []
        invariant batch + queue == old(queue) && |batch| <= cfg.batchSize && |batch| <= patience
        decreases |queue|
      {
        assert queue == [queue[0]] + queue[1..];
        batch := batch + [queue[0]];
        queue := queue[1..];
      }
    }

    /** One turn of the drain loop: what was taken is written in order, or counted as dropped. */
    method RunOnce(patience: nat, connects: bool, writes: bool) returns (exits: bool, ghost batch: seq<Id>)
      requires inFlight == 0
      modifies `queue, `inFlight, `droppedError, `published, `stream
      ensures exits <==> old(stop && queue == [])
      ensures inFlight == 0 && batch + queue == old(queue)
      ensures exits ==> batch == []
      ensures connects && writes ==>
                stream == old(stream) + batch && published == old(published) + |batch| &&
                    droppedError == old(droppedError)
      ensures !(connects && writes) ==>
                stream == old(stream) && published == old(published) && droppedError == old(droppedError) + |batch|
    {
      batch := [];
      exits := stop && queue == [];
      if exits { return; }
      var taken := DrainBatch(patience);
      batch := taken;
      if taken == [] { return; }
      inFlight := |taken|;
      if !connects {
        droppedError := droppedError + |taken|;
      } else if writes {
        stream := stream + taken;
        published := published + |taken|;
      } else {
        droppedError := droppedError + |taken|;
      }
      inFlight := 0;
    }
  }
}
