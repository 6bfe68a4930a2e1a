/** At-least-once delivery: one consumer group's pending list, the dead-letter table and the consumers'
    read, reclaim, process, acknowledge and dead-letter steps.  Crashes lose what a consumer had in hand
    and nothing else; an acknowledgement or a dead-letter insert may fail and is then swallowed.  */
module Delivery {
  import opened Ids
  import opened Wrappers

  const LOCK_CONFLICT_RETRIES := 3

  datatype Settings = Settings(maxDeliveryAttempts: nat, claimMinIdle: int, batchSize: nat)

  /** One row of XPENDING: how often and when the message was last delivered. */
  datatype Entry = Entry(count: nat, deliveredAt: int)

  datatype Reason = HandlerAck | HandlerDead | Poison

  /** How a message left the pending list, and whether its dead-letter row existed by then. */
  datatype Exit = Exit(reason: Reason, recorded: bool)

  /** One delivery of some messages to one consumer; `calls` counts the calls of `process` on it. */
  datatype Batch = Batch(ids: seq<Id>, inHand: bool, calls: nat)

  /** `batches` is the history of all deliveries, `exits` of all departures. */
  datatype Group = Group(pending: map<Id, Entry>, dead: map<Id, nat>, exits: map<Id, Exit>, batches: seq<Batch>)

  const NEW_GROUP := Group(map[], map[], map[], [])

  predicate Distinct(ids: seq<Id>)
  {
    forall i, j :: 0 <= i < j < |ids| ==> ids[i] != ids[j]
  }

  function Deliveries(batches: seq<Batch>, m: Id): nat
  {
    if batches == [] then 0
    else Deliveries(batches[..|batches| - 1], m) + (if m in batches[|batches| - 1].ids then 1 else 0)
  }

  /** Calls of the handler on deliveries of m. */
  function Calls(batches: seq<Batch>, m: Id): nat
  {
    if batches == [] then 0
    else
      var last := batches[|batches| - 1];
      Calls(batches[..|batches| - 1], m) + if m in last.ids then last.calls else 0
  }

  // ------------------------------------------------------------- reclaiming

  predicate IsPoison(cfg: Settings, pending: map<Id, Entry>, m: Id)
  {
    m in pending && pending[m].count > cfg.maxDeliveryAttempts
  }

  predicate IsClaimable(cfg: Settings, pending: map<Id, Entry>, m: Id, now: int)
  {
    m in pending && !IsPoison(cfg, pending, m) && now - pending[m].deliveredAt >= cfg.claimMinIdle
  }

  /** XPENDING - + COUNT n: the n smallest pending ids, in order. */
  ghost predicate IsWindow(cfg: Settings, pending: map<Id, Entry>, window: seq<Id>)
  {
    && Ascending(window) && |window| <= cfg.batchSize
    && (forall m :: m in window ==> m in pending)
    && (|window| < cfg.batchSize ==> Elems(window) == pending.Keys)
    && (forall m, n :: m in pending && m !in window && n in window ==> n.order < m.order)
  }

  function Poisoned(cfg: Settings, pending: map<Id, Entry>, window: seq<Id>): seq<Id>
  {
    if window == [] then []
    else
      var front, m := Poisoned(cfg, pending, window[..|window| - 1]), window[|window| - 1];
      if IsPoison(cfg, pending, m) then front + [m] else front
  }

  function Claimable(cfg: Settings, pending: map<Id, Entry>, window: seq<Id>, now: int): seq<Id>
  {
    if window == [] then []
    else
      var front, m := Claimable(cfg, pending, window[..|window| - 1], now), window[|window| - 1];
      if IsClaimable(cfg, pending, m, now) then front + [m] else front
  }

  function InsertDead(dead: map<Id, nat>, ids: seq<Id>, counts: map<Id, Entry>, ok: bool): map<Id, nat>
  {
    if ok then (map m | m in ids :: if m in counts then counts[m].count else 0) + dead else dead
  }

  function Leave(g: Group, ids: seq<Id>, reasonOf: Id -> Reason, ok: bool): Group
  {
    if ok then
      g.(pending := g.pending - (set m | m in ids),
         exits := g.exits + map m | m in ids && m in g.pending :: Exit(reasonOf(m), m in g.dead))
    else g
  }

  /** One `_reclaim_pending` pass: dead-letter and acknowledge the poison, claim what has been idle. */
  function Reclaim(cfg: Settings, g: Group, now: int, window: seq<Id>, insertOk: bool, ackOk: bool): Group
  {
    var poison, claim := Poisoned(cfg, g.pending, window), Claimable(cfg, g.pending, window, now);
    var g1 := g.(dead := InsertDead(g.dead, poison, g.pending, insertOk));
    var g2 := Leave(g1, poison, m => Poison, ackOk);
    Deliver(g2, claim, now)
  }

  /** Hand messages to a consumer: a first delivery counts 1, a claim one more than before. */
  function Deliver(g: Group, ids: seq<Id>, now: int): Group
  {
    if ids == [] then g
    else g.(pending := g.pending +
        (map m | m in ids :: Entry(if m in g.pending then g.pending[m].count + 1 else 1, now)),
            batches := g.batches + [Batch(ids, true, 0)])
  }

  // ------------------------------------------------------------- processing

  datatype Outcome = Outcome(ack: seq<Id>, retry: seq<Id>, dead: seq<Id>)

  /** What one call of `process` does: returns, raises PermanentError, or raises anything else. */
  datatype Reply = Returned(outcome: Outcome) | RaisedPermanent | Raised(lockConflict: bool)

  /** The retry loop from a given attempt on: how many calls it makes, and the outcome unless it gives up. */
  function Attempts(ids: seq<Id>, reply: nat -> Reply, attempt: nat): (r: (nat, Option<Outcome>))
    requires attempt <= LOCK_CONFLICT_RETRIES
    ensures 1 <= r.0 <= LOCK_CONFLICT_RETRIES + 1 - attempt
    decreases LOCK_CONFLICT_RETRIES - attempt
  {
    match reply(attempt)
    case Returned(outcome) => (1, Some(outcome))
    case RaisedPermanent => (1, Some(Outcome([], [], ids)))
    case Raised(lockConflict) =>
      if lockConflict && attempt < LOCK_CONFLICT_RETRIES then
        var rest := Attempts(ids, reply, attempt + 1);
        (rest.0 + 1, rest.1)
      else (1, None)
  }

  /** One `_process_batch` of delivery b. */
  function Process(g: Group, b: nat, reply: nat -> Reply, insertOk: bool, ackOk: bool): Group
    requires b < |g.batches|
  {
    var batch := g.batches[b];
    var run := Attempts(batch.ids, reply, 0);
    var g1 := g.(batches := g.batches[b := Batch(batch.ids, false, run.0)]);
    if run.1.None? then g1
    else
      var o := run.1.value;
      var g2 := g1.(dead := InsertDead(g1.dead, o.dead, g1.pending, insertOk));
      Leave(g2, o.ack + o.dead, m => if m in o.dead then HandlerDead else HandlerAck, ackOk)
  }

  // -------------------------------------------------------------------- runs

  datatype Action =
    | ReadNew(ids: seq<Id>, now: int)
    | ReclaimPass(now: int, window: seq<Id>, insertOk: bool, ackOk: bool)
    | ProcessBatch(b: nat, reply: nat -> Reply, insertOk: bool, ackOk: bool)
    | AckLater(ids: seq<Id>, ackOk: bool)
    | Crash(b: nat)

  ghost predicate Enabled(cfg: Settings, g: Group, a: Action)
  {
    match a
    case ReadNew(ids, _) => Distinct(ids) && forall m :: m in ids ==> Deliveries(g.batches, m) == 0
    case ReclaimPass(_, window, _, _) => IsWindow(cfg, g.pending, window)
    case ProcessBatch(b, reply, _, _) =>
      && b < |g.batches| && g.batches[b].inHand
      // a handler dead-letters messages of the batch it was given
      && (forall n, m :: 0 <= n <= LOCK_CONFLICT_RETRIES && reply(n).Returned? && m in reply(n).outcome.dead ==>
          m in g.batches[b].ids)
    case AckLater(_, _) => true
    case Crash(b) => b < |g.batches| && g.batches[b].inHand
  }

  ghost function Step(cfg: Settings, g: Group, a: Action): Group
    requires Enabled(cfg, g, a)
  {
    match a
    case ReadNew(ids, now) => Deliver(g, ids, now)
    case ReclaimPass(now, window, insertOk, ackOk) => Reclaim(cfg, g, now, window, insertOk, ackOk)
    case ProcessBatch(b, reply, insertOk, ackOk) => Process(g, b, reply, insertOk, ackOk)
    case AckLater(ids, ackOk) => Leave(g, ids, m => HandlerAck, ackOk)
    case Crash(b) => g.(batches := g.batches[b := g.batches[b].(inHand := false)])
  }

  ghost predicate IsRun(cfg: Settings, states: seq<Group>, actions: seq<Action>)
  {
    && |states| == |actions| + 1 && states[0] == NEW_GROUP
    && forall n :: 0 <= n < |actions| ==>
        Enabled(cfg, states[n], actions[n]) && states[n + 1] == Step(cfg, states[n], actions[n])
  }

  // --------------------------------------------------------------- invariant

  /** One message: pending with its exact delivery count, gone for a stated reason, or never delivered. */
  ghost predicate MessageOk(cfg: Settings, g: Group, m: Id)
  {
    var d := Deliveries(g.batches, m);
    && d <= cfg.maxDeliveryAttempts + 1
    && (d > 0 <==> m in g.pending || m in g.exits)
    && !(m in g.pending && m in g.exits)
    && (m in g.pending ==> g.pending[m].count == d)
    && (m in g.dead ==> d > 0)
    && (m in g.exits && g.exits[m].recorded ==> m in g.dead)
    && (m in g.exits && g.exits[m].reason.Poison? ==> d == cfg.maxDeliveryAttempts + 1)
  }

  ghost predicate BatchesOk(batches: seq<Batch>)
  {
    forall n :: 0 <= n < |batches| ==>
      batches[n].calls <= LOCK_CONFLICT_RETRIES + 1 && (batches[n].inHand ==> batches[n].calls == 0)
  }

  ghost predicate Inv(cfg: Settings, g: Group)
  {
    BatchesOk(g.batches) && forall m :: MessageOk(cfg, g, m)
  }

  lemma {:induction false} FilterElems(cfg: Settings, pending: map<Id, Entry>, window: seq<Id>, now: int)
    ensures forall m :: m in Poisoned(cfg, pending, window) <==> m in window && IsPoison(cfg, pending, m)
    ensures forall m :: m in Claimable(cfg, pending, window, now) <==> m in window && IsClaimable(cfg, pending, m, now)
  {
    if window != [] {
      FilterElems(cfg, pending, window[..|window| - 1], now);
      assert window == window[..|window| - 1] + [window[|window| - 1]];
    }
  }

  /** Changing a batch's bookkeeping does not change what was delivered. */
  lemma {:induction false} SameDeliveries(batches: seq<Batch>, b: nat, x: Batch, m: Id)
    requires b < |batches| && x.ids == batches[b].ids
    ensures Deliveries(batches[b := x], m) == Deliveries(batches, m)
  {
    var last := |batches| - 1;
    if b == last {
      assert batches[b := x][..last] == batches[..last];
    } else {
      assert batches[b := x][..last] == batches[..last][b := x];
      SameDeliveries(batches[..last], b, x, m);
    }
  }

  lemma {:induction false} MemberDelivered(batches: seq<Batch>, b: nat, m: Id)
    requires b < |batches| && m in batches[b].ids
    ensures Deliveries(batches, m) > 0
  {
    if b < |batches| - 1 {
      assert batches[..|batches| - 1][b] == batches[b];
      MemberDelivered(batches[..|batches| - 1], b, m);
    }
  }

  lemma DeliverOk(cfg: Settings, g: Group, ids: seq<Id>, now: int, m: Id)
    requires MessageOk(cfg, g, m)
    requires m in ids ==> if m in g.pending then g.pending[m].count <= cfg.maxDeliveryAttempts
        else Deliveries(g.batches, m) == 0
    ensures MessageOk(cfg, Deliver(g, ids, now), m)
  {
  }

  lemma LeaveOk(cfg: Settings, g: Group, ids: seq<Id>, reasonOf: Id -> Reason, ok: bool, m: Id)
    requires MessageOk(cfg, g, m)
    requires m in ids && m in g.pending && reasonOf(m).Poison? ==> IsPoison(cfg, g.pending, m)
    ensures MessageOk(cfg, Leave(g, ids, reasonOf, ok), m)
  {
  }

  lemma ReclaimOk(cfg: Settings, g: Group, now: int, window: seq<Id>, insertOk: bool, ackOk: bool, m: Id)
    requires MessageOk(cfg, g, m)
    ensures MessageOk(cfg, Reclaim(cfg, g, now, window, insertOk, ackOk), m)
  {
    FilterElems(cfg, g.pending, window, now);
    var poison, claim := Poisoned(cfg, g.pending, window), Claimable(cfg, g.pending, window, now);
    var g1 := g.(dead := InsertDead(g.dead, poison, g.pending, insertOk));
    var g2 := Leave(g1, poison, m => Poison, ackOk);
    assert MessageOk(cfg, g1, m);
    LeaveOk(cfg, g1, poison, m => Poison, ackOk, m);
    DeliverOk(cfg, g2, claim, now, m);
  }

  lemma ProcessOk(cfg: Settings, g: Group, b: nat, reply: nat -> Reply, insertOk: bool, ackOk: bool, m: Id)
    requires MessageOk(cfg, g, m) && Enabled(cfg, g, ProcessBatch(b, reply, insertOk, ackOk))
    ensures MessageOk(cfg, Process(g, b, reply, insertOk, ackOk), m)
  {
    var batch := g.batches[b];
    var run := Attempts(batch.ids, reply, 0);
    SameDeliveries(g.batches, b, Batch(batch.ids, false, run.0), m);
    var g1 := g.(batches := g.batches[b := Batch(batch.ids, false, run.0)]);
    if run.1.Some? {
      var o := run.1.value;
      DeadAreMembers(batch.ids, reply, 0);
      var g2 := g1.(dead := InsertDead(g1.dead, o.dead, g1.pending, insertOk));
      if m in o.dead { MemberDelivered(g.batches, b, m); }
      assert MessageOk(cfg, g2, m);
      LeaveOk(cfg, g2, o.ack + o.dead, m => if m in o.dead then HandlerDead else HandlerAck, ackOk, m);
    }
  }

  lemma {:induction false} DeadAreMembers(ids: seq<Id>, reply: nat -> Reply, attempt: nat)
    requires attempt <= LOCK_CONFLICT_RETRIES
    requires forall n, m :: 0 <= n <= LOCK_CONFLICT_RETRIES && reply(n).Returned? && m in reply(n).outcome.dead ==>
        m in ids
    ensures var run := Attempts(ids, reply, attempt); run.1.Some? ==> forall m :: m in run.1.value.dead ==> m in ids
    decreases LOCK_CONFLICT_RETRIES - attempt
  {
  }

  lemma StepKeepsInv(cfg: Settings, g: Group, a: Action)
    requires Inv(cfg, g) && Enabled(cfg, g, a)
    ensures Inv(cfg, Step(cfg, g, a))
  {
    forall m ensures MessageOk(cfg, Step(cfg, g, a), m) {
      assert MessageOk(cfg, g, m);
      match a
      case ReadNew(ids, now) => DeliverOk(cfg, g, ids, now, m);
      case ReclaimPass(now, window, insertOk, ackOk) => ReclaimOk(cfg, g, now, window, insertOk, ackOk, m);
      case ProcessBatch(b, reply, insertOk, ackOk) => ProcessOk(cfg, g, b, reply, insertOk, ackOk, m);
      case AckLater(ids, ackOk) => LeaveOk(cfg, g, ids, m => HandlerAck, ackOk, m);
      case Crash(b) => SameDeliveries(g.batches, b, g.batches[b].(inHand := false), m);
    }
  }

  lemma {:induction false} RunKeepsInv(cfg: Settings, states: seq<Group>, actions: seq<Action>, n: nat)
    requires IsRun(cfg, states, actions) && n < |states|
    ensures Inv(cfg, states[n])
  {
    if n > 0 {
      RunKeepsInv(cfg, states, actions, n - 1);
      StepKeepsInv(cfg, states[n - 1], actions[n - 1]);
    }
  }

  // --------------------------------------------------- what each step comes to

  /** The n-th reply is the one that counts: all before it are lock conflicts, and it is no conflict or the last
      the loop waits for. */
  predicate Decides(reply: nat -> Reply, n: nat)
  {
    && n <= LOCK_CONFLICT_RETRIES && (forall k :: 0 <= k < n ==> reply(k) == Raised(true))
    && (n < LOCK_CONFLICT_RETRIES ==> reply(n) != Raised(true))
  }

  lemma {:induction false} SomeReplyDecides(reply: nat -> Reply, from: nat) returns (n: nat)
    requires from <= LOCK_CONFLICT_RETRIES && forall k :: 0 <= k < from ==> reply(k) == Raised(true)
    ensures Decides(reply, n)
    decreases LOCK_CONFLICT_RETRIES - from
  {
    n := from;
    if from < LOCK_CONFLICT_RETRIES && reply(from) == Raised(true) { n := SomeReplyDecides(reply, from + 1); }
  }

  /** What that reply says of the batch; nothing if it raises. */
  function Verdict(ids: seq<Id>, reply: Reply): Option<Outcome>
  {
    match reply
    case Returned(o) => Some(o)
    case RaisedPermanent => Some(Outcome([], [], ids))
    case Raised(_) => None
  }

  lemma {:induction false} DecidedBy(ids: seq<Id>, reply: nat -> Reply, attempt: nat, n: nat)
    requires Decides(reply, n) && attempt <= n
    ensures Attempts(ids, reply, attempt) == (n - attempt + 1, Verdict(ids, reply(n)))
    decreases n - attempt
  {
    if attempt < n { DecidedBy(ids, reply, attempt + 1, n); }
  }

  /** Where a message stands after a step: as before, or gone for this reason. */
  predicate Stays(before: Group, after: Group, m: Id)
  {
    && (m in after.pending <==> m in before.pending) && (m in after.pending ==> after.pending[m] == before.pending[m])
    && (m in after.exits <==> m in before.exits) && (m in after.exits ==> after.exits[m] == before.exits[m])
  }

  predicate Leaves(before: Group, after: Group, m: Id, reason: Reason)
  {
    && m in before.pending && m !in after.pending
    && m in after.exits && after.exits[m].reason == reason && after.exits[m].recorded == (m in after.dead)
  }

  /** m has a dead-letter row: the one it had, or a new one with its delivery count. */
  predicate Buried(before: Group, after: Group, m: Id)
  {
    m in after.dead && after.dead[m] ==
      if m in before.dead then before.dead[m] else if m in before.pending then before.pending[m].count else 0
  }

  /** No dead-letter row of m comes, goes or changes. */
  predicate SameGrave(before: Group, after: Group, m: Id)
  {
    (m in after.dead <==> m in before.dead) && (m in after.dead ==> after.dead[m] == before.dead[m])
  }

  /** The handler has answered: what it acknowledged or gave up on leaves the pending list, if the
      acknowledgement succeeds; what it gave up on has its row, if the insert does; nothing else moves. */
  lemma AnsweredLeaves(cfg: Settings, g: Group, b: nat, reply: nat -> Reply, insertOk: bool, ackOk: bool, n: nat, m: Id)
    requires Enabled(cfg, g, ProcessBatch(b, reply, insertOk, ackOk)) && Decides(reply, n)
    requires Verdict(g.batches[b].ids, reply(n)).Some?
    ensures var o := Verdict(g.batches[b].ids, reply(n)).value;
            var next := Step(cfg, g, ProcessBatch(b, reply, insertOk, ackOk));
            && (if ackOk && m in g.pending && (m in o.ack || m in o.dead)
                then Leaves(g, next, m, if m in o.dead then HandlerDead else HandlerAck) else Stays(g, next, m))
            && (if insertOk && m in o.dead then Buried(g, next, m) else SameGrave(g, next, m))
            && next.batches == g.batches[b := Batch(g.batches[b].ids, false, n + 1)]
  {
    DecidedBy(g.batches[b].ids, reply, 0, n);
  }

  /** The handler keeps failing, or fails for another reason: only the calls are counted. */
  lemma GivenUpStays(cfg: Settings, g: Group, b: nat, reply: nat -> Reply, insertOk: bool, ackOk: bool, n: nat)
    requires Enabled(cfg, g, ProcessBatch(b, reply, insertOk, ackOk)) && Decides(reply, n)
    requires Verdict(g.batches[b].ids, reply(n)).None?
    ensures Step(cfg, g, ProcessBatch(b, reply, insertOk, ackOk)) ==
            g.(batches := g.batches[b := Batch(g.batches[b].ids, false, n + 1)])
  {
    DecidedBy(g.batches[b].ids, reply, 0, n);
  }

  /** One reclaim pass, message by message: out of attempts, it leaves as poison if the acknowledgement succeeds and
      gets its row if the insert does; else, idle long enough, it is delivered once more, now; else it stays. */
  lemma ReclaimedIs(cfg: Settings, g: Group, now: int, window: seq<Id>, insertOk: bool, ackOk: bool, m: Id)
    requires Enabled(cfg, g, ReclaimPass(now, window, insertOk, ackOk))
    ensures var next := Step(cfg, g, ReclaimPass(now, window, insertOk, ackOk));
            var tired := m in window && g.pending[m].count > cfg.maxDeliveryAttempts;
            && (if tired then (if ackOk then Leaves(g, next, m, Poison) else Stays(g, next, m))
                else if m in window && now - g.pending[m].deliveredAt >= cfg.claimMinIdle
                then m in next.pending && next.pending[m] == Entry(g.pending[m].count + 1, now)
                else Stays(g, next, m))
            && (if tired && insertOk then Buried(g, next, m) else SameGrave(g, next, m))
  {
    FilterElems(cfg, g.pending, window, now);
  }

  /** Such a pass hands over exactly the messages it delivers again, in the order of the window. */
  lemma ReclaimHandsOver(cfg: Settings, g: Group, now: int, window: seq<Id>, insertOk: bool, ackOk: bool)
    requires Enabled(cfg, g, ReclaimPass(now, window, insertOk, ackOk))
    ensures var next := Step(cfg, g, ReclaimPass(now, window, insertOk, ackOk));
            next.batches == g.batches ||
              (|next.batches| == |g.batches| + 1 && next.batches[..|g.batches|] == g.batches &&
               var last := next.batches[|g.batches|];
               last.inHand && last.calls == 0 && last.ids != [] && Ascending(last.ids) &&
               forall m :: m in last.ids <==>
                 m in window && g.pending[m].count <= cfg.maxDeliveryAttempts &&
                 now - g.pending[m].deliveredAt >= cfg.claimMinIdle)
  {
    FilterElems(cfg, g.pending, window, now);
    ClaimAscends(cfg, g.pending, window, now);
  }

  lemma {:induction false} ClaimAscends(cfg: Settings, pending: map<Id, Entry>, window: seq<Id>, now: int)
    requires Ascending(window)
    ensures Ascending(Claimable(cfg, pending, window, now))
  {
    if window != [] {
      var front := window[..|window| - 1];
      ClaimAscends(cfg, pending, front, now);
      FilterElems(cfg, pending, front, now);
      var last := window[|window| - 1];
      forall m | m in Claimable(cfg, pending, front, now) ensures m.order < last.order {
        var j :| 0 <= j < |front| && front[j] == m;
        assert window[j] == m;
      }
      assert forall j :: 0 <= j < |Claimable(cfg, pending, front, now)| ==>
          Claimable(cfg, pending, front, now)[j] in Claimable(cfg, pending, front, now);
    }
  }

  /** A read hands over what it read, in one batch, for the first time and now. */
  lemma ReadDelivers(cfg: Settings, g: Group, ids: seq<Id>, now: int, m: Id)
    requires Inv(cfg, g) && Enabled(cfg, g, ReadNew(ids, now))
    ensures var next := Step(cfg, g, ReadNew(ids, now));
            && (if m in ids then m !in g.pending && m in next.pending && next.pending[m] == Entry(1, now)
                else Stays(g, next, m))
            && SameGrave(g, next, m)
            && next.batches == g.batches + if ids == [] then [] else [Batch(ids, true, 0)]
  {
    assert MessageOk(cfg, g, m);
  }

  /** A late acknowledgement takes its messages off the list; a crash only loses what was in hand. */
  lemma AckOrCrash(cfg: Settings, g: Group, a: Action, m: Id)
    requires Enabled(cfg, g, a) && (a.AckLater? || a.Crash?)
    ensures var next := Step(cfg, g, a);
            && (if a.AckLater? && a.ackOk && m in a.ids && m in g.pending then Leaves(g, next, m, HandlerAck)
                else Stays(g, next, m))
            && SameGrave(g, next, m)
            && next.batches == if a.Crash? then g.batches[a.b := g.batches[a.b].(inHand := false)] else g.batches
  {
  }

  // ------------------------------------------------------------------ bounds

  lemma {:induction false} CallsBound(batches: seq<Batch>, m: Id)
    requires BatchesOk(batches)
    ensures Calls(batches, m) <= (LOCK_CONFLICT_RETRIES + 1) * Deliveries(batches, m)
  {
    if batches != [] {
      CallsBound(batches[..|batches| - 1], m);
    }
  }

  /** In every run a message is delivered at most max + 1 times, and handed to the handler at most four
      times per delivery. */
  lemma DeliveriesAreBounded(cfg: Settings, states: seq<Group>, actions: seq<Action>, n: nat, m: Id)
    requires IsRun(cfg, states, actions) && n < |states|
    ensures Deliveries(states[n].batches, m) <= cfg.maxDeliveryAttempts + 1
    ensures Calls(states[n].batches, m) <= 4 * Deliveries(states[n].batches, m)
  {
    RunKeepsInv(cfg, states, actions, n);
    assert MessageOk(cfg, states[n], m);
    CallsBound(states[n].batches, m);
  }

  /** No message is lost silently: whatever was ever delivered is pending or left for a stated reason,
      never both, and one that left recorded has its dead-letter row. */
  lemma NothingIsLost(cfg: Settings, states: seq<Group>, actions: seq<Action>, n: nat, m: Id)
    requires IsRun(cfg, states, actions) && n < |states|
    ensures Deliveries(states[n].batches, m) > 0 <==> m in states[n].pending || m in states[n].exits
    ensures !(m in states[n].pending && m in states[n].exits)
    ensures m in states[n].exits && states[n].exits[m].recorded ==> m in states[n].dead
    ensures m in states[n].exits && states[n].exits[m].reason.Poison? ==>
              Deliveries(states[n].batches, m) == cfg.maxDeliveryAttempts + 1
  {
    RunKeepsInv(cfg, states, actions, n);
    assert MessageOk(cfg, states[n], m);
  }

  /** An exit by dead-lettering is recorded unless the insert of that very step failed. */
  lemma DeadLetteredIsRecorded(cfg: Settings, g: Group, a: Action, m: Id)
    requires Inv(cfg, g) && Enabled(cfg, g, a)
    requires m in g.pending && m in Step(cfg, g, a).exits && !Step(cfg, g, a).exits[m].reason.HandlerAck?
    ensures (a.ReclaimPass? || a.ProcessBatch?) && (a.insertOk ==> Step(cfg, g, a).exits[m].recorded)
  {
    assert MessageOk(cfg, g, m);
    if a.ReclaimPass? { FilterElems(cfg, g.pending, a.window, a.now); }
  }

  /** The step hands m over. */
  ghost predicate Delivers(cfg: Settings, g: Group, a: Action, m: Id)
  {
    match a
    case ReadNew(ids, _) => m in ids
    case ReclaimPass(now, window, _, _) => m in window && IsClaimable(cfg, g.pending, m, now)
    case _ => false
  }

  lemma DeliveriesMade(cfg: Settings, g: Group, a: Action, m: Id)
    requires Enabled(cfg, g, a)
    ensures Deliveries(Step(cfg, g, a).batches, m) ==
        Deliveries(g.batches, m) + if Delivers(cfg, g, a, m) then 1 else 0
  {
    match a
    case ReclaimPass(now, window, _, _) => FilterElems(cfg, g.pending, window, now);
    case ProcessBatch(b, reply, _, _) =>
      SameDeliveries(g.batches, b, Batch(g.batches[b].ids, false, Attempts(g.batches[b].ids, reply, 0).0), m);
    case Crash(b) => SameDeliveries(g.batches, b, g.batches[b].(inHand := false), m);
    case _ =>
  }

  /** A message that left the pending list is never delivered again. */
  lemma {:induction false} GoneStaysGone(cfg: Settings, states: seq<Group>, actions: seq<Action>, first: nat, last: nat,
                                         m: Id)
    requires IsRun(cfg, states, actions) && first <= last <= |actions| && m in states[first].exits
    ensures m in states[last].exits
    ensures Deliveries(states[last].batches, m) == Deliveries(states[first].batches, m)
    decreases last
  {
    if first < last {
      GoneStaysGone(cfg, states, actions, first, last - 1, m);
      RunKeepsInv(cfg, states, actions, last - 1);
      assert Enabled(cfg, states[last - 1], actions[last - 1]);
      GoneStep(cfg, states[last - 1], actions[last - 1], m);
    }
  }

  lemma GoneStep(cfg: Settings, g: Group, a: Action, m: Id)
    requires Inv(cfg, g) && Enabled(cfg, g, a) && m in g.exits
    ensures m in Step(cfg, g, a).exits && Deliveries(Step(cfg, g, a).batches, m) == Deliveries(g.batches, m)
  {
    assert MessageOk(cfg, g, m);
    DeliveriesMade(cfg, g, a, m);
  }

  /** What a handler has acknowledged or given up on, the acknowledgement succeeding, is off the pending list for
      good: from that step on it is neither pending nor delivered again. */
  lemma HandledIsDone(cfg: Settings, states: seq<Group>, actions: seq<Action>, n: nat, k: nat, last: nat, m: Id)
    requires IsRun(cfg, states, actions) && n < last <= |actions| && actions[n].ProcessBatch? && actions[n].ackOk
    requires Decides(actions[n].reply, k) && actions[n].b < |states[n].batches|
    requires var o := Verdict(states[n].batches[actions[n].b].ids, actions[n].reply(k));
             o.Some? && (m in o.value.ack || m in o.value.dead)
    requires Deliveries(states[n].batches, m) > 0
    ensures m in states[last].exits && m !in states[last].pending
    ensures Deliveries(states[last].batches, m) == Deliveries(states[n].batches, m)
  {
    var g, a := states[n], actions[n];
    assert Enabled(cfg, g, a) && states[n + 1] == Step(cfg, g, a);
    RunKeepsInv(cfg, states, actions, n);
    assert MessageOk(cfg, g, m);
    AnsweredLeaves(cfg, g, a.b, a.reply, a.insertOk, a.ackOk, k, m);
    SameDeliveries(g.batches, a.b, Batch(g.batches[a.b].ids, false, k + 1), m);
    GoneStaysGone(cfg, states, actions, n + 1, last, m);
    NothingIsLost(cfg, states, actions, last, m);
  }

  /** When m was last delivered, by the steps of the run. */
  ghost function LastDelivered(states: seq<Group>, actions: seq<Action>, n: nat, m: Id): Option<int>
    requires n < |states| == |actions| + 1
  {
    if n == 0 then None
    else if Deliveries(states[n].batches, m) == Deliveries(states[n - 1].batches, m) then
      LastDelivered(states, actions, n - 1, m)
    else
      match actions[n - 1]
      case ReadNew(_, now) => Some(now)
      case ReclaimPass(now, _, _, _) => Some(now)
      case _ => None
  }

  lemma {:induction false} PendingSince(cfg: Settings, states: seq<Group>, actions: seq<Action>, n: nat, m: Id)
    requires IsRun(cfg, states, actions) && n < |states| && m in states[n].pending
    ensures LastDelivered(states, actions, n, m) == Some(states[n].pending[m].deliveredAt)
  {
    if n > 0 {
      var g, a := states[n - 1], actions[n - 1];
      assert Enabled(cfg, g, a) && states[n] == Step(cfg, g, a);
      if m in g.pending { PendingSince(cfg, states, actions, n - 1, m); }
      DeliveriesMade(cfg, g, a, m);
      DeliveredNow(cfg, g, a, m);
    }
  }

  /** A step delivers m and dates it, or leaves its entry as it was. */
  lemma DeliveredNow(cfg: Settings, g: Group, a: Action, m: Id)
    requires Enabled(cfg, g, a) && m in Step(cfg, g, a).pending
    ensures if Delivers(cfg, g, a, m) then Step(cfg, g, a).pending[m].deliveredAt == a.now
            else m in g.pending && Step(cfg, g, a).pending[m].deliveredAt == g.pending[m].deliveredAt
  {
    if a.ReclaimPass? { FilterElems(cfg, g.pending, a.window, a.now); }
  }

  /** A message is delivered again only by a reclaim pass, and only once its last delivery is as long ago as the
      idle time asks. */
  lemma NotClaimedTooSoon(cfg: Settings, states: seq<Group>, actions: seq<Action>, n: nat, m: Id)
    requires IsRun(cfg, states, actions) && n < |actions| && Deliveries(states[n].batches, m) > 0
    requires Deliveries(states[n + 1].batches, m) > Deliveries(states[n].batches, m)
    ensures actions[n].ReclaimPass? && LastDelivered(states, actions, n, m).Some?
    ensures actions[n].now - LastDelivered(states, actions, n, m).value >= cfg.claimMinIdle
  {
    var g, a := states[n], actions[n];
    assert Enabled(cfg, g, a) && states[n + 1] == Step(cfg, g, a);
    RunKeepsInv(cfg, states, actions, n);
    assert MessageOk(cfg, g, m);
    DeliveriesMade(cfg, g, a, m);
    if m in g.exits { GoneStep(cfg, g, a, m); }
    PendingSince(cfg, states, actions, n, m);
  }

  // -------------------------------------------------------------- draining

  /** The pass sees m: out of attempts and acknowledged away, or idle for long enough to be claimed. */
  ghost predicate Sees(cfg: Settings, g: Group, a: Action, m: Id)
  {
    && a.ReclaimPass? && m in a.window && m in g.pending
    && if IsPoison(cfg, g.pending, m) then a.ackOk else a.now - g.pending[m].deliveredAt >= cfg.claimMinIdle
  }

  function Rank(cfg: Settings, g: Group, m: Id): int
  {
    if m in g.pending then cfg.maxDeliveryAttempts + 2 - g.pending[m].count else 0
  }

  /** Such a pass raises the delivery count by one or removes the message as poison. */
  lemma SeenIsProgress(cfg: Settings, g: Group, a: Action, m: Id)
    requires Inv(cfg, g) && Enabled(cfg, g, a) && Sees(cfg, g, a, m)
    ensures var next := Step(cfg, g, a);
            if g.pending[m].count <= cfg.maxDeliveryAttempts
            then m in next.pending && next.pending[m].count == g.pending[m].count + 1
            else && m !in next.pending && m in next.exits && next.exits[m].reason.Poison?
                 && (a.insertOk ==> m in next.dead)
    ensures 0 <= Rank(cfg, Step(cfg, g, a), m) < Rank(cfg, g, m)
  {
    assert MessageOk(cfg, g, m);
    FilterElems(cfg, g.pending, a.window, a.now);
  }

  /** No step ever gives attempts back. */
  lemma RankNeverGrows(cfg: Settings, g: Group, a: Action, m: Id)
    requires Inv(cfg, g) && Enabled(cfg, g, a) && Deliveries(g.batches, m) > 0
    ensures Rank(cfg, Step(cfg, g, a), m) <= Rank(cfg, g, m)
    ensures Deliveries(Step(cfg, g, a).batches, m) > 0
  {
    assert MessageOk(cfg, g, m);
    StepKeepsInv(cfg, g, a);
    assert MessageOk(cfg, Step(cfg, g, a), m);
    if a.ReclaimPass? { FilterElems(cfg, g.pending, a.window, a.now); }
  }

  lemma RankStep(cfg: Settings, g: Group, a: Action, m: Id)
    requires Inv(cfg, g) && Enabled(cfg, g, a) && Deliveries(g.batches, m) > 0
    ensures Rank(cfg, Step(cfg, g, a), m) + (if Sees(cfg, g, a, m) then 1 else 0) <= Rank(cfg, g, m)
    ensures Deliveries(Step(cfg, g, a).batches, m) > 0
  {
    RankNeverGrows(cfg, g, a, m);
    if Sees(cfg, g, a, m) { SeenIsProgress(cfg, g, a, m); }
  }

  /** How many of the steps from `first` on saw m. */
  ghost function Seen(cfg: Settings, states: seq<Group>, actions: seq<Action>, first: nat, last: nat, m: Id): nat
    requires first <= last <= |actions| && |states| == |actions| + 1
    decreases last
  {
    if last == first then 0
    else
      Seen(cfg, states, actions, first, last - 1, m)
      + if Sees(cfg, states[last - 1], actions[last - 1], m) then 1 else 0
  }

  lemma {:induction false} SeenLowersRank(cfg: Settings, states: seq<Group>, actions: seq<Action>, first: nat,
                                          last: nat, m: Id)
    requires IsRun(cfg, states, actions) && first <= last <= |actions| && m in states[first].pending
    ensures Rank(cfg, states[last], m) + Seen(cfg, states, actions, first, last, m) <= Rank(cfg, states[first], m)
    ensures Deliveries(states[last].batches, m) > 0
    decreases last
  {
    if last == first {
      RunKeepsInv(cfg, states, actions, first);
      assert MessageOk(cfg, states[first], m);
    } else {
      SeenLowersRank(cfg, states, actions, first, last - 1, m);
      RunKeepsInv(cfg, states, actions, last - 1);
      var g, a := states[last - 1], actions[last - 1];
      assert Enabled(cfg, g, a) && states[last] == Step(cfg, g, a);
      RankStep(cfg, g, a, m);
    }
  }

  /** A message whose handler never succeeds still drains: once passes have seen it max + 1 times since
      it became pending, it is no longer pending, whatever happened in between. */
  lemma PoisonDrains(cfg: Settings, states: seq<Group>, actions: seq<Action>, first: nat, last: nat, m: Id)
    requires IsRun(cfg, states, actions) && first <= last <= |actions| && m in states[first].pending
    requires Seen(cfg, states, actions, first, last, m) >= cfg.maxDeliveryAttempts + 1
    ensures m !in states[last].pending
  {
    SeenLowersRank(cfg, states, actions, first, last, m);
    RunKeepsInv(cfg, states, actions, last);
    RunKeepsInv(cfg, states, actions, first);
    assert MessageOk(cfg, states[last], m) && MessageOk(cfg, states[first], m);
  }

  /** The smallest pending id is in every window, so the pending list cannot hide its oldest message. */
  lemma OldestIsSeen(cfg: Settings, pending: map<Id, Entry>, window: seq<Id>, m: Id)
    requires cfg.batchSize > 0 && IsWindow(cfg, pending, window) && m in pending
    requires forall n :: n in pending ==> m.order <= n.order
    ensures m in window
  {
    if |window| < cfg.batchSize {
      assert m in Elems(window);
    } else {
      assert window[0] in window;
    }
  }

  /** Nothing new is read, and a pass finds its window idle and can acknowledge its poison. */
  ghost predicate Quiet(cfg: Settings, g: Group, a: Action)
  {
    && !a.ReadNew?
    && (a.ReclaimPass? ==> forall m :: m in a.window ==> Sees(cfg, g, a, m))
  }

  function Passes(actions: seq<Action>): nat
  {
    if actions == [] then 0
    else Passes(actions[..|actions| - 1]) + (if actions[|actions| - 1].ReclaimPass? then 1 else 0)
  }

  function TotalRank(cfg: Settings, g: Group, ids: seq<Id>): int
  {
    if ids == [] then 0 else TotalRank(cfg, g, ids[..|ids| - 1]) + Rank(cfg, g, ids[|ids| - 1])
  }

  lemma {:induction false} TotalRankStep(cfg: Settings, g: Group, a: Action, ids: seq<Id>)
    requires Inv(cfg, g) && Enabled(cfg, g, a) && forall m :: m in ids ==> Deliveries(g.batches, m) > 0
    ensures TotalRank(cfg, Step(cfg, g, a), ids) <= TotalRank(cfg, g, ids)
    ensures forall m :: m in ids && Sees(cfg, g, a, m) ==> TotalRank(cfg, Step(cfg, g, a), ids) < TotalRank(cfg, g, ids)
  {
    if ids != [] {
      TotalRankStep(cfg, g, a, ids[..|ids| - 1]);
      RankStep(cfg, g, a, ids[|ids| - 1]);
      assert ids == ids[..|ids| - 1] + [ids[|ids| - 1]];
    }
  }

  lemma RankBounds(cfg: Settings, g: Group, m: Id)
    requires Inv(cfg, g)
    ensures 0 <= Rank(cfg, g, m) <= cfg.maxDeliveryAttempts + 1 && (m in g.pending ==> Rank(cfg, g, m) > 0)
  {
    assert MessageOk(cfg, g, m);
  }

  lemma {:induction false} TotalRankBounds(cfg: Settings, g: Group, ids: seq<Id>)
    requires Inv(cfg, g)
    ensures 0 <= TotalRank(cfg, g, ids) <= |ids| * (cfg.maxDeliveryAttempts + 1)
    ensures forall m :: m in ids && m in g.pending ==> TotalRank(cfg, g, ids) > 0
  {
    if ids != [] {
      var front, most := ids[..|ids| - 1], cfg.maxDeliveryAttempts + 1;
      TotalRankBounds(cfg, g, front);
      RankBounds(cfg, g, ids[|ids| - 1]);
      assert |ids| * most == |front| * most + most;
      assert ids == front + [ids[|ids| - 1]];
    }
  }

  /** Without a read nothing joins the pending list. */
  lemma NothingJoins(cfg: Settings, g: Group, a: Action)
    requires Enabled(cfg, g, a) && !a.ReadNew?
    ensures Step(cfg, g, a).pending.Keys <= g.pending.Keys
  {
    if a.ReclaimPass? { FilterElems(cfg, g.pending, a.window, a.now); }
  }

  ghost predicate Covers(g: Group, ids: seq<Id>)
  {
    g.pending.Keys <= Elems(ids) && forall m :: m in ids ==> Deliveries(g.batches, m) > 0
  }

  lemma QuietStep(cfg: Settings, g: Group, a: Action, ids: seq<Id>)
    requires cfg.batchSize > 0 && Inv(cfg, g) && Enabled(cfg, g, a) && Quiet(cfg, g, a) && Covers(g, ids)
    ensures Covers(Step(cfg, g, a), ids)
    ensures g.pending == map[] || TotalRank(cfg, Step(cfg, g, a), ids) +
        (if a.ReclaimPass? then 1 else 0) <= TotalRank(cfg, g, ids)
    ensures g.pending == map[] ==> Step(cfg, g, a).pending == map[]
  {
    NothingJoins(cfg, g, a);
    forall m | m in ids ensures Deliveries(Step(cfg, g, a).batches, m) > 0 { RankNeverGrows(cfg, g, a, m); }
    TotalRankStep(cfg, g, a, ids);
    if a.ReclaimPass? && g.pending.Keys != {} {
      var oldest := Least(g.pending.Keys);
      OldestIsSeen(cfg, g.pending, a.window, oldest);
      assert oldest in Elems(ids);
    }
    assert g.pending == map[] ==> Step(cfg, g, a).pending.Keys == {};
  }

  lemma {:induction false} QuietRun(cfg: Settings, states: seq<Group>, actions: seq<Action>, first: nat, last: nat,
                                    ids: seq<Id>)
    requires cfg.batchSize > 0 && IsRun(cfg, states, actions) && first <= last <= |actions|
    requires forall n :: first <= n < last ==> Quiet(cfg, states[n], actions[n])
    requires Covers(states[first], ids)
    ensures Covers(states[last], ids)
    ensures states[last].pending == map[] ||
              TotalRank(cfg, states[last], ids) + Passes(actions[first..last]) <= TotalRank(cfg, states[first], ids)
    decreases last
  {
    if last > first {
      QuietRun(cfg, states, actions, first, last - 1, ids);
      RunKeepsInv(cfg, states, actions, last - 1);
      assert states[last] == Step(cfg, states[last - 1], actions[last - 1]);
      QuietStep(cfg, states[last - 1], actions[last - 1], ids);
      OneMorePass(actions, first, last);
    }
  }

  lemma OneMorePass(actions: seq<Action>, first: nat, last: nat)
    requires first < last <= |actions|
    ensures Passes(actions[first..last]) ==
        Passes(actions[first..last - 1]) + if actions[last - 1].ReclaimPass? then 1 else 0
  {
    assert actions[first..last][..last - 1 - first] == actions[first..last - 1];
  }

  lemma PendingWasDelivered(cfg: Settings, g: Group, ids: seq<Id>)
    requires Inv(cfg, g) && Elems(ids) == g.pending.Keys
    ensures Covers(g, ids)
  {
    forall m | m in ids ensures Deliveries(g.batches, m) > 0 {
      assert m in Elems(ids) && MessageOk(cfg, g, m);
    }
  }

  /** The whole list drains: once nothing new is read, at most max + 1 passes for each pending message
      leave none, whatever the handlers do in between. */
  lemma EverythingDrains(cfg: Settings, states: seq<Group>, actions: seq<Action>, first: nat, last: nat)
    requires cfg.batchSize > 0 && IsRun(cfg, states, actions) && first <= last <= |actions|
    requires forall n :: first <= n < last ==> Quiet(cfg, states[n], actions[n])
    requires Passes(actions[first..last]) >= |states[first].pending| * (cfg.maxDeliveryAttempts + 1)
    ensures states[last].pending == map[]
  {
    var ids := SortedExists(states[first].pending.Keys);
    ListLength(ids, states[first].pending.Keys);
    RunKeepsInv(cfg, states, actions, first);
    RunKeepsInv(cfg, states, actions, last);
    PendingWasDelivered(cfg, states[first], ids);
    QuietRun(cfg, states, actions, first, last, ids);
    TotalRankBounds(cfg, states[first], ids);
    TotalRankBounds(cfg, states[last], ids);
    assert forall m :: m in states[last].pending ==> m in Elems(ids);
    assert states[last].pending.Keys == {};
  }

  lemma {:induction false} ListLength(r: seq<Id>, s: set<Id>)
    requires Lists(r, s)
    ensures |r| == |s|
  {
    if r != [] {
      var m := r[0];
      assert r == [m] + r[1..];
      assert Elems(r[1..]) == s - {m} by {
        forall x ensures x in r[1..] <==> x in s && x != m {
          if x in r[1..] { assert x in Elems(r); var k :| 1 <= k < |r| && r[k] == x; }
          if x in s && x != m { assert x in Elems(r); }
        }
      }
      ListLength(r[1..], s - {m});
    } else {
      assert Elems(r) == {};
    }
  }
}
