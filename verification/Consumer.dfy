/** `StreamConsumer` as code, each method tied to its step of the delivery protocol.  */
module Consumer {
  import opened Ids
  import opened Wrappers
  import opened Delivery

  datatype Stats = Stats(batches: nat, processed: nat, failed: nat, deadLettered: nat)

  class StreamConsumer {
    const cfg: Settings
    const claimInterval: int
    var pending: map<Id, Entry>
    var dead: map<Id, nat>
    var exits: map<Id, Exit>
    var batches: seq<Batch>
    var stats: Stats
    var lastClaimAt: int

    constructor (cfg: Settings, claimInterval: int)
      ensures this.cfg == cfg && this.claimInterval == claimInterval
      ensures Snapshot() == NEW_GROUP && stats == Stats(0, 0, 0, 0) && lastClaimAt == 0
    {
      this.cfg, this.claimInterval := cfg, claimInterval;
      pending, dead, exits, batches := map[], map[], map[], [];
      stats, lastClaimAt := Stats(0, 0, 0, 0), 0;
    }

    ghost function Snapshot(): Group
      reads this
    {
      Group(pending, dead, exits, batches)
    }

    /** At most once per interval: claim what has been idle, and dispose of what has been tried too often. */
    method ReclaimPending(now: int, window: seq<Id>, insertOk: bool, ackOk: bool) returns (messages: seq<Id>)
      requires IsWindow(cfg, pending, window)
      modifies this
      ensures var due := now - old(lastClaimAt) >= claimInterval;
              && Snapshot() == (if due then Reclaim(cfg, old(Snapshot()), now, window, insertOk, ackOk)
                  else old(Snapshot()))
              && messages == (if due then Claimable(cfg, old(pending), window, now) else [])
              && lastClaimAt == (if due then now else old(lastClaimAt))
              && stats == old(stats).(deadLettered := old(stats).deadLettered +
                                      (if due && insertOk then |Poisoned(cfg, old(pending), window)| else 0))
    {
      if now - lastClaimAt < claimInterval { return []; }
      lastClaimAt := now;
      var poison, claimable: seq<Id> := [], [];
      for i := 0 to |window|
        invariant poison == Poisoned(cfg, pending, window[..i])
        invariant claimable == Claimable(cfg, pending, window[..i], now)
      {
        assert window[..i + 1][..i] == window[..i];
        assert window[i] in window;
        var entry := pending[window[i]];
        if entry.count > cfg.maxDeliveryAttempts {
          poison := poison + [window[i]];
        } else if now - entry.deliveredAt >= cfg.claimMinIdle {
          claimable := claimable + [window[i]];
        }
      }
      assert window[..|window|] == window;
      ghost var before := Snapshot();
      FilterElems(cfg, pending, window, now);
      if poison != [] {
        DeadLetterIds(poison, insertOk, ackOk);
      } else {
        NothingToLeave(before, ackOk);
      }
      Claim(claimable, now);
      return claimable;
    }

    /** Record the messages that are out of attempts, and take them off the pending list. */
    method DeadLetterIds(ids: seq<Id>, insertOk: bool, ackOk: bool)
      modifies `pending, `dead, `exits, `stats
      ensures var g := old(Snapshot()).(dead := InsertDead(old(dead), ids, old(pending), insertOk));
              Snapshot() == Leave(g, ids, m => Poison, ackOk)
      ensures stats == old(stats).(deadLettered := old(stats).deadLettered + (if insertOk then |ids| else 0))
    {
      WriteDeadLetters(ids, insertOk);
      Acknowledge(ids, m => Poison, ackOk);
    }

    /** Insert-ignore one row per message; a failing insert is logged and swallowed. */
    method WriteDeadLetters(ids: seq<Id>, insertOk: bool)
      modifies `dead, `stats
      ensures dead == InsertDead(old(dead), ids, pending, insertOk)
      ensures stats == old(stats).(deadLettered := old(stats).deadLettered + (if insertOk then |ids| else 0))
    {
      if !insertOk { return; }
      var rows: map<Id, nat> := map[];
      for i := 0 to |ids|
        invariant rows == map m | m in ids[..i] :: if m in pending then pending[m].count else 0
        invariant dead == old(dead) && stats == old(stats)
      {
        assert ids[..i + 1] == ids[..i] + [ids[i]];
        rows := rows[ids[i] := if ids[i] in pending then pending[ids[i]].count else 0];
      }
      assert ids[..|ids|] == ids;
      dead := rows + dead;
      stats := stats.(deadLettered := stats.deadLettered + |ids|);
    }

    /** XACK: remove from the pending list whatever is still there. */
    method Acknowledge(ids: seq<Id>, reasonOf: Id -> Reason, ackOk: bool)
      modifies `pending, `exits
      ensures Snapshot() == Leave(old(Snapshot()), ids, reasonOf, ackOk)
    {
      if ackOk {
        exits := exits + map m | m in ids && m in pending :: Exit(reasonOf(m), m in dead);
        pending := pending - set m | m in ids;
      }
    }

    /** XCLAIM or XREADGROUP: hand the messages over, counting the delivery. */
    method Claim(ids: seq<Id>, now: int)
      modifies `pending, `batches
      ensures Snapshot() == Deliver(old(Snapshot()), ids, now)
    {
      if ids == [] { return; }
      pending := pending + map m | m in ids :: Entry(if m in pending then pending[m].count + 1 else 1, now);
      batches := batches + [Batch(ids, true, 0)];
    }

    /** Run the handler on one delivery, retrying lock conflicts at once; then dead-letter and acknowledge. */
    method ProcessDelivery(b: nat, reply: nat -> Reply, insertOk: bool, ackOk: bool)
      requires b < |batches|
      modifies this
      ensures Snapshot() == Process(old(Snapshot()), b, reply, insertOk, ackOk)
      ensures lastClaimAt == old(lastClaimAt) && stats.batches == old(stats).batches + 1
      ensures var run := Attempts(old(batches)[b].ids, reply, 0);
              && stats.processed == old(stats).processed + (if run.1.Some? then |run.1.value.ack| else 0)
              && stats.failed == old(stats).failed +
                  (if run.1.Some? then |run.1.value.retry| else |old(batches)[b].ids|)
              && stats.deadLettered == old(stats).deadLettered +
                  (if run.1.Some? && insertOk then |run.1.value.dead| else 0)
    {
      stats := stats.(batches := stats.batches + 1);
      var ids := batches[b].ids;
      var attempt, calls: nat := 0, 0;
      var outcome: Option<Outcome> := None;
      var running := true;
      while running
        invariant attempt <= LOCK_CONFLICT_RETRIES
        invariant running ==> calls == attempt && outcome == None
        invariant running ==> Attempts(ids, reply, 0).0 == calls + Attempts(ids, reply, attempt).0
        invariant running ==> Attempts(ids, reply, 0).1 == Attempts(ids, reply, attempt).1
        invariant !running ==> Attempts(ids, reply, 0) == (calls, outcome)
        decreases running, LOCK_CONFLICT_RETRIES - attempt
      {
        calls := calls + 1;
        match reply(attempt)
        case Returned(o) =>
          outcome, running := Some(o), false;
        case RaisedPermanent =>
          outcome, running := Some(Outcome([], [], ids)), false;
        case Raised(lockConflict) =>
          if lockConflict && attempt < LOCK_CONFLICT_RETRIES {
            attempt := attempt + 1;
          } else {
            running := false;
          }
      }
      batches := batches[b := Batch(ids, false, calls)];
      if outcome.None? {
        stats := stats.(failed := stats.failed + |ids|);
        return;
      }
      var o := outcome.value;
      WriteDeadLetters(o.dead, insertOk);
      Acknowledge(o.ack + o.dead, m => if m in o.dead then HandlerDead else HandlerAck, ackOk);
      stats := stats.(processed := stats.processed + |o.ack|, failed := stats.failed + |o.retry|);
    }
  }

  lemma NothingToLeave(g: Group, ackOk: bool)
    ensures Leave(g.(dead := InsertDead(g.dead, [], g.pending, ackOk)), [], m => Poison, ackOk) == g
    ensures forall ok :: InsertDead(g.dead, [], g.pending, ok) == g.dead
    ensures Leave(g, [], m => Poison, ackOk) == g
  {
  }

  /** `parse`: every message of the batch is either parsed or dead-lettered, and exactly once. */
  method Parse(messages: seq<Id>, parseable: Id -> bool) returns (parsed: seq<Id>, dead: seq<Id>)
    ensures forall i :: 0 <= i < |parsed| ==> parseable(parsed[i])
    ensures forall i :: 0 <= i < |dead| ==> !parseable(dead[i])
    ensures multiset(parsed) + multiset(dead) == multiset(messages)
  {
    parsed, dead := [], [];
    for i := 0 to |messages|
      invariant forall j :: 0 <= j < |parsed| ==> parseable(parsed[j])
      invariant forall j :: 0 <= j < |dead| ==> !parseable(dead[j])
      invariant multiset(parsed) + multiset(dead) == multiset(messages[..i])
    {
      assert messages[..i + 1] == messages[..i] + [messages[i]];
      if parseable(messages[i]) {
        parsed := parsed + [messages[i]];
      } else {
        dead := dead + [messages[i]];
      }
    }
    assert messages[..|messages|] == messages;
  }
}
