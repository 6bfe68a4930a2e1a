/** The eval scorer's buffer of deliberately unacknowledged messages: what each flush does with every
    entry it takes out.  One tenant's pass is one atomic step against the trace table; the time, the
    budget verdict, the judge's answers and the places where a pass may raise are inputs.  */
module EvalBuffer {
  import opened Ids
  import opened TraceMerge

  datatype Buffered = Buffered(message: Id, trace: Id, tenant: Id, firstSeen: int, attempts: nat)

  /** A parsed event as `process` looks at it. */
  datatype Incoming = Incoming(message: Id, trace: Id, tenant: Id, isTraceEnd: bool)

  /** Only the end of a sampled trace is worth a score. */
  predicate Wanted(x: Incoming, enabled: bool, sampled: Id -> bool)
  {
    x.isTraceEnd && enabled && sampled(x.trace)
  }

  /** A buffered copy of one of the wanted events, first seen now. */
  ghost predicate IsNewEntry(e: Buffered, events: seq<Incoming>, enabled: bool, sampled: Id -> bool, now: int)
  {
    && e.firstSeen == now && e.attempts == 0
    && exists x :: x in events && Wanted(x, enabled, sampled) &&
        x.message == e.message && x.trace == e.trace && x.tenant == e.tenant
  }

  lemma NewEntry(events: seq<Incoming>, i: nat, enabled: bool, sampled: Id -> bool, now: int)
    requires i < |events| && Wanted(events[i], enabled, sampled)
    ensures IsNewEntry(Buffered(events[i].message, events[i].trace, events[i].tenant, now, 0), events, enabled, sampled,
        now)
  {
    assert events[i] in events;
  }

  /** What one tenant's pass runs into.  `graded(i)` says whether the verdict on sample i has scores. */
  datatype Pass = Pass(now: int, raisesEarly: bool, allowed: bool, scorable: Id -> bool, raisesLate: bool,
      graded: nat -> bool)

  predicate IsFinal(s: EvalStatus)
  {
    s.Scored? || s.Failed? || s.NotScorable? || s.SkippedBudget?
  }

  predicate DistinctMessages(b: seq<Buffered>)
  {
    forall i, j :: 0 <= i < j < |b| ==> b[i].message != b[j].message
  }

  function Messages(b: seq<Buffered>): set<Id>
  {
    set e | e in b :: e.message
  }

  /** The rows an `UPDATE ... WHERE trace_id IN (...)` changes are the ones that exist. */
  function SetStatus(table: map<Id, EvalStatus>, ids: set<Id>, s: EvalStatus): map<Id, EvalStatus>
  {
    map t | t in table :: if t in ids then s else table[t]
  }

  // --------------------------------------------------------- sorting a batch

  /** Nothing can be said of the trace before its row shows more. */
  predicate IsWaiting(table: map<Id, EvalStatus>, scorable: Id -> bool, t: Id)
  {
    t !in table || (!scorable(t) && table[t].NotSampled?)
  }

  predicate IsSample(table: map<Id, EvalStatus>, scorable: Id -> bool, t: Id)
  {
    t in table && scorable(t)
  }

  predicate IsUnscorable(table: map<Id, EvalStatus>, scorable: Id -> bool, t: Id)
  {
    t in table && !scorable(t) && !table[t].NotSampled?
  }

  predicate IsDeferred(table: map<Id, EvalStatus>, pass: Pass, timeout: int, e: Buffered)
  {
    IsWaiting(table, pass.scorable, e.trace) && pass.now - e.firstSeen < timeout
  }

  function TracesOf(entries: seq<Buffered>): set<Id>
  {
    set e | e in entries :: e.trace
  }

  function MessageList(entries: seq<Buffered>): seq<Id>
  {
    seq(|entries|, i requires 0 <= i < |entries| => entries[i].message)
  }

  /** Some entry of the trace waited the full window. */
  predicate IsAbandoned(table: map<Id, EvalStatus>, pass: Pass, timeout: int, entries: seq<Buffered>, t: Id)
  {
    IsWaiting(table, pass.scorable, t) && exists e :: e in entries && e.trace == t && pass.now - e.firstSeen >= timeout
  }

  predicate SampleFailed(samples: seq<Id>, graded: nat -> bool, t: Id)
  {
    exists i :: 0 <= i < |samples| && samples[i] == t && !graded(i)
  }

  function SamplesOf(table: map<Id, EvalStatus>, scorable: Id -> bool, entries: seq<Buffered>): seq<Id>
  {
    if entries == [] then []
    else
      var front, t := SamplesOf(table, scorable, entries[..|entries| - 1]), entries[|entries| - 1].trace;
      if IsSample(table, scorable, t) then front + [t] else front
  }

  /** The status a completed, allowed pass must leave on a trace it saw. */
  ghost function StatusAfter(table: map<Id, EvalStatus>, pass: Pass, timeout: int, entries: seq<Buffered>,
                             t: Id): EvalStatus
    requires t in table
  {
    if IsSample(table, pass.scorable, t) then
      if SampleFailed(SamplesOf(table, pass.scorable, entries), pass.graded, t) then Failed else Scored
    else if IsUnscorable(table, pass.scorable, t) || IsAbandoned(table, pass, timeout, entries, t) then NotScorable
    else table[t]
  }

  /** The entries of one tenant, in order. */
  function OfTenant(b: seq<Buffered>, tenant: Id): seq<Buffered>
  {
    if b == [] then []
    else
      var front, e := OfTenant(b[..|b| - 1], tenant), b[|b| - 1];
      if e.tenant == tenant then front + [e] else front
  }

  lemma {:induction false} OfTenantElems(b: seq<Buffered>, tenant: Id)
    ensures forall e :: e in OfTenant(b, tenant) <==> e in b && e.tenant == tenant
    ensures DistinctMessages(b) ==> DistinctMessages(OfTenant(b, tenant))
  {
    if b != [] {
      var front := b[..|b| - 1];
      OfTenantElems(front, tenant);
      assert b == front + [b[|b| - 1]];
      if DistinctMessages(b) {
        assert forall e :: e in OfTenant(front, tenant) ==> e.message != b[|b| - 1].message;
      }
    }
  }

  lemma {:induction false} SamplesElems(table: map<Id, EvalStatus>, scorable: Id -> bool, entries: seq<Buffered>)
    ensures forall t :: t in SamplesOf(table, scorable, entries) <==>
        IsSample(table, scorable, t) && exists e :: e in entries && e.trace == t
  {
    if entries != [] {
      var front, last := entries[..|entries| - 1], entries[|entries| - 1];
      SamplesElems(table, scorable, front);
      assert forall e :: e in entries <==> e in front || e == last;
    }
  }

  // ---------------------------------------------------- what a flush promises

  function Bumped(e: Buffered): Buffered
  {
    e.(attempts := e.attempts + 1)
  }

  function BumpAll(b: seq<Buffered>): seq<Buffered>
  {
    seq(|b|, i requires 0 <= i < |b| => Bumped(b[i]))
  }

  /** Still waiting for the storage writer: kept, with its first sighting, inside its time window. */
  ghost predicate Kept(e: Buffered, pass: Pass, timeout: int, buffer: seq<Buffered>, acked: set<Id>, held: set<Id>)
  {
    && Bumped(e) in buffer && e.message in held && e.message !in acked
    && !pass.raisesEarly && pass.allowed && pass.now - e.firstSeen < timeout
  }

  /** Reached a final answer; a trace whose row exists carries it. */
  ghost predicate Answered(e: Buffered, pass: Pass, acked: set<Id>, table: map<Id, EvalStatus>)
  {
    && e.message in acked && !pass.raisesEarly
    && (e.trace in table ==> IsFinal(table[e.trace]))
  }

  /** The tenant's pass raised: neither acknowledged nor held, so the redelivery is taken in again. */
  ghost predicate Dropped(e: Buffered, pass: Pass, acked: set<Id>, held: set<Id>)
  {
    e.message !in acked && e.message !in held && (pass.raisesEarly || (pass.allowed && pass.raisesLate))
  }

  ghost predicate Settled(e: Buffered, pass: Pass, timeout: int, buffer: seq<Buffered>, acked: set<Id>, held: set<Id>,
                          table: map<Id, EvalStatus>)
  {
    Kept(e, pass, timeout, buffer, acked, held) || Answered(e, pass, acked, table) || Dropped(e, pass, acked, held)
  }

  /** The tenant's pass raises: at once, or in the judge, which is only called when there is something to grade. */
  predicate Raises(table: map<Id, EvalStatus>, pass: Pass, entries: seq<Buffered>)
  {
    pass.raisesEarly || (pass.allowed && pass.raisesLate && SamplesOf(table, pass.scorable, entries) != [])
  }

  datatype Fate = Hold(status: EvalStatus) | Answer(status: EvalStatus) | Drop

  /** What must become of an entry, from the table before the flush; the status is the one this pass leaves
      on its trace, if that has a row. */
  ghost function FateOf(table: map<Id, EvalStatus>, pass: Pass, timeout: int, entries: seq<Buffered>, e: Buffered): Fate
  {
    if Raises(table, pass, entries) then Drop
    else if !pass.allowed then Answer(SkippedBudget)
    else
      var status := if e.trace in table then StatusAfter(table, pass, timeout, entries, e.trace) else NotScorable;
      if IsDeferred(table, pass, timeout, e) then Hold(status) else Answer(status)
  }

  ghost predicate Suffers(fate: Fate, e: Buffered, buffer: seq<Buffered>, acked: set<Id>, held: set<Id>,
                          table: map<Id, EvalStatus>)
  {
    match fate
    case Hold(s) => Bumped(e) in buffer && e.message in held && e.message !in acked &&
        (e.trace in table ==> table[e.trace] == s)
    case Answer(s) => e.message in acked && (e.trace in table ==> table[e.trace] == s)
    case Drop => e.message !in acked && e.message !in held
  }

  /** What one tenant's pass is given. */
  function SliceOf(batch: seq<Buffered>, tenant: Id): seq<Buffered>
  {
    BumpAll(OfTenant(batch, tenant))
  }

  /** No other tenant's entry names e's trace, or nobody can write its row because there is none. */
  predicate Alone(batch: seq<Buffered>, before: map<Id, EvalStatus>, e: Buffered)
  {
    e.trace !in before || forall o :: o in batch && o.trace == e.trace ==> o.tenant == e.tenant
  }

  /** After some of the tenants: rows none of them names are as before the flush, and every entry of theirs
      has met the fate the table before the flush determines. */
  ghost predicate Exact(batch: seq<Buffered>, tenants: set<Id>, passOf: Id -> Pass, timeout: int,
                        before: map<Id, EvalStatus>,
                        buffer: seq<Buffered>, acked: set<Id>, held: set<Id>, table: map<Id, EvalStatus>)
  {
    && table.Keys == before.Keys
    && (forall t :: t in table && (forall o :: o in batch && o.tenant in tenants ==> o.trace != t) ==>
        table[t] == before[t])
    && (forall e :: e in batch && e.tenant in tenants ==>
        FateMet(batch, passOf(e.tenant), timeout, before, buffer, acked, held, table, e))
  }

  ghost predicate FateMet(batch: seq<Buffered>, pass: Pass, timeout: int, before: map<Id, EvalStatus>,
                          buffer: seq<Buffered>, acked: set<Id>, held: set<Id>, table: map<Id, EvalStatus>, e: Buffered)
  {
    && (Raises(before, pass, SliceOf(batch, e.tenant)) <==> e.message !in acked && e.message !in held)
    && (Alone(batch, before, e) ==>
        Suffers(FateOf(before, pass, timeout, SliceOf(batch, e.tenant), e), e, buffer, acked, held, table))
  }

  /** The flush loop after some of the tenants. */
  ghost predicate Progress(batch: seq<Buffered>, tenants: set<Id>, passOf: Id -> Pass, timeout: int,
                           buffer: seq<Buffered>, acked: set<Id>, held: set<Id>, table: map<Id, EvalStatus>)
  {
    && DistinctMessages(buffer)
    && acked <= held <= Messages(batch)
    && (forall e :: e in buffer ==> e.message in held && e.message !in acked)
    && (forall e :: e in buffer ==> exists o :: o in batch && Bumped(o) == e && o.tenant in tenants)
    && (forall e :: e in batch && e.tenant !in tenants ==> e.message in held && e.message !in acked)
    && (forall e :: e in batch && e.tenant in tenants ==>
        Settled(e, passOf(e.tenant), timeout, buffer, acked, held, table))
  }

  /** The invariant of the loop when every tenant is done and the answered messages are let go. */
  ghost predicate Flushed(batch: seq<Buffered>, passOf: Id -> Pass, timeout: int, before: map<Id, EvalStatus>,
                          buffer: seq<Buffered>, acked: set<Id>, held: set<Id>, table: map<Id, EvalStatus>)
  {
    && DistinctMessages(buffer) && held == Messages(buffer) && acked !! held && acked <= Messages(batch)
    && (forall e :: e in buffer ==> exists o :: o in batch && Bumped(o) == e)
    && (forall e :: e in batch ==> Settled(e, passOf(e.tenant), timeout, buffer, acked, held, table))
    && (forall t :: t in table && (forall o :: o in batch ==> o.trace != t) ==> t in before && table[t] == before[t])
    && (forall e :: e in batch ==> FateMet(batch, passOf(e.tenant), timeout, before, buffer, acked, held, table, e))
    && table.Keys == before.Keys
  }

  /** Of an allowed pass: the deferred entries and the answered messages. */
  ghost predicate SplitDone(table: map<Id, EvalStatus>, pass: Pass, timeout: int, entries: seq<Buffered>,
                            deferred: seq<Buffered>, done: seq<Id>)
  {
    && DistinctMessages(deferred)
    && (forall e :: e in deferred <==> e in entries && IsDeferred(table, pass, timeout, e))
    && (forall e :: e in entries ==> (e.message in done <==> !IsDeferred(table, pass, timeout, e)))
    && (forall m :: m in done ==> m in Messages(entries))
  }

  lemma SplitStep(table: map<Id, EvalStatus>, pass: Pass, timeout: int, entries: seq<Buffered>, i: nat,
                  deferred: seq<Buffered>, done: seq<Id>)
    requires DistinctMessages(entries) && i < |entries| && SplitDone(table, pass, timeout, entries[..i], deferred, done)
    ensures if IsDeferred(table, pass, timeout, entries[i])
        then SplitDone(table, pass, timeout, entries[..i + 1], deferred + [entries[i]], done)
            else SplitDone(table, pass, timeout, entries[..i + 1], deferred, done + [entries[i].message])
  {
  }

  lemma AbandonedStep(table: map<Id, EvalStatus>, pass: Pass, timeout: int, entries: seq<Buffered>, i: nat)
    requires i < |entries|
    ensures forall t :: IsAbandoned(table, pass, timeout, entries[..i + 1], t) <==>
              || IsAbandoned(table, pass, timeout, entries[..i], t)
              || (entries[i].trace == t && IsWaiting(table, pass.scorable, t) &&
                  pass.now - entries[i].firstSeen >= timeout)
  {
  }

  /** Of an allowed pass: every trace it saw carries the status it must. */
  ghost predicate GradedAll(before: map<Id, EvalStatus>, after: map<Id, EvalStatus>, pass: Pass, timeout: int,
                            entries: seq<Buffered>)
    requires before.Keys == after.Keys
  {
    forall t :: t in after && t in TracesOf(entries) ==> after[t] == StatusAfter(before, pass, timeout, entries, t)
  }

  lemma OnlyOwnTraces(before: map<Id, EvalStatus>, after: map<Id, EvalStatus>, entries: seq<Buffered>,
                      hopeless: set<Id>)
    requires after == SetStatus(before, hopeless, NotScorable) && hopeless <= TracesOf(entries)
    ensures after.Keys == before.Keys
    ensures forall t :: t in after ==> after[t] == before[t] || (IsFinal(after[t]) && t in TracesOf(entries))
  {
  }

  /** The ungradable traces of an allowed pass: those with nothing to grade and those waited for in vain. */
  ghost predicate IsHopeless(table: map<Id, EvalStatus>, pass: Pass, timeout: int, entries: seq<Buffered>,
                             hopeless: set<Id>)
  {
    forall t :: t in hopeless <==>
      t in TracesOf(entries) && (IsUnscorable(table, pass.scorable, t) || IsAbandoned(table, pass, timeout, entries, t))
  }

  lemma NothingToGrade(before: map<Id, EvalStatus>, after: map<Id, EvalStatus>, pass: Pass, timeout: int,
                       entries: seq<Buffered>,
                       hopeless: set<Id>)
    requires after == SetStatus(before, hopeless, NotScorable) && IsHopeless(before, pass, timeout, entries, hopeless)
    requires SamplesOf(before, pass.scorable, entries) == []
    ensures GradedAll(before, after, pass, timeout, entries)
  {
    SamplesElems(before, pass.scorable, entries);
    forall t | t in after && t in TracesOf(entries) ensures !IsSample(before, pass.scorable, t) {
      assert t !in SamplesOf(before, pass.scorable, entries);
    }
  }

  lemma GradedBoth(before: map<Id, EvalStatus>, middle: map<Id, EvalStatus>, after: map<Id, EvalStatus>, pass: Pass,
                   timeout: int,
                   entries: seq<Buffered>, hopeless: set<Id>)
    requires middle == SetStatus(before, hopeless, NotScorable) && IsHopeless(before, pass, timeout, entries, hopeless)
    requires after.Keys == middle.Keys
    requires var samples := SamplesOf(before, pass.scorable, entries);
             forall t :: t in after ==>
               after[t] == if SampleFailed(samples, pass.graded, t) then Failed else if t in samples then Scored
                   else middle[t]
    ensures GradedAll(before, after, pass, timeout, entries)
    ensures forall t :: t in after ==> after[t] == before[t] || (IsFinal(after[t]) && t in TracesOf(entries))
  {
    SamplesElems(before, pass.scorable, entries);
    var samples := SamplesOf(before, pass.scorable, entries);
    forall t | t in after
      ensures after[t] == before[t] || (IsFinal(after[t]) && t in TracesOf(entries))
      ensures t in TracesOf(entries) ==> after[t] == StatusAfter(before, pass, timeout, entries, t)
    {
      assert SampleFailed(samples, pass.graded, t) ==> t in samples;
      assert t in samples ==> t in TracesOf(entries);
    }
  }

  class EvalScorer {
    const batchSize: nat
    const interval: int
    const readyTimeout: int
    const readyPoll: int
    var buffer: seq<Buffered>
    var bufferedIds: set<Id>
    var lastFlush: int
    var table: map<Id, EvalStatus>

    constructor (batchSize: nat, interval: int, readyTimeout: int, readyPoll: int, now: int, table: map<Id, EvalStatus>)
      ensures Valid() && buffer == [] && this.table == table
      ensures this.batchSize == batchSize && this.interval == interval && this.readyTimeout == readyTimeout &&
          this.readyPoll == readyPoll
    {
      this.batchSize, this.interval, this.readyTimeout, this.readyPoll := batchSize, interval, readyTimeout, readyPoll;
      this.buffer, this.bufferedIds, this.lastFlush, this.table := [], {}, now, table;
    }

    /** The held ids are exactly the buffered messages, and no message is buffered twice. */
    ghost predicate Valid()
      reads this
    {
      DistinctMessages(buffer) && bufferedIds == Messages(buffer)
    }

    /** Buffer the sampled trace.ends, acknowledge the rest. */
    method Ingest(events: seq<Incoming>, enabled: bool, sampled: Id -> bool, now: int) returns (ack: seq<Id>)
      requires Valid()
      modifies `buffer, `bufferedIds
      ensures Valid()
      ensures old(buffer) <= buffer && forall e :: e in buffer[|old(buffer)|..] ==>
          IsNewEntry(e, events, enabled, sampled, now)
      ensures forall x :: x in events ==>
                if Wanted(x, enabled, sampled) then x.message in bufferedIds else x.message in ack
      ensures bufferedIds == old(bufferedIds) +
                set x | x in events && x.isTraceEnd && enabled && sampled(x.trace) :: x.message
      ensures forall m :: m in ack ==> exists x :: x in events && x.message == m && !Wanted(x, enabled, sampled)
    {
      ack := [];
      for i := 0 to |events|
        invariant Valid()
        invariant old(buffer) <= buffer && forall e :: e in buffer[|old(buffer)|..] ==>
            IsNewEntry(e, events, enabled, sampled, now)
        invariant forall x :: x in events[..i] ==>
                    if Wanted(x, enabled, sampled) then x.message in bufferedIds else x.message in ack
        invariant bufferedIds == old(bufferedIds) + set x | x in events[..i] && Wanted(x, enabled, sampled) :: x.message
        invariant forall m :: m in ack ==> exists x :: x in events && x.message == m && !Wanted(x, enabled, sampled)
      {
        var x := events[i];
        assert events[..i + 1] == events[..i] + [x];
        if !x.isTraceEnd || !enabled || !sampled(x.trace) {
          assert x in events;
          ack := ack + [x.message];
        } else if x.message !in bufferedIds {
          var entry := Buffered(x.message, x.trace, x.tenant, now, 0);
          NewEntry(events, i, enabled, sampled, now);
          AppendFresh(buffer, entry);
          bufferedIds := bufferedIds + {x.message};
          buffer := buffer + [entry];
        }
      }
      assert events[..|events|] == events;
    }

    /** The pass over the entries of one tenant; `ok` is false when it raised. */
    method ScoreTenant(entries: seq<Buffered>, pass: Pass) returns (ok: bool, done: seq<Id>, deferred: seq<Buffered>)
      requires DistinctMessages(entries)
      modifies `table
      ensures table.Keys == old(table).Keys
      ensures forall t :: t in table ==> table[t] == old(table)[t] || (IsFinal(table[t]) && t in TracesOf(entries))
      ensures ok <==> !Raises(old(table), pass, entries)
      ensures !ok ==> done == [] && deferred == []
      ensures ok && !pass.allowed ==>
                && done == MessageList(entries) && deferred == []
                && table == SetStatus(old(table), TracesOf(entries), SkippedBudget)
      ensures ok && pass.allowed ==>
                && SplitDone(old(table), pass, readyTimeout, entries, deferred, done)
                && GradedAll(old(table), table, pass, readyTimeout, entries)
    {
      if pass.raisesEarly { return false, [], []; }
      if !pass.allowed {
        table := SetStatus(table, TracesOf(entries), SkippedBudget);
        return true, MessageList(entries), [];
      }
      var samples, waiting, unscorable := Readiness(entries, pass.scorable);
      ghost var before := table;
      var abandoned;
      deferred, done, abandoned := SplitWaiting(entries, waiting, pass);
      var hopeless := unscorable + abandoned;
      SamplesElems(before, pass.scorable, entries);
      table := SetStatus(table, hopeless, NotScorable);
      OnlyOwnTraces(before, table, entries, hopeless);
      if samples == [] {
        NothingToGrade(before, table, pass, readyTimeout, entries, hopeless);
        return true, done, deferred;
      }
      if pass.raisesLate { return false, [], []; }
      ghost var middle := table;
      RecordVerdicts(samples, pass.graded);
      GradedBoth(before, middle, table, pass, readyTimeout, entries, hopeless);
      return true, done, deferred;
    }

    /** Who stays in the buffer, who is answered in this pass, and which traces waited their full window. */
    method SplitWaiting(entries: seq<Buffered>, waiting: set<Id>, pass: Pass)
      returns (deferred: seq<Buffered>, done: seq<Id>, abandoned: set<Id>)
      requires DistinctMessages(entries)
      requires waiting == set t | t in TracesOf(entries) && IsWaiting(table, pass.scorable, t)
      ensures SplitDone(table, pass, readyTimeout, entries, deferred, done)
      ensures abandoned == set t | t in TracesOf(entries) && IsAbandoned(table, pass, readyTimeout, entries, t)
    {
      deferred, done := [], [];
      abandoned := {};
      for i := 0 to |entries|
        invariant SplitDone(table, pass, readyTimeout, entries[..i], deferred, done)
        invariant forall t :: t in abandoned <==> IsAbandoned(table, pass, readyTimeout, entries[..i], t)
      {
        var e := entries[i];
        SplitStep(table, pass, readyTimeout, entries, i, deferred, done);
        AbandonedStep(table, pass, readyTimeout, entries, i);
        assert e in entries;
        if e.trace in waiting && pass.now - e.firstSeen < readyTimeout {
          deferred := deferred + [e];
        } else {
          done := done + [e.message];
          if e.trace in waiting { abandoned := abandoned + {e.trace}; }
        }
      }
      assert entries[..|entries|] == entries;
    }

    /** Three kinds of traces: those with a sample to judge, those to wait for, and those never to be judged. */
    method Readiness(entries: seq<Buffered>, scorable: Id -> bool)
      returns (samples: seq<Id>, waiting: set<Id>, unscorable: set<Id>)
      ensures samples == SamplesOf(table, scorable, entries)
      ensures waiting == set t | t in TracesOf(entries) && IsWaiting(table, scorable, t)
      ensures unscorable == set t | t in TracesOf(entries) && IsUnscorable(table, scorable, t)
    {
      samples, waiting, unscorable := [], {}, {};
      for i := 0 to |entries|
        invariant samples == SamplesOf(table, scorable, entries[..i])
        invariant waiting == set t | t in TracesOf(entries[..i]) && IsWaiting(table, scorable, t)
        invariant unscorable == set t | t in TracesOf(entries[..i]) && IsUnscorable(table, scorable, t)
      {
        var t := entries[i].trace;
        assert entries[..i + 1][..i] == entries[..i];
        assert TracesOf(entries[..i + 1]) ==
            TracesOf(entries[..i]) + {t} by { assert entries[..i + 1] == entries[..i] + [entries[i]]; }
        if t !in table {
          waiting := waiting + {t};
        } else if scorable(t) {
          samples := samples + [t];
        } else if table[t].NotSampled? {
          waiting := waiting + {t};
        } else {
          unscorable := unscorable + {t};
        }
      }
      assert entries[..|entries|] == entries;
    }

    /** `_persist`: one verdict per sample; the graded traces become scored, then the others error. */
    method RecordVerdicts(samples: seq<Id>, graded: nat -> bool)
      modifies `table
      ensures table.Keys == old(table).Keys
      ensures forall t :: t in table ==>
                table[t] == if SampleFailed(samples, graded, t) then Failed else if t in samples then Scored
                    else old(table)[t]
    {
      var scored, failed: set<Id> := {}, {};
      for i := 0 to |samples|
        invariant table == old(table)
        invariant forall t :: t in failed <==> SampleFailed(samples[..i], graded, t)
        invariant forall t :: t in samples[..i] ==> t in scored || t in failed
        invariant forall t :: t in scored ==> t in samples[..i]
      {
        FailedStep(samples, graded, i);
        assert samples[..i + 1] == samples[..i] + [samples[i]];
        if graded(i) { scored := scored + {samples[i]}; } else { failed := failed + {samples[i]}; }
      }
      assert samples[..|samples|] == samples;
      table := SetStatus(table, scored, Scored);
      table := SetStatus(table, failed, Failed);
    }

    /** One turn of the flush loop: the pass of one tenant settles all of that tenant's entries. */
    method FlushTenant(ghost batch: seq<Buffered>, ghost tenants: set<Id>, tenant: Id, mine: seq<Buffered>,
                       passOf: Id -> Pass,
                       ghost before: map<Id, EvalStatus>, acked: seq<Id>)
      returns (all: seq<Id>)
      requires DistinctMessages(batch) && mine == OfTenant(batch, tenant) && tenant !in tenants
      requires Progress(batch, tenants, passOf, readyTimeout, buffer, Elems(acked), bufferedIds, table)
      requires Exact(batch, tenants, passOf, readyTimeout, before, buffer, Elems(acked), bufferedIds, table)
      modifies `buffer, `bufferedIds, `table
      ensures Progress(batch, tenants + {tenant}, passOf, readyTimeout, buffer, Elems(all), bufferedIds, table)
      ensures Exact(batch, tenants + {tenant}, passOf, readyTimeout, before, buffer, Elems(all), bufferedIds, table)
    {
      var entries := BumpAll(mine);
      TenantEntries(batch, tenant);
      ghost var was := table;
      var ok, done, deferred := ScoreTenant(entries, passOf(tenant));
      if !ok {
        FailedTenant(batch, tenants, tenant, passOf, readyTimeout, buffer, Elems(acked), bufferedIds, was, table);
        FailedExactly(batch, tenants, tenant, passOf, readyTimeout, before, buffer, Elems(acked), bufferedIds, was,
            table);
        bufferedIds := bufferedIds - Messages(entries);
        all := acked;
      } else {
        AnsweredAreFinal(was, table, passOf(tenant), readyTimeout, entries, done, deferred);
        PassedTenant(batch, tenants, tenant, passOf, readyTimeout, buffer, Elems(acked), bufferedIds, was, table, done,
            deferred);
        PassedExactly(batch, tenants, tenant, passOf, readyTimeout, before, buffer, Elems(acked), bufferedIds, was,
            table, done, deferred);
        assert Elems(acked + done) == Elems(acked) + Elems(done);
        all := acked + done;
        buffer := buffer + deferred;
      }
    }

    /** Score everything buffered: every entry taken out is kept, answered with the status this pass gives
        its trace, or dropped. */
    method Flush(now: int, passOf: Id -> Pass) returns (acked: seq<Id>)
      requires Valid()
      modifies `buffer, `bufferedIds, `lastFlush, `table
      ensures Valid() && lastFlush == (if old(buffer) == [] then old(lastFlush) else now)
      ensures Flushed(old(buffer), passOf, readyTimeout, old(table), buffer, Elems(acked), bufferedIds, table)
    {
      acked := [];
      if buffer == [] { return; }
      var batch := buffer;
      ghost var before := table;
      buffer, lastFlush := [], now;
      var byTenant, tenants := GroupByTenant(batch);
      for k := 0 to |tenants|
        invariant lastFlush == now
        invariant Progress(batch, Elems(tenants[..k]), passOf, readyTimeout, buffer, Elems(acked), bufferedIds, table)
        invariant Exact(batch, Elems(tenants[..k]), passOf, readyTimeout, before, buffer, Elems(acked), bufferedIds,
            table)
      {
        var tenant := tenants[k];
        NextTenant(tenants, k);
        acked := FlushTenant(batch, Elems(tenants[..k]), tenant, byTenant[tenant], passOf, before, acked);
      }
      assert tenants[..|tenants|] == tenants;
      TenantsOfAll(batch);
      AllTenants(batch, Elems(tenants), passOf, readyTimeout, before, buffer, Elems(acked), bufferedIds, table);
      bufferedIds := bufferedIds - Elems(acked);
    }

    /** Take the events in, and flush at once when the batch is full.  Nothing is flushed below the
        batch size, and the acknowledgements are the ignored events plus what the flush answered. */
    method ProcessBatch(events: seq<Incoming>, enabled: bool, sampled: Id -> bool, now: int, passOf: Id -> Pass)
      returns (ack: seq<Id>, ghost taken: seq<Buffered>, ghost ignored: seq<Id>, ghost answered: seq<Id>)
      requires Valid()
      modifies `buffer, `bufferedIds, `lastFlush, `table
      ensures Valid() && table.Keys == old(table).Keys
      ensures ack == ignored + answered
      ensures forall m :: m in ignored <==> exists x :: x in events && x.message == m && !Wanted(x, enabled, sampled)
      ensures old(buffer) <= taken && forall e :: e in taken[|old(buffer)|..] ==>
          IsNewEntry(e, events, enabled, sampled, now)
      ensures DistinctMessages(taken)
      ensures Messages(taken) == old(bufferedIds) + set x | x in events && Wanted(x, enabled, sampled) :: x.message
      ensures |taken| < batchSize || |events| == 0 ==>
                answered == [] && buffer == taken && lastFlush == old(lastFlush) && table == old(table)
      ensures |taken| >= batchSize && |events| > 0 ==>
                Flushed(taken, passOf, readyTimeout, old(table), buffer, Elems(answered), bufferedIds, table)
    {
      answered := [];
      if |events| == 0 {
        ignored, taken := [], buffer;
        return [], taken, ignored, answered;
      }
      ack := Ingest(events, enabled, sampled, now);
      taken, ignored := buffer, ack;
      if |buffer| >= batchSize {
        var acked := Flush(now, passOf);
        answered := acked;
        ack := ack + acked;
      }
    }

    /** The timer's view of the buffer: a full batch is due at once; otherwise the interval must have
        passed, shortened to the poll period as soon as one entry has been deferred before. */
    method MaybeFlush(now: int, passOf: Id -> Pass) returns (acked: seq<Id>)
      requires Valid()
      modifies `buffer, `bufferedIds, `lastFlush, `table
      ensures Valid() && table.Keys == old(table).Keys
      ensures lastFlush == (if old(buffer) == [] || Due(old(buffer), old(lastFlush), now) then now else old(lastFlush))
      ensures old(buffer) != [] && Due(old(buffer), old(lastFlush), now) ==>
                Flushed(old(buffer), passOf, readyTimeout, old(table), buffer, Elems(acked), bufferedIds, table)
      ensures old(buffer) == [] || !Due(old(buffer), old(lastFlush), now) ==>
                acked == [] && buffer == old(buffer) && table == old(table)
    {
      acked := [];
      if buffer == [] {
        lastFlush := now;
        return;
      }
      var due := true;
      if |buffer| < batchSize {
        var wait, i := interval, 0;
        while i < |buffer| && buffer[i].attempts == 0
          invariant i <= |buffer| && forall j :: 0 <= j < i ==> buffer[j].attempts == 0
        {
          i := i + 1;
        }
        if i < |buffer| && readyPoll < wait { wait := readyPoll; }
        due := now - lastFlush >= wait;
      }
      if due { acked := Flush(now, passOf); }
    }

    predicate Due(b: seq<Buffered>, last: int, now: int)
    {
      || |b| >= batchSize
      || now - last >= interval
      || ((exists i :: 0 <= i < |b| && b[i].attempts > 0) && now - last >= readyPoll)
    }
  }

  /** What a flush means message by message: held, acknowledged and neither are exactly the three fates; an
      answered trace that has a row carries the one final status this pass determines for it; and whatever
      is still held is inside its time window, so entries past theirs leave the buffer. */
  lemma OneFateEach(batch: seq<Buffered>, passOf: Id -> Pass, timeout: int, before: map<Id, EvalStatus>,
                    buffer: seq<Buffered>, acked: set<Id>, held: set<Id>, table: map<Id, EvalStatus>)
    requires DistinctMessages(batch) && Flushed(batch, passOf, timeout, before, buffer, acked, held, table)
    ensures forall e :: e in batch && Alone(batch, before, e) ==>
              var pass, slice := passOf(e.tenant), SliceOf(batch, e.tenant);
              && (e.message in held <==>
                  !Raises(before, pass, slice) && pass.allowed && IsDeferred(before, pass, timeout, e))
              && (e.message in acked <==>
                  !Raises(before, pass, slice) && (pass.allowed ==> !IsDeferred(before, pass, timeout, e)))
              && (e.message in acked + held && e.trace in table ==>
                    table[e.trace] == if !pass.allowed then SkippedBudget
                        else StatusAfter(before, pass, timeout, slice, e.trace))
    ensures forall e :: e in batch && e.message in acked && e.trace in table ==> IsFinal(table[e.trace])
    ensures acked !! held
    ensures forall e :: e in batch ==>
              (e.message !in acked + held <==> Raises(before, passOf(e.tenant), SliceOf(batch, e.tenant)))
    ensures forall e :: e in buffer ==> passOf(e.tenant).allowed && passOf(e.tenant).now - e.firstSeen < timeout
    ensures (forall e :: e in batch ==> passOf(e.tenant).now - e.firstSeen >= timeout) ==> buffer == []
  {
    HeldAreYoung(batch, passOf, timeout, before, buffer, acked, held, table);
    forall e | e in batch ensures FateMet(batch, passOf(e.tenant), timeout, before, buffer, acked, held, table, e) { }
    forall e | e in batch && e.message in acked && e.trace in table ensures IsFinal(table[e.trace]) {
      assert Settled(e, passOf(e.tenant), timeout, buffer, acked, held, table);
    }
  }

  /** What a flush keeps is an entry it was given, its first sighting unchanged and one more attempt counted. */
  lemma HeldCountAttempts(batch: seq<Buffered>, passOf: Id -> Pass, timeout: int, before: map<Id, EvalStatus>,
                          buffer: seq<Buffered>, acked: set<Id>, held: set<Id>, table: map<Id, EvalStatus>, e: Buffered)
    requires Flushed(batch, passOf, timeout, before, buffer, acked, held, table) && e in buffer
    ensures exists o :: o in batch && o.message == e.message && o.trace == e.trace && o.tenant == e.tenant &&
              o.firstSeen == e.firstSeen && e.attempts == o.attempts + 1
  {
    var o :| o in batch && Bumped(o) == e;
  }

  lemma HeldAreYoung(batch: seq<Buffered>, passOf: Id -> Pass, timeout: int, before: map<Id, EvalStatus>,
                     buffer: seq<Buffered>, acked: set<Id>, held: set<Id>, table: map<Id, EvalStatus>)
    requires DistinctMessages(batch) && Flushed(batch, passOf, timeout, before, buffer, acked, held, table)
    ensures forall e :: e in buffer ==> passOf(e.tenant).allowed && passOf(e.tenant).now - e.firstSeen < timeout
    ensures (forall e :: e in batch ==> passOf(e.tenant).now - e.firstSeen >= timeout) ==> buffer == []
  {
    forall e | e in buffer ensures exists o ::
        o in batch && Bumped(o) == e && Kept(o, passOf(o.tenant), timeout, buffer, acked, held) {
      var o :| o in batch && Bumped(o) == e;
      assert Settled(o, passOf(o.tenant), timeout, buffer, acked, held, table);
      assert o.message == e.message && e.message in Messages(buffer);
    }
    if buffer != [] {
      assert buffer[0] in buffer;
      var o :| o in batch && Bumped(o) == buffer[0] && Kept(o, passOf(o.tenant), timeout, buffer, acked, held);
    }
  }

  /** What a flush leaves on a row that only one tenant's entries name, when that tenant's pass does not raise:
      over budget it is skipped; what can be graded is scored, or failed if a verdict on it failed; what cannot
      and never will be is not scorable; what may still come is left and waited for, until some entry of the
      trace has waited its full window. */
  lemma FlushLeaves(batch: seq<Buffered>, passOf: Id -> Pass, timeout: int, before: map<Id, EvalStatus>,
                    buffer: seq<Buffered>, acked: set<Id>, held: set<Id>, table: map<Id, EvalStatus>, e: Buffered)
    requires DistinctMessages(batch) && Flushed(batch, passOf, timeout, before, buffer, acked, held, table)
    requires e in batch && e.trace in before && forall o :: o in batch && o.trace == e.trace ==> o.tenant == e.tenant
    requires !passOf(e.tenant).raisesEarly && !passOf(e.tenant).raisesLate
    ensures var t, pass := e.trace, passOf(e.tenant);
            var samples := SamplesOf(before, pass.scorable, SliceOf(batch, e.tenant));
            && t in table
            && (if !pass.allowed then table[t] == SkippedBudget && e.message in acked
                else if pass.scorable(t) then
                  && e.message in acked && t in samples
                  && table[t] == if exists i :: 0 <= i < |samples| && samples[i] == t && !pass.graded(i) then Failed
                       else Scored
                else if before[t] != NotSampled then table[t] == NotScorable && e.message in acked
                else
                  && table[t] == (if exists o :: o in batch && o.trace == t && pass.now - o.firstSeen >= timeout
                       then NotScorable else NotSampled)
                  && (if pass.now - e.firstSeen < timeout then e.message in held && e.message !in acked
                      else e.message in acked))
  {
    var pass, slice := passOf(e.tenant), SliceOf(batch, e.tenant);
    assert FateMet(batch, pass, timeout, before, buffer, acked, held, table, e);
    OfTenantElems(batch, e.tenant);
    SamplesElems(before, pass.scorable, slice);
    InSlice(batch, e);
    AbandonedMeans(batch, pass, timeout, before, e);
  }

  lemma InSlice(batch: seq<Buffered>, e: Buffered)
    requires e in batch
    ensures Bumped(e) in SliceOf(batch, e.tenant)
  {
    OfTenantElems(batch, e.tenant);
    var mine := OfTenant(batch, e.tenant);
    var i :| 0 <= i < |mine| && mine[i] == e;
    assert BumpAll(mine)[i] == Bumped(e);
  }

  lemma AbandonedMeans(batch: seq<Buffered>, pass: Pass, timeout: int, before: map<Id, EvalStatus>, e: Buffered)
    requires e in batch && forall o :: o in batch && o.trace == e.trace ==> o.tenant == e.tenant
    ensures IsAbandoned(before, pass, timeout, SliceOf(batch, e.tenant), e.trace) <==>
              IsWaiting(before, pass.scorable, e.trace) &&
              exists o :: o in batch && o.trace == e.trace && pass.now - o.firstSeen >= timeout
  {
    OfTenantElems(batch, e.tenant);
    var mine := OfTenant(batch, e.tenant);
    if o :| o in batch && o.trace == e.trace && pass.now - o.firstSeen >= timeout {
      InSlice(batch, o);
      assert Bumped(o).trace == e.trace && Bumped(o).firstSeen == o.firstSeen;
    }
    if x :| x in BumpAll(mine) && x.trace == e.trace && pass.now - x.firstSeen >= timeout {
      var i :| 0 <= i < |mine| && x == BumpAll(mine)[i];
      assert mine[i] in mine && mine[i].trace == e.trace && pass.now - mine[i].firstSeen >= timeout;
    }
  }

  /** When a message is acknowledged although no row carries its answer: exactly when the row did not exist
      before the flush and the tenant is over budget or the entry has waited its full window. */
  lemma AckedWithoutRowIff(batch: seq<Buffered>, passOf: Id -> Pass, timeout: int, before: map<Id, EvalStatus>,
                           buffer: seq<Buffered>, acked: set<Id>, held: set<Id>, table: map<Id, EvalStatus>,
                           e: Buffered)
    requires DistinctMessages(batch) && Flushed(batch, passOf, timeout, before, buffer, acked, held, table) &&
        e in batch
    requires !Raises(before, passOf(e.tenant), SliceOf(batch, e.tenant))
    ensures e.message in acked && e.trace !in table <==>
              e.trace !in before && (!passOf(e.tenant).allowed || passOf(e.tenant).now - e.firstSeen >= timeout)
  {
    assert FateMet(batch, passOf(e.tenant), timeout, before, buffer, acked, held, table, e);
  }

  /** It happens: the end of a sampled trace that the storage writer has not stored, taken in and flushed
      while its tenant is over budget. */
  method AckWithoutRow(x: Incoming, sampled: Id -> bool, pass: Pass, now: int)
    returns (scorer: EvalScorer, acked: seq<Id>)
    requires Wanted(x, true, sampled) && !pass.raisesEarly && !pass.allowed
    ensures x.message in acked && x.trace !in scorer.table
  {
    scorer := new EvalScorer(1, 0, 0, 0, now, map[]);
    var ignored := scorer.Ingest([x], true, sampled, now);
    assert x in [x];
    ghost var batch, before := scorer.buffer, scorer.table;
    ghost var e :| e in batch && e.message == x.message;
    assert IsNewEntry(e, [x], true, sampled, now);
    acked := scorer.Flush(now, _ => pass);
    AckedWithoutRowIff(batch, _ => pass, 0, before, scorer.buffer, Elems(acked), scorer.bufferedIds, scorer.table, e);
  }

  function TenantsOf(batch: seq<Buffered>): set<Id>
  {
    if batch == [] then {} else TenantsOf(batch[..|batch| - 1]) + {batch[|batch| - 1].tenant}
  }

  lemma {:induction false} TenantsOfAll(batch: seq<Buffered>)
    ensures forall e :: e in batch ==> e.tenant in TenantsOf(batch)
  {
    if batch != [] {
      assert batch == batch[..|batch| - 1] + [batch[|batch| - 1]];
      TenantsOfAll(batch[..|batch| - 1]);
    }
  }

  /** The dictionary of a batch's entries by tenant, and its keys in order of arrival. */
  ghost predicate Grouping(batch: seq<Buffered>, byTenant: map<Id, seq<Buffered>>, tenants: seq<Id>)
  {
    && byTenant.Keys == Elems(tenants) == TenantsOf(batch)
    && (forall i, j :: 0 <= i < j < |tenants| ==> tenants[i] != tenants[j])
    && (forall t :: t in byTenant ==> byTenant[t] == OfTenant(batch, t))
  }

  method GroupByTenant(batch: seq<Buffered>) returns (byTenant: map<Id, seq<Buffered>>, tenants: seq<Id>)
    ensures Grouping(batch, byTenant, tenants)
  {
    byTenant, tenants := map[], [];
    for i := 0 to |batch|
      invariant Grouping(batch[..i], byTenant, tenants)
    {
      var e := batch[i];
      assert batch[..i + 1] == batch[..i] + [e];
      GroupingStep(batch[..i], e, byTenant, tenants);
      if e.tenant !in byTenant {
        tenants := tenants + [e.tenant];
        byTenant := byTenant[e.tenant := [e]];
      } else {
        byTenant := byTenant[e.tenant := byTenant[e.tenant] + [e]];
      }
    }
    assert batch[..|batch|] == batch;
  }

  lemma {:induction false} GroupingStep(front: seq<Buffered>, e: Buffered, byTenant: map<Id, seq<Buffered>>,
                                        tenants: seq<Id>)
    requires Grouping(front, byTenant, tenants)
    ensures if e.tenant !in byTenant then Grouping(front + [e], byTenant[e.tenant := [e]], tenants + [e.tenant])
            else Grouping(front + [e], byTenant[e.tenant := byTenant[e.tenant] + [e]], tenants)
  {
    OneMoreEntry(front, e, e.tenant);
    assert (front + [e])[..|front|] == front;
    if e.tenant !in byTenant {
      TenantsOfAll(front);
      NoneOfTenant(front, e.tenant);
      NewTenant(tenants, e.tenant);
    }
    forall t | t in byTenant ensures OfTenant(front + [e], t) == if e.tenant == t then OfTenant(front, t) + [e]
        else OfTenant(front, t) {
      OneMoreEntry(front, e, t);
    }
  }

  lemma {:induction false} OneMoreEntry(front: seq<Buffered>, e: Buffered, t: Id)
    ensures OfTenant(front + [e], t) == if e.tenant == t then OfTenant(front, t) + [e] else OfTenant(front, t)
  {
  }

  lemma NewTenant(tenants: seq<Id>, t: Id)
    requires t !in Elems(tenants)
    ensures Elems(tenants + [t]) == Elems(tenants) + {t} && forall j :: 0 <= j < |tenants| ==> tenants[j] != t
  {
  }

  lemma {:induction false} NoneOfTenant(b: seq<Buffered>, tenant: Id)
    requires forall e :: e in b ==> e.tenant != tenant
    ensures OfTenant(b, tenant) == []
  {
    if b != [] {
      assert b == b[..|b| - 1] + [b[|b| - 1]];
      NoneOfTenant(b[..|b| - 1], tenant);
    }
  }

  /** The entries handed to one tenant's pass. */
  lemma TenantEntries(batch: seq<Buffered>, tenant: Id)
    requires DistinctMessages(batch)
    ensures var entries := BumpAll(OfTenant(batch, tenant));
            && DistinctMessages(entries)
            && (forall e :: e in entries ==> exists o :: o in batch && o.tenant == tenant && Bumped(o) == e)
            && (forall o :: o in batch && o.tenant == tenant ==> Bumped(o) in entries)
            && (forall o :: o in batch ==> (o.message in Messages(entries) <==> o.tenant == tenant))
  {
    OfTenantElems(batch, tenant);
    var mine := OfTenant(batch, tenant);
    var entries := BumpAll(mine);
    forall e | e in entries ensures exists o :: o in batch && o.tenant == tenant && Bumped(o) == e {
      var i :| 0 <= i < |entries| && entries[i] == e;
      assert mine[i] in mine && Bumped(mine[i]) == e;
    }
    forall o | o in batch && o.tenant == tenant ensures Bumped(o) in entries {
      assert o in mine;
      var i :| 0 <= i < |mine| && mine[i] == o;
      assert entries[i] == Bumped(o);
    }
    forall o | o in batch ensures o.message in Messages(entries) <==> o.tenant == tenant {
      if o.tenant == tenant { assert Bumped(o).message == o.message; }
      if o.message in Messages(entries) {
        var e :| e in entries && e.message == o.message;
        var p :| p in batch && p.tenant == tenant && Bumped(p) == e;
        SameMessage(batch, o, p);
      }
    }
  }

  lemma SameMessage(b: seq<Buffered>, x: Buffered, y: Buffered)
    requires DistinctMessages(b) && x in b && y in b && x.message == y.message
    ensures x == y
  {
  }

  /** Rows only change to final answers. */
  ghost predicate OnlyFinalWrites(before: map<Id, EvalStatus>, after: map<Id, EvalStatus>)
  {
    before.Keys == after.Keys && forall t :: t in after ==> after[t] == before[t] || IsFinal(after[t])
  }

  lemma FailedTenant(batch: seq<Buffered>, tenants: set<Id>, tenant: Id, passOf: Id -> Pass, timeout: int,
                     buffer: seq<Buffered>, acked: set<Id>, held: set<Id>, before: map<Id, EvalStatus>,
                     after: map<Id, EvalStatus>)
    requires DistinctMessages(batch) && Progress(batch, tenants, passOf, timeout, buffer, acked, held, before)
    requires tenant !in tenants && OnlyFinalWrites(before, after)
    requires Raises(before, passOf(tenant), SliceOf(batch, tenant))
    ensures Progress(batch, tenants + {tenant}, passOf, timeout, buffer, acked,
                     held - Messages(BumpAll(OfTenant(batch, tenant))), after)
  {
    TenantEntries(batch, tenant);
    var gone := Messages(BumpAll(OfTenant(batch, tenant)));
    forall m | m in acked ensures m !in gone {
      var e :| e in batch && e.message == m;
    }
    forall e | e in buffer ensures e.message !in gone {
      var o :| o in batch && Bumped(o) == e && o.tenant in tenants;
    }
    forall e | e in batch && e.tenant in tenants + {tenant}
      ensures Settled(e, passOf(e.tenant), timeout, buffer, acked, held - gone, after)
    {
      if e.tenant == tenant {
        assert Dropped(e, passOf(e.tenant), acked, held - gone);
      } else {
        assert Settled(e, passOf(e.tenant), timeout, buffer, acked, held, before);
      }
    }
  }

  /** What one completed pass says about its entries. */
  ghost predicate Passed(entries: seq<Buffered>, pass: Pass, timeout: int, done: seq<Id>, deferred: seq<Buffered>,
                         after: map<Id, EvalStatus>)
  {
    && !pass.raisesEarly && DistinctMessages(deferred)
    && (forall e :: e in deferred ==>
        e in entries && pass.allowed && pass.now - e.firstSeen < timeout && e.message !in done)
    && (forall m :: m in done ==> m in Messages(entries))
    && (forall e :: e in entries && e !in deferred ==>
        e.message in done && (e.trace in after ==> IsFinal(after[e.trace])))
  }

  /** Exactly what a completed pass did with its entries. */
  ghost predicate Delivered(before: map<Id, EvalStatus>, after: map<Id, EvalStatus>, pass: Pass, timeout: int,
                            entries: seq<Buffered>,
                            done: seq<Id>, deferred: seq<Buffered>)
  {
    if !pass.allowed then
      deferred == [] && (forall e :: e in entries ==>
          e.message in done && (e.trace in after ==> after[e.trace] == SkippedBudget))
    else
      && (forall e :: e in entries && IsDeferred(before, pass, timeout, e) ==> e in deferred && e.message !in done)
      && (forall e :: e in entries && !IsDeferred(before, pass, timeout, e) ==> e.message in done)
      && (forall e :: e in entries && e.trace in after && e.trace in before ==>
            after[e.trace] == StatusAfter(before, pass, timeout, entries, e.trace))
  }

  /** Whatever a completed pass acknowledges has its final status, if it has a row. */
  lemma AnsweredAreFinal(before: map<Id, EvalStatus>, after: map<Id, EvalStatus>, pass: Pass, timeout: int,
                         entries: seq<Buffered>, done: seq<Id>, deferred: seq<Buffered>)
    requires !pass.raisesEarly && before.Keys == after.Keys
    requires !pass.allowed ==>
        done == MessageList(entries) && deferred == [] && after == SetStatus(before, TracesOf(entries), SkippedBudget)
    requires pass.allowed ==>
               && SplitDone(before, pass, timeout, entries, deferred, done)
               && GradedAll(before, after, pass, timeout, entries)
    ensures Passed(entries, pass, timeout, done, deferred, after)
    ensures Delivered(before, after, pass, timeout, entries, done, deferred)
  {
    forall e | e in entries && e !in deferred
      ensures e.message in done && (e.trace in after ==> IsFinal(after[e.trace]))
    {
      assert e.trace in TracesOf(entries);
      if !pass.allowed {
        var i :| 0 <= i < |entries| && entries[i] == e;
        assert done[i] == e.message;
      } else if e.trace in after && IsWaiting(before, pass.scorable, e.trace) {
        assert IsAbandoned(before, pass, timeout, entries, e.trace);
      }
    }
    if !pass.allowed {
      forall m | m in done ensures m in Messages(entries) {
        var i :| 0 <= i < |done| && done[i] == m;
        assert entries[i] in entries;
      }
    }
  }

  /** The messages of a completed pass are its tenant's, so nobody else's fate changes. */
  lemma PassedMessages(batch: seq<Buffered>, tenants: set<Id>, tenant: Id, passOf: Id -> Pass, timeout: int,
                       buffer: seq<Buffered>, acked: set<Id>, held: set<Id>, before: map<Id, EvalStatus>,
                       after: map<Id, EvalStatus>,
                       done: seq<Id>, deferred: seq<Buffered>)
    requires DistinctMessages(batch) && Progress(batch, tenants, passOf, timeout, buffer, acked, held, before)
    requires tenant !in tenants &&
        Passed(BumpAll(OfTenant(batch, tenant)), passOf(tenant), timeout, done, deferred, after)
    ensures forall m :: m in done ==> m in held && forall o :: o in batch && o.message == m ==> o.tenant == tenant
    ensures forall e :: e in deferred ==>
              e.message in held && e.message !in acked + Elems(done) &&
                  exists o :: o in batch && Bumped(o) == e && o.tenant == tenant
    ensures forall e :: e in buffer ==> e.message !in acked + Elems(done) && forall d :: d in deferred ==>
        d.message != e.message
  {
    TenantEntries(batch, tenant);
    var entries := BumpAll(OfTenant(batch, tenant));
    forall m | m in done ensures m in held && forall o :: o in batch && o.message == m ==> o.tenant == tenant {
      var e :| e in entries && e.message == m;
      var o :| o in batch && o.tenant == tenant && Bumped(o) == e;
      assert o.message == m;
    }
    forall e | e in deferred
      ensures e.message in held && e.message !in acked + Elems(done) &&
          exists o :: o in batch && Bumped(o) == e && o.tenant == tenant
    {
      var o :| o in batch && o.tenant == tenant && Bumped(o) == e;
      assert o.message == e.message;
    }
    forall e | e in buffer ensures e.message !in acked + Elems(done) && e.message !in Messages(entries) {
      var o :| o in batch && Bumped(o) == e && o.tenant in tenants;
      assert o.message == e.message;
    }
    assert forall e :: e in deferred ==> e.message in Messages(entries);
  }

  lemma PassedSettles(batch: seq<Buffered>, tenant: Id, pass: Pass, timeout: int, buffer: seq<Buffered>, acked: set<Id>,
                      held: set<Id>,
                      after: map<Id, EvalStatus>, done: seq<Id>, deferred: seq<Buffered>, e: Buffered)
    requires DistinctMessages(batch) && e in batch && e.tenant == tenant
    requires Passed(BumpAll(OfTenant(batch, tenant)), pass, timeout, done, deferred, after)
    requires forall d :: d in deferred ==> d.message in held && d.message !in acked + Elems(done)
    ensures Settled(e, pass, timeout, buffer + deferred, acked + Elems(done), held, after)
  {
    TenantEntries(batch, tenant);
    assert Bumped(e) in BumpAll(OfTenant(batch, tenant)) && e.message == Bumped(e).message;
    if Bumped(e) in deferred {
      assert Kept(e, pass, timeout, buffer + deferred, acked + Elems(done), held);
    } else {
      assert Answered(e, pass, acked + Elems(done), after);
    }
  }

  lemma PassedTenant(batch: seq<Buffered>, tenants: set<Id>, tenant: Id, passOf: Id -> Pass, timeout: int,
                     buffer: seq<Buffered>, acked: set<Id>, held: set<Id>, before: map<Id, EvalStatus>,
                     after: map<Id, EvalStatus>,
                     done: seq<Id>, deferred: seq<Buffered>)
    requires DistinctMessages(batch) && Progress(batch, tenants, passOf, timeout, buffer, acked, held, before)
    requires tenant !in tenants && OnlyFinalWrites(before, after)
    requires Passed(BumpAll(OfTenant(batch, tenant)), passOf(tenant), timeout, done, deferred, after)
    ensures Progress(batch, tenants + {tenant}, passOf, timeout, buffer + deferred, acked + Elems(done), held, after)
  {
    PassedMessages(batch, tenants, tenant, passOf, timeout, buffer, acked, held, before, after, done, deferred);
    var all, answered := buffer + deferred, acked + Elems(done);
    forall e | e in batch && e.tenant in tenants + {tenant}
      ensures Settled(e, passOf(e.tenant), timeout, all, answered, held, after)
    {
      if e.tenant == tenant {
        PassedSettles(batch, tenant, passOf(tenant), timeout, buffer, acked, held, after, done, deferred, e);
      } else {
        assert Settled(e, passOf(e.tenant), timeout, buffer, acked, held, before);
        assert e.message !in done;
      }
    }
  }

  lemma {:induction false} SamplesSame(a: map<Id, EvalStatus>, b: map<Id, EvalStatus>, scorable: Id -> bool,
                                       entries: seq<Buffered>)
    requires a.Keys == b.Keys
    ensures SamplesOf(a, scorable, entries) == SamplesOf(b, scorable, entries)
  {
    if entries != [] { SamplesSame(a, b, scorable, entries[..|entries| - 1]); }
  }

  /** A fate depends on the table through the entry's own row and the set of rows only. */
  lemma FateSame(a: map<Id, EvalStatus>, b: map<Id, EvalStatus>, pass: Pass, timeout: int, entries: seq<Buffered>,
                 e: Buffered)
    requires a.Keys == b.Keys && (e.trace in a ==> a[e.trace] == b[e.trace])
    ensures FateOf(a, pass, timeout, entries, e) == FateOf(b, pass, timeout, entries, e)
  {
    SamplesSame(a, b, pass.scorable, entries);
  }

  /** The row of an entry that is alone has not been touched by the tenants before it, and is not by those after. */
  lemma RowUntouched(batch: seq<Buffered>, tenants: set<Id>, before: map<Id, EvalStatus>, table: map<Id, EvalStatus>,
                     e: Buffered)
    requires e in batch && Alone(batch, before, e) && e.tenant !in tenants && table.Keys == before.Keys
    requires forall t :: t in table && (forall o :: o in batch && o.tenant in tenants ==> o.trace != t) ==>
        table[t] == before[t]
    ensures e.trace in table ==> table[e.trace] == before[e.trace]
  {
  }

  ghost predicate OnlyTraces(was: map<Id, EvalStatus>, after: map<Id, EvalStatus>, traces: set<Id>)
  {
    was.Keys == after.Keys && forall t :: t in after && t !in traces ==> after[t] == was[t]
  }

  lemma SliceTraces(batch: seq<Buffered>, tenant: Id, t: Id)
    requires DistinctMessages(batch)
    ensures t in TracesOf(SliceOf(batch, tenant)) <==> exists o :: o in batch && o.tenant == tenant && o.trace == t
  {
    TenantEntries(batch, tenant);
    if t in TracesOf(SliceOf(batch, tenant)) {
      var x :| x in SliceOf(batch, tenant) && x.trace == t;
      var o :| o in batch && o.tenant == tenant && Bumped(o) == x;
    }
    if o :| o in batch && o.tenant == tenant && o.trace == t {
      assert Bumped(o) in SliceOf(batch, tenant) && Bumped(o).trace == t;
    }
  }

  /** Rows that no tenant so far names are still as before. */
  lemma UnnamedRows(batch: seq<Buffered>, tenants: set<Id>, tenant: Id, before: map<Id, EvalStatus>,
                    was: map<Id, EvalStatus>,
                    after: map<Id, EvalStatus>)
    requires DistinctMessages(batch) && OnlyTraces(was, after, TracesOf(SliceOf(batch, tenant))) &&
        was.Keys == before.Keys
    requires forall t :: t in was && (forall o :: o in batch && o.tenant in tenants ==> o.trace != t) ==>
        was[t] == before[t]
    ensures forall t :: t in after && (forall o :: o in batch && o.tenant in tenants + {tenant} ==> o.trace != t) ==>
        after[t] == before[t]
  {
    forall t | t in after && (forall o :: o in batch && o.tenant in tenants + {tenant} ==> o.trace != t)
        ensures after[t] == before[t] {
      SliceTraces(batch, tenant, t);
    }
  }

  /** Another tenant's pass changes neither the messages nor the row of an entry that is alone. */
  lemma FateStays(batch: seq<Buffered>, tenant: Id, pass: Pass, timeout: int, before: map<Id, EvalStatus>,
                  buffer: seq<Buffered>, acked: set<Id>, held: set<Id>, was: map<Id, EvalStatus>,
                  more: seq<Buffered>, answered: set<Id>, keeping: set<Id>, after: map<Id, EvalStatus>, e: Buffered)
    requires DistinctMessages(batch) && e in batch && e.tenant != tenant && was.Keys == before.Keys
    requires FateMet(batch, pass, timeout, before, buffer, acked, held, was, e)
    requires OnlyTraces(was, after, TracesOf(SliceOf(batch, tenant)))
    requires forall x :: x in buffer ==> x in more
    requires (e.message in answered <==> e.message in acked) && (e.message in keeping <==> e.message in held)
    ensures FateMet(batch, pass, timeout, before, more, answered, keeping, after, e)
  {
    SliceTraces(batch, tenant, e.trace);
  }

  lemma FailedExactly(batch: seq<Buffered>, tenants: set<Id>, tenant: Id, passOf: Id -> Pass, timeout: int,
                      before: map<Id, EvalStatus>,
                      buffer: seq<Buffered>, acked: set<Id>, held: set<Id>, was: map<Id, EvalStatus>,
                      after: map<Id, EvalStatus>)
    requires DistinctMessages(batch) && Progress(batch, tenants, passOf, timeout, buffer, acked, held, was) &&
        tenant !in tenants
    requires Exact(batch, tenants, passOf, timeout, before, buffer, acked, held, was)
    requires OnlyTraces(was, after, TracesOf(SliceOf(batch, tenant))) &&
        Raises(was, passOf(tenant), SliceOf(batch, tenant))
    ensures Exact(batch, tenants + {tenant}, passOf, timeout, before, buffer, acked,
        held - Messages(SliceOf(batch, tenant)), after)
  {
    var slice := SliceOf(batch, tenant);
    TenantEntries(batch, tenant);
    UnnamedRows(batch, tenants, tenant, before, was, after);
    SamplesSame(before, was, passOf(tenant).scorable, slice);
    forall e | e in batch && e.tenant in tenants + {tenant}
      ensures FateMet(batch, passOf(e.tenant), timeout, before, buffer, acked, held - Messages(slice), after, e)
    {
      if e.tenant != tenant {
        FateStays(batch, tenant, passOf(e.tenant), timeout, before, buffer, acked, held, was, buffer, acked,
            held - Messages(slice), after, e);
      }
    }
  }

  lemma PassedExactly(batch: seq<Buffered>, tenants: set<Id>, tenant: Id, passOf: Id -> Pass, timeout: int,
                      before: map<Id, EvalStatus>,
                      buffer: seq<Buffered>, acked: set<Id>, held: set<Id>, was: map<Id, EvalStatus>,
                      after: map<Id, EvalStatus>,
                      done: seq<Id>, deferred: seq<Buffered>)
    requires DistinctMessages(batch) && Progress(batch, tenants, passOf, timeout, buffer, acked, held, was) &&
        tenant !in tenants
    requires Exact(batch, tenants, passOf, timeout, before, buffer, acked, held, was)
    requires OnlyTraces(was, after, TracesOf(SliceOf(batch, tenant))) &&
        !Raises(was, passOf(tenant), SliceOf(batch, tenant))
    requires Passed(SliceOf(batch, tenant), passOf(tenant), timeout, done, deferred, after)
    requires Delivered(was, after, passOf(tenant), timeout, SliceOf(batch, tenant), done, deferred)
    ensures Exact(batch, tenants + {tenant}, passOf, timeout, before, buffer + deferred, acked + Elems(done), held,
        after)
  {
    UnnamedRows(batch, tenants, tenant, before, was, after);
    PassedMessages(batch, tenants, tenant, passOf, timeout, buffer, acked, held, was, after, done, deferred);
    forall e | e in batch && e.tenant in tenants + {tenant}
      ensures FateMet(batch, passOf(e.tenant), timeout, before, buffer + deferred, acked + Elems(done), held, after, e)
    {
      if e.tenant == tenant {
        if Alone(batch, before, e) { RowUntouched(batch, tenants, before, was, e); }
        DeliveredFate(batch, tenant, passOf(tenant), timeout, before, buffer, acked, held, was, after, done, deferred,
            e);
      } else {
        assert e.message !in done;
        FateStays(batch, tenant, passOf(e.tenant), timeout, before, buffer, acked, held, was,
                  buffer + deferred, acked + Elems(done), held, after, e);
      }
    }
  }

  /** The pass of an entry's own tenant gives it its fate. */
  lemma DeliveredFate(batch: seq<Buffered>, tenant: Id, pass: Pass, timeout: int, before: map<Id, EvalStatus>,
                      buffer: seq<Buffered>, acked: set<Id>, held: set<Id>, was: map<Id, EvalStatus>,
                      after: map<Id, EvalStatus>,
                      done: seq<Id>, deferred: seq<Buffered>, e: Buffered)
    requires DistinctMessages(batch) && e in batch && e.tenant == tenant && was.Keys == before.Keys == after.Keys
    requires !Raises(was, pass, SliceOf(batch, tenant)) && e.message in held && e.message !in acked
    requires Alone(batch, before, e) ==> (e.trace in was ==> was[e.trace] == before[e.trace])
    requires Delivered(was, after, pass, timeout, SliceOf(batch, tenant), done, deferred)
    ensures FateMet(batch, pass, timeout, before, buffer + deferred, acked + Elems(done), held, after, e)
  {
    var slice := SliceOf(batch, tenant);
    TenantEntries(batch, tenant);
    assert Bumped(e) in slice && Bumped(e).message == e.message && Bumped(e).trace == e.trace;
    assert IsDeferred(was, pass, timeout, Bumped(e)) == IsDeferred(was, pass, timeout, e);
    SamplesSame(before, was, pass.scorable, slice);
    if Alone(batch, before, e) { FateSame(before, was, pass, timeout, slice, e); }
  }

  lemma NextTenant(tenants: seq<Id>, k: nat)
    requires k < |tenants| && forall i, j :: 0 <= i < j < |tenants| ==> tenants[i] != tenants[j]
    ensures tenants[k] in tenants && tenants[k] !in Elems(tenants[..k])
    ensures Elems(tenants[..k + 1]) == Elems(tenants[..k]) + {tenants[k]}
  {
    assert tenants[..k + 1] == tenants[..k] + [tenants[k]];
  }

  lemma AllTenants(batch: seq<Buffered>, tenants: set<Id>, passOf: Id -> Pass, timeout: int,
                   before: map<Id, EvalStatus>,
                   buffer: seq<Buffered>, acked: set<Id>, held: set<Id>, table: map<Id, EvalStatus>)
    requires Progress(batch, tenants, passOf, timeout, buffer, acked, held, table)
    requires Exact(batch, tenants, passOf, timeout, before, buffer, acked, held, table)
    requires DistinctMessages(batch) && forall e :: e in batch ==> e.tenant in tenants
    ensures Flushed(batch, passOf, timeout, before, buffer, acked, held - acked, table)
  {
    forall e | e in batch
      ensures Settled(e, passOf(e.tenant), timeout, buffer, acked, held - acked, table)
      ensures FateMet(batch, passOf(e.tenant), timeout, before, buffer, acked, held - acked, table, e)
    {
      assert Settled(e, passOf(e.tenant), timeout, buffer, acked, held, table);
      assert FateMet(batch, passOf(e.tenant), timeout, before, buffer, acked, held, table, e);
    }
    forall m | m in held - acked ensures m in Messages(buffer) {
      var e :| e in batch && e.message == m;
      assert Settled(e, passOf(e.tenant), timeout, buffer, acked, held, table);
      assert Bumped(e) in buffer && Bumped(e).message == m;
    }
  }

  lemma AppendFresh(b: seq<Buffered>, e: Buffered)
    requires DistinctMessages(b) && e.message !in Messages(b)
    ensures DistinctMessages(b + [e]) && Messages(b + [e]) == Messages(b) + {e.message}
  {
  }

  lemma FailedStep(samples: seq<Id>, graded: nat -> bool, i: nat)
    requires i < |samples|
    ensures forall t :: SampleFailed(samples[..i + 1], graded, t) <==>
        SampleFailed(samples[..i], graded, t) || (samples[i] == t && !graded(i))
  {
    forall t | SampleFailed(samples[..i], graded, t) ensures SampleFailed(samples[..i + 1], graded, t) {
      var j :| 0 <= j < i && samples[..i][j] == t && !graded(j);
      assert samples[..i + 1][j] == t;
    }
    if !graded(i) { assert samples[..i + 1][i] == samples[i]; }
    forall t | SampleFailed(samples[..i + 1], graded, t) && !(samples[i] == t && !graded(i))
        ensures SampleFailed(samples[..i], graded, t) {
      var j :| 0 <= j < i + 1 && samples[..i + 1][j] == t && !graded(j);
      assert samples[..i][j] == t;
    }
  }
}
