/** When is the merge convergent?  A schedule delivers a set of events in batches; the columns that every
    schedule of the set fills alike are characterised exactly.  */
module MergeSchedules {
  import opened Ids
  import opened Events
  import opened TraceMerge

  /** The row after the batches, starting without one. */
  function Merged(batches: seq<seq<Event>>, sampled: bool): Core
  {
    if batches == [] then MERGE_DEFAULTS
    else MergeBatch(Merged(batches[..|batches| - 1], sampled), batches[|batches| - 1], sampled)
  }

  function Delivered(batches: seq<seq<Event>>): set<Event>
  {
    if batches == [] then {} else Delivered(batches[..|batches| - 1]) + Elems(batches[|batches| - 1])
  }

  /** The batches carry exactly these events, in any order, split and repetition. */
  ghost predicate Delivers(batches: seq<seq<Event>>, events: set<Event>)
  {
    Delivered(batches) == events && forall i :: 0 <= i < |batches| ==> batches[i] != []
  }

  lemma {:induction false} MergedDescribes(batches: seq<seq<Event>>, sampled: bool)
    requires OneEnd(Delivered(batches))
    ensures Describes(Merged(batches, sampled), Delivered(batches), sampled)
  {
    if batches == [] {
      DefaultsDescribe(sampled);
    } else {
      var front := batches[..|batches| - 1];
      OneEndOfFewer(Delivered(front), Delivered(batches));
      MergedDescribes(front, sampled);
      BatchDescribes(Merged(front, sampled), Delivered(front), batches[|batches| - 1], sampled);
    }
  }

  lemma {:induction false} MergedShows<V>(c: Column<V>, batches: seq<seq<Event>>, sampled: bool)
    requires Follows(c)
    ensures Shows(c, c.read(Merged(batches, sampled)), Delivered(batches))
  {
    if batches != [] {
      MergedShows(c, batches[..|batches| - 1], sampled);
      BatchShows(c, Merged(batches[..|batches| - 1], sampled), Delivered(batches[..|batches| - 1]),
          batches[|batches| - 1], sampled);
    }
  }

  lemma {:induction false} Listing(events: set<Event>) returns (s: seq<Event>)
    ensures Elems(s) == events
  {
    if events == {} {
      s := [];
    } else {
      var e :| e in events;
      var rest := Listing(events - {e});
      ElemsAppend(rest, e);
      s := rest + [e];
    }
  }

  lemma TwoBatches(a: seq<Event>, b: seq<Event>, sampled: bool)
    requires a != [] && b != []
    ensures Delivers([a, b], Elems(a) + Elems(b))
    ensures Merged([a, b], sampled) == MergeBatch(MergeBatch(MERGE_DEFAULTS, a, sampled), b, sampled)
  {
    var both := [a, b];
    assert both[..1] == [a] && [a][..0] == [];
    assert Merged([a], sampled) == MergeBatch(MERGE_DEFAULTS, a, sampled);
    assert Delivered([a]) == Elems(a);
  }

  lemma OneBatch(a: seq<Event>, sampled: bool)
    requires a != []
    ensures Delivers([a], Elems(a)) && Merged([a], sampled) == MergeBatch(MERGE_DEFAULTS, a, sampled)
  {
    assert [a][..0] == [];
  }

  lemma AloneInBatch(row: Core, e: Event)
    ensures SortByTime([e]) == [e] && MergeEvents(row, [e]) == MergeEvent(row, e)
  {
    assert [e][..0] == [];
  }

  // -------------------------------------------------- columns that show one event

  /** Any event that may stand in the column does so under some schedule. */
  lemma Dictate<V>(c: Column<V>, x: Event, events: set<Event>, sampled: bool) returns (batches: seq<seq<Event>>)
    requires Follows(c) && MayShow(c, x, events)
    ensures Delivers(batches, events) && c.read(Merged(batches, sampled)) == c.value(x)
  {
    var all := Listing(events);
    assert x in Elems(all);
    assert Elems(all) + Elems([x]) == events && Elems([x]) + Elems(all) == events;
    AloneInBatch(MERGE_DEFAULTS, x);
    if c.rule.LastWins? || (c.rule.EnvelopeThenFirst? && x.IsEnvelope()) {
      batches := [all, [x]];
      TwoBatches(all, [x], sampled);
      AloneInBatch(MergeBatch(MERGE_DEFAULTS, all, sampled), x);
    } else {
      batches := [[x], all];
      TwoBatches([x], all, sampled);
      FirstStays(c, x, events, all, sampled);
    }
  }

  lemma FirstStays<V>(c: Column<V>, x: Event, events: set<Event>, all: seq<Event>, sampled: bool)
    requires Follows(c) && MayShow(c, x, events) && !c.rule.LastWins? && Elems(all) == events
    requires c.rule.EnvelopeThenFirst? ==> !x.IsEnvelope()
    ensures c.read(MergeBatch(MergeBatch(MERGE_DEFAULTS, [x], sampled), all, sampled)) == c.value(x)
  {
    AloneInBatch(MERGE_DEFAULTS, x);
    var row := MergeBatch(MERGE_DEFAULTS, [x], sampled);
    assert c.read(row) == c.value(x);
    SortKeepsElems(all);
    var sorted := SortByTime(all);
    forall j | 0 <= j < |sorted| && c.rule.EnvelopeThenFirst?
      ensures !(c.has(sorted[j]) && sorted[j].IsEnvelope())
    {
      assert sorted[j] in Elems(sorted);
    }
    StoredStays(c, row, sorted);
  }

  ghost predicate Settles<V>(read: Core -> V, events: set<Event>, sampled: bool)
  {
    forall a, b :: Delivers(a, events) && Delivers(b, events) ==> read(Merged(a, sampled)) == read(Merged(b, sampled))
  }

  /** Name, service, environment, input, session, user and model: all schedules agree exactly when all
      the events that may stand in the column have the same value. */
  lemma ColumnSettlesIff<V>(c: Column<V>, events: set<Event>, sampled: bool)
    requires Follows(c)
    ensures Settles(c.read, events, sampled) <==> Unanimous(c, events)
  {
    if Settles(c.read, events, sampled) {
      forall x, y | MayShow(c, x, events) && MayShow(c, y, events) ensures c.value(x) == c.value(y) {
        var a := Dictate(c, x, events, sampled);
        var b := Dictate(c, y, events, sampled);
      }
    }
    if Unanimous(c, events) {
      forall a, b | Delivers(a, events) && Delivers(b, events)
        ensures c.read(Merged(a, sampled)) == c.read(Merged(b, sampled))
      {
        MergedShows(c, a, sampled);
        MergedShows(c, b, sampled);
      }
    }
  }

  /** The envelopes that carry an input carry the same one, or none does and so do the spans. */
  ghost predicate SameInputs(events: set<Event>)
  {
    if exists e :: e in events && e.IsEnvelope() && e.input != map[]
    then forall x, y ::
        x in events && y in events && x.IsEnvelope() && y.IsEnvelope() && x.input != map[] && y.input != map[] ==>
            x.input == y.input
    else forall x, y :: x in events && y in events && x.input != map[] && y.input != map[] ==> x.input == y.input
  }

  lemma InputSettlesIff(events: set<Event>, sampled: bool)
    ensures Settles(INPUT.read, events, sampled) <==> SameInputs(events)
  {
    InputFollows();
    ColumnSettlesIff(INPUT, events, sampled);
    UnanimousInput(events);
  }

  lemma UnanimousInput(events: set<Event>)
    ensures Unanimous(INPUT, events) <==> SameInputs(events)
  {
    assert HasEnvelope(INPUT, events) <==> exists e :: e in events && e.IsEnvelope() && e.input != map[];
    assert forall x :: MayShow(INPUT, x, events) <==>
      x in events && x.input != map[] && (HasEnvelope(INPUT, events) ==> x.IsEnvelope());
  }

  // ------------------------------------------------------------------- the latency

  /** The end first and alone, and everything at once, are the extremes. */
  lemma EndFirst(e: Event, events: set<Event>, sampled: bool) returns (batches: seq<seq<Event>>)
    requires OneEnd(events) && e in events && e.etype.TraceEnd? && e.latencyMs.None?
    ensures Delivers(batches, events) && IsElapsed(Merged(batches, sampled).latencyMs, {e})
  {
    EndAlone(e, sampled);
    if events == {e} {
      batches := [[e]];
      assert Elems([e]) == events;
    } else {
      var rest := Listing(events - {e});
      batches := [[e], rest];
      assert events == (events - {e}) + {e};
      var x :| x in events - {e};
      assert x in Elems(rest);
      TwoBatches([e], rest, sampled);
      assert Elems([e]) + Elems(rest) == events;
      forall i | 0 <= i < |rest| ensures !rest[i].etype.TraceEnd? {
        assert rest[i] in Elems(rest);
      }
      NoEndNoTime(MergeBatch(MERGE_DEFAULTS, [e], sampled), rest, sampled);
    }
  }

  lemma EndAlone(e: Event, sampled: bool)
    requires e.etype.TraceEnd? && e.latencyMs.None?
    ensures Delivers([[e]], {e}) && Merged([[e]], sampled) == MergeBatch(MERGE_DEFAULTS, [e], sampled)
    ensures IsElapsed(MergeBatch(MERGE_DEFAULTS, [e], sampled).latencyMs, {e})
  {
    OneBatch([e], sampled);
    assert Elems([e]) == {e};
    AloneInBatch(MERGE_DEFAULTS, e);
    EarliestOfOne(e);
    assert [e][0].etype.TraceEnd?;
  }

  lemma NoEndNoTime(row: Core, rest: seq<Event>, sampled: bool)
    requires forall i :: 0 <= i < |rest| ==> !rest[i].etype.TraceEnd?
    ensures MergeBatch(row, rest, sampled).latencyMs == row.latencyMs
  {
    SortKeepsElems(rest);
    var sorted := SortByTime(rest);
    forall i | 0 <= i < |sorted| ensures !sorted[i].etype.TraceEnd? {
      assert sorted[i] in Elems(sorted);
    }
    UntimedLoop(row, sorted);
  }

  lemma {:induction false} UntimedLoop(row: Core, s: seq<Event>)
    requires forall i :: 0 <= i < |s| ==> s[i].etype.TraceEnd? ==> s[i].latencyMs.None?
    ensures MergeEvents(row, s).latencyMs == row.latencyMs
  {
    if s != [] { UntimedLoop(row, s[..|s| - 1]); }
  }

  lemma AllAtOnce(e: Event, events: set<Event>, sampled: bool) returns (batches: seq<seq<Event>>)
    requires OneEnd(events) && e in events && e.etype.TraceEnd? && e.latencyMs.None?
    ensures Delivers(batches, events) && IsElapsed(Merged(batches, sampled).latencyMs, events)
  {
    var all := Listing(events);
    assert e in Elems(all);
    batches := [all];
    OneBatch(all, sampled);
    SortKeepsElems(all);
    var sorted := SortByTime(all);
    forall i | 0 <= i < |sorted| && sorted[i].etype.TraceEnd? ensures sorted[i].latencyMs.None? {
      assert sorted[i] in Elems(sorted);
    }
    UntimedLoop(MERGE_DEFAULTS, sorted);
    MergedDescribes(batches, sampled);
    Described(Merged(batches, sampled), events, sampled);
    assert SawTraceEnd(all);
    var row := MergeEvents(MERGE_DEFAULTS, sorted);
    assert EarliestStart(row.startedAt, events) && LatestEnd(row.endedAt, events);
    assert IsElapsed(Between(row.startedAt, row.endedAt), events);
  }

  /** All schedules give one latency exactly when the end carries it, or when the end's own instants
      are as far apart as the earliest start and the latest end of all the events. */
  lemma LatencySettlesIff(events: set<Event>, sampled: bool)
    requires OneEnd(events)
    ensures Settles((r: Core) => r.latencyMs, events, sampled) <==> LatencyDetermined(events)
  {
    if Settles((r: Core) => r.latencyMs, events, sampled) {
      forall e | e in events && e.etype.TraceEnd? && e.latencyMs.None?
        ensures exists v :: IsElapsed(v, {e}) && IsElapsed(v, events)
      {
        var a := EndFirst(e, events, sampled);
        var b := AllAtOnce(e, events, sampled);
        assert Merged(a, sampled).latencyMs == Merged(b, sampled).latencyMs;
      }
    }
    if LatencyDetermined(events) {
      forall a, b | Delivers(a, events) && Delivers(b, events)
        ensures Merged(a, sampled).latencyMs == Merged(b, sampled).latencyMs
      {
        SameLatency(a, b, events, sampled);
      }
    }
  }

  lemma SameLatency(a: seq<seq<Event>>, b: seq<seq<Event>>, events: set<Event>, sampled: bool)
    requires OneEnd(events) && Delivers(a, events) && Delivers(b, events) && LatencyDetermined(events)
    ensures Merged(a, sampled).latencyMs == Merged(b, sampled).latencyMs
  {
    MergedDescribes(a, sampled);
    MergedDescribes(b, sampled);
    Described(Merged(a, sampled), events, sampled);
    Described(Merged(b, sampled), events, sampled);
    LatenciesAgree(Merged(a, sampled).latencyMs, Merged(b, sampled).latencyMs, events);
  }

  // ----------------------------------------------------------- attributes and the row

  lemma AttributesSettleIff(events: set<Event>, sampled: bool)
    requires OneEnd(events)
    ensures Settles((r: Core) => r.attributes, events, sampled) <==> forall k :: Agreed(k, events)
  {
    if Settles((r: Core) => r.attributes, events, sampled) {
      forall k ensures Agreed(k, events) { SettledAttribute(k, events, sampled); }
    }
    if forall k :: Agreed(k, events) {
      forall a, b | Delivers(a, events) && Delivers(b, events)
        ensures Merged(a, sampled).attributes == Merged(b, sampled).attributes
      {
        SameAttributes(a, b, events, sampled);
      }
    }
  }

  lemma SettledAttribute(k: string, events: set<Event>, sampled: bool)
    requires Settles((r: Core) => r.attributes, events, sampled)
    ensures Agreed(k, events)
  {
    forall x, y | x in events && y in events && k in x.attributes && k in y.attributes
      ensures x.attributes[k] == y.attributes[k]
    {
      var a := AttributeLast(k, x, events, sampled);
      var b := AttributeLast(k, y, events, sampled);
    }
  }

  lemma SameAttributes(a: seq<seq<Event>>, b: seq<seq<Event>>, events: set<Event>, sampled: bool)
    requires OneEnd(events) && Delivers(a, events) && Delivers(b, events) && forall k :: Agreed(k, events)
    ensures Merged(a, sampled).attributes == Merged(b, sampled).attributes
  {
    MergedDescribes(a, sampled);
    MergedDescribes(b, sampled);
    Described(Merged(a, sampled), events, sampled);
    Described(Merged(b, sampled), events, sampled);
    AttributesEqual(Merged(a, sampled).attributes, Merged(b, sampled).attributes, events);
  }

  lemma AttributesEqual(a: Payload, b: Payload, events: set<Event>)
    requires AttributesOf(a, events) && AttributesOf(b, events) && forall k :: Agreed(k, events)
    ensures a == b
  {
    AttributesAgree(a, b, events);
    assert forall k :: k in a <==> k in a.Keys;
  }

  lemma AttributeLast(k: string, x: Event, events: set<Event>, sampled: bool) returns (batches: seq<seq<Event>>)
    requires x in events && k in x.attributes
    ensures Delivers(batches, events)
    ensures k in Merged(batches, sampled).attributes && Merged(batches, sampled).attributes[k] == x.attributes[k]
  {
    var all := Listing(events);
    assert x in Elems(all);
    assert Elems(all) + Elems([x]) == events;
    batches := [all, [x]];
    TwoBatches(all, [x], sampled);
    AloneInBatch(MergeBatch(MERGE_DEFAULTS, all, sampled), x);
  }

  /** The values leave nothing to the schedule. */
  ghost predicate Determined(events: set<Event>)
  {
    && Unanimous(NAME, events) && Unanimous(SERVICE, events) && Unanimous(ENVIRONMENT, events) &&
        Unanimous(INPUT, events)
    && Unanimous(SESSION, events) && Unanimous(USER, events) && Unanimous(MODEL, events)
    && LatencyDetermined(events) && (forall k :: Agreed(k, events))
  }

  /** The whole row is a function of the delivered events exactly when they determine every column. */
  lemma RowSettlesIff(events: set<Event>, sampled: bool)
    requires OneEnd(events)
    ensures Settles((r: Core) => r, events, sampled) <==> Determined(events)
  {
    if Settles((r: Core) => r, events, sampled) {
      SettledIsDetermined(events, sampled);
    }
    if Determined(events) {
      forall a, b | Delivers(a, events) && Delivers(b, events) ensures Merged(a, sampled) == Merged(b, sampled) {
        MergedDescribes(a, sampled);
        MergedDescribes(b, sampled);
        DescriptionsAgree(Merged(a, sampled), Merged(b, sampled), events, sampled);
        DeterminedIsEqual(Merged(a, sampled), Merged(b, sampled), events);
      }
    }
  }

  lemma DeterminedIsEqual(a: Core, b: Core, events: set<Event>)
    requires Agree(a, b, events) && Determined(events)
    ensures a == b
  {
    assert forall k :: k in a.attributes <==> k in a.attributes.Keys;
    assert a.attributes == b.attributes;
  }

  lemma SettledIsDetermined(events: set<Event>, sampled: bool)
    requires OneEnd(events) && Settles((r: Core) => r, events, sampled)
    ensures Determined(events)
  {
    ColumnsFollow();
    SettledColumn(NAME, events, sampled);
    SettledColumn(SERVICE, events, sampled);
    SettledColumn(ENVIRONMENT, events, sampled);
    SettledColumn(INPUT, events, sampled);
    SettledColumn(SESSION, events, sampled);
    SettledColumn(USER, events, sampled);
    SettledColumn(MODEL, events, sampled);
    LatencySettlesIff(events, sampled);
    AttributesSettleIff(events, sampled);
  }

  lemma SettledColumn<V>(c: Column<V>, events: set<Event>, sampled: bool)
    requires Follows(c) && Settles((r: Core) => r, events, sampled)
    ensures Unanimous(c, events)
  {
    ColumnSettlesIff(c, events, sampled);
  }
}
