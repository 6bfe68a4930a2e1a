/** `_merge_trace`: how one batch changes a trace row, and what the columns of the row then say about the
    set of events it has seen, whatever the batches were.  */
module TraceMerge {
  import opened Ids
  import opened Wrappers
  import opened Events

  datatype EvalStatus = NotSampled | Pending | Scored | Failed | NotScorable | SkippedBudget

  /** The columns of `_TRACE_UPDATE_COLUMNS`. */
  datatype Core = Core(
    name: string, service: string, environment: string, status: SpanStatus,
    startedAt: Option<int>, endedAt: Option<int>, latencyMs: Option<int>,
    input: Payload, output: Payload, attributes: Payload,
    sessionId: Option<string>, userRef: Option<string>, model: Option<string>,
    schemaVersion: int, evalStatus: EvalStatus)

  /** What `_merge_trace` starts from when the row does not exist. */
  const MERGE_DEFAULTS :=
    Core("", "unknown", "local", Running, None, None, None, map[], map[], map[], None, None, None, 2, NotSampled)

  function StatusRank(s: SpanStatus): nat
  {
    match s
    case Running => 0
    case Ok => 1
    case Error => 2
  }

  // ---------------------------------------------------------------- the code

  function Earlier(stored: Option<int>, seen: Option<int>): Option<int>
  {
    if seen.Some? && (stored.None? || seen.value < stored.value) then seen else stored
  }

  function Later(stored: Option<int>, seen: Option<int>): Option<int>
  {
    if seen.Some? && (stored.None? || seen.value > stored.value) then seen else stored
  }

  function MergeStatus(status: SpanStatus, e: Event): SpanStatus
  {
    if e.etype.TraceEnd? then
      if StatusRank(e.status) >= StatusRank(status) then e.status else status
    else if e.status.Error? && !status.Error? then Error
    else status
  }

  function MergeInput(input: Payload, e: Event): Payload
  {
    if e.IsEnvelope() && e.input != map[] then e.input
    else if input == map[] && e.input != map[] then e.input
    else input
  }

  /** One pass of the loop over the events. */
  function MergeEvent(row: Core, e: Event): Core
  {
    Core(
      if (e.IsEnvelope() && e.name != "") || (row.name == "" && e.name != "") then Clip(e.name, 200) else row.name,
      if e.service != "" && e.service != "unknown" then e.service else row.service,
      if e.environment != "" then e.environment else row.environment,
      MergeStatus(row.status, e),
      Earlier(row.startedAt, e.startedAt),
      Later(row.endedAt, e.endedAt),
      if e.etype.TraceEnd? && e.latencyMs.Some? then e.latencyMs else row.latencyMs,
      MergeInput(row.input, e),
      if e.etype.TraceEnd? && e.output != map[] then e.output else row.output,
      row.attributes + e.attributes,
      if Present(e.sessionId) then e.sessionId else row.sessionId,
      if Present(e.userRef) then e.userRef else row.userRef,
      if Present(e.model) && !Present(row.model) then e.model else row.model,
      if e.schemaVersion > row.schemaVersion then e.schemaVersion else row.schemaVersion,
      row.evalStatus)
  }

  function MergeEvents(row: Core, events: seq<Event>): Core
  {
    if events == [] then row else MergeEvent(MergeEvents(row, events[..|events| - 1]), events[|events| - 1])
  }

  predicate SawTraceEnd(events: seq<Event>)
  {
    exists i :: 0 <= i < |events| && events[i].etype.TraceEnd?
  }

  /** What follows the loop when a trace.end was in the batch. */
  function Finish(row: Core, sampled: bool): Core
  {
    row.(
      latencyMs := if row.latencyMs.None? && row.startedAt.Some? && row.endedAt.Some?
                   then Some(ElapsedMs(row.startedAt.value, row.endedAt.value)) else row.latencyMs,
      status := if row.status.Running? then Ok else row.status,
      evalStatus := if row.evalStatus.NotSampled? || row.evalStatus.Pending?
                    then (if sampled then Pending else NotSampled) else row.evalStatus)
  }

  function InsertByTime(e: Event, s: seq<Event>): seq<Event>
  {
    if s == [] then [e]
    else if s[|s| - 1].emittedAt <= e.emittedAt then s + [e]
    else InsertByTime(e, s[..|s| - 1]) + [s[|s| - 1]]
  }

  /** `sorted(events, key=emitted_at)`, which is stable. */
  function SortByTime(s: seq<Event>): seq<Event>
  {
    if s == [] then [] else InsertByTime(s[|s| - 1], SortByTime(s[..|s| - 1]))
  }

  function MergeBatch(row: Core, events: seq<Event>, sampled: bool): Core
  {
    var merged := MergeEvents(row, SortByTime(events));
    if SawTraceEnd(events) then Finish(merged, sampled) else merged
  }

  lemma {:induction false} InsertKeepsElems(e: Event, s: seq<Event>)
    ensures Elems(InsertByTime(e, s)) == Elems(s) + {e}
  {
    if s != [] && s[|s| - 1].emittedAt > e.emittedAt {
      InsertKeepsElems(e, s[..|s| - 1]);
      ElemsAppend(s[..|s| - 1], s[|s| - 1]);
      ElemsAppend(InsertByTime(e, s[..|s| - 1]), s[|s| - 1]);
      assert s == s[..|s| - 1] + [s[|s| - 1]];
    } else {
      ElemsAppend(s, e);
      assert s == [] ==> [e] == s + [e];
    }
  }

  lemma {:induction false} SortKeepsElems(s: seq<Event>)
    ensures Elems(SortByTime(s)) == Elems(s)
  {
    if s != [] {
      SortKeepsElems(s[..|s| - 1]);
      InsertKeepsElems(s[|s| - 1], SortByTime(s[..|s| - 1]));
      ElemsAppend(s[..|s| - 1], s[|s| - 1]);
      assert s == s[..|s| - 1] + [s[|s| - 1]];
    }
  }

  lemma ElemsAppend<T>(s: seq<T>, x: T)
    ensures Elems(s + [x]) == Elems(s) + {x}
  {
  }

  // ------------------------------------------------------- the order of a batch

  /** s[i] is merged before s[j]: it is earlier, or as early and further to the front. */
  ghost predicate Precedes(s: seq<Event>, i: nat, j: nat)
    requires i < |s| && j < |s|
  {
    s[i].emittedAt < s[j].emittedAt || (s[i].emittedAt == s[j].emittedAt && i < j)
  }

  /** r holds events of s in the order of merging, r[k] being the one at place[k]. */
  ghost predicate Ordered(r: seq<Event>, s: seq<Event>, place: seq<nat>)
  {
    && |place| == |r|
    && (forall k :: 0 <= k < |r| ==> place[k] < |s| && r[k] == s[place[k]])
    && (forall k, l :: 0 <= k < l < |r| ==> Precedes(s, place[k], place[l]))
  }

  lemma AppendPlace(r: seq<Event>, s: seq<Event>, place: seq<nat>, n: nat)
    requires n < |s| && Ordered(r, s, place) && forall m :: m in place ==> m < |s| && Precedes(s, m, n)
    ensures Ordered(r + [s[n]], s, place + [n])
  {
    forall k | 0 <= k < |r| ensures Precedes(s, place[k], n) {
      assert place[k] in place;
    }
  }

  lemma FrontOrdered(r: seq<Event>, s: seq<Event>, place: seq<nat>)
    requires r != [] && Ordered(r, s, place)
    ensures var front, last := place[..|r| - 1], place[|r| - 1];
            && place == front + [last] && last in place && (forall m :: m in front ==> m in place)
            && Ordered(r[..|r| - 1], s, front)
  {
  }

  lemma {:induction false} InsertPlaces(s: seq<Event>, n: nat, r: seq<Event>, place: seq<nat>) returns (more: seq<nat>)
    requires n < |s| && Ordered(r, s, place) && forall m :: m in place ==> m < n
    ensures Ordered(InsertByTime(s[n], r), s, more) && forall m :: m in more <==> m in place || m == n
  {
    if r == [] {
      more := [n];
    } else if r[|r| - 1].emittedAt <= s[n].emittedAt {
      more := place + [n];
      AllEarlier(r, s, place, n);
      AppendPlace(r, s, place, n);
    } else {
      var front, last := place[..|r| - 1], place[|r| - 1];
      FrontOrdered(r, s, place);
      var shorter := InsertPlaces(s, n, r[..|r| - 1], front);
      AllAhead(r, s, front, last, n);
      AppendPlace(InsertByTime(s[n], r[..|r| - 1]), s, shorter, last);
      more := shorter + [last];
    }
  }

  lemma AllAhead(r: seq<Event>, s: seq<Event>, front: seq<nat>, last: nat, n: nat)
    requires n < |s| && last < |s| && Ordered(r, s, front + [last]) && s[n].emittedAt < s[last].emittedAt
    ensures forall m :: m in front ==> m < |s| && Precedes(s, m, last)
  {
    forall m | m in front ensures m < |s| && Precedes(s, m, last) {
      var k :| 0 <= k < |front| && front[k] == m;
      assert (front + [last])[k] == m && (front + [last])[|front|] == last;
    }
  }

  lemma AllEarlier(r: seq<Event>, s: seq<Event>, place: seq<nat>, n: nat)
    requires r != [] && n < |s| && Ordered(r, s, place) && r[|r| - 1].emittedAt <= s[n].emittedAt
    requires forall m :: m in place ==> m < n
    ensures forall m :: m in place ==> m < |s| && Precedes(s, m, n)
  {
    forall m | m in place ensures m < |s| && Precedes(s, m, n) {
      var k :| 0 <= k < |place| && place[k] == m;
      if k < |r| - 1 { assert Precedes(s, place[k], place[|r| - 1]); }
    }
  }

  lemma {:induction false} PrefixPlaces(s: seq<Event>, n: nat) returns (place: seq<nat>)
    requires n <= |s|
    ensures Ordered(SortByTime(s[..n]), s, place) && forall i :: i in place <==> 0 <= i < n
  {
    if n == 0 {
      place := [];
    } else {
      var front := PrefixPlaces(s, n - 1);
      assert s[..n][..n - 1] == s[..n - 1];
      place := InsertPlaces(s, n - 1, SortByTime(s[..n - 1]), front);
    }
  }

  /** The sort is by time and stable: every place of the batch occurs, in the order of merging. */
  lemma SortIsStable(s: seq<Event>) returns (place: seq<nat>)
    ensures Ordered(SortByTime(s), s, place) && forall i :: i in place <==> 0 <= i < |s|
  {
    place := PrefixPlaces(s, |s|);
    assert s[..|s|] == s;
  }

  // --------------------------------------------------- columns that show one event

  datatype Rule = LastWins | FirstWins | EnvelopeThenFirst

  /** A column that shows the value of one of the events that have one; the rule says of which. */
  datatype Column<!V> = Column(read: Core -> V, has: Event -> bool, value: Event -> V, blank: V -> bool, rule: Rule)

  const NAME: Column<string> :=
    Column((r: Core) => r.name, (e: Event) => e.name != "", (e: Event) => Clip(e.name, 200),
        (v: string) => v == "", EnvelopeThenFirst)
  const SERVICE: Column<string> :=
    Column((r: Core) => r.service, (e: Event) => e.service != "" && e.service != "unknown", (e: Event) => e.service,
           (v: string) => v == "unknown", LastWins)
  const ENVIRONMENT: Column<string> :=
    Column((r: Core) => r.environment, (e: Event) => e.environment != "", (e: Event) => e.environment,
        (v: string) => false, LastWins)
  const INPUT: Column<Payload> :=
    Column((r: Core) => r.input, (e: Event) => e.input != map[], (e: Event) => e.input,
        (v: Payload) => v == map[], EnvelopeThenFirst)
  const SESSION: Column<Option<string>> :=
    Column((r: Core) => r.sessionId, (e: Event) => Present(e.sessionId), (e: Event) => e.sessionId,
        (v: Option<string>) => !Present(v), LastWins)
  const USER: Column<Option<string>> :=
    Column((r: Core) => r.userRef, (e: Event) => Present(e.userRef), (e: Event) => e.userRef,
        (v: Option<string>) => !Present(v), LastWins)
  const MODEL: Column<Option<string>> :=
    Column((r: Core) => r.model, (e: Event) => Present(e.model), (e: Event) => e.model,
        (v: Option<string>) => !Present(v), FirstWins)

  ghost predicate Takes<V>(c: Column<V>, v: V, e: Event)
  {
    && c.has(e)
    && match c.rule
       case LastWins => true
       case FirstWins => c.blank(v)
       case EnvelopeThenFirst => e.IsEnvelope() || c.blank(v)
  }

  /** Merging changes the column by its rule. */
  ghost predicate Follows<V>(c: Column<V>)
  {
    && (forall row, e :: c.read(MergeEvent(row, e)) == if Takes(c, c.read(row), e) then c.value(e) else c.read(row))
    && (forall row, sampled :: c.read(Finish(row, sampled)) == c.read(row))
    && (!c.rule.LastWins? ==> c.blank(c.read(MERGE_DEFAULTS)) && forall e :: c.has(e) ==> !c.blank(c.value(e)))
  }

  lemma NameFollows()
    ensures Follows(NAME)
  {
  }

  lemma TextColumnsFollow()
    ensures Follows(SERVICE) && Follows(ENVIRONMENT)
  {
  }

  lemma InputFollows()
    ensures Follows(INPUT)
  {
  }

  lemma OptionColumnsFollow()
    ensures Follows(SESSION) && Follows(USER)
  {
  }

  lemma ModelFollows()
    ensures Follows(MODEL)
  {
  }

  lemma ColumnsFollow()
    ensures Follows(NAME) && Follows(SERVICE) && Follows(ENVIRONMENT) && Follows(INPUT)
    ensures Follows(SESSION) && Follows(USER) && Follows(MODEL)
  {
    NameFollows();
    TextColumnsFollow();
    InputFollows();
    OptionColumnsFollow();
    ModelFollows();
  }

  lemma {:induction false} NobodyChanges<V>(c: Column<V>, row: Core, events: seq<Event>)
    requires Follows(c) && forall j :: 0 <= j < |events| ==> !c.has(events[j])
    ensures c.read(MergeEvents(row, events)) == c.read(row)
  {
    if events != [] { NobodyChanges(c, row, events[..|events| - 1]); }
  }

  /** What stands in the column stays, unless an envelope may replace it. */
  lemma {:induction false} StoredStays<V>(c: Column<V>, row: Core, events: seq<Event>)
    requires Follows(c) && !c.rule.LastWins? && !c.blank(c.read(row))
    requires c.rule.EnvelopeThenFirst? ==> forall j :: 0 <= j < |events| ==>
        !(c.has(events[j]) && events[j].IsEnvelope())
    ensures c.read(MergeEvents(row, events)) == c.read(row)
  {
    if events != [] { StoredStays(c, row, events[..|events| - 1]); }
  }

  lemma {:induction false} LastOfList<V>(c: Column<V>, row: Core, events: seq<Event>, k: nat)
    requires Follows(c) && c.rule.LastWins? && k < |events| && c.has(events[k])
    requires forall l :: k < l < |events| ==> !c.has(events[l])
    ensures c.read(MergeEvents(row, events)) == c.value(events[k])
  {
    if k < |events| - 1 { LastOfList(c, row, events[..|events| - 1], k); }
  }

  lemma {:induction false} FirstOfList<V>(c: Column<V>, row: Core, events: seq<Event>, k: nat)
    requires Follows(c) && c.rule.FirstWins? && c.blank(c.read(row)) && k < |events| && c.has(events[k])
    requires forall l :: 0 <= l < k ==> !c.has(events[l])
    ensures c.read(MergeEvents(row, events)) == c.value(events[k])
  {
    if k < |events| - 1 {
      FirstOfList(c, row, events[..|events| - 1], k);
    } else {
      NobodyChanges(c, row, events[..k]);
    }
  }

  /** After a batch: the event that is last in time among those with a value. */
  lemma LatestWins<V>(c: Column<V>, row: Core, events: seq<Event>, i: nat, sampled: bool)
    requires Follows(c) && c.rule.LastWins? && i < |events| && c.has(events[i])
    requires forall j :: 0 <= j < |events| && j != i && c.has(events[j]) ==> Precedes(events, j, i)
    ensures c.read(MergeBatch(row, events, sampled)) == c.value(events[i])
  {
    var place := SortIsStable(events);
    assert i in place;
    var k :| 0 <= k < |place| && place[k] == i;
    forall l | k < l < |place| ensures !c.has(SortByTime(events)[l]) {
      assert Precedes(events, i, place[l]);
    }
    LastOfList(c, row, SortByTime(events), k);
  }

  /** After a batch that found the column blank: the event that is first in time among those with a value. */
  lemma EarliestWins<V>(c: Column<V>, row: Core, events: seq<Event>, i: nat, sampled: bool)
    requires Follows(c) && c.rule.FirstWins? && c.blank(c.read(row)) && i < |events| && c.has(events[i])
    requires forall j :: 0 <= j < |events| && j != i && c.has(events[j]) ==> Precedes(events, i, j)
    ensures c.read(MergeBatch(row, events, sampled)) == c.value(events[i])
  {
    var place := SortIsStable(events);
    assert i in place;
    var k :| 0 <= k < |place| && place[k] == i;
    forall l | 0 <= l < k ensures !c.has(SortByTime(events)[l]) {
      assert Precedes(events, place[l], i);
    }
    FirstOfList(c, row, SortByTime(events), k);
  }

  lemma {:induction false} AttributeOfList(row: Core, events: seq<Event>, key: string, k: nat)
    requires k < |events| && key in events[k].attributes
    requires forall l :: k < l < |events| ==> key !in events[l].attributes
    ensures var r := MergeEvents(row, events); key in r.attributes && r.attributes[key] == events[k].attributes[key]
  {
    if k < |events| - 1 { AttributeOfList(row, events[..|events| - 1], key, k); }
  }

  /** After a batch an attribute has the value of the event that is last in time among those that carry it. */
  lemma LastAttributeWins(row: Core, events: seq<Event>, key: string, i: nat, sampled: bool)
    requires i < |events| && key in events[i].attributes
    requires forall j :: 0 <= j < |events| && j != i && key in events[j].attributes ==> Precedes(events, j, i)
    ensures var r := MergeBatch(row, events, sampled);
            key in r.attributes && r.attributes[key] == events[i].attributes[key]
  {
    var place := SortIsStable(events);
    assert i in place;
    var k :| 0 <= k < |place| && place[k] == i;
    forall l | k < l < |place| ensures key !in SortByTime(events)[l].attributes {
      assert Precedes(events, i, place[l]);
    }
    AttributeOfList(row, SortByTime(events), key, k);
  }

  lemma LastServiceWins(row: Core, events: seq<Event>, i: nat, sampled: bool)
    requires i < |events| && SERVICE.has(events[i])
    requires forall j :: 0 <= j < |events| && j != i && SERVICE.has(events[j]) ==> Precedes(events, j, i)
    ensures MergeBatch(row, events, sampled).service == events[i].service
  {
    ColumnsFollow();
    LatestWins(SERVICE, row, events, i, sampled);
  }

  lemma LastSessionWins(row: Core, events: seq<Event>, i: nat, sampled: bool)
    requires i < |events| && Present(events[i].sessionId)
    requires forall j :: 0 <= j < |events| && j != i && Present(events[j].sessionId) ==> Precedes(events, j, i)
    ensures MergeBatch(row, events, sampled).sessionId == events[i].sessionId
  {
    ColumnsFollow();
    LatestWins(SESSION, row, events, i, sampled);
  }

  /** Without a stored model, the earliest event in time that has one decides. */
  lemma FirstModelWins(row: Core, events: seq<Event>, i: nat, sampled: bool)
    requires !Present(row.model) && i < |events| && Present(events[i].model)
    requires forall j :: 0 <= j < |events| && j != i && Present(events[j].model) ==> Precedes(events, i, j)
    ensures MergeBatch(row, events, sampled).model == events[i].model
  {
    ColumnsFollow();
    EarliestWins(MODEL, row, events, i, sampled);
  }

  lemma StoredModelStays(row: Core, events: seq<Event>, sampled: bool)
    requires Present(row.model)
    ensures MergeBatch(row, events, sampled).model == row.model
  {
    ColumnsFollow();
    StoredStays(MODEL, row, SortByTime(events));
  }

  // ------------------------------------------------- what the columns must say

  ghost predicate HasError(events: set<Event>)
  {
    exists e :: e in events && e.status.Error?
  }

  ghost predicate HasEnd(events: set<Event>)
  {
    exists e :: e in events && e.etype.TraceEnd?
  }

  ghost predicate EarliestStart(v: Option<int>, events: set<Event>)
  {
    && (v.Some? ==> exists e :: e in events && e.startedAt == v)
    && (forall e :: e in events && e.startedAt.Some? ==> v.Some? && v.value <= e.startedAt.value)
  }

  ghost predicate LatestEnd(v: Option<int>, events: set<Event>)
  {
    && (v.Some? ==> exists e :: e in events && e.endedAt == v)
    && (forall e :: e in events && e.endedAt.Some? ==> v.Some? && e.endedAt.value <= v.value)
  }

  ghost predicate NewestSchema(v: int, events: set<Event>)
  {
    && (v == 2 || exists e :: e in events && e.schemaVersion == v)
    && 2 <= v && (forall e :: e in events ==> e.schemaVersion <= v)
  }

  ghost predicate OutputOf(v: Payload, events: set<Event>)
  {
    && (v != map[] ==> exists e :: e in events && e.etype.TraceEnd? && e.output == v)
    && (forall e :: e in events && e.etype.TraceEnd? && e.output != map[] ==> v == e.output)
  }

  function Between(start: Option<int>, end: Option<int>): Option<int>
  {
    if start.Some? && end.Some? then Some(ElapsedMs(start.value, end.value)) else None
  }

  /** v is the time from the earliest start to the latest end among the events, if both exist. */
  ghost predicate IsElapsed(v: Option<int>, events: set<Event>)
  {
    exists a, b :: EarliestStart(a, events) && LatestEnd(b, events) && v == Between(a, b)
  }

  /** v was computed when some of the events, the end e among them, had been seen. */
  ghost predicate TimedFrom(v: Option<int>, e: Event, events: set<Event>)
  {
    exists seen :: e in seen && seen <= events && IsElapsed(v, seen)
  }

  /** The latency an end carries; else a time computed with the events seen at that moment, and none only
      if the end alone gives none. */
  ghost predicate LatencyOf(v: Option<int>, events: set<Event>)
  {
    && (!HasEnd(events) ==> v == None)
    && forall e :: e in events && e.etype.TraceEnd? ==>
         if e.latencyMs.Some? then v == e.latencyMs
         else if v.Some? then TimedFrom(v, e, events)
         else IsElapsed(None, {e})
  }

  ghost predicate HasEnvelope<V>(c: Column<V>, events: set<Event>)
  {
    exists e :: e in events && c.has(e) && e.IsEnvelope()
  }

  /** Whose value may stand in the column: where envelopes go first, an envelope's if one has any. */
  ghost predicate MayShow<V>(c: Column<V>, x: Event, events: set<Event>)
  {
    x in events && c.has(x) && (c.rule.EnvelopeThenFirst? && HasEnvelope(c, events) ==> x.IsEnvelope())
  }

  ghost predicate Shows<V>(c: Column<V>, v: V, events: set<Event>)
  {
    if exists x :: MayShow(c, x, events) then exists x :: MayShow(c, x, events) && v == c.value(x)
    else v == c.read(MERGE_DEFAULTS)
  }

  datatype Field = Name | Service | Environment | Input | Session | User | Model

  ghost predicate FieldShows(f: Field, row: Core, events: set<Event>)
  {
    match f
    case Name => Shows(NAME, row.name, events)
    case Service => Shows(SERVICE, row.service, events)
    case Environment => Shows(ENVIRONMENT, row.environment, events)
    case Input => Shows(INPUT, row.input, events)
    case Session => Shows(SESSION, row.sessionId, events)
    case User => Shows(USER, row.userRef, events)
    case Model => Shows(MODEL, row.model, events)
  }

  ghost predicate AttributesOf(v: Payload, events: set<Event>)
  {
    && (forall k :: k in v ==> exists e :: e in events && k in e.attributes && e.attributes[k] == v[k])
    && (forall e, k :: e in events && k in e.attributes ==> k in v)
  }

  ghost predicate FinalStatus(s: SpanStatus, events: set<Event>)
  {
    s == if HasError(events) then Error else if HasEnd(events) then Ok else Running
  }

  ghost predicate EvalOf(s: EvalStatus, events: set<Event>, sampled: bool)
  {
    s == if HasEnd(events) && sampled then Pending else NotSampled
  }

  datatype Group = Scalars | Payloads | Columns

  ghost predicate Says(g: Group, row: Core, events: set<Event>, sampled: bool)
  {
    match g
    case Scalars =>
      && FinalStatus(row.status, events) && EvalOf(row.evalStatus, events, sampled)
      && EarliestStart(row.startedAt, events) && LatestEnd(row.endedAt, events) &&
          NewestSchema(row.schemaVersion, events)
    case Payloads =>
      OutputOf(row.output, events) && LatencyOf(row.latencyMs, events) && AttributesOf(row.attributes, events)
    case Columns =>
      forall f :: FieldShows(f, row, events)
  }

  /** What the columns say about the set of events merged so far. */
  ghost predicate Describes(row: Core, events: set<Event>, sampled: bool)
  {
    forall g :: Says(g, row, events, sampled)
  }

  lemma Described(row: Core, events: set<Event>, sampled: bool)
    requires Describes(row, events, sampled)
    ensures FinalStatus(row.status, events) && EvalOf(row.evalStatus, events, sampled)
    ensures EarliestStart(row.startedAt, events) && LatestEnd(row.endedAt, events) &&
        NewestSchema(row.schemaVersion, events)
    ensures OutputOf(row.output, events) && LatencyOf(row.latencyMs, events) && AttributesOf(row.attributes, events)
    ensures forall f :: FieldShows(f, row, events)
  {
    assert Says(Scalars, row, events, sampled) && Says(Payloads, row, events, sampled) &&
        Says(Columns, row, events, sampled);
  }

  /** At most one trace.end, as the producer promises. */
  ghost predicate OneEnd(events: set<Event>)
  {
    forall a, b :: a in events && b in events && a.etype.TraceEnd? && b.etype.TraceEnd? ==> a == b
  }

  // -------------------------------------------------------------- the invariant

  /** Inside the loop: as Describes, except that a trace.end may not have been finished yet. */
  ghost predicate Midway(row: Core, before: set<Event>, events: set<Event>)
  {
    && (row.status.Error? <==> HasError(events))
    && (row.status.Ok? ==> HasEnd(events))
    && (HasEnd(before) ==> !row.status.Running?)
    && EarliestStart(row.startedAt, events) && LatestEnd(row.endedAt, events)
    && NewestSchema(row.schemaVersion, events)
    && OutputOf(row.output, events) && LatencySoFar(row.latencyMs, before, events)
    && AttributesOf(row.attributes, events)
  }

  /** As LatencyOf, except that the end may have come in this batch and not been timed yet. */
  ghost predicate LatencySoFar(v: Option<int>, before: set<Event>, events: set<Event>)
  {
    && (!HasEnd(events) ==> v == None)
    && forall e :: e in events && e.etype.TraceEnd? ==>
         if e.latencyMs.Some? then v == e.latencyMs
         else if v.Some? then TimedFrom(v, e, events)
         else e in before ==> IsElapsed(None, {e})
  }

  lemma StepTimes(row: Core, events: set<Event>, e: Event)
    requires EarliestStart(row.startedAt, events) && LatestEnd(row.endedAt, events) &&
        NewestSchema(row.schemaVersion, events)
    ensures var r := MergeEvent(row, e); var all := events + {e};
            EarliestStart(r.startedAt, all) && LatestEnd(r.endedAt, all) && NewestSchema(r.schemaVersion, all)
  {
  }

  lemma StepOutput(row: Core, events: set<Event>, e: Event)
    requires OutputOf(row.output, events) && OneEnd(events + {e})
    ensures OutputOf(MergeEvent(row, e).output, events + {e})
  {
  }

  lemma StepAttributes(row: Core, events: set<Event>, e: Event)
    requires AttributesOf(row.attributes, events)
    ensures AttributesOf(MergeEvent(row, e).attributes, events + {e})
  {
  }

  lemma StepLatency(row: Core, before: set<Event>, events: set<Event>, e: Event)
    requires before <= events && LatencySoFar(row.latencyMs, before, events) && OneEnd(events + {e})
    ensures LatencySoFar(MergeEvent(row, e).latencyMs, before, events + {e})
  {
    var all, v := events + {e}, MergeEvent(row, e).latencyMs;
    forall x | x in all && x.etype.TraceEnd?
      ensures if x.latencyMs.Some? then v == x.latencyMs else if v.Some? then TimedFrom(v, x, all)
          else x in before ==> IsElapsed(None, {x})
    {
      if x in events && v.Some? && x.latencyMs.None? {
        var seen :| x in seen && seen <= events && IsElapsed(v, seen);
        assert seen <= all;
      }
    }
  }

  lemma StepShows<V>(c: Column<V>, row: Core, events: set<Event>, e: Event)
    requires Follows(c) && Shows(c, c.read(row), events)
    ensures Shows(c, c.read(MergeEvent(row, e)), events + {e})
  {
    var all := events + {e};
    EnvelopesGrow(c, events, e);
    if x :| MayShow(c, x, events) && c.read(row) == c.value(x) {
      if Takes(c, c.read(row), e) {
        assert MayShow(c, e, all);
      } else {
        assert MayShow(c, x, all);
      }
    } else {
      NobodyHas(c, events);
      if c.has(e) {
        assert MayShow(c, e, all);
      } else {
        assert forall x :: !MayShow(c, x, all);
      }
    }
  }

  lemma EnvelopesGrow<V>(c: Column<V>, events: set<Event>, e: Event)
    ensures HasEnvelope(c, events + {e}) <==> HasEnvelope(c, events) || (c.has(e) && e.IsEnvelope())
  {
    assert e in events + {e};
  }

  lemma NobodyHas<V>(c: Column<V>, events: set<Event>)
    requires forall x :: !MayShow(c, x, events)
    ensures forall x :: x in events ==> !c.has(x)
  {
    if y :| y in events && c.has(y) {
      if x :| x in events && c.has(x) && x.IsEnvelope() {
        assert MayShow(c, x, events);
      } else {
        assert MayShow(c, y, events);
      }
    }
  }

  lemma {:induction false} LoopShows<V>(c: Column<V>, row: Core, before: set<Event>, events: seq<Event>)
    requires Follows(c) && Shows(c, c.read(row), before)
    ensures Shows(c, c.read(MergeEvents(row, events)), before + Elems(events))
  {
    if events == [] {
      assert before + Elems(events) == before;
    } else {
      var front, e := events[..|events| - 1], events[|events| - 1];
      OneMore(before, events);
      LoopShows(c, row, before, front);
      StepShows(c, MergeEvents(row, front), before + Elems(front), e);
    }
  }

  lemma OneMore(before: set<Event>, events: seq<Event>)
    requires events != []
    ensures before + Elems(events) == before + Elems(events[..|events| - 1]) + {events[|events| - 1]}
  {
    ElemsAppend(events[..|events| - 1], events[|events| - 1]);
    assert events == events[..|events| - 1] + [events[|events| - 1]];
  }

  lemma BatchShows<V>(c: Column<V>, row: Core, before: set<Event>, events: seq<Event>, sampled: bool)
    requires Follows(c) && Shows(c, c.read(row), before)
    ensures Shows(c, c.read(MergeBatch(row, events, sampled)), before + Elems(events))
  {
    SortKeepsElems(events);
    LoopShows(c, row, before, SortByTime(events));
  }

  lemma BatchShowsField(f: Field, row: Core, before: set<Event>, events: seq<Event>, sampled: bool)
    requires FieldShows(f, row, before)
    ensures FieldShows(f, MergeBatch(row, events, sampled), before + Elems(events))
  {
    ColumnsFollow();
    match f
    case Name => BatchShows(NAME, row, before, events, sampled);
    case Service => BatchShows(SERVICE, row, before, events, sampled);
    case Environment => BatchShows(ENVIRONMENT, row, before, events, sampled);
    case Input => BatchShows(INPUT, row, before, events, sampled);
    case Session => BatchShows(SESSION, row, before, events, sampled);
    case User => BatchShows(USER, row, before, events, sampled);
    case Model => BatchShows(MODEL, row, before, events, sampled);
  }

  lemma BatchShowsAll(row: Core, before: set<Event>, events: seq<Event>, sampled: bool)
    requires forall f :: FieldShows(f, row, before)
    ensures forall f :: FieldShows(f, MergeBatch(row, events, sampled), before + Elems(events))
  {
    forall f ensures FieldShows(f, MergeBatch(row, events, sampled), before + Elems(events)) {
      BatchShowsField(f, row, before, events, sampled);
    }
  }

  lemma StepStatus(row: Core, before: set<Event>, events: set<Event>, e: Event)
    requires (row.status.Error? <==> HasError(events)) && (row.status.Ok? ==> HasEnd(events))
    requires HasEnd(before) ==> !row.status.Running?
    ensures var s := MergeEvent(row, e).status; var all := events + {e};
            (s.Error? <==> HasError(all)) && (s.Ok? ==> HasEnd(all)) && (HasEnd(before) ==> !s.Running?)
  {
  }

  lemma OneEndOfFewer(a: set<Event>, b: set<Event>)
    requires a <= b && OneEnd(b)
    ensures OneEnd(a)
  {
  }

  lemma {:induction false} LoopDescribes(row: Core, before: set<Event>, events: seq<Event>)
    requires Midway(row, before, before)
    requires OneEnd(before + Elems(events))
    ensures Midway(MergeEvents(row, events), before, before + Elems(events))
  {
    if events == [] {
      assert before + Elems(events) == before;
    } else {
      var front, e := events[..|events| - 1], events[|events| - 1];
      assert events == front + [e];
      ElemsAppend(front, e);
      var mid := before + Elems(front);
      assert before + Elems(events) == mid + {e};
      OneEndOfFewer(mid, before + Elems(events));
      LoopDescribes(row, before, front);
      StepMidway(MergeEvents(row, front), before, mid, e);
    }
  }

  lemma StepMidway(row: Core, before: set<Event>, events: set<Event>, e: Event)
    requires before <= events && Midway(row, before, events) && OneEnd(events + {e})
    ensures Midway(MergeEvent(row, e), before, events + {e})
  {
    StepTimes(row, events, e);
    StepOutput(row, events, e);
    StepAttributes(row, events, e);
    StepLatency(row, before, events, e);
    StepStatus(row, before, events, e);
  }

  lemma MergeEventsKeepsEval(row: Core, events: seq<Event>)
    ensures MergeEvents(row, events).evalStatus == row.evalStatus
  {
  }

  /** The merge invariant: one more batch, in any order and with any repetition, extends the set of
      events the row describes by exactly the batch. */
  lemma BatchDescribes(row: Core, before: set<Event>, events: seq<Event>, sampled: bool)
    requires Describes(row, before, sampled)
    requires OneEnd(before + Elems(events))
    ensures Describes(MergeBatch(row, events, sampled), before + Elems(events), sampled)
  {
    var merged, all := MergeEvents(row, SortByTime(events)), before + Elems(events);
    Described(row, before, sampled);
    SortKeepsElems(events);
    BatchShowsAll(row, before, events, sampled);
    LoopDescribes(row, before, SortByTime(events));
    MergeEventsKeepsEval(row, SortByTime(events));
    if SawTraceEnd(events) {
      var i :| 0 <= i < |events| && events[i].etype.TraceEnd?;
      assert events[i] in Elems(events) && events[i] in all;
      FinishedDescribes(merged, MergeBatch(row, events, sampled), before, all, sampled);
    } else {
      NoNewEnd(before, events);
      UnfinishedDescribes(MergeBatch(row, events, sampled), before, all, sampled);
    }
  }

  lemma FinishedDescribes(row: Core, finished: Core, before: set<Event>, all: set<Event>, sampled: bool)
    requires before <= all && HasEnd(all) && Midway(row, before, all) && EvalOf(row.evalStatus, before, sampled)
    requires finished == Finish(row, sampled) && forall f :: FieldShows(f, finished, all)
    ensures Describes(finished, all, sampled)
  {
    FinishTimes(row, before, all, sampled);
  }

  lemma UnfinishedDescribes(row: Core, before: set<Event>, all: set<Event>, sampled: bool)
    requires before <= all && Midway(row, before, all) && EvalOf(row.evalStatus, before, sampled)
    requires (HasEnd(all) ==> HasEnd(before)) && forall e :: e in all && e.etype.TraceEnd? ==> e in before
    requires forall f :: FieldShows(f, row, all)
    ensures Describes(row, all, sampled)
  {
  }

  lemma NoNewEnd(before: set<Event>, events: seq<Event>)
    requires !SawTraceEnd(events)
    ensures forall e :: e in before + Elems(events) && e.etype.TraceEnd? ==> e in before
    ensures HasEnd(before + Elems(events)) ==> HasEnd(before)
  {
    assert forall e :: e in events ==> !e.etype.TraceEnd?;
  }

  lemma OneEarliest(a: Option<int>, b: Option<int>, events: set<Event>)
    requires EarliestStart(a, events) && EarliestStart(b, events)
    ensures a == b
  {
  }

  lemma OneLatest(a: Option<int>, b: Option<int>, events: set<Event>)
    requires LatestEnd(a, events) && LatestEnd(b, events)
    ensures a == b
  {
  }

  lemma OneElapsed(v: Option<int>, w: Option<int>, events: set<Event>)
    requires IsElapsed(v, events) && IsElapsed(w, events)
    ensures v == w
  {
    var a, b :| EarliestStart(a, events) && LatestEnd(b, events) && v == Between(a, b);
    var c, d :| EarliestStart(c, events) && LatestEnd(d, events) && w == Between(c, d);
    OneEarliest(a, c, events);
    OneLatest(b, d, events);
  }

  lemma EarliestOfOne(e: Event)
    ensures EarliestStart(e.startedAt, {e}) && LatestEnd(e.endedAt, {e}) &&
        IsElapsed(Between(e.startedAt, e.endedAt), {e})
  {
    assert e in {e};
  }

  /** The time an event set spans only grows with the set. */
  lemma ElapsedGrows(v: Option<int>, w: Option<int>, fewer: set<Event>, more: set<Event>)
    requires IsElapsed(v, fewer) && IsElapsed(w, more) && fewer <= more
    ensures v.Some? ==> w.Some? && v.value <= w.value
  {
    var a, b :| EarliestStart(a, fewer) && LatestEnd(b, fewer) && v == Between(a, b);
    var c, d :| EarliestStart(c, more) && LatestEnd(d, more) && w == Between(c, d);
    if v.Some? {
      var x :| x in fewer && x.startedAt == a;
      var y :| y in fewer && y.endedAt == b;
      assert x in more && y in more;
    }
  }

  /** Whatever was not timed in the loop is timed after it, from all the events seen. */
  lemma FinishTimes(row: Core, before: set<Event>, events: set<Event>, sampled: bool)
    requires EarliestStart(row.startedAt, events) && LatestEnd(row.endedAt, events)
    requires LatencySoFar(row.latencyMs, before, events) && HasEnd(events)
    ensures LatencyOf(Finish(row, sampled).latencyMs, events)
  {
    var v := Finish(row, sampled).latencyMs;
    forall e | e in events && e.etype.TraceEnd? && e.latencyMs.None?
      ensures if v.Some? then TimedFrom(v, e, events) else IsElapsed(None, {e})
    {
      if row.latencyMs.None? {
        assert IsElapsed(Between(row.startedAt, row.endedAt), events);
        EarliestOfOne(e);
        ElapsedGrows(Between(e.startedAt, e.endedAt), Between(row.startedAt, row.endedAt), {e}, events);
      }
    }
  }

  lemma DefaultsDescribe(sampled: bool)
    ensures Describes(MERGE_DEFAULTS, {}, sampled)
  {
  }

  // ----------------------------------------------------------------- agreement

  /** All the carriers of an attribute agree on its value. */
  ghost predicate Agreed(k: string, events: set<Event>)
  {
    forall a, b :: a in events && b in events && k in a.attributes && k in b.attributes ==>
        a.attributes[k] == b.attributes[k]
  }

  /** The end carries its latency, or gives alone the time that all the events give together. */
  ghost predicate LatencyDetermined(events: set<Event>)
  {
    forall e :: e in events && e.etype.TraceEnd? ==>
        e.latencyMs.Some? || exists v :: IsElapsed(v, {e}) && IsElapsed(v, events)
  }

  /** All the values that may stand in the column are equal. */
  ghost predicate Unanimous<V>(c: Column<V>, events: set<Event>)
  {
    forall x, y :: MayShow(c, x, events) && MayShow(c, y, events) ==> c.value(x) == c.value(y)
  }

  lemma LatenciesAgree(v: Option<int>, w: Option<int>, events: set<Event>)
    requires LatencyOf(v, events) && LatencyOf(w, events) && LatencyDetermined(events)
    ensures v == w
  {
    if e :| e in events && e.etype.TraceEnd? {
      if e.latencyMs.None? {
        var x :| IsElapsed(x, {e}) && IsElapsed(x, events);
        TimedIs(v, x, e, events);
        TimedIs(w, x, e, events);
      }
    }
  }

  /** Squeezed between the end alone and all the events. */
  lemma TimedIs(v: Option<int>, x: Option<int>, e: Event, events: set<Event>)
    requires e in events && IsElapsed(x, {e}) && IsElapsed(x, events)
    requires if v.Some? then TimedFrom(v, e, events) else IsElapsed(None, {e})
    ensures v == x
  {
    if v.Some? {
      var seen :| e in seen && seen <= events && IsElapsed(v, seen);
      ElapsedGrows(x, v, {e}, seen);
      ElapsedGrows(v, x, seen, events);
    } else {
      OneElapsed(v, x, {e});
    }
  }

  ghost predicate SameIfUnanimous<V>(c: Column<V>, a: Core, b: Core, events: set<Event>)
  {
    Unanimous(c, events) ==> c.read(a) == c.read(b)
  }

  lemma ColumnAgrees<V>(c: Column<V>, a: Core, b: Core, events: set<Event>)
    requires Shows(c, c.read(a), events) && Shows(c, c.read(b), events)
    ensures SameIfUnanimous(c, a, b, events)
  {
  }

  ghost predicate ColumnsAgree(a: Core, b: Core, events: set<Event>)
  {
    && SameIfUnanimous(NAME, a, b, events) && SameIfUnanimous(SERVICE, a, b, events)
    && SameIfUnanimous(ENVIRONMENT, a, b, events) && SameIfUnanimous(INPUT, a, b, events)
    && SameIfUnanimous(SESSION, a, b, events) && SameIfUnanimous(USER, a, b, events)
    && SameIfUnanimous(MODEL, a, b, events)
  }

  lemma AllColumnsAgree(a: Core, b: Core, events: set<Event>)
    requires (forall f :: FieldShows(f, a, events)) && (forall f :: FieldShows(f, b, events))
    ensures ColumnsAgree(a, b, events)
  {
    assert FieldShows(Name, a, events) && FieldShows(Name, b, events);
    ColumnAgrees(NAME, a, b, events);
    assert FieldShows(Service, a, events) && FieldShows(Service, b, events);
    ColumnAgrees(SERVICE, a, b, events);
    assert FieldShows(Environment, a, events) && FieldShows(Environment, b, events);
    ColumnAgrees(ENVIRONMENT, a, b, events);
    assert FieldShows(Input, a, events) && FieldShows(Input, b, events);
    ColumnAgrees(INPUT, a, b, events);
    assert FieldShows(Session, a, events) && FieldShows(Session, b, events);
    ColumnAgrees(SESSION, a, b, events);
    assert FieldShows(User, a, events) && FieldShows(User, b, events);
    ColumnAgrees(USER, a, b, events);
    assert FieldShows(Model, a, events) && FieldShows(Model, b, events);
    ColumnAgrees(MODEL, a, b, events);
  }

  /** Two rows that describe the same events agree wherever the events determine the answer. */
  ghost predicate Agree(a: Core, b: Core, events: set<Event>)
  {
    && a.status == b.status && a.startedAt == b.startedAt && a.endedAt == b.endedAt
    && a.schemaVersion == b.schemaVersion && a.output == b.output && a.evalStatus == b.evalStatus
    && (LatencyDetermined(events) ==> a.latencyMs == b.latencyMs)
    && ColumnsAgree(a, b, events)
    && a.attributes.Keys == b.attributes.Keys
    && (forall k :: k in a.attributes && Agreed(k, events) ==> a.attributes[k] == b.attributes[k])
  }

  lemma AttributesAgree(a: Payload, b: Payload, events: set<Event>)
    requires AttributesOf(a, events) && AttributesOf(b, events)
    ensures a.Keys == b.Keys && forall k :: k in a && Agreed(k, events) ==> a[k] == b[k]
  {
  }

  lemma OutputsAgree(a: Payload, b: Payload, events: set<Event>)
    requires OutputOf(a, events) && OutputOf(b, events)
    ensures a == b
  {
  }

  lemma ScalarsAgree(a: Core, b: Core, events: set<Event>)
    requires FinalStatus(a.status, events) && FinalStatus(b.status, events)
    requires EarliestStart(a.startedAt, events) && EarliestStart(b.startedAt, events)
    requires LatestEnd(a.endedAt, events) && LatestEnd(b.endedAt, events)
    requires NewestSchema(a.schemaVersion, events) && NewestSchema(b.schemaVersion, events)
    ensures a.status == b.status && a.startedAt == b.startedAt && a.endedAt == b.endedAt &&
        a.schemaVersion == b.schemaVersion
  {
  }

  lemma DescriptionsAgree(a: Core, b: Core, events: set<Event>, sampled: bool)
    requires Describes(a, events, sampled) && Describes(b, events, sampled)
    ensures Agree(a, b, events)
  {
    Described(a, events, sampled);
    Described(b, events, sampled);
    ScalarsAgree(a, b, events);
    AttributesAgree(a.attributes, b.attributes, events);
    OutputsAgree(a.output, b.output, events);
    if LatencyDetermined(events) { LatenciesAgree(a.latencyMs, b.latencyMs, events); }
    AllColumnsAgree(a, b, events);
  }

  /** A grade is never taken back: once the eval scorer has set a final status, merging keeps it. */
  lemma GradeKept(row: Core, events: seq<Event>, sampled: bool)
    requires !row.evalStatus.NotSampled? && !row.evalStatus.Pending?
    ensures MergeBatch(row, events, sampled).evalStatus == row.evalStatus
  {
    MergeEventsKeepsEval(row, SortByTime(events));
  }

  /** Until then every batch with a trace.end takes the sampling decision anew, and no other batch takes it. */
  lemma SamplingDecides(row: Core, events: seq<Event>, sampled: bool)
    requires row.evalStatus.NotSampled? || row.evalStatus.Pending?
    ensures MergeBatch(row, events, sampled).evalStatus ==
        if exists e :: e in events && e.etype.TraceEnd? then (if sampled then Pending else NotSampled)
        else row.evalStatus
  {
    MergeEventsKeepsEval(row, SortByTime(events));
  }
}
