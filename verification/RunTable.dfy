/** The callback handler's run table: which spans it emits for nested framework runs, some of them
    skipped, some ended and some evicted while their children still run.  A start or an end is one step. */
module RunTable {
  import opened Ids
  import opened Wrappers

  datatype Kind = Agent | Chain | Llm | Tool | Retriever

  datatype Run = Run(trace: Id, tenant: Id, span: Option<Id>, parentSpan: Option<Id>, isRoot: bool, kind: Kind)

  datatype Agg = Agg(tenant: Id, spans: nat, llm: nat, tools: nat)

  datatype Event =
    | TraceStart(trace: Id, tenant: Id)
    | SpanStart(trace: Id, tenant: Id, span: Id, parent: Option<Id>, kind: Kind)
    | SpanEnd(trace: Id, tenant: Id, span: Id, parent: Option<Id>)
    | TraceEnd(trace: Id, agg: Agg)

  // ----------------------------------------------- every run that ever started

  /** A started run: a root with what surrounded it, or a child of an earlier run.  No span when skipped. */
  datatype Node =
    | Root(span: Option<Id>, ambient: Option<Id>, trace: Id, tenant: Id)
    | Child(span: Option<Id>, parent: nat)

  ghost predicate Grounded(h: seq<Node>)
  {
    forall i :: 0 <= i < |h| && h[i].Child? ==> h[i].parent < i
  }

  /** The nearest ancestor that has a span; at the root, the span that was open around it. */
  function Nearest(h: seq<Node>, i: nat): Option<Id>
    requires Grounded(h) && i < |h|
  {
    if h[i].Root? then h[i].ambient
    else if h[h[i].parent].span.Some? then h[h[i].parent].span
    else Nearest(h, h[i].parent)
  }

  function RootOf(h: seq<Node>, i: nat): (r: nat)
    requires Grounded(h) && i < |h|
    ensures r < |h| && h[r].Root?
  {
    if h[i].Root? then i else RootOf(h, h[i].parent)
  }

  /** The ancestor k levels up, if there are that many. */
  function Ancestor(h: seq<Node>, i: nat, k: nat): (a: Option<nat>)
    requires Grounded(h) && i < |h|
    ensures a.Some? ==> a.value < |h|
  {
    if k == 0 then Some(i) else if h[i].Root? then None else Ancestor(h, h[i].parent, k - 1)
  }

  /** If the first k - 1 ancestors are skipped and the k-th is not, it is the one a span hangs under. */
  lemma {:induction false} FirstKeptAncestor(h: seq<Node>, i: nat, k: nat)
    requires Grounded(h) && i < |h| && k > 0
    requires Ancestor(h, i, k).Some? && h[Ancestor(h, i, k).value].span.Some?
    requires forall j :: 0 < j < k && Ancestor(h, i, j).Some? ==> h[Ancestor(h, i, j).value].span.None?
    ensures Nearest(h, i) == h[Ancestor(h, i, k).value].span
    decreases k
  {
    var p := h[i].parent;
    if k > 1 {
      assert Ancestor(h, i, 1) == Ancestor(h, p, 0) == Some(p);
      forall j | 0 < j < k - 1 && Ancestor(h, p, j).Some? ensures h[Ancestor(h, p, j).value].span.None? {
        assert Ancestor(h, i, j + 1) == Ancestor(h, p, j);
      }
      FirstKeptAncestor(h, p, k - 1);
    } else {
      assert Ancestor(h, i, 1) == Ancestor(h, p, 0);
    }
  }

  lemma {:induction false} Extended(h: seq<Node>, n: Node, i: nat)
    requires Grounded(h + [n]) && i < |h|
    ensures Grounded(h) && Nearest(h + [n], i) == Nearest(h, i) && RootOf(h + [n], i) == RootOf(h, i)
  {
    assert forall j :: 0 <= j < |h| ==> (h + [n])[j] == h[j];
    if h[i].Child? { Extended(h, n, h[i].parent); }
  }

  ghost predicate SpansDistinct(h: seq<Node>)
  {
    forall i, j :: 0 <= i < j < |h| && h[i].span.Some? ==> h[i].span != h[j].span
  }

  ghost predicate Issued(h: seq<Node>, s: Id)
  {
    exists i :: 0 <= i < |h| && h[i].span == Some(s)
  }

  // ------------------------------------------------------------- the run table

  /** What the table should say of run i: its own span, the nearest kept ancestor's, its root's trace and tenant. */
  function RowOf(h: seq<Node>, i: nat, kind: Kind): Run
    requires Grounded(h) && i < |h|
  {
    var root := h[RootOf(h, i)];
    Run(root.trace, root.tenant, h[i].span, Nearest(h, i), h[i].Root?, kind)
  }

  ghost predicate Matches(h: seq<Node>, i: nat, run: Run)
    requires Grounded(h)
  {
    i < |h| && run == RowOf(h, i, run.kind)
  }

  function StartEvents(r: Run): seq<Event>
  {
    (if r.isRoot then [TraceStart(r.trace, r.tenant)] else [])
    + (if r.span.Some? then [SpanStart(r.trace, r.tenant, r.span.value, r.parentSpan, r.kind)] else [])
  }

  /** Every tracked run still knows its place, whatever has left the table. */
  ghost predicate TableTrue(h: seq<Node>, at: map<Id, nat>, runs: map<Id, Run>)
    requires Grounded(h)
  {
    && (forall r :: r in runs ==> r in at && Matches(h, at[r], runs[r]))
    && (forall r, q :: r in runs && q in runs && r != q ==> at[r] != at[q])
  }

  ghost predicate OrderTrue(runs: map<Id, Run>, order: seq<Id>)
  {
    (forall i, j :: 0 <= i < j < |order| ==> order[i] != order[j]) && forall r :: r in order <==> r in runs
  }

  // -------------------------------------------------------- the emitted events

  ghost predicate EventTrue(h: seq<Node>, e: Event)
    requires Grounded(h)
  {
    e.SpanStart? || e.SpanEnd? ==> exists i :: 0 <= i < |h| && Describes(h, i, e)
  }

  /** The event tells the truth about run i: its span, the nearest kept ancestor's, the root's trace and tenant. */
  ghost predicate Describes(h: seq<Node>, i: nat, e: Event)
    requires Grounded(h) && i < |h| && (e.SpanStart? || e.SpanEnd?)
  {
    && h[i].span == Some(e.span) && e.parent == Nearest(h, i)
    && e.trace == h[RootOf(h, i)].trace && e.tenant == h[RootOf(h, i)].tenant
  }

  function Starts(events: seq<Event>, s: Id): nat
  {
    if events == [] then 0
    else
      var e := events[|events| - 1];
      Starts(events[..|events| - 1], s) + if e.SpanStart? && e.span == s then 1 else 0
  }

  function Ends(events: seq<Event>, s: Id): nat
  {
    if events == [] then 0
    else
      var e := events[|events| - 1];
      Ends(events[..|events| - 1], s) + if e.SpanEnd? && e.span == s then 1 else 0
  }

  /** What has been emitted for a trace since it was last begun. */
  function Tally(events: seq<Event>, t: Id): Option<Agg>
  {
    if events == [] then None
    else
      var front, e := Tally(events[..|events| - 1], t), events[|events| - 1];
      if e.TraceStart? && e.trace == t then Some(Agg(e.tenant, 0, 0, 0))
      else if e.SpanStart? && e.trace == t && front.Some? then Some(Counted(front.value, e.kind))
      else front
  }

  function Counted(a: Agg, kind: Kind): Agg
  {
    Agg(a.tenant, a.spans + 1, a.llm + if kind.Llm? then 1 else 0, a.tools + if kind.Tool? then 1 else 0)
  }

  ghost predicate AggsTrue(traces: map<Id, Agg>, events: seq<Event>)
  {
    forall t :: t in traces ==> Tally(events, t) == Some(traces[t])
  }

  /** Event k is true, does not end a span before its start, and a trace's end reports its tally. */
  ghost predicate EventsTrue(h: seq<Node>, events: seq<Event>)
    requires Grounded(h)
  {
    forall k :: 0 <= k < |events| ==>
      && EventTrue(h, events[k])
      && (events[k].SpanEnd? ==> Starts(events[..k], events[k].span) == 1 && Ends(events[..k], events[k].span) == 0)
      && (events[k].TraceEnd? ==> Tally(events[..k], events[k].trace) == Some(events[k].agg))
  }

  /** One start for every issued span, no end while its run is tracked, and none at all before it is issued. */
  ghost predicate LivesTrue(h: seq<Node>, runs: map<Id, Run>, events: seq<Event>)
  {
    && (forall i :: 0 <= i < |h| && h[i].span.Some? ==> Starts(events, h[i].span.value) == 1)
    && (forall s :: !Issued(h, s) ==> Starts(events, s) == 0 && Ends(events, s) == 0)
    && (forall s :: Ends(events, s) <= 1)
    && (forall r :: r in runs && runs[r].span.Some? ==> Ends(events, runs[r].span.value) == 0)
  }

  ghost predicate Within(part: map<Id, Run>, whole: map<Id, Run>)
  {
    forall r :: r in part ==> r in whole && part[r] == whole[r]
  }

  /** The last n of a list. */
  function Newest(s: seq<Id>, n: nat): seq<Id>
  {
    if |s| <= n then s else s[|s| - n..]
  }

  lemma NewestTail(s: seq<Id>, n: nat)
    requires |s| > n
    ensures Newest(s[1..], n) == Newest(s, n)
  {
  }

  datatype Aspect = Shape | Table | Emitted | Lives | Aggregates

  ghost predicate Holds(a: Aspect, h: seq<Node>, at: map<Id, nat>, runs: map<Id, Run>, traces: map<Id, Agg>,
                        events: seq<Event>)
  {
    match a
    case Shape => Grounded(h) && SpansDistinct(h)
    case Table => Grounded(h) && TableTrue(h, at, runs)
    case Emitted => Grounded(h) && EventsTrue(h, events)
    case Lives => LivesTrue(h, runs, events)
    case Aggregates => AggsTrue(traces, events)
  }

  ghost predicate StateTrue(h: seq<Node>, at: map<Id, nat>, runs: map<Id, Run>, traces: map<Id, Agg>,
                            events: seq<Event>)
  {
    forall a: Aspect :: Holds(a, h, at, runs, traces, events)
  }

  lemma Aspects(h: seq<Node>, at: map<Id, nat>, runs: map<Id, Run>, traces: map<Id, Agg>, events: seq<Event>)
    requires StateTrue(h, at, runs, traces, events)
    ensures Grounded(h) && SpansDistinct(h) && TableTrue(h, at, runs)
    ensures EventsTrue(h, events) && LivesTrue(h, runs, events) && AggsTrue(traces, events)
  {
    assert Holds(Shape, h, at, runs, traces, events) && Holds(Table, h, at, runs, traces, events);
    assert Holds(Emitted, h, at, runs, traces, events) && Holds(Lives, h, at, runs, traces, events);
    assert Holds(Aggregates, h, at, runs, traces, events);
  }

  lemma TrackedRun(h: seq<Node>, at: map<Id, nat>, runs: map<Id, Run>, traces: map<Id, Agg>, events: seq<Event>,
                   rid: Id)
    requires StateTrue(h, at, runs, traces, events)
    ensures Grounded(h) && (rid in runs ==> rid in at && Matches(h, at[rid], runs[rid]))
  {
    Aspects(h, at, runs, traces, events);
  }

  // ------------------------------------------------------ what each step keeps

  /** Appending an event that is no span event. */
  lemma {:induction false} AppendTraceEvent(h: seq<Node>, runs: map<Id, Run>, events: seq<Event>, e: Event)
    requires Grounded(h) && EventsTrue(h, events) && LivesTrue(h, runs, events)
    requires e.TraceStart? || (e.TraceEnd? && Tally(events, e.trace) == Some(e.agg))
    ensures EventsTrue(h, events + [e]) && LivesTrue(h, runs, events + [e])
  {
    PrefixesStay(h, events, e);
    assert (events + [e])[..|events|] == events;
  }

  /** Every earlier event keeps its prefix. */
  lemma {:induction false} PrefixesStay(h: seq<Node>, events: seq<Event>, e: Event)
    requires Grounded(h) && EventsTrue(h, events)
    requires EventTrue(h, e)
    requires e.SpanEnd? ==> Starts(events, e.span) == 1 && Ends(events, e.span) == 0
    requires e.TraceEnd? ==> Tally(events, e.trace) == Some(e.agg)
    ensures EventsTrue(h, events + [e])
  {
    var all := events + [e];
    forall k | 0 <= k < |all|
      ensures EventTrue(h, all[k])
      ensures all[k].SpanEnd? ==> Starts(all[..k], all[k].span) == 1 && Ends(all[..k], all[k].span) == 0
      ensures all[k].TraceEnd? ==> Tally(all[..k], all[k].trace) == Some(all[k].agg)
    {
      if k < |events| {
        assert all[..k] == events[..k] && all[k] == events[k];
      } else {
        assert all[..k] == events;
      }
    }
  }

  lemma {:induction false} OpenKeeps(h: seq<Node>, at: map<Id, nat>, runs: map<Id, Run>, traces: map<Id, Agg>,
                                     events: seq<Event>,
                                     t: Id, tenant: Id)
    requires StateTrue(h, at, runs, traces, events)
    ensures StateTrue(h, at, runs, traces[t := Agg(tenant, 0, 0, 0)], events + [TraceStart(t, tenant)])
  {
    Aspects(h, at, runs, traces, events);
    AppendTraceEvent(h, runs, events, TraceStart(t, tenant));
    assert (events + [TraceStart(t, tenant)])[..|events|] == events;
  }

  lemma {:induction false} CloseKeeps(h: seq<Node>, at: map<Id, nat>, runs: map<Id, Run>, traces: map<Id, Agg>,
                                      events: seq<Event>, t: Id)
    requires StateTrue(h, at, runs, traces, events) && t in traces
    ensures StateTrue(h, at, runs, traces - {t}, events + [TraceEnd(t, traces[t])])
  {
    Aspects(h, at, runs, traces, events);
    AppendTraceEvent(h, runs, events, TraceEnd(t, traces[t]));
    assert (events + [TraceEnd(t, traces[t])])[..|events|] == events;
  }

  /** r is the new run's row: it records what Nearest and RootOf say of the new node. */
  ghost predicate NewRow(h: seq<Node>, n: Node, runs: map<Id, Run>, after: map<Id, Run>, rid: Id, r: Run)
  {
    && Grounded(h + [n]) && Matches(h + [n], |h|, r)
    && (n.span.Some? ==> !Issued(h, n.span.value))
    && forall q :: q in after ==> q in runs[rid := r] && after[q] == runs[rid := r][q]
  }

  lemma {:induction false} TableGrows(h: seq<Node>, n: Node, at: map<Id, nat>, runs: map<Id, Run>, after: map<Id, Run>,
                                      rid: Id, r: Run)
    requires Grounded(h) && TableTrue(h, at, runs) && NewRow(h, n, runs, after, rid, r)
    ensures TableTrue(h + [n], at[rid := |h|], after)
  {
    forall q | q in after ensures Matches(h + [n], at[rid := |h|][q], after[q]) {
      if q != rid { Extended(h, n, at[q]); }
    }
  }

  lemma {:induction false} EventsSurvive(h: seq<Node>, n: Node, events: seq<Event>)
    requires Grounded(h) && Grounded(h + [n]) && EventsTrue(h, events)
    ensures EventsTrue(h + [n], events)
  {
    forall k | 0 <= k < |events| ensures EventTrue(h + [n], events[k]) {
      var e := events[k];
      if e.SpanStart? || e.SpanEnd? {
        var i :| 0 <= i < |h| && Describes(h, i, e);
        Extended(h, n, i);
        Extended(h, n, RootOf(h, i));
        assert Describes(h + [n], i, e);
      }
    }
  }

  lemma {:induction false} IssuedGrows(h: seq<Node>, n: Node, s: Id)
    ensures Issued(h + [n], s) <==> Issued(h, s) || n.span == Some(s)
  {
    if Issued(h, s) {
      var i :| 0 <= i < |h| && h[i].span == Some(s);
      assert (h + [n])[i] == h[i];
    }
    if n.span == Some(s) { assert (h + [n])[|h|] == n; }
  }

  lemma {:induction false} DistinctGrows(h: seq<Node>, n: Node)
    requires SpansDistinct(h) && (n.span.Some? ==> !Issued(h, n.span.value))
    ensures SpansDistinct(h + [n])
  {
  }

  /** A skipped run starts: nothing is emitted for it. */
  lemma {:induction false} SkippedKeeps(h: seq<Node>, n: Node, at: map<Id, nat>, runs: map<Id, Run>,
                                        after: map<Id, Run>, rid: Id, r: Run,
                                        traces: map<Id, Agg>, events: seq<Event>)
    requires StateTrue(h, at, runs, traces, events) && NewRow(h, n, runs, after, rid, r) && n.span.None?
    ensures StateTrue(h + [n], at[rid := |h|], after, traces, events)
  {
    Aspects(h, at, runs, traces, events);
    TableGrows(h, n, at, runs, after, rid, r);
    EventsSurvive(h, n, events);
    DistinctGrows(h, n);
    forall s ensures Issued(h + [n], s) <==> Issued(h, s) { IssuedGrows(h, n, s); }
  }

  function Bumped(traces: map<Id, Agg>, t: Id, kind: Kind): map<Id, Agg>
  {
    if t in traces then traces[t := Counted(traces[t], kind)] else traces
  }

  lemma {:induction false} LifeBegins(h: seq<Node>, n: Node, runs: map<Id, Run>, after: map<Id, Run>, rid: Id, r: Run,
                                      events: seq<Event>, e: Event)
    requires LivesTrue(h, runs, events) && NewRow(h, n, runs, after, rid, r)
    requires e.SpanStart? && n.span == Some(e.span)
    ensures LivesTrue(h + [n], after, events + [e])
  {
    var all, longer := h + [n], events + [e];
    assert longer[..|events|] == events;
    forall s ensures Issued(all, s) <==> Issued(h, s) || s == e.span { IssuedGrows(h, n, s); }
    forall i | 0 <= i < |all| && all[i].span.Some? ensures Starts(longer, all[i].span.value) == 1 {
      if i < |h| { assert Issued(h, h[i].span.value); }
    }
  }

  lemma {:induction false} SpanKeeps(h: seq<Node>, n: Node, at: map<Id, nat>, runs: map<Id, Run>, after: map<Id, Run>,
                                     rid: Id, r: Run,
                                     traces: map<Id, Agg>, events: seq<Event>)
    requires StateTrue(h, at, runs, traces, events) && NewRow(h, n, runs, after, rid, r) && n.span.Some?
    ensures StateTrue(h + [n], at[rid := |h|], after, Bumped(traces, r.trace, r.kind),
                      events + [SpanStart(r.trace, r.tenant, n.span.value, r.parentSpan, r.kind)])
  {
    Aspects(h, at, runs, traces, events);
    var e := SpanStart(r.trace, r.tenant, n.span.value, r.parentSpan, r.kind);
    TableGrows(h, n, at, runs, after, rid, r);
    EventsSurvive(h, n, events);
    DistinctGrows(h, n);
    assert Describes(h + [n], |h|, e);
    PrefixesStay(h + [n], events, e);
    LifeBegins(h, n, runs, after, rid, r, events, e);
    assert (events + [e])[..|events|] == events;
  }

  /** A tracked run leaves the table. */
  lemma {:induction false} ForgetKeeps(h: seq<Node>, at: map<Id, nat>, runs: map<Id, Run>, traces: map<Id, Agg>,
                                       events: seq<Event>, rid: Id)
    requires StateTrue(h, at, runs, traces, events)
    ensures StateTrue(h, at, runs - {rid}, traces, events)
  {
    Aspects(h, at, runs, traces, events);
  }

  lemma {:induction false} EndKeeps(h: seq<Node>, at: map<Id, nat>, runs: map<Id, Run>, traces: map<Id, Agg>,
                                    events: seq<Event>, rid: Id)
    requires StateTrue(h, at, runs, traces, events) && rid in runs && runs[rid].span.Some?
    ensures var r := runs[rid];
            StateTrue(h, at, runs - {rid}, traces, events + [SpanEnd(r.trace, r.tenant, r.span.value, r.parentSpan)])
  {
    Aspects(h, at, runs, traces, events);
    var r := runs[rid];
    var e := SpanEnd(r.trace, r.tenant, r.span.value, r.parentSpan);
    assert Matches(h, at[rid], r) && Describes(h, at[rid], e);
    PrefixesStay(h, events, e);
    LifeEnds(h, at, runs, events, rid, e);
    assert (events + [e])[..|events|] == events;
  }

  lemma {:induction false} LifeEnds(h: seq<Node>, at: map<Id, nat>, runs: map<Id, Run>, events: seq<Event>, rid: Id,
                                    e: Event)
    requires Grounded(h) && SpansDistinct(h) && TableTrue(h, at, runs) && LivesTrue(h, runs, events)
    requires rid in runs && e.SpanEnd? && runs[rid].span == Some(e.span)
    ensures LivesTrue(h, runs - {rid}, events + [e])
  {
  }

  // ------------------------------------------------------------ calls and runs

  /** A hook call: `rootTrace`, `rootTenant` and `ambient` are what a root would take from its metadata,
      the handler or the context around it; `freshSpan` is the new random span id. */
  datatype Call =
    | Start(run: Option<Id>, parentRun: Option<Id>, kind: Kind, skip: bool,
            rootTrace: Id, rootTenant: Id, ambient: Option<Id>, freshSpan: Id)
    | End(run: Option<Id>)

  datatype State = State(runs: map<Id, Run>, order: seq<Id>, traces: map<Id, Agg>, events: seq<Event>)

  const NEW_STATE := State(map[], [], map[], [])

  predicate Tracked(runs: map<Id, Run>, run: Option<Id>)
  {
    run.Some? && run.value in runs
  }

  /** The row of a starting run: from its tracked parent's row, or as a root. */
  function StartedRun(runs: map<Id, Run>, c: Call): Run
    requires c.Start?
  {
    var span := if c.skip then None else Some(c.freshSpan);
    if Tracked(runs, c.parentRun) then
      var p := runs[c.parentRun.value];
      Run(p.trace, p.tenant, span, if p.span.Some? then p.span else p.parentSpan, false, c.kind)
    else Run(c.rootTrace, c.rootTenant, span, c.ambient, true, c.kind)
  }

  function Restrict(runs: map<Id, Run>, order: seq<Id>): map<Id, Run>
  {
    map q | q in order && q in runs :: runs[q]
  }

  function Opened(traces: map<Id, Agg>, r: Run): map<Id, Agg>
  {
    if r.isRoot then traces[r.trace := Agg(r.tenant, 0, 0, 0)] else traces
  }

  function AfterStart(maxTracked: nat, s: State, rid: Id, r: Run): State
  {
    var order := Newest(if rid in s.runs then s.order else s.order + [rid], maxTracked);
    State(Restrict(s.runs[rid := r], order), order,
          if r.span.Some? then Bumped(Opened(s.traces, r), r.trace, r.kind) else Opened(s.traces, r),
          s.events + StartEvents(r))
  }

  function Without(order: seq<Id>, rid: Id): seq<Id>
  {
    if order == [] then []
    else Without(order[..|order| - 1], rid) + if order[|order| - 1] == rid then [] else [order[|order| - 1]]
  }

  function EndEvents(r: Run, traces: map<Id, Agg>): seq<Event>
  {
    (if r.span.Some? then [SpanEnd(r.trace, r.tenant, r.span.value, r.parentSpan)] else [])
    + (if r.isRoot && r.trace in traces then [TraceEnd(r.trace, traces[r.trace])] else [])
  }

  function AfterEnd(s: State, rid: Id): State
    requires rid in s.runs
  {
    var r := s.runs[rid];
    State(s.runs - {rid}, Without(s.order, rid), if r.isRoot then s.traces - {r.trace} else s.traces,
          s.events + EndEvents(r, s.traces))
  }

  function Next(maxTracked: nat, s: State, c: Call): State
  {
    if c.run.None? then s
    else if c.Start? then AfterStart(maxTracked, s, c.run.value, StartedRun(s.runs, c))
    else if c.run.value in s.runs then AfterEnd(s, c.run.value)
    else s
  }

  /** A new handler after some calls. */
  function After(maxTracked: nat, calls: seq<Call>): State
  {
    if calls == [] then NEW_STATE
    else Next(maxTracked, After(maxTracked, calls[..|calls| - 1]), calls[|calls| - 1])
  }

  ghost predicate True(h: seq<Node>, at: map<Id, nat>, s: State)
  {
    StateTrue(h, at, s.runs, s.traces, s.events)
  }

  ghost predicate Bounded(maxTracked: nat, s: State)
  {
    OrderTrue(s.runs, s.order) && |s.order| <= maxTracked
  }

  lemma StartKeeps(h: seq<Node>, at: map<Id, nat>, maxTracked: nat, s: State, rid: Id, r: Run, n: Node)
    requires True(h, at, s) && Grounded(h + [n]) && Matches(h + [n], |h|, r)
    requires n.span.Some? ==> !Issued(h, n.span.value)
    ensures True(h + [n], at[rid := |h|], AfterStart(maxTracked, s, rid, r))
  {
    var next := AfterStart(maxTracked, s, rid, r);
    Aspects(h, at, s.runs, s.traces, s.events);
    var begun := if r.isRoot then s.events + [TraceStart(r.trace, r.tenant)] else s.events;
    if r.isRoot { OpenKeeps(h, at, s.runs, s.traces, s.events, r.trace, r.tenant); }
    if r.span.None? {
      SkippedKeeps(h, n, at, s.runs, next.runs, rid, r, Opened(s.traces, r), begun);
      assert next.events == begun;
    } else {
      SpanKeeps(h, n, at, s.runs, next.runs, rid, r, Opened(s.traces, r), begun);
      assert next.events == begun + [SpanStart(r.trace, r.tenant, n.span.value, r.parentSpan, r.kind)];
    }
  }

  lemma FinishKeeps(h: seq<Node>, at: map<Id, nat>, s: State, rid: Id)
    requires True(h, at, s) && rid in s.runs
    ensures True(h, at, AfterEnd(s, rid))
  {
    var r, rest := s.runs[rid], s.runs - {rid};
    var ended := if r.span.Some? then s.events + [SpanEnd(r.trace, r.tenant, r.span.value, r.parentSpan)] else s.events;
    if r.span.Some? {
      EndKeeps(h, at, s.runs, s.traces, s.events, rid);
    } else {
      ForgetKeeps(h, at, s.runs, s.traces, s.events, rid);
    }
    if r.isRoot && r.trace in s.traces {
      CloseKeeps(h, at, rest, s.traces, ended, r.trace);
      assert AfterEnd(s, rid).events == ended + [TraceEnd(r.trace, s.traces[r.trace])];
    } else {
      assert s.traces - {r.trace} == s.traces || !r.isRoot;
      assert AfterEnd(s, rid).events == ended;
    }
  }

  lemma {:induction false} NewNodeMatches(h: seq<Node>, n: Node, at: map<Id, nat>, runs: map<Id, Run>, r: Run)
    requires Grounded(h) && (n.Child? ==> n.parent < |h|) && r.span == n.span && r.isRoot == n.Root?
    requires n.Root? ==> r.trace == n.trace && r.tenant == n.tenant && r.parentSpan == n.ambient
    requires n.Child? ==>
               && r.trace == h[RootOf(h, n.parent)].trace && r.tenant == h[RootOf(h, n.parent)].tenant
               && r.parentSpan == if h[n.parent].span.Some? then h[n.parent].span else Nearest(h, n.parent)
    ensures Grounded(h + [n]) && Matches(h + [n], |h|, r)
  {
    var all := h + [n];
    assert forall j :: 0 <= j < |h| ==> all[j] == h[j];
    assert all[|h|] == n;
    if n.Child? { Extended(h, n, n.parent); }
  }

  /** The node a start adds to the history: below the parent run if the table still has it, else a root. */
  function NewNode(runs: map<Id, Run>, at: map<Id, nat>, c: Call): Node
    requires c.Start?
  {
    var span := if c.skip then None else Some(c.freshSpan);
    if Tracked(runs, c.parentRun) && c.parentRun.value in at then Child(span, at[c.parentRun.value])
    else Root(span, c.ambient, c.rootTrace, c.rootTenant)
  }

  /** The row the code computes from the table is the row the history implies. */
  lemma StartedRunMatches(h: seq<Node>, at: map<Id, nat>, s: State, c: Call)
    requires True(h, at, s) && c.Start?
    ensures var all := h + [NewNode(s.runs, at, c)];
            Grounded(all) && Matches(all, |h|, StartedRun(s.runs, c))
  {
    Aspects(h, at, s.runs, s.traces, s.events);
    if c.parentRun.Some? { TrackedRun(h, at, s.runs, s.traces, s.events, c.parentRun.value); }
    NewNodeMatches(h, NewNode(s.runs, at, c), at, s.runs, StartedRun(s.runs, c));
  }

  ghost predicate FreshSpans(calls: seq<Call>)
  {
    forall i, j :: 0 <= i < j < |calls| && calls[i].Start? && calls[j].Start? ==>
        calls[i].freshSpan != calls[j].freshSpan
  }

  ghost predicate Used(calls: seq<Call>, s: Id)
  {
    exists i :: 0 <= i < |calls| && calls[i].Start? && calls[i].freshSpan == s
  }

  /** Whatever the framework calls, the invariants hold of some history of started runs. */
  lemma {:induction false} RunIsTrue(maxTracked: nat, calls: seq<Call>) returns (h: seq<Node>, at: map<Id, nat>)
    requires FreshSpans(calls)
    ensures True(h, at, After(maxTracked, calls)) && forall s :: Issued(h, s) ==> Used(calls, s)
  {
    if calls == [] {
      h, at := [], map[];
    } else {
      var front, c := calls[..|calls| - 1], calls[|calls| - 1];
      h, at := RunIsTrue(maxTracked, front);
      var s := After(maxTracked, front);
      forall x | Used(front, x) ensures Used(calls, x) {
        var i :| 0 <= i < |front| && front[i].Start? && front[i].freshSpan == x;
        assert calls[i] == front[i];
      }
      if c.Start? && c.run.Some? {
        var n := NewNode(s.runs, at, c);
        StartedRunMatches(h, at, s, c);
        assert !Used(front, c.freshSpan);
        StartKeeps(h, at, maxTracked, s, c.run.value, StartedRun(s.runs, c), n);
        forall x | Issued(h + [n], x) ensures Used(calls, x) { IssuedGrows(h, n, x); }
        h, at := h + [n], at[c.run.value := |h|];
      } else if c.End? && c.run.Some? && c.run.value in s.runs {
        FinishKeeps(h, at, s, c.run.value);
      }
    }
  }

  // ---------------------------------------------------- what the stream then says

  lemma {:induction false} SomeStart(events: seq<Event>, s: Id)
    requires Starts(events, s) > 0
    ensures exists j :: 0 <= j < |events| && events[j].SpanStart? && events[j].span == s
  {
    var e := events[|events| - 1];
    if !(e.SpanStart? && e.span == s) {
      SomeStart(events[..|events| - 1], s);
      var j :| 0 <= j < |events| - 1 && events[..|events| - 1][j].SpanStart? && events[..|events| - 1][j].span == s;
      assert events[j].span == s;
    }
  }

  lemma EndIsTrue(h: seq<Node>, at: map<Id, nat>, s: State, k: nat) returns (j: nat)
    requires True(h, at, s) && k < |s.events| && s.events[k].SpanEnd?
    ensures j < k && IsStartOf(s.events[j], s.events[k])
    ensures Starts(s.events, s.events[k].span) == 1 && Ends(s.events, s.events[k].span) <= 1
  {
    var events := s.events;
    Aspects(h, at, s.runs, s.traces, events);
    SomeStart(events[..k], events[k].span);
    j :| 0 <= j < k && events[..k][j].SpanStart? && events[..k][j].span == events[k].span;
    assert EventTrue(h, events[j]) && EventTrue(h, events[k]);
    var a :| 0 <= a < |h| && Describes(h, a, events[j]);
    var b :| 0 <= b < |h| && Describes(h, b, events[k]);
    OneNode(h, a, b);
    assert events[j].span == events[k].span;
  }

  predicate IsStartOf(start: Event, end: Event)
  {
    && start.SpanStart? && end.SpanEnd?
    && start.span == end.span && start.parent == end.parent && start.trace == end.trace && start.tenant == end.tenant
  }

  /** After any calls: every span end in the stream is the only one, and comes after the one start of its
      span with the same parent, trace and tenant. */
  lemma EndMatchesStart(maxTracked: nat, calls: seq<Call>, k: nat)
    requires FreshSpans(calls) && k < |After(maxTracked, calls).events| && After(maxTracked, calls).events[k].SpanEnd?
    ensures var events := After(maxTracked, calls).events;
            && (exists j :: 0 <= j < k && IsStartOf(events[j], events[k]))
            && Starts(events, events[k].span) == 1 && Ends(events, events[k].span) == 1
  {
    var h, at := RunIsTrue(maxTracked, calls);
    var j := EndIsTrue(h, at, After(maxTracked, calls), k);
    SomeEnd(After(maxTracked, calls).events, k);
  }

  lemma {:induction false} SomeEnd(events: seq<Event>, k: nat)
    requires k < |events| && events[k].SpanEnd?
    ensures Ends(events, events[k].span) > 0
  {
    if k < |events| - 1 { SomeEnd(events[..|events| - 1], k); }
  }

  lemma OneNode(h: seq<Node>, a: nat, b: nat)
    requires SpansDistinct(h) && a < |h| && b < |h| && h[a].span.Some? && h[a].span == h[b].span
    ensures a == b
  {
  }

  /** The span starts of a trace since it was last begun, of all kinds or of one. */
  function StartsSinceBegin(events: seq<Event>, t: Id, of: Option<Kind>): nat
  {
    if events == [] || (events[|events| - 1].TraceStart? && events[|events| - 1].trace == t) then 0
    else
      var e := events[|events| - 1];
      StartsSinceBegin(events[..|events| - 1], t, of)
      + if e.SpanStart? && e.trace == t && (of.None? || of.value == e.kind) then 1 else 0
  }

  lemma {:induction false} TallyCounts(events: seq<Event>, t: Id)
    requires Tally(events, t).Some?
    ensures var agg := Tally(events, t).value;
            && agg.spans == StartsSinceBegin(events, t, None)
            && agg.llm == StartsSinceBegin(events, t, Some(Llm))
            && agg.tools == StartsSinceBegin(events, t, Some(Tool))
  {
    var e := events[|events| - 1];
    if !(e.TraceStart? && e.trace == t) { TallyCounts(events[..|events| - 1], t); }
  }

  /** After any calls: a trace end reports how many spans, model calls and tool calls the stream shows as started
      in the trace since it was begun. */
  lemma TraceEndReportsTally(maxTracked: nat, calls: seq<Call>, k: nat)
    requires FreshSpans(calls) && k < |After(maxTracked, calls).events| && After(maxTracked, calls).events[k].TraceEnd?
    ensures var events := After(maxTracked, calls).events;
            var agg, before := events[k].agg, events[..k];
            && agg.spans == StartsSinceBegin(before, events[k].trace, None)
            && agg.llm == StartsSinceBegin(before, events[k].trace, Some(Llm))
            && agg.tools == StartsSinceBegin(before, events[k].trace, Some(Tool))
  {
    var h, at := RunIsTrue(maxTracked, calls);
    var s := After(maxTracked, calls);
    Aspects(h, at, s.runs, s.traces, s.events);
    TallyCounts(s.events[..k], s.events[k].trace);
  }

  // ------------------------------------------------------ what every call emits

  function TraceStarts(events: seq<Event>, t: Id): nat
  {
    if events == [] then 0
    else
      var e := events[|events| - 1];
      TraceStarts(events[..|events| - 1], t) + if e.TraceStart? && e.trace == t then 1 else 0
  }

  function TraceEnds(events: seq<Event>, t: Id): nat
  {
    if events == [] then 0
    else
      var e := events[|events| - 1];
      TraceEnds(events[..|events| - 1], t) + if e.TraceEnd? && e.trace == t then 1 else 0
  }

  /** The stream has begun trace t and not ended it since. */
  predicate IsOpen(events: seq<Event>, t: Id)
  {
    events != [] &&
    var e := events[|events| - 1];
    if e.TraceStart? && e.trace == t then true
    else if e.TraceEnd? && e.trace == t then false
    else IsOpen(events[..|events| - 1], t)
  }

  /** The counts of one span and one trace after some more events. */
  predicate Adds(before: seq<Event>, after: seq<Event>, s: Id, t: Id, starts: nat, ends: nat, begins: nat, closes: nat)
  {
    && Starts(after, s) == Starts(before, s) + starts && Ends(after, s) == Ends(before, s) + ends
    && TraceStarts(after, t) == TraceStarts(before, t) + begins && TraceEnds(after, t) == TraceEnds(before, t) + closes
  }

  /** What one more event changes. */
  lemma OneMoreEvent(events: seq<Event>, e: Event, s: Id, t: Id)
    ensures Adds(events, events + [e], s, t, One(e.SpanStart? && e.span == s), One(e.SpanEnd? && e.span == s),
                 One(e.TraceStart? && e.trace == t), One(e.TraceEnd? && e.trace == t))
    ensures IsOpen(events + [e], t) <==>
        (e.TraceStart? && e.trace == t) || (IsOpen(events, t) && !(e.TraceEnd? && e.trace == t))
  {
    assert (events + [e])[..|events|] == events;
  }

  function One(b: bool): nat
  {
    if b then 1 else 0
  }

  lemma StartAdds(events: seq<Event>, r: Run, s: Id, t: Id)
    ensures Adds(events, events + StartEvents(r), s, t, One(r.span == Some(s)), 0, One(r.isRoot && r.trace == t), 0)
    ensures IsOpen(events + StartEvents(r), t) <==> IsOpen(events, t) || (r.isRoot && r.trace == t)
  {
    var begun := if r.isRoot then events + [TraceStart(r.trace, r.tenant)] else events;
    OneMoreEvent(events, TraceStart(r.trace, r.tenant), s, t);
    if r.span.Some? {
      var e := SpanStart(r.trace, r.tenant, r.span.value, r.parentSpan, r.kind);
      OneMoreEvent(begun, e, s, t);
      assert events + StartEvents(r) == begun + [e];
    } else {
      assert events + StartEvents(r) == begun;
    }
  }

  lemma EndAdds(events: seq<Event>, r: Run, traces: map<Id, Agg>, s: Id, t: Id)
    ensures Adds(events, events + EndEvents(r, traces), s, t, 0, One(r.span == Some(s)), 0,
                 One(r.isRoot && r.trace == t && t in traces))
    ensures IsOpen(events + EndEvents(r, traces), t) <==>
        IsOpen(events, t) && !(r.isRoot && r.trace == t && t in traces)
  {
    var ended := events;
    if r.span.Some? {
      var e := SpanEnd(r.trace, r.tenant, r.span.value, r.parentSpan);
      OneMoreEvent(events, e, s, t);
      ended := events + [e];
    }
    if r.isRoot && r.trace in traces {
      OneMoreEvent(ended, TraceEnd(r.trace, traces[r.trace]), s, t);
      assert events + EndEvents(r, traces) == ended + [TraceEnd(r.trace, traces[r.trace])];
    } else {
      assert events + EndEvents(r, traces) == ended;
    }
  }

  lemma EndCounts(h: seq<Node>, at: map<Id, nat>, s: State, rid: Id)
    requires True(h, at, s) && rid in s.runs
    ensures EndsOnce(s.events, s.events + EndEvents(s.runs[rid], s.traces), s.runs[rid], s.traces)
  {
    Aspects(h, at, s.runs, s.traces, s.events);
    var r := s.runs[rid];
    EndAdds(s.events, r, s.traces, if r.span.Some? then r.span.value else rid, r.trace);
  }

  /** The span is ended for the first and only time, and the trace once if r is its root and it is open. */
  predicate EndsOnce(before: seq<Event>, after: seq<Event>, r: Run, traces: map<Id, Agg>)
  {
    && (r.span.Some? ==> Ends(before, r.span.value) == 0 && Ends(after, r.span.value) == 1)
    && TraceEnds(after, r.trace) == TraceEnds(before, r.trace) + One(r.isRoot && r.trace in traces)
  }

  lemma StartOpens(maxTracked: nat, s: State, rid: Id, r: Run, t: Id)
    requires t in s.traces <==> IsOpen(s.events, t)
    ensures var next := AfterStart(maxTracked, s, rid, r); t in next.traces <==> IsOpen(next.events, t)
  {
    StartAdds(s.events, r, t, t);
  }

  lemma EndCloses(s: State, rid: Id, t: Id)
    requires rid in s.runs && (t in s.traces <==> IsOpen(s.events, t))
    ensures var next := AfterEnd(s, rid); t in next.traces <==> IsOpen(next.events, t)
  {
    EndAdds(s.events, s.runs[rid], s.traces, t, t);
  }

  /** After any calls, the traces the handler counts for are those the stream shows as open. */
  lemma {:induction false} OpenTraces(maxTracked: nat, calls: seq<Call>, t: Id)
    ensures t in After(maxTracked, calls).traces <==> IsOpen(After(maxTracked, calls).events, t)
  {
    if calls != [] {
      var front, c := calls[..|calls| - 1], calls[|calls| - 1];
      OpenTraces(maxTracked, front, t);
      var s := After(maxTracked, front);
      if c.Start? && c.run.Some? {
        StartOpens(maxTracked, s, c.run.value, StartedRun(s.runs, c), t);
      } else if c.End? && c.run.Some? && c.run.value in s.runs {
        EndCloses(s, c.run.value, t);
      }
    }
  }

  lemma OneMoreCall(maxTracked: nat, calls: seq<Call>, c: Call)
    ensures After(maxTracked, calls + [c]) == Next(maxTracked, After(maxTracked, calls), c)
  {
    assert (calls + [c])[..|calls|] == calls;
  }

  /** After any calls, ending a tracked run ends its span, for the first and only time, and no other; if the run is
      a root and the stream shows its trace open, one end of that trace follows, and no other trace ends. */
  lemma EndIsEmitted(maxTracked: nat, calls: seq<Call>, rid: Id, s: Id, t: Id)
    requires FreshSpans(calls) && rid in After(maxTracked, calls).runs
    ensures var before, after := After(maxTracked, calls).events, After(maxTracked, calls + [End(Some(rid))]).events;
            var r := After(maxTracked, calls).runs[rid];
            && Adds(before, after, s, t, 0, One(r.span == Some(s)), 0,
                    One(r.isRoot && r.trace == t && IsOpen(before, t)))
            && (r.span == Some(s) ==> Ends(before, s) == 0)
  {
    var h, at := RunIsTrue(maxTracked, calls);
    var now := After(maxTracked, calls);
    Aspects(h, at, now.runs, now.traces, now.events);
    OneMoreCall(maxTracked, calls, End(Some(rid)));
    EndAdds(now.events, now.runs[rid], now.traces, s, t);
    OpenTraces(maxTracked, calls, t);
  }

  /** After any calls, a start that is not skipped starts its span, for the first and only time, with its kind, and
      no other; one without a tracked parent begins its trace, and no other. */
  lemma StartIsEmitted(maxTracked: nat, calls: seq<Call>, c: Call, s: Id, t: Id)
    requires FreshSpans(calls + [c]) && c.Start? && c.run.Some?
    ensures var was, events := After(maxTracked, calls), After(maxTracked, calls + [c]).events;
            && Adds(was.events, events, s, t, One(!c.skip && c.freshSpan == s), 0,
                    One(!Tracked(was.runs, c.parentRun) && c.rootTrace == t), 0)
            && (!c.skip ==> Starts(was.events, c.freshSpan) == 0)
            && (!c.skip ==>
                  var e := events[|events| - 1]; e.SpanStart? && e.span == c.freshSpan && e.kind == c.kind)
  {
    SpanIsNew(calls, c);
    var h, at := RunIsTrue(maxTracked, calls);
    var was := After(maxTracked, calls);
    OneMoreCall(maxTracked, calls, c);
    StartAdds(was.events, StartedRun(was.runs, c), s, t);
    Aspects(h, at, was.runs, was.traces, was.events);
  }

  lemma SpanIsNew(calls: seq<Call>, c: Call)
    requires FreshSpans(calls + [c]) && c.Start?
    ensures FreshSpans(calls) && !Used(calls, c.freshSpan)
  {
    var all := calls + [c];
    assert forall i :: 0 <= i < |calls| ==> all[i] == calls[i];
    assert all[|calls|] == c;
  }

  /** A call without a run id, and the end of a run that is not tracked, emit nothing. */
  lemma OthersEmitNothing(maxTracked: nat, calls: seq<Call>, c: Call)
    requires c.run.None? || (c.End? && c.run.value !in After(maxTracked, calls).runs)
    ensures After(maxTracked, calls + [c]) == After(maxTracked, calls)
  {
    OneMoreCall(maxTracked, calls, c);
  }

  // ------------------------------------------------------ who is still tracked

  /** No run id is started twice. */
  ghost predicate DistinctRuns(calls: seq<Call>)
  {
    forall i, j :: 0 <= i < j < |calls| && calls[i].Start? && calls[j].Start? && calls[i].run.Some? ==>
        calls[i].run != calls[j].run
  }

  /** The run was started, and no end of it was called since. */
  predicate Unfinished(calls: seq<Call>, rid: Id)
  {
    calls != [] &&
    var c := calls[|calls| - 1];
    if c.run == Some(rid) then c.Start? else Unfinished(calls[..|calls| - 1], rid)
  }

  /** How many runs were started after the run's last call. */
  function StartedSince(calls: seq<Call>, rid: Id): nat
  {
    if calls == [] || calls[|calls| - 1].run == Some(rid) then 0
    else
      var c := calls[|calls| - 1];
      StartedSince(calls[..|calls| - 1], rid) + One(c.Start? && c.run.Some?)
  }

  /** How many come after it in the table. */
  function Behind(order: seq<Id>, rid: Id): nat
  {
    if order == [] || order[|order| - 1] == rid then 0 else Behind(order[..|order| - 1], rid) + 1
  }

  lemma BehindAppend(order: seq<Id>, last: Id, rid: Id)
    ensures Behind(order + [last], rid) == if last == rid then 0 else Behind(order, rid) + 1
  {
    assert (order + [last])[..|order|] == order;
  }

  lemma NewestAppend(order: seq<Id>, last: Id, n: nat)
    requires n > 0
    ensures Newest(order + [last], n) == Newest(order, n - 1) + [last]
  {
  }

  lemma {:induction false} BehindInTail(order: seq<Id>, rid: Id, n: nat)
    requires rid in order && Behind(order, rid) < n
    ensures rid in Newest(order, n) && Behind(Newest(order, n), rid) == Behind(order, rid)
    decreases n
  {
    var front, last := order[..|order| - 1], order[|order| - 1];
    assert order == front + [last];
    NewestAppend(front, last, n);
    BehindAppend(Newest(front, n - 1), last, rid);
    if last != rid { BehindInTail(front, rid, n - 1); }
  }

  lemma {:induction false} BehindWithout(order: seq<Id>, rid: Id, other: Id)
    requires rid in order && rid != other
    ensures rid in Without(order, other) && Behind(Without(order, other), rid) <= Behind(order, rid)
  {
    var front, last := order[..|order| - 1], order[|order| - 1];
    assert order == front + [last];
    BehindAppend(Without(front, other), last, rid);
    assert last == other ==> Without(order, other) == Without(front, other);
    if last != rid { BehindWithout(front, rid, other); }
  }

  /** The table's two halves agree. */
  lemma {:induction false} OrderIsTrue(maxTracked: nat, calls: seq<Call>)
    ensures forall q :: q in After(maxTracked, calls).order <==> q in After(maxTracked, calls).runs
    ensures forall i, j :: 0 <= i < j < |After(maxTracked, calls).order| ==>
        After(maxTracked, calls).order[i] != After(maxTracked, calls).order[j]
    ensures |After(maxTracked, calls).order| <= maxTracked
  {
    if calls != [] {
      var front, c := calls[..|calls| - 1], calls[|calls| - 1];
      OrderIsTrue(maxTracked, front);
      var s := After(maxTracked, front);
      if c.End? && c.run.Some? { WithoutMembers(s.order, c.run.value); }
    }
  }

  /** The run is in the table, with no more behind it than were started since. */
  ghost predicate Recent(s: State, calls: seq<Call>, rid: Id)
  {
    rid in s.runs && rid in s.order && Behind(s.order, rid) <= StartedSince(calls, rid)
  }

  lemma StartKeepsRecent(maxTracked: nat, calls: seq<Call>, c: Call, s: State, rid: Id)
    requires c.Start? && c.run.Some? && c.run.value !in s.runs && StartedSince(calls + [c], rid) < maxTracked
    requires c.run == Some(rid) || Recent(s, calls, rid)
    ensures Recent(AfterStart(maxTracked, s, c.run.value, StartedRun(s.runs, c)), calls + [c], rid)
  {
    assert (calls + [c])[..|calls|] == calls;
    BehindAppend(s.order, c.run.value, rid);
    BehindInTail(s.order + [c.run.value], rid, maxTracked);
  }

  lemma EndKeepsRecent(calls: seq<Call>, c: Call, s: State, rid: Id)
    requires c.End? && c.run.Some? && c.run.value in s.runs && c.run.value != rid && Recent(s, calls, rid)
    ensures Recent(AfterEnd(s, c.run.value), calls + [c], rid)
  {
    assert (calls + [c])[..|calls|] == calls;
    BehindWithout(s.order, rid, c.run.value);
  }

  /** After any calls that start no run twice: the table holds at most its bound, and a run that was started, is
      not ended and is among the newest of that number is still in it. */
  lemma {:induction false} RecentIsTracked(maxTracked: nat, calls: seq<Call>, rid: Id)
    requires DistinctRuns(calls)
    ensures |After(maxTracked, calls).runs| <= maxTracked
    ensures Unfinished(calls, rid) && StartedSince(calls, rid) < maxTracked ==>
        Recent(After(maxTracked, calls), calls, rid)
  {
    TableSize(maxTracked, calls);
    if calls != [] && Unfinished(calls, rid) && StartedSince(calls, rid) < maxTracked {
      var front, c := calls[..|calls| - 1], calls[|calls| - 1];
      assert calls == front + [c];
      RecentIsTracked(maxTracked, front, rid);
      var s := After(maxTracked, front);
      if c.Start? && c.run.Some? {
        if c.run.value in s.runs { WasStarted(maxTracked, front, c.run.value); }
        StartKeepsRecent(maxTracked, front, c, s, rid);
      } else if c.run.Some? && c.run.value in s.runs {
        EndKeepsRecent(front, c, s, rid);
      }
    }
  }

  lemma {:induction false} WasStarted(maxTracked: nat, calls: seq<Call>, rid: Id)
    requires rid in After(maxTracked, calls).runs
    ensures exists i :: 0 <= i < |calls| && calls[i].Start? && calls[i].run == Some(rid)
  {
    var front, c := calls[..|calls| - 1], calls[|calls| - 1];
    if !(c.Start? && c.run == Some(rid)) {
      WasStarted(maxTracked, front, rid);
      var i :| 0 <= i < |front| && front[i].Start? && front[i].run == Some(rid);
      assert calls[i] == front[i];
    }
  }

  lemma TableSize(maxTracked: nat, calls: seq<Call>)
    ensures |After(maxTracked, calls).runs| <= maxTracked
  {
    OrderIsTrue(maxTracked, calls);
    var s := After(maxTracked, calls);
    assert s.runs.Keys == Elems(s.order);
    ElemsSize(s.order);
  }

  lemma {:induction false} ElemsSize(s: seq<Id>)
    ensures |Elems(s)| <= |s|
  {
    if s != [] {
      ElemsSize(s[..|s| - 1]);
      assert Elems(s) == Elems(s[..|s| - 1]) + {s[|s| - 1]};
    }
  }

  lemma {:induction false} WithoutOne(order: seq<Id>, i: nat)
    requires i < |order| && forall j, k :: 0 <= j < k < |order| ==> order[j] != order[k]
    ensures Without(order, order[i]) == order[..i] + order[i + 1..]
  {
    var front, last := order[..|order| - 1], order[|order| - 1];
    if i < |front| {
      WithoutOne(front, i);
      assert front[..i] == order[..i] && front[i + 1..] + [last] == order[i + 1..];
    } else {
      NotThere(front, last);
      assert front == order[..i] + order[i + 1..];
    }
  }

  lemma {:induction false} NotThere(order: seq<Id>, rid: Id)
    requires rid !in order
    ensures Without(order, rid) == order
  {
    if order != [] {
      NotThere(order[..|order| - 1], rid);
      assert order == order[..|order| - 1] + [order[|order| - 1]];
    }
  }

  lemma {:induction false} WithoutMembers(order: seq<Id>, rid: Id)
    requires forall j, k :: 0 <= j < k < |order| ==> order[j] != order[k]
    ensures forall q :: q in Without(order, rid) <==> q in order && q != rid
    ensures forall j, k :: 0 <= j < k < |Without(order, rid)| ==> Without(order, rid)[j] != Without(order, rid)[k]
    ensures |Without(order, rid)| <= |order|
  {
    if order != [] {
      var front, last := order[..|order| - 1], order[|order| - 1];
      WithoutMembers(front, rid);
      assert order == front + [last] && last !in front;
      assert forall j :: 0 <= j < |Without(front, rid)| ==> Without(front, rid)[j] in Without(front, rid);
    }
  }

  class Handler {
    const maxTracked: nat
    var runs: map<Id, Run>
    var order: seq<Id>
    var traces: map<Id, Agg>
    var events: seq<Event>
    ghost var history: seq<Node>
    ghost var at: map<Id, nat>

    constructor (maxTracked: nat)
      ensures Valid() && this.maxTracked == maxTracked && Now() == NEW_STATE && history == []
    {
      this.maxTracked := maxTracked;
      runs, order, traces, events, history, at := map[], [], map[], [], [], map[];
    }

    ghost function Now(): State
      reads this
    {
      State(runs, order, traces, events)
    }

    ghost predicate Valid()
      reads this
    {
      True(history, at, Now()) && Bounded(maxTracked, Now())
    }

    /** Insert a run; while the table is over its bound the oldest goes. */
    method Register(rid: Id, run: Run)
      requires OrderTrue(runs, order) && |order| <= maxTracked
      modifies `runs, `order
      ensures OrderTrue(runs, order) && |order| <= maxTracked
      ensures runs == Restrict(old(runs)[rid := run], order)
      ensures order == Newest(if rid in old(runs) then old(order) else old(order) + [rid], maxTracked)
    {
      if rid !in runs {
        forall i | 0 <= i < |order| ensures order[i] != rid { assert order[i] in order; }
        order := order + [rid];
      }
      runs := runs[rid := run];
      EvictDown();
    }

    /** Evict from the front until the table is within its bound. */
    method EvictDown()
      requires OrderTrue(runs, order)
      modifies `runs, `order
      ensures OrderTrue(runs, order) && order == Newest(old(order), maxTracked) && Within(runs, old(runs))
    {
      while |order| > maxTracked
        invariant OrderTrue(runs, order) && Within(runs, old(runs))
        invariant Newest(order, maxTracked) == Newest(old(order), maxTracked)
        decreases |order|
      {
        NewestTail(order, maxTracked);
        EvictOldest();
      }
    }

    method EvictOldest()
      requires OrderTrue(runs, order) && order != []
      modifies `runs, `order
      ensures OrderTrue(runs, order) && order == old(order)[1..] && runs == old(runs) - {old(order)[0]}
    {
      var oldest := order[0];
      forall r ensures r in order[1..] <==> r in order && r != oldest {
        if r in order && r != oldest {
          var i :| 0 <= i < |order| && order[i] == r;
          assert order[1..][i - 1] == r;
        }
      }
      runs := runs - {oldest};
      order := order[1..];
    }

    /** A run starts. */
    method StartRun(run: Option<Id>, parentRun: Option<Id>, kind: Kind, skip: bool,
                    rootTrace: Id, rootTenant: Id, ambient: Option<Id>, freshSpan: Id)
      requires Valid() && !Issued(history, freshSpan)
      modifies this
      ensures Valid()
      ensures var c := Start(run, parentRun, kind, skip, rootTrace, rootTenant, ambient, freshSpan);
              && Now() == Next(maxTracked, old(Now()), c)
              && history == if run.None? then old(history) else old(history) + [NewNode(old(runs), old(at), c)]
      ensures run.Some? ==>
          Grounded(history) && events == old(events) + StartEvents(RowOf(history, |old(history)|, kind))
    {
      if run.None? { return; }
      var isRoot := parentRun.None? || parentRun.value !in runs;
      var trace, tenant, effective := rootTrace, rootTenant, ambient;
      if !isRoot {
        var parent := runs[parentRun.value];
        trace, tenant := parent.trace, parent.tenant;
        effective := if parent.span.Some? then parent.span else parent.parentSpan;
      }
      var span := if skip then None else Some(freshSpan);
      var r := Run(trace, tenant, span, effective, isRoot, kind);
      ghost var c := Start(run, parentRun, kind, skip, rootTrace, rootTenant, ambient, freshSpan);
      ghost var n := NewNode(runs, at, c);
      StartedRunMatches(history, at, Now(), c);
      StartKeeps(history, at, maxTracked, Now(), run.value, r, n);
      Begin(run.value, r);
      history, at := history + [n], at[run.value := |history|];
    }

    /** Put the row into the table, open the trace for a root, count and emit the span. */
    method Begin(rid: Id, r: Run)
      requires Bounded(maxTracked, Now())
      modifies `runs, `order, `traces, `events
      ensures Bounded(maxTracked, Now()) && Now() == AfterStart(maxTracked, old(Now()), rid, r)
    {
      Register(rid, r);
      Open(r);
      if r.trace in traces && r.span.Some? { Count(r.trace, r.kind); }
      if r.span.Some? {
        events := events + [SpanStart(r.trace, r.tenant, r.span.value, r.parentSpan, r.kind)];
      }
      assert events == old(events) + StartEvents(r);
    }

    /** A root opens its trace. */
    method Open(r: Run)
      modifies `traces, `events
      ensures traces == Opened(old(traces), r)
      ensures events == old(events) + if r.isRoot then [TraceStart(r.trace, r.tenant)] else []
    {
      if r.isRoot {
        traces := traces[r.trace := Agg(r.tenant, 0, 0, 0)];
        events := events + [TraceStart(r.trace, r.tenant)];
      }
    }

    method Count(trace: Id, kind: Kind)
      requires trace in traces
      modifies `traces
      ensures traces == Bumped(old(traces), trace, kind)
    {
      var agg := traces[trace];
      agg := agg.(spans := agg.spans + 1);
      if kind.Llm? {
        agg := agg.(llm := agg.llm + 1);
      } else if kind.Tool? {
        agg := agg.(tools := agg.tools + 1);
      }
      traces := traces[trace := agg];
    }

    /** A run ends: at most its span's end and, for a root, its trace's end. */
    method EndRun(run: Option<Id>)
      requires Valid()
      modifies this
      ensures Valid() && history == old(history)
      ensures Now() == Next(maxTracked, old(Now()), End(run))
      ensures run.Some? && run.value in old(runs) ==>
                EndsOnce(old(events), events, old(runs)[run.value], old(traces))
    {
      if run.None? || run.value !in runs { return; }
      FinishKeeps(history, at, Now(), run.value);
      EndCounts(history, at, Now(), run.value);
      Finish(run.value);
    }

    /** The run leaves the table; its span's end and a root's trace end are emitted. */
    method Finish(rid: Id)
      requires Bounded(maxTracked, Now()) && rid in runs
      modifies `runs, `order, `traces, `events
      ensures Bounded(maxTracked, Now()) && Now() == AfterEnd(old(Now()), rid)
    {
      var r := runs[rid];
      Forget(rid);
      if r.span.Some? {
        events := events + [SpanEnd(r.trace, r.tenant, r.span.value, r.parentSpan)];
      }
      if r.isRoot { Close(r.trace); }
      assert events == old(events) + EndEvents(r, old(traces));
    }

    /** Close a trace if it is still open. */
    method Close(trace: Id)
      modifies `traces, `events
      ensures traces == old(traces) - {trace}
      ensures events == old(events) + if trace in old(traces) then [TraceEnd(trace, old(traces)[trace])] else []
    {
      if trace in traces {
        events := events + [TraceEnd(trace, traces[trace])];
        traces := traces - {trace};
      }
    }

    method Forget(rid: Id)
      requires OrderTrue(runs, order) && rid in runs
      modifies `runs, `order
      ensures OrderTrue(runs, order) && runs == old(runs) - {rid} && |order| <= |old(order)|
      ensures order == Without(old(order), rid)
    {
      var i := 0;
      while order[i] != rid
        invariant i < |order| && rid in order[i..]
        decreases |order| - i
      {
        i := i + 1;
      }
      WithoutOne(order, i);
      WithoutMembers(order, rid);
      order := order[..i] + order[i + 1..];
      runs := runs - {rid};
    }

    /** The chain hook: a nested chain that is no graph node is skipped when chains are not captured or its
        name is ignored; a run without a parent id never is. */
    method OnChainStart(run: Option<Id>, parentRun: Option<Id>, isNode: bool, captureChains: bool, ignoredName: bool,
                        rootTrace: Id, rootTenant: Id, ambient: Option<Id>, freshSpan: Id)
      requires Valid() && !Issued(history, freshSpan)
      modifies this
      ensures Valid()
      ensures run.Some? && (parentRun.None? || isNode || (captureChains && !ignoredName)) ==>
                && Starts(events, freshSpan) == 1 && events != []
                && var e := events[|events| - 1];
                   e.SpanStart? && e.span == freshSpan && e.kind == if parentRun.None? then Agent else Chain
      ensures run.Some? && parentRun.Some? && !isNode && (!captureChains || ignoredName) ==>
          Starts(events, freshSpan) == 0
    {
      var isRoot := parentRun.None?;
      var skip := !isRoot && !isNode && (!captureChains || ignoredName);
      StartRun(run, parentRun, if isRoot then Agent else Chain, skip, rootTrace, rootTenant, ambient, freshSpan);
      if run.Some? {
        var h := history;
        Aspects(h, at, runs, traces, events);
        assert h[|h| - 1].span == if skip then None else Some(freshSpan);
        IssuedGrows(old(history), h[|h| - 1], freshSpan);
      }
    }
  }
}
