/** The order in which a trace's spans are shown: depth first from the roots, siblings by start time,
    and whatever hangs on a parent cycle at the end. */
module SpanTree {
  import opened Ids
  import opened Wrappers

  datatype Span = Span(id: Id, parent: Option<Id>, startedAt: Option<int>)
  datatype Row = Row(span: Span, depth: nat)

  predicate DistinctIds(spans: seq<Span>)
  {
    forall i, j :: 0 <= i < j < |spans| ==> spans[i].id != spans[j].id
  }

  function Known(spans: seq<Span>): set<Id>
  {
    if spans == [] then {} else Known(spans[..|spans| - 1]) + {spans[|spans| - 1].id}
  }

  lemma {:induction false} KnownIds(spans: seq<Span>, x: Id)
    ensures x in Known(spans) <==> exists s :: s in spans && s.id == x
  {
    if spans != [] {
      var front, last := spans[..|spans| - 1], spans[|spans| - 1];
      assert spans == front + [last] && last in spans;
      KnownIds(front, x);
    }
  }

  /** A parent that is not among the spans counts as none. */
  function ParentOf(known: set<Id>, s: Span): Option<Id>
  {
    if s.parent.Some? && s.parent.value in known then s.parent else None
  }

  // ---------------------------------------------------------------- siblings

  /** The sort key (started_at is None, started_at, span_id). */
  predicate KeyLess(a: Span, b: Span)
  {
    if a.startedAt != b.startedAt then
      a.startedAt.Some? && (b.startedAt.None? || a.startedAt.value < b.startedAt.value)
    else a.id.order < b.id.order
  }

  predicate InKeyOrder(s: seq<Span>)
  {
    forall i, j :: 0 <= i < j < |s| ==> KeyLess(s[i], s[j])
  }

  function Insert(x: Span, s: seq<Span>): seq<Span>
  {
    if s == [] || !KeyLess(x, s[|s| - 1]) then s + [x] else Insert(x, s[..|s| - 1]) + [s[|s| - 1]]
  }

  function Sort(s: seq<Span>): seq<Span>
  {
    if s == [] then [] else Insert(s[|s| - 1], Sort(s[..|s| - 1]))
  }

  lemma {:induction false} InsertSorts(x: Span, s: seq<Span>)
    requires InKeyOrder(s) && forall y :: y in s ==> y.id != x.id
    ensures InKeyOrder(Insert(x, s))
    ensures forall y :: y in Insert(x, s) <==> y in s || y == x
  {
    if s != [] {
      var front, last := s[..|s| - 1], s[|s| - 1];
      assert s == front + [last] && last in s;
      if KeyLess(x, last) {
        InsertSorts(x, front);
        var r := Insert(x, front);
        forall i | 0 <= i < |r| ensures KeyLess(r[i], last) { assert r[i] in r; }
      } else {
        forall i | 0 <= i < |s| ensures KeyLess(s[i], x) { assert s[i] == last || KeyLess(s[i], last); }
      }
    }
  }

  lemma {:induction false} SortSorts(s: seq<Span>)
    requires DistinctIds(s)
    ensures InKeyOrder(Sort(s))
    ensures forall y :: y in Sort(s) <==> y in s
  {
    if s != [] {
      var front, last := s[..|s| - 1], s[|s| - 1];
      assert s == front + [last];
      SortSorts(front);
      InsertSorts(last, Sort(front));
    }
  }

  /** The spans with a given parent, in input order. */
  function WithParent(known: set<Id>, spans: seq<Span>, p: Option<Id>): seq<Span>
  {
    if spans == [] then []
    else
      var front, s := WithParent(known, spans[..|spans| - 1], p), spans[|spans| - 1];
      if ParentOf(known, s) == p then front + [s] else front
  }

  lemma {:induction false} WithParentMembers(known: set<Id>, spans: seq<Span>, p: Option<Id>)
    requires DistinctIds(spans)
    ensures forall s :: s in WithParent(known, spans, p) <==> s in spans && ParentOf(known, s) == p
    ensures DistinctIds(WithParent(known, spans, p))
  {
    if spans != [] {
      var front, last := spans[..|spans| - 1], spans[|spans| - 1];
      assert spans == front + [last];
      WithParentMembers(known, front, p);
      forall x | x in front ensures x.id != last.id {
        var i :| 0 <= i < |front| && front[i] == x;
        assert spans[i].id != spans[|front|].id;
      }
    }
  }

  // ---------------------------------------------- what a depth-first order is

  /** The rows walked below `parent`: rows at the top depth are its children, and every deeper row has its
      parent before it with nothing between them that is not deeper than the parent.  So each subtree is one
      contiguous stretch. */
  ghost predicate Nested(known: set<Id>, parent: Option<Id>, depth: nat, rows: seq<Row>)
  {
    forall i :: 0 <= i < |rows| ==> Placed(known, parent, depth, rows, i)
  }

  ghost predicate Placed(known: set<Id>, parent: Option<Id>, depth: nat, rows: seq<Row>, i: nat)
    requires i < |rows|
  {
    if rows[i].depth > depth then exists p :: HangsUnder(known, rows, p, i)
    else rows[i].depth == depth && ParentOf(known, rows[i].span) == parent
  }

  ghost predicate HangsUnder(known: set<Id>, rows: seq<Row>, p: int, i: int)
  {
    && 0 <= p < i < |rows|
    && ParentOf(known, rows[i].span) == Some(rows[p].span.id) && rows[i].depth == rows[p].depth + 1
    && forall q :: p < q < i ==> rows[q].depth >= rows[i].depth
  }

  ghost predicate SiblingsInOrder(known: set<Id>, rows: seq<Row>)
  {
    forall i, j :: 0 <= i < j < |rows| && ParentOf(known, rows[i].span) == ParentOf(known, rows[j].span) ==>
      KeyLess(rows[i].span, rows[j].span)
  }

  /** Of two siblings the one further up started no later, one without a start comes after all that have one,
      and on a tie the ids decide. */
  lemma SiblingsByTime(known: set<Id>, rows: seq<Row>, i: nat, j: nat)
    requires SiblingsInOrder(known, rows) && i < j < |rows|
    requires ParentOf(known, rows[i].span) == ParentOf(known, rows[j].span)
    ensures var a, b := rows[i].span, rows[j].span;
            && (a.startedAt.None? ==> b.startedAt.None?)
            && (a.startedAt.Some? && b.startedAt.Some? ==> a.startedAt.value <= b.startedAt.value)
            && (a.startedAt == b.startedAt ==> a.id.order < b.id.order)
  {
    assert KeyLess(rows[i].span, rows[j].span);
  }

  function IdsOf(rows: seq<Row>): set<Id>
  {
    set r | r in rows :: r.span.id
  }

  /** Rows walked below `parent` have it, or one another, as parents. */
  ghost predicate Local(known: set<Id>, parent: Option<Id>, rows: seq<Row>)
  {
    forall r :: r in rows ==>
      ParentOf(known, r.span) == parent ||
          (ParentOf(known, r.span).Some? && ParentOf(known, r.span).value in IdsOf(rows))
  }

  lemma {:induction false} PlacedInPrefix(known: set<Id>, parent: Option<Id>, depth: nat, a: seq<Row>, b: seq<Row>,
                                          i: nat)
    requires i < |a| && Placed(known, parent, depth, a, i)
    ensures Placed(known, parent, depth, a + b, i)
  {
    if a[i].depth > depth {
      var p :| HangsUnder(known, a, p, i);
      assert HangsUnder(known, a + b, p, i);
    }
  }

  lemma {:induction false} HangsInSuffix(known: set<Id>, a: seq<Row>, b: seq<Row>, p: int, i: nat)
    requires HangsUnder(known, b, p, i)
    ensures HangsUnder(known, a + b, p + |a|, i + |a|)
  {
  }

  lemma {:induction false} PlacedInSuffix(known: set<Id>, parent: Option<Id>, depth: nat, a: seq<Row>, b: seq<Row>,
                                          i: nat)
    requires i < |b| && Placed(known, parent, depth, b, i)
    ensures Placed(known, parent, depth, a + b, i + |a|)
  {
    assert (a + b)[i + |a|] == b[i];
    if b[i].depth > depth {
      var p :| HangsUnder(known, b, p, i);
      HangsInSuffix(known, a, b, p, i);
    }
  }

  /** A row at the top depth of the stretch below s hangs under s. */
  lemma {:induction false} HangsUnderRoot(known: set<Id>, s: Span, depth: nat, c: seq<Row>, k: nat)
    requires Nested(known, Some(s.id), depth + 1, c) && k < |c|
    ensures Placed(known, ParentOf(known, s), depth, [Row(s, depth)] + c, k + 1)
  {
    var rows := [Row(s, depth)] + c;
    assert rows[k + 1] == c[k] && Placed(known, Some(s.id), depth + 1, c, k);
    if c[k].depth > depth + 1 {
      var p :| HangsUnder(known, c, p, k);
      HangsInSuffix(known, [Row(s, depth)], c, p, k);
    } else {
      forall q | 0 < q < k + 1 ensures rows[q].depth >= rows[k + 1].depth {
        assert rows[q] == c[q - 1] && Placed(known, Some(s.id), depth + 1, c, q - 1);
      }
      assert HangsUnder(known, rows, 0, k + 1);
    }
  }

  lemma {:induction false} NestedUnderRoot(known: set<Id>, parent: Option<Id>, depth: nat, s: Span, c: seq<Row>)
    requires ParentOf(known, s) == parent && Nested(known, Some(s.id), depth + 1, c)
    ensures Nested(known, parent, depth, [Row(s, depth)] + c)
  {
    var rows := [Row(s, depth)] + c;
    forall i | 0 <= i < |rows| ensures Placed(known, parent, depth, rows, i) {
      if i > 0 { HangsUnderRoot(known, s, depth, c, i - 1); }
    }
  }

  lemma {:induction false} NestedJoins(known: set<Id>, parent: Option<Id>, depth: nat, a: seq<Row>, b: seq<Row>)
    requires Nested(known, parent, depth, a) && Nested(known, parent, depth, b)
    ensures Nested(known, parent, depth, a + b)
  {
    forall i | 0 <= i < |a + b| ensures Placed(known, parent, depth, a + b, i) {
      if i < |a| {
        PlacedInPrefix(known, parent, depth, a, b, i);
      } else {
        PlacedInSuffix(known, parent, depth, a, b, i - |a|);
      }
    }
  }

  lemma {:induction false} SiblingsJoin(known: set<Id>, parent: Option<Id>, a: seq<Row>, r: Row, c: seq<Row>)
    requires SiblingsInOrder(known, a) && SiblingsInOrder(known, c)
    requires Local(known, parent, a) && Local(known, Some(r.span.id), c) && ParentOf(known, r.span) == parent
    requires r.span.id !in IdsOf(a) && parent != Some(r.span.id) && IdsOf(a) !! IdsOf(c)
    requires parent.Some? ==> parent.value !in IdsOf(a) + IdsOf(c)
    requires forall x :: x in a && ParentOf(known, x.span) == parent ==> KeyLess(x.span, r.span)
    ensures SiblingsInOrder(known, a + ([r] + c)) && Local(known, parent, a + ([r] + c))
  {
  }

  // ------------------------------------------------------------------ the walk

  /** The emitted rows: distinct spans of the trace, each after its parent. */
  ghost predicate WellFormed(spans: seq<Span>, rows: seq<Row>)
  {
    && DistinctRows(rows)
    && (forall r :: r in rows ==> r.span in spans)
    && (forall r :: r in rows ==> ParentSeen(Known(spans), r.span, IdsOf(rows)))
  }

  predicate DistinctRows(rows: seq<Row>)
  {
    forall i, j :: 0 <= i < j < |rows| ==> rows[i].span.id != rows[j].span.id
  }

  predicate ParentSeen(known: set<Id>, s: Span, seen: set<Id>)
  {
    ParentOf(known, s).Some? ==> ParentOf(known, s).value in seen
  }

  ghost predicate ChildrenSeen(spans: seq<Span>, p: Option<Id>, seen: set<Id>)
  {
    forall s :: s in spans && ParentOf(Known(spans), s) == p ==> s.id in seen
  }

  ghost predicate ChildrenNew(spans: seq<Span>, p: Option<Id>, seen: set<Id>)
  {
    forall s :: s in spans && ParentOf(Known(spans), s) == p ==> s.id !in seen
  }

  lemma {:induction false} IdsConcat(a: seq<Row>, b: seq<Row>)
    ensures IdsOf(a + b) == IdsOf(a) + IdsOf(b)
  {
  }

  lemma {:induction false} DistinctDisjoint(a: seq<Row>, b: seq<Row>)
    requires DistinctRows(a + b)
    ensures IdsOf(a) !! IdsOf(b)
  {
    forall r, t | r in a && t in b ensures r.span.id != t.span.id {
      var i :| 0 <= i < |a| && a[i] == r;
      var j :| 0 <= j < |b| && b[j] == t;
      assert (a + b)[i] == r && (a + b)[|a| + j] == t;
    }
  }

  /** Emitting a new span whose parent has been emitted: none of its own children has been. */
  lemma {:induction false} EmitKeeps(spans: seq<Span>, rows: seq<Row>, s: Span, depth: nat)
    requires WellFormed(spans, rows) && s in spans && s.id !in IdsOf(rows) && ParentSeen(Known(spans), s, IdsOf(rows))
    ensures WellFormed(spans, rows + [Row(s, depth)]) && IdsOf(rows + [Row(s, depth)]) == IdsOf(rows) + {s.id}
    ensures DistinctIds(spans) ==> ChildrenNew(spans, Some(s.id), IdsOf(rows + [Row(s, depth)]))
  {
  }

  lemma {:induction false} SameSpan(spans: seq<Span>, a: Span, b: Span)
    requires DistinctIds(spans) && a in spans && b in spans && a.id == b.id
    ensures a == b
  {
  }

  lemma {:induction false} OneLess(spans: seq<Span>, seen: set<Id>, s: Span)
    requires s in spans && s.id !in seen
    ensures Known(spans) - (seen + {s.id}) < Known(spans) - seen
  {
    KnownIds(spans, s.id);
    assert s.id in Known(spans) - seen;
  }

  class TreeWalk {
    ghost const spans: seq<Span>
    const byParent: map<Option<Id>, seq<Span>>
    var ordered: seq<Row>
    var visited: set<Id>

    constructor (ghost spans: seq<Span>, byParent: map<Option<Id>, seq<Span>>)
      requires DistinctIds(spans) && IsIndex(spans, byParent)
      ensures Valid() && ordered == [] && this.spans == spans
    {
      this.spans, this.byParent, ordered, visited := spans, byParent, [], {};
    }

    ghost predicate Valid()
      reads this
    {
      DistinctIds(spans) && IsIndex(spans, byParent) && WellFormed(spans, ordered) && visited == IdsOf(ordered)
    }

    /** The body of the loop: emit the span, then everything below it. */
    method Visit(span: Span, depth: nat) returns (ghost below: seq<Row>)
      requires Valid() && span in spans && span.id !in visited && ParentSeen(Known(spans), span, visited)
      modifies this
      ensures Valid() && ordered == old(ordered) + ([Row(span, depth)] + below)
      ensures Walked(spans, Some(span.id), depth + 1, below, visited) && ChildrenSeen(spans, Some(span.id), visited)
      decreases Known(spans) - visited, 0
    {
      OneLess(spans, visited, span);
      Emit(span, depth);
      below := Walk(Some(span.id), depth + 1);
      Regroup(old(ordered), [Row(span, depth)], below);
    }

    method Emit(span: Span, depth: nat)
      requires Valid() && span in spans && span.id !in visited && ParentSeen(Known(spans), span, visited)
      modifies this
      ensures Valid() && ordered == old(ordered) + [Row(span, depth)] && visited == old(visited) + {span.id}
      ensures ChildrenNew(spans, Some(span.id), visited)
    {
      EmitKeeps(spans, ordered, span, depth);
      visited := visited + {span.id};
      ordered := ordered + [Row(span, depth)];
    }

    method ChildrenOf(parent: Option<Id>, ghost depth: nat) returns (children: seq<Span>)
      requires Valid() && ChildrenNew(spans, parent, visited)
      ensures AreChildren(spans, parent, children) && Halfway(spans, parent, depth, ordered, [], children, 0)
      ensures ordered + [] == ordered
    {
      children := if parent in byParent then byParent[parent] else [];
      IndexedChildren(spans, byParent, parent);
      WalkBegins(spans, parent, depth, ordered, children);
    }

    method Walk(parent: Option<Id>, depth: nat) returns (ghost rows: seq<Row>)
      requires Valid() && ChildrenNew(spans, parent, visited) && (parent.Some? ==> parent.value in visited)
      modifies this
      ensures Valid() && ordered == old(ordered) + rows
      ensures Walked(spans, parent, depth, rows, visited) && ChildrenSeen(spans, parent, visited)
      decreases Known(spans) - visited, 3
    {
      ghost var start := ordered;
      var children := ChildrenOf(parent, depth);
      rows := WalkAll(parent, depth, children);
      WalkEnds(spans, parent, depth, start, rows, children);
    }

    /** Where the loop over the children stands after n of them. */
    ghost predicate Going(part: Part, parent: Option<Id>, depth: nat, start: seq<Row>, rows: seq<Row>,
                          children: seq<Span>, n: nat)
      reads this
    {
      match part
      case Sound => Valid() && ordered == start + rows
      case Walking => n <= |children| && Halfway(spans, parent, depth, start, rows, children, n)
    }

    ghost predicate Goes(parent: Option<Id>, depth: nat, start: seq<Row>, rows: seq<Row>, children: seq<Span>, n: nat)
      reads this
    {
      forall p: Part :: Going(p, parent, depth, start, rows, children, n)
    }

    lemma GoesMeans(parent: Option<Id>, depth: nat, start: seq<Row>, rows: seq<Row>, children: seq<Span>, n: nat)
      requires n <= |children|
      ensures Goes(parent, depth, start, rows, children, n) <==>
                Valid() && ordered == start + rows && Halfway(spans, parent, depth, start, rows, children, n)
    {
      assert Going(Sound, parent, depth, start, rows, children, n) <==> Valid() && ordered == start + rows;
      assert Going(Walking, parent, depth, start, rows, children, n) <==>
          Halfway(spans, parent, depth, start, rows, children, n);
    }

    /** The loop over the children. */
    method WalkAll(ghost parent: Option<Id>, depth: nat, children: seq<Span>) returns (ghost rows: seq<Row>)
      requires Valid() && AreChildren(spans, parent, children) && (parent.Some? ==> parent.value in visited)
      requires Halfway(spans, parent, depth, ordered, [], children, 0)
      modifies this
      ensures Valid() && ordered == old(ordered) + rows
      ensures Halfway(spans, parent, depth, old(ordered), rows, children, |children|)
      decreases Known(spans) - visited, 2
    {
      rows := [];
      ghost var start := ordered;
      assert ordered == start + rows;
      GoesMeans(parent, depth, start, rows, children, 0);
      for n := 0 to |children|
        invariant old(visited) <= visited
        invariant Goes(parent, depth, start, rows, children, n)
      {
        rows := WalkChild(parent, depth, start, rows, children, n);
      }
      GoesMeans(parent, depth, start, rows, children, |children|);
    }

    /** One turn of the walk's loop.  The test of `visited` never skips a span. */
    method WalkChild(ghost parent: Option<Id>, depth: nat, ghost start: seq<Row>, ghost rows: seq<Row>,
                     children: seq<Span>, n: nat)
      returns (ghost more: seq<Row>)
      requires n < |children| && AreChildren(spans, parent, children)
      requires parent.Some? ==> parent.value in IdsOf(start)
      requires Goes(parent, depth, start, rows, children, n)
      modifies this
      ensures old(visited) <= visited && Goes(parent, depth, start, more, children, n + 1)
      decreases Known(spans) - visited, 1
    {
      GoesMeans(parent, depth, start, rows, children, n);
      var span := children[n];
      IdsConcat(start, rows);
      assert span in children && span.id !in visited;
      more := rows;
      if span.id in visited { return; }
      ghost var below := Visit(span, depth);
      NextChild(spans, parent, depth, start, rows, below, children, n);
      Regroup(start, rows, [Row(span, depth)] + below);
      IdsConcat(start + rows, [Row(span, depth)] + below);
      more := rows + ([Row(span, depth)] + below);
      GoesMeans(parent, depth, start, more, children, n + 1);
    }
  }

  datatype Part = Sound | Walking

  lemma {:induction false} Regroup(a: seq<Row>, b: seq<Row>, c: seq<Row>)
    ensures a + b + c == a + (b + c)
  {
  }

  /** What the rows walked below `parent` look like, all their children having been walked too. */
  ghost predicate Walked(spans: seq<Span>, parent: Option<Id>, depth: nat, rows: seq<Row>, seen: set<Id>)
  {
    && Nested(Known(spans), parent, depth, rows) && SiblingsInOrder(Known(spans), rows) &&
        Local(Known(spans), parent, rows)
    && forall r :: r in rows ==> ChildrenSeen(spans, Some(r.span.id), seen)
  }

  /** The walk's loop after n children. */
  ghost predicate Halfway(spans: seq<Span>, parent: Option<Id>, depth: nat, start: seq<Row>, rows: seq<Row>,
                          children: seq<Span>, n: nat)
    requires n <= |children|
  {
    && Walked(spans, parent, depth, rows, IdsOf(start + rows))
    && Split(Known(spans), parent, rows, children, n, IdsOf(start + rows))
  }

  lemma {:induction false} WalkBegins(spans: seq<Span>, parent: Option<Id>, depth: nat, start: seq<Row>,
                                      children: seq<Span>)
    requires ChildrenNew(spans, parent, IdsOf(start)) && AreChildren(spans, parent, children)
    ensures Halfway(spans, parent, depth, start, [], children, 0)
    ensures start + [] == start
  {
    assert start + [] == start;
    assert forall j :: 0 <= j < |children| ==> children[j] in children;
  }

  lemma {:induction false} WalkEnds(spans: seq<Span>, parent: Option<Id>, depth: nat, start: seq<Row>, rows: seq<Row>,
                                    children: seq<Span>)
    requires Halfway(spans, parent, depth, start, rows, children, |children|) && AreChildren(spans, parent, children)
    ensures Walked(spans, parent, depth, rows, IdsOf(start + rows)) && ChildrenSeen(spans, parent, IdsOf(start + rows))
  {
  }

  /** After n children: those are seen and the others are not, and no other row has this parent. */
  ghost predicate Split(known: set<Id>, parent: Option<Id>, rows: seq<Row>, children: seq<Span>, n: nat, seen: set<Id>)
    requires n <= |children|
  {
    && (forall j :: 0 <= j < n ==> children[j].id in seen)
    && (forall j :: n <= j < |children| ==> children[j].id !in seen)
    && (forall r :: r in rows && ParentOf(known, r.span) == parent ==> r.span in children[..n])
  }

  /** What one more child and everything below it do to the walked rows. */
  lemma {:induction false} NextChild(spans: seq<Span>, parent: Option<Id>, depth: nat, start: seq<Row>, rows: seq<Row>,
                                     below: seq<Row>,
                                     children: seq<Span>, n: nat)
    requires n < |children| && DistinctIds(spans) && AreChildren(spans, parent, children)
    requires parent.Some? ==> parent.value in IdsOf(start)
    requires Halfway(spans, parent, depth, start, rows, children, n)
    requires var s := children[n];
             var emitted := start + rows + ([Row(s, depth)] + below);
             && Walked(spans, Some(s.id), depth + 1, below, IdsOf(emitted)) &&
                 ChildrenSeen(spans, Some(s.id), IdsOf(emitted))
             && WellFormed(spans, emitted)
    ensures Halfway(spans, parent, depth, start, rows + ([Row(children[n], depth)] + below), children, n + 1)
  {
    var known, s, r := Known(spans), children[n], Row(children[n], depth);
    assert s in children;
    Regroup(start, rows, [r] + below);
    Apart(start, rows, r, below);
    IdsConcat(start, rows);
    NestedUnderRoot(known, parent, depth, s, below);
    NestedJoins(known, parent, depth, rows, [r] + below);
    forall x | x in rows && ParentOf(known, x.span) == parent ensures KeyLess(x.span, s) {
      var j :| 0 <= j < n && children[..n][j] == x.span;
    }
    SiblingsJoin(known, parent, rows, r, below);
    NextSplit(spans, parent, depth, start, rows, below, children, n);
    AllChildrenSeen(spans, rows, r, below, IdsOf(start + rows), IdsOf(start + rows + ([r] + below)));
  }

  lemma {:induction false} NextSplit(spans: seq<Span>, parent: Option<Id>, depth: nat, start: seq<Row>, rows: seq<Row>,
                                     below: seq<Row>,
                                     children: seq<Span>, n: nat)
    requires n < |children| && DistinctIds(spans) && InKeyOrder(children)
    requires forall s :: s in children <==> s in spans && ParentOf(Known(spans), s) == parent
    requires parent.Some? ==> parent.value in IdsOf(start)
    requires Split(Known(spans), parent, rows, children, n, IdsOf(start + rows))
    requires Local(Known(spans), Some(children[n].id), below)
    requires WellFormed(spans, start + rows + ([Row(children[n], depth)] + below))
    ensures Split(Known(spans), parent, rows + ([Row(children[n], depth)] + below), children, n + 1,
                  IdsOf(start + rows + ([Row(children[n], depth)] + below)))
  {
    var r := Row(children[n], depth);
    Apart(start, rows, r, below);
    IdsConcat(start, rows);
    forall x | x in below ensures x.span in spans && ParentOf(Known(spans), x.span) != parent {
      assert x in start + rows + ([r] + below);
    }
    LaterChildrenNew(spans, parent, start, rows, r, below, children, n);
    forall x | x in rows + ([r] + below) && ParentOf(Known(spans), x.span) == parent
        ensures x.span in children[..n + 1] {
      assert x in rows || x == r || x in below;
      assert children[..n + 1] == children[..n] + [children[n]];
    }
  }

  lemma {:induction false} AllChildrenSeen(spans: seq<Span>, rows: seq<Row>, r: Row, below: seq<Row>, before: set<Id>,
                                           after: set<Id>)
    requires before <= after && ChildrenSeen(spans, Some(r.span.id), after)
    requires forall x :: x in rows ==> ChildrenSeen(spans, Some(x.span.id), before)
    requires forall x :: x in below ==> ChildrenSeen(spans, Some(x.span.id), after)
    ensures forall x :: x in rows + ([r] + below) ==> ChildrenSeen(spans, Some(x.span.id), after)
  {
  }

  /** The parts of the emitted list share no span. */
  lemma {:induction false} Apart(start: seq<Row>, rows: seq<Row>, r: Row, below: seq<Row>)
    requires DistinctRows(start + rows + ([r] + below))
    ensures IdsOf(start + rows + ([r] + below)) == IdsOf(start) + IdsOf(rows) + {r.span.id} + IdsOf(below)
    ensures r.span.id !in IdsOf(start) + IdsOf(rows) + IdsOf(below)
    ensures IdsOf(start) !! IdsOf(rows) && IdsOf(start) !! IdsOf(below) && IdsOf(rows) !! IdsOf(below)
  {
    IdsConcat(start + rows, [r] + below);
    IdsConcat(start, rows);
    IdsConcat([r], below);
    DistinctDisjoint(start + rows, [r] + below);
    var all := start + rows + ([r] + below);
    assert all[..|start + rows|] == start + rows && all[|start + rows|..] == [r] + below;
    assert DistinctRows(start + rows) by { assert forall i :: 0 <= i < |start + rows| ==> (start + rows)[i] == all[i]; }
    assert DistinctRows([r] + below) by {
      assert forall i :: 0 <= i < |[r] + below| ==> ([r] + below)[i] == all[i + |start + rows|];
    }
    DistinctDisjoint(start, rows);
    DistinctDisjoint([r], below);
  }

  lemma {:induction false} LaterChildrenNew(spans: seq<Span>, parent: Option<Id>, start: seq<Row>, rows: seq<Row>,
                                            r: Row, below: seq<Row>,
                                            children: seq<Span>, n: nat)
    requires n < |children| && DistinctIds(spans) && InKeyOrder(children) && r.span == children[n]
    requires forall s :: s in children ==> s in spans && ParentOf(Known(spans), s) == parent
    requires forall x :: x in below ==> x.span in spans && ParentOf(Known(spans), x.span) != parent
    requires forall j :: n <= j < |children| ==> children[j].id !in IdsOf(start + rows)
    ensures forall j :: n < j < |children| ==> children[j].id !in IdsOf(start + rows) + {r.span.id} + IdsOf(below)
  {
    forall j | n < j < |children| ensures children[j].id !in {r.span.id} + IdsOf(below) {
      assert children[j] in children && children[n] in children && KeyLess(children[n], children[j]);
      forall x | x in below ensures x.span.id != children[j].id {
        if x.span.id == children[j].id { SameSpan(spans, x.span, children[j]); }
      }
      if children[j].id == r.span.id { SameSpan(spans, children[j], children[n]); }
    }
  }

  /** The grouping dictionary: under each parent its children, sorted. */
  ghost predicate IsIndex(spans: seq<Span>, byParent: map<Option<Id>, seq<Span>>)
  {
    forall p :: (if p in byParent then byParent[p] else []) == Sort(WithParent(Known(spans), spans, p))
  }

  ghost predicate AreChildren(spans: seq<Span>, p: Option<Id>, children: seq<Span>)
  {
    InKeyOrder(children) && forall s :: s in children <==> s in spans && ParentOf(Known(spans), s) == p
  }

  lemma IndexedChildren(spans: seq<Span>, byParent: map<Option<Id>, seq<Span>>, p: Option<Id>)
    requires DistinctIds(spans) && IsIndex(spans, byParent)
    ensures var children := if p in byParent then byParent[p] else [];
            AreChildren(spans, p, children)
  {
    WithParentMembers(Known(spans), spans, p);
    SortSorts(WithParent(Known(spans), spans, p));
  }

  // ------------------------------------------------------------- the whole order

  /** s has n ancestors among the spans, the last of which has no known parent. */
  ghost predicate HasDepth(spans: seq<Span>, s: Span, n: nat)
    decreases n
  {
    if n == 0 then ParentOf(Known(spans), s).None?
    else exists t :: t in spans && ParentOf(Known(spans), s) == Some(t.id) && HasDepth(spans, t, n - 1)
  }

  /** The chain of parents ends. */
  ghost predicate Rooted(spans: seq<Span>, s: Span)
  {
    exists n: nat :: HasDepth(spans, s, n)
  }

  /** Among the spans, the parent is the one the field names. */
  lemma NamedParent(spans: seq<Span>, s: Span, t: Span)
    requires t in spans
    ensures ParentOf(Known(spans), s) == Some(t.id) <==> s.parent == Some(t.id)
  {
    KnownIds(spans, t.id);
  }

  lemma {:induction false} OneDepth(spans: seq<Span>, s: Span, m: nat, n: nat)
    requires DistinctIds(spans) && HasDepth(spans, s, m) && HasDepth(spans, s, n)
    ensures m == n
    decreases m
  {
    if m > 0 && n > 0 {
      var t :| t in spans && ParentOf(Known(spans), s) == Some(t.id) && HasDepth(spans, t, m - 1);
      var u :| u in spans && ParentOf(Known(spans), s) == Some(u.id) && HasDepth(spans, u, n - 1);
      SameSpan(spans, t, u);
      OneDepth(spans, t, m - 1, n - 1);
    }
  }

  /** A span is without a root exactly when it has a parent among the spans that is without a root too. */
  lemma {:induction false} RootlessGoesOn(spans: seq<Span>, s: Span)
    requires DistinctIds(spans)
    ensures !Rooted(spans, s) <==> exists t :: t in spans && s.parent == Some(t.id) && !Rooted(spans, t)
  {
    var known := Known(spans);
    forall t | t in spans ensures ParentOf(known, s) == Some(t.id) <==> s.parent == Some(t.id) {
      NamedParent(spans, s, t);
    }
    if ParentOf(known, s).None? {
      assert HasDepth(spans, s, 0);
    } else {
      KnownIds(spans, s.parent.value);
      var t :| t in spans && t.id == s.parent.value;
      forall u | u in spans && ParentOf(known, s) == Some(u.id) ensures u == t { SameSpan(spans, u, t); }
      if Rooted(spans, t) {
        var n: nat :| HasDepth(spans, t, n);
        assert HasDepth(spans, s, n + 1);
      }
      if Rooted(spans, s) { ParentIsRooted(spans, s, t); }
    }
  }

  lemma {:induction false} ParentIsRooted(spans: seq<Span>, s: Span, t: Span)
    requires DistinctIds(spans) && t in spans && ParentOf(Known(spans), s) == Some(t.id) && Rooted(spans, s)
    ensures Rooted(spans, t)
  {
    var n: nat :| HasDepth(spans, s, n);
    var u :| u in spans && ParentOf(Known(spans), s) == Some(u.id) && HasDepth(spans, u, n - 1);
    SameSpan(spans, u, t);
  }

  // --------------------------------------------------------------- parent cycles

  /** a is reached from s by n steps to the parent. */
  ghost predicate Above(spans: seq<Span>, a: Span, s: Span, n: nat)
    decreases n
  {
    if n == 0 then a == s
    else exists t :: t in spans && s.parent == Some(t.id) && Above(spans, a, t, n - 1)
  }

  /** s is on a parent cycle or below one. */
  ghost predicate HangsOnCycle(spans: seq<Span>, s: Span)
  {
    exists a, n: nat, m: nat :: a in spans && m > 0 && Above(spans, a, s, n) && Above(spans, a, a, m)
  }

  ghost predicate IsChain(spans: seq<Span>, chain: seq<Span>)
  {
    && (forall i :: 0 <= i < |chain| ==> chain[i] in spans)
    && (forall i :: 0 < i < |chain| ==> chain[i - 1].parent == Some(chain[i].id))
  }

  lemma {:induction false} LongChain(spans: seq<Span>, s: Span, n: nat) returns (chain: seq<Span>)
    requires DistinctIds(spans) && s in spans && !Rooted(spans, s)
    ensures |chain| == n + 1 && chain[0] == s && IsChain(spans, chain) && !Rooted(spans, chain[n])
  {
    chain := [s];
    if n > 0 {
      chain := LongChain(spans, s, n - 1);
      RootlessGoesOn(spans, chain[n - 1]);
      var t :| t in spans && chain[n - 1].parent == Some(t.id) && !Rooted(spans, t);
      chain := chain + [t];
    }
  }

  lemma {:induction false} ChainIsAbove(spans: seq<Span>, chain: seq<Span>, i: nat, j: nat)
    requires IsChain(spans, chain) && i <= j < |chain|
    ensures Above(spans, chain[j], chain[i], j - i)
    decreases j - i
  {
    if i < j {
      ChainIsAbove(spans, chain, i + 1, j);
      assert chain[i + 1 - 1].parent == Some(chain[i + 1].id);
    }
  }

  lemma {:induction false} DistinctSize(s: seq<Span>)
    requires forall i, j :: 0 <= i < j < |s| ==> s[i] != s[j]
    ensures |Elems(s)| == |s|
  {
    if s == [] {
      assert Elems(s) == {};
    } else {
      var front, last := s[..|s| - 1], s[|s| - 1];
      DistinctSize(front);
      assert s == front + [last] && last !in Elems(front);
      assert Elems(s) == Elems(front) + {last};
    }
  }

  lemma SmallerPart(part: set<Span>, whole: set<Span>)
    requires part <= whole
    ensures |part| <= |whole|
  {
    assert whole == part + (whole - part);
  }

  /** More entries than spans: some span occurs twice. */
  lemma Repeated(spans: seq<Span>, chain: seq<Span>) returns (i: nat, j: nat)
    requires (forall k :: 0 <= k < |chain| ==> chain[k] in spans) && |chain| > |Elems(spans)|
    ensures i < j < |chain| && chain[i] == chain[j]
  {
    SmallerPart(Elems(chain), Elems(spans));
    if forall i, j :: 0 <= i < j < |chain| ==> chain[i] != chain[j] { DistinctSize(chain); }
    i, j :| 0 <= i < j < |chain| && chain[i] == chain[j];
  }

  /** Going up uses up depth. */
  lemma {:induction false} DepthAbove(spans: seq<Span>, a: Span, s: Span, n: nat, d: nat)
    requires DistinctIds(spans) && Above(spans, a, s, n) && HasDepth(spans, s, d)
    ensures n <= d && HasDepth(spans, a, d - n)
    decreases n
  {
    if n > 0 {
      var t :| t in spans && s.parent == Some(t.id) && Above(spans, a, t, n - 1);
      NamedParent(spans, s, t);
      var u :| u in spans && ParentOf(Known(spans), s) == Some(u.id) && HasDepth(spans, u, d - 1);
      SameSpan(spans, t, u);
      DepthAbove(spans, a, t, n - 1, d - 1);
    }
  }

  lemma CyclesHaveNoDepth(spans: seq<Span>, s: Span, d: nat, a: Span, n: nat, m: nat)
    requires DistinctIds(spans) && HasDepth(spans, s, d) && Above(spans, a, s, n) && m > 0
    ensures !Above(spans, a, a, m)
  {
    DepthAbove(spans, a, s, n, d);
    if Above(spans, a, a, m) {
      DepthAbove(spans, a, a, m, d - n);
      OneDepth(spans, a, d - n, d - n - m);
    }
  }

  /** A span has no root exactly when it is on a parent cycle or below one. */
  lemma RootlessIffCycle(spans: seq<Span>, s: Span)
    requires DistinctIds(spans) && s in spans
    ensures !Rooted(spans, s) <==> HangsOnCycle(spans, s)
  {
    if Rooted(spans, s) {
      var d: nat :| HasDepth(spans, s, d);
      forall a, n: nat, m: nat | m > 0 && Above(spans, a, s, n) ensures !Above(spans, a, a, m) {
        CyclesHaveNoDepth(spans, s, d, a, n, m);
      }
    } else {
      var chain := LongChain(spans, s, |Elems(spans)|);
      var i, j := Repeated(spans, chain);
      ChainIsAbove(spans, chain, 0, i);
      ChainIsAbove(spans, chain, i, j);
      assert chain[i] in spans;
    }
  }

  lemma {:induction false} NestedDepth(spans: seq<Span>, rows: seq<Row>, i: nat)
    requires Nested(Known(spans), None, 0, rows) && i < |rows| && forall r :: r in rows ==> r.span in spans
    ensures HasDepth(spans, rows[i].span, rows[i].depth)
    decreases i
  {
    assert Placed(Known(spans), None, 0, rows, i);
    if rows[i].depth > 0 {
      var p :| HangsUnder(Known(spans), rows, p, i);
      NestedDepth(spans, rows, p);
      assert rows[p] in rows;
    }
  }

  lemma {:induction false} RootedIsSeen(spans: seq<Span>, seen: set<Id>, s: Span, n: nat)
    requires ChildrenSeen(spans, None, seen) && forall x :: x in seen ==> ChildrenSeen(spans, Some(x), seen)
    requires s in spans && HasDepth(spans, s, n)
    ensures s.id in seen
    decreases n
  {
    if n > 0 {
      var t :| t in spans && ParentOf(Known(spans), s) == Some(t.id) && HasDepth(spans, t, n - 1);
      RootedIsSeen(spans, seen, t, n - 1);
      assert ChildrenSeen(spans, Some(t.id), seen);
    }
  }

  /** What the walk from the top leaves: exactly the rooted spans, each at the length of its parent chain. */
  lemma {:induction false} WalkFindsRooted(spans: seq<Span>, rows: seq<Row>)
    requires DistinctIds(spans) && WellFormed(spans, rows)
    requires Walked(spans, None, 0, rows, IdsOf(rows)) && ChildrenSeen(spans, None, IdsOf(rows))
    ensures forall s :: s in spans ==> (s.id in IdsOf(rows) <==> Rooted(spans, s))
    ensures forall r :: r in rows ==> HasDepth(spans, r.span, r.depth)
  {
    forall r | r in rows ensures HasDepth(spans, r.span, r.depth) {
      var i :| 0 <= i < |rows| && rows[i] == r;
      NestedDepth(spans, rows, i);
    }
    forall x | x in IdsOf(rows) ensures ChildrenSeen(spans, Some(x), IdsOf(rows)) {
      var r :| r in rows && r.span.id == x;
    }
    forall s | s in spans ensures s.id in IdsOf(rows) <==> Rooted(spans, s) {
      if s.id in IdsOf(rows) {
        var r :| r in rows && r.span.id == s.id;
        SameSpan(spans, r.span, s);
      }
      if Rooted(spans, s) {
        var n: nat :| HasDepth(spans, s, n);
        RootedIsSeen(spans, IdsOf(rows), s, n);
      }
    }
  }

  /** The rootless spans, flat, in input order. */
  ghost function Rootless(spans: seq<Span>, part: seq<Span>): seq<Row>
  {
    if part == [] then []
    else
      var front, s := Rootless(spans, part[..|part| - 1]), part[|part| - 1];
      if Rooted(spans, s) then front else front + [Row(s, 0)]
  }

  /** First the rooted spans as a depth-first forest, then the rootless ones. */
  ghost predicate IsDepthFirst(spans: seq<Span>, ordered: seq<Row>, k: nat)
    requires k <= |ordered|
  {
    && Nested(Known(spans), None, 0, ordered[..k]) && SiblingsInOrder(Known(spans), ordered[..k])
    && (forall r :: r in ordered[..k] ==> HasDepth(spans, r.span, r.depth))
    && ordered[k..] == Rootless(spans, spans)
  }

  function SpansOf(rows: seq<Row>): seq<Span>
  {
    seq(|rows|, i requires 0 <= i < |rows| => rows[i].span)
  }

  method GroupByParent(spans: seq<Span>) returns (byParent: map<Option<Id>, seq<Span>>)
    ensures IsIndex(spans, byParent)
  {
    var known := Known(spans);
    var groups: map<Option<Id>, seq<Span>> := map[];
    for i := 0 to |spans|
      invariant forall p :: (if p in groups then groups[p] else []) == WithParent(known, spans[..i], p)
    {
      assert spans[..i + 1][..i] == spans[..i];
      var parent := ParentOf(known, spans[i]);
      groups := groups[parent := (if parent in groups then groups[parent] else []) + [spans[i]]];
    }
    assert spans[..|spans|] == spans;
    byParent := map p | p in groups :: Sort(groups[p]);
  }

  method OrderSpans(spans: seq<Span>) returns (ordered: seq<Row>, ghost k: nat)
    requires DistinctIds(spans)
    ensures k <= |ordered| && IsDepthFirst(spans, ordered, k)
    ensures multiset(SpansOf(ordered)) == multiset(spans)
  {
    var byParent := GroupByParent(spans);
    var walk := new TreeWalk(spans, byParent);
    ghost var rows := walk.Walk(None, 0);
    assert walk.ordered == rows;
    WalkFindsRooted(spans, rows);
    k := |rows|;
    ordered := AppendUnvisited(spans, walk.ordered, walk.visited);
    DepthFirstWhole(spans, rows);
    EverySpanOnce(spans, rows);
  }

  lemma {:induction false} DepthFirstWhole(spans: seq<Span>, rows: seq<Row>)
    requires Walked(spans, None, 0, rows, IdsOf(rows)) && forall r :: r in rows ==> HasDepth(spans, r.span, r.depth)
    ensures IsDepthFirst(spans, rows + Rootless(spans, spans), |rows|)
  {
  }

  /** The last loop: what the walk did not visit goes to the end. */
  method AppendUnvisited(spans: seq<Span>, rows: seq<Row>, visited: set<Id>) returns (ordered: seq<Row>)
    requires forall s :: s in spans ==> (s.id in visited <==> Rooted(spans, s))
    ensures ordered == rows + Rootless(spans, spans)
  {
    ordered := rows;
    for i := 0 to |spans|
      invariant ordered == rows + Rootless(spans, spans[..i])
    {
      assert spans[..i + 1][..i] == spans[..i];
      if spans[i].id !in visited { ordered := ordered + [Row(spans[i], 0)]; }
    }
    assert spans[..|spans|] == spans;
  }

  lemma {:induction false} RootlessRows(spans: seq<Span>, part: seq<Span>)
    requires DistinctIds(part)
    ensures DistinctRows(Rootless(spans, part))
    ensures forall r :: r in Rootless(spans, part) ==> r.span in part && !Rooted(spans, r.span)
    ensures forall s :: s in part && !Rooted(spans, s) ==> Row(s, 0) in Rootless(spans, part)
  {
    if part != [] {
      var front, last := part[..|part| - 1], part[|part| - 1];
      assert part == front + [last];
      RootlessRows(spans, front);
      forall r | r in Rootless(spans, front) ensures r.span.id != last.id {
        var i :| 0 <= i < |front| && front[i] == r.span;
        assert part[i].id != part[|front|].id;
      }
    }
  }

  lemma {:induction false} CountDistinct(s: seq<Span>, x: Span)
    requires DistinctIds(s)
    ensures multiset(s)[x] == if x in s then 1 else 0
  {
    if s != [] {
      var front, last := s[..|s| - 1], s[|s| - 1];
      assert s == front + [last];
      CountDistinct(front, x);
      if x == last {
        forall i | 0 <= i < |front| ensures front[i] != last { assert s[i].id != s[|front|].id; }
      }
    }
  }

  lemma {:induction false} EverySpanOnce(spans: seq<Span>, rows: seq<Row>)
    requires DistinctIds(spans) && WellFormed(spans, rows)
    requires forall s :: s in spans ==> (s.id in IdsOf(rows) <==> Rooted(spans, s))
    ensures multiset(SpansOf(rows + Rootless(spans, spans))) == multiset(spans)
  {
    var rest := Rootless(spans, spans);
    var all := SpansOf(rows + rest);
    RootlessRows(spans, spans);
    forall i, j | 0 <= i < j < |all| ensures all[i].id != all[j].id {
      if i < |rows| && |rows| <= j {
        assert rows[i] in rows && rest[j - |rows|] in rest;
        assert rows[i].span.id in IdsOf(rows);
      } else if i >= |rows| {
        assert rest[i - |rows|].span.id != rest[j - |rows|].span.id;
      }
    }
    forall x ensures multiset(all)[x] == multiset(spans)[x] {
      SameElements(spans, rows, x);
      CountDistinct(all, x);
      CountDistinct(spans, x);
    }
  }

  lemma {:induction false} SameElements(spans: seq<Span>, rows: seq<Row>, x: Span)
    requires DistinctIds(spans) && WellFormed(spans, rows)
    requires forall s :: s in spans ==> (s.id in IdsOf(rows) <==> Rooted(spans, s))
    ensures x in SpansOf(rows + Rootless(spans, spans)) <==> x in spans
  {
    var all := rows + Rootless(spans, spans);
    RootlessRows(spans, spans);
    if x in SpansOf(all) {
      var i :| 0 <= i < |all| && all[i].span == x;
      assert all[i] in rows || all[i] in Rootless(spans, spans);
    }
    if x in spans {
      var r := Row(x, 0);
      if Rooted(spans, x) {
        r :| r in rows && r.span.id == x.id;
        SameSpan(spans, r.span, x);
      }
      assert r in all;
      var i :| 0 <= i < |all| && all[i] == r;
      assert SpansOf(all)[i] == x;
    }
  }
}
