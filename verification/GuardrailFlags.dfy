/** The guardrail summary a trace accumulates, one scan at a time.

    Field paths and finding types are only compared and ordered, so an integer
    stands for a string's place in that order.  A score is a real number.  */
module GuardrailFlags {
  import opened Ids
  import opened Wrappers

  type Name = Id
  type Score = r: real | 0.0 <= r witness 0.0

  datatype Severity = Info | Low | Medium | High | Critical {
    function Rank(): (r: nat)
    {
      match this
      case Info => 0
      case Low => 1
      case Medium => 2
      case High => 3
      case Critical => 4
    }
  }

  function MaxSeverity(a: Severity, b: Severity): Severity
  {
    if b.Rank() > a.Rank() then b else a
  }

  datatype Finding = Finding(isPii: bool, findingType: Name, severity: Severity, score: Score, field: Name)
  datatype Pii = Pii(count: nat, types: set<Name>, fields: seq<Name>, maxSeverity: Severity)
  datatype Injection = Injection(category: Name, score: Score, field: Name, severity: Severity)

  /** The JSON object `guardrail_flags`; an absent key is None, false or zero. */
  datatype Flags = Flags(scanned: bool, findings: nat, risk: nat, maxSeverity: Option<Severity>,
                         engines: Option<Name>, pii: Option<Pii>, injection: Option<Injection>)

  const NO_FLAGS := Flags(false, 0, 0, None, None, None, None)
  const MAX_FIELDS := 10

  // ---------------------------------------------------------- sorted(...)[:10]

  function Take(s: seq<Name>): seq<Name>
  {
    if |s| <= MAX_FIELDS then s else s[..MAX_FIELDS]
  }

  ghost function Below(s: set<Name>, x: Name): set<Name>
  {
    set y | y in s && y.order < x.order
  }

  /** The ten smallest members: those with fewer than ten members below them. */
  ghost function Smallest(s: set<Name>): set<Name>
  {
    set x | x in s && |Below(s, x)| < MAX_FIELDS
  }

  lemma {:induction false} PrefixCount(r: seq<Name>, k: nat)
    requires Ascending(r) && k <= |r|
    ensures |Elems(r[..k])| == k
    decreases k
  {
    if k > 0 {
      PrefixCount(r, k - 1);
      assert r[..k] == r[..k - 1] + [r[k - 1]];
      assert Elems(r[..k]) == Elems(r[..k - 1]) + {r[k - 1]};
    } else {
      assert Elems(r[..0]) == {};
    }
  }

  lemma RankOf(r: seq<Name>, s: set<Name>, k: nat)
    requires Lists(r, s) && k < |r|
    ensures |Below(s, r[k])| == k
  {
    PrefixCount(r, k);
    forall y | y in Below(s, r[k]) ensures y in r[..k] {
      assert y in Elems(r);
      var j :| 0 <= j < |r| && r[j] == y;
      assert j < k && r[..k][j] == y;
    }
    forall j | 0 <= j < k ensures r[j] in Below(s, r[k]) {
      assert r[j] in Elems(r);
    }
    assert Below(s, r[k]) == Elems(r[..k]);
  }

  /** The first ten of an ascending list are the ten smallest members. */
  lemma FirstTen(r: seq<Name>, s: set<Name>)
    requires Lists(r, s)
    ensures Lists(Take(r), Smallest(s))
  {
    forall x ensures x in Smallest(s) <==> x in Take(r) {
      if x in Elems(r) {
        var j :| 0 <= j < |r| && r[j] == x;
        RankOf(r, s, j);
        if j < MAX_FIELDS {
          assert Take(r)[j] == x;
        } else {
          assert forall i :: 0 <= i < |Take(r)| ==> Take(r)[i].order < x.order;
        }
      } else {
        assert forall i :: 0 <= i < |Take(r)| ==> Take(r)[i] == r[i];
      }
    }
  }

  /** `sorted(s)[:10]`. */
  ghost function Ten(s: set<Name>): seq<Name>
  {
    Take(Sorted(s))
  }

  /** `sorted(s)[:10]` holds exactly the ten smallest members of s. */
  lemma TenIsSmallest(s: set<Name>)
    ensures Lists(Ten(s), Smallest(s)) && |Ten(s)| <= MAX_FIELDS
  {
    FirstTen(Sorted(s), s);
  }

  lemma SubsetSize<T>(a: set<T>, b: set<T>)
    requires a <= b
    ensures |a| <= |b|
  {
    assert b == a + (b - a);
  }

  /** Above a dropped member there are ten kept ones. */
  lemma DroppedHasTenBelow(s: set<Name>, a: Name)
    requires a in s && a !in Smallest(s)
    ensures |Below(Smallest(s), a)| >= MAX_FIELDS
  {
    var dropped := s - Smallest(s);
    assert a in dropped;
    var m := Least(dropped);
    assert m in s && |Below(s, m)| >= MAX_FIELDS;
    assert Below(s, m) <= Below(Smallest(s), a);
    SubsetSize(Below(s, m), Below(Smallest(s), a));
  }

  /** Truncating one side early loses nothing. */
  lemma TruncateEarly(a: set<Name>, b: set<Name>)
    ensures Smallest(Smallest(a) + b) == Smallest(a + b)
  {
    var t := Smallest(a) + b;
    forall x | x in Smallest(a + b) ensures x in Smallest(t) {
      if x in a {
        SubsetSize(Below(a, x), Below(a + b, x));
      }
      SubsetSize(Below(t, x), Below(a + b, x));
    }
    forall x | x in Smallest(t) ensures x in Smallest(a + b) {
      if exists y :: y in Below(a, x) && y !in Smallest(a) {
        var y :| y in Below(a, x) && y !in Smallest(a);
        DroppedHasTenBelow(a, y);
        SubsetSize(Below(Smallest(a), y), Below(t, x));
        assert false;
      }
      assert Below(a + b, x) == Below(t, x);
    }
  }

  // ----------------------------------------------------------- merge_flags()

  function MergeSeverity(a: Option<Severity>, b: Option<Severity>): Option<Severity>
  {
    match b
    case None => a
    case Some(n) => Some(MaxSeverity(if a.Some? then a.value else Info, n))
  }

  ghost function MergePii(a: Option<Pii>, b: Option<Pii>): Option<Pii>
  {
    match b
    case None => a
    case Some(n) =>
      var p := if a.Some? then a.value else Pii(0, {}, [], Info);
      Some(Pii(p.count + n.count, p.types + n.types,
               Ten(Elems(p.fields) + Elems(n.fields)),
               MaxSeverity(p.maxSeverity, n.maxSeverity)))
  }

  function MergeInjection(a: Option<Injection>, b: Option<Injection>): Option<Injection>
  {
    if b.Some? && b.value.score >= (if a.Some? then a.value.score else 0.0) then b else a
  }

  ghost function Merge(stored: Flags, fresher: Flags): Flags
  {
    Flags(true, stored.findings + fresher.findings,
          if fresher.risk > stored.risk then fresher.risk else stored.risk,
          MergeSeverity(stored.maxSeverity, fresher.maxSeverity),
          if fresher.engines.Some? then fresher.engines else stored.engines,
          MergePii(stored.pii, fresher.pii),
          MergeInjection(stored.injection, fresher.injection))
  }

  /** `merge_flags` as code: the dictionary is copied and its keys reassigned. */
  method MergeFlags(stored: Flags, fresher: Flags) returns (merged: Flags)
    ensures merged == Merge(stored, fresher)
  {
    merged := stored.(scanned := true, findings := stored.findings + fresher.findings);
    if fresher.risk > merged.risk { merged := merged.(risk := fresher.risk); }
    merged := merged.(maxSeverity := MergeSeverity(merged.maxSeverity, fresher.maxSeverity));
    if fresher.engines.Some? { merged := merged.(engines := fresher.engines); }
    if fresher.pii.Some? {
      var p, n := if merged.pii.Some? then merged.pii.value else Pii(0, {}, [], Info), fresher.pii.value;
      var union := Elems(p.fields) + Elems(n.fields);
      var fields := SortIds(union);
      ListUnique(fields, Sorted(union), union);
      merged := merged.(pii := Some(Pii(p.count + n.count, p.types + n.types, Take(fields),
                                        MaxSeverity(p.maxSeverity, n.maxSeverity))));
    }
    merged := merged.(injection := MergeInjection(merged.injection, fresher.injection));
  }

  /** Every stored field list is `sorted(...)[:10]` of something. */
  predicate Normal(f: Flags)
  {
    f.scanned && (f.pii.Some? ==> Ascending(f.pii.value.fields) && |f.pii.value.fields| <= MAX_FIELDS)
  }

  lemma MergedFields(a: set<Name>, b: set<Name>)
    ensures Ten(Elems(Ten(a)) + b) == Ten(a + b)
  {
    TenIsSmallest(a);
    TruncateEarly(a, b);
    TenIsSmallest(Smallest(a) + b);
    TenIsSmallest(a + b);
    ListUnique(Ten(Smallest(a) + b), Ten(a + b), Smallest(a + b));
  }

  lemma TruncatedOnBothSides(a: set<Name>, b: set<Name>, c: set<Name>)
    ensures Ten(Elems(Ten(a + b)) + c) == Ten(a + Elems(Ten(b + c)))
  {
    TenIsSmallest(a + b);
    TenIsSmallest(b + c);
    TruncateEarly(a + b, c);
    TruncateEarly(b + c, a);
    var left, right := Smallest(a + b) + c, a + Smallest(b + c);
    assert right == Smallest(b + c) + a;
    assert (a + b) + c == (b + c) + a;
    TenIsSmallest(left);
    TenIsSmallest(right);
    ListUnique(Ten(left), Ten(right), Smallest(left));
  }

  lemma TenOfShort(r: seq<Name>)
    requires Ascending(r) && |r| <= MAX_FIELDS
    ensures Ten(Elems(r)) == r
  {
    ListUnique(Sorted(Elems(r)), r, Elems(r));
  }

  lemma PiiAssociative(a: Option<Pii>, b: Option<Pii>, c: Option<Pii>)
    ensures MergePii(MergePii(a, b), c) == MergePii(a, MergePii(b, c))
  {
    if c.Some? {
      if b.Some? { PiiThree(a, b.value, c.value); } else { PiiTwo(a, c.value); }
    }
  }

  const NO_PII := Pii(0, {}, [], Info)

  lemma PiiThree(a: Option<Pii>, q: Pii, n: Pii)
    ensures MergePii(MergePii(a, Some(q)), Some(n)) == MergePii(a, MergePii(Some(q), Some(n)))
  {
    var p := if a.Some? then a.value else NO_PII;
    TruncatedOnBothSides(Elems(p.fields), Elems(q.fields), Elems(n.fields));
    assert (p.types + q.types) + n.types == p.types + (q.types + n.types);
  }

  lemma PiiTwo(a: Option<Pii>, n: Pii)
    ensures MergePii(a, Some(n)) == MergePii(a, MergePii(None, Some(n)))
  {
    var p, m := if a.Some? then a.value else NO_PII, MergePii(None, Some(n));
    assert {} + n.types == n.types && Elems<Name>([]) + Elems(n.fields) == Elems(n.fields);
    MergedFields(Elems(n.fields), Elems(p.fields));
    assert Elems(p.fields) + Elems(m.value.fields) == Elems(Ten(Elems(n.fields))) + Elems(p.fields);
    assert Elems(p.fields) + Elems(n.fields) == Elems(n.fields) + Elems(p.fields);
  }

  lemma SeverityAssociative(a: Option<Severity>, b: Option<Severity>, c: Option<Severity>)
    ensures MergeSeverity(MergeSeverity(a, b), c) == MergeSeverity(a, MergeSeverity(b, c))
  {
  }

  lemma MergeAssociative(a: Flags, b: Flags, c: Flags)
    ensures Merge(Merge(a, b), c) == Merge(a, Merge(b, c))
  {
    PiiAssociative(a.pii, b.pii, c.pii);
    SeverityAssociative(a.maxSeverity, b.maxSeverity, c.maxSeverity);
  }

  lemma MergeIdentity(f: Flags)
    requires Normal(f)
    ensures Merge(NO_FLAGS, f) == f
  {
    if f.pii.Some? {
      assert Elems<Name>([]) + Elems(f.pii.value.fields) == Elems(f.pii.value.fields);
      assert {} + f.pii.value.types == f.pii.value.types;
      TenOfShort(f.pii.value.fields);
    }
  }

  // ------------------------------------------------------- many scans, batches

  /** The flags after merging a list of scans, one event at a time. */
  ghost function MergeAll(start: Flags, scans: seq<Flags>): Flags
  {
    if scans == [] then start else Merge(MergeAll(start, scans[..|scans| - 1]), scans[|scans| - 1])
  }

  /** What the scanner does: each batch is combined from nothing, then merged into the stored flags. */
  ghost function MergeBatches(start: Flags, batches: seq<seq<Flags>>): Flags
  {
    if batches == [] then start
    else Merge(MergeBatches(start, batches[..|batches| - 1]), MergeAll(NO_FLAGS, batches[|batches| - 1]))
  }

  function Concat<T>(parts: seq<seq<T>>): seq<T>
  {
    if parts == [] then [] else Concat(parts[..|parts| - 1]) + parts[|parts| - 1]
  }

  lemma {:induction false} MergeAllFrom(start: Flags, batch: seq<Flags>)
    requires batch != [] && forall f :: f in batch ==> Normal(f)
    ensures Merge(start, MergeAll(NO_FLAGS, batch)) == MergeAll(start, batch)
  {
    var last := batch[|batch| - 1];
    var front := batch[..|batch| - 1];
    if front == [] {
      MergeIdentity(last);
      assert MergeAll(NO_FLAGS, batch) == last;
    } else {
      MergeAllFrom(start, front);
      MergeAssociative(start, MergeAll(NO_FLAGS, front), last);
    }
  }

  lemma {:induction false} MergeAllAppend(start: Flags, xs: seq<Flags>, ys: seq<Flags>)
    ensures MergeAll(start, xs + ys) == MergeAll(MergeAll(start, xs), ys)
  {
    if ys == [] {
      assert xs + ys == xs;
    } else {
      MergeAllAppend(start, xs, ys[..|ys| - 1]);
      assert (xs + ys)[..|xs + ys| - 1] == xs + ys[..|ys| - 1];
    }
  }

  /** Splitting a trace's scans into batches in any way gives the same flags. */
  lemma {:induction false} BatchingIrrelevant(start: Flags, batches: seq<seq<Flags>>)
    requires forall b :: b in batches ==> b != [] && forall f :: f in b ==> Normal(f)
    ensures MergeBatches(start, batches) == MergeAll(start, Concat(batches))
  {
    if batches != [] {
      var front, last := batches[..|batches| - 1], batches[|batches| - 1];
      assert last in batches && forall b :: b in front ==> b in batches;
      BatchingIrrelevant(start, front);
      MergeAllFrom(MergeBatches(start, front), last);
      MergeAllAppend(start, Concat(front), last);
    }
  }

  // ------------------------------------------------------------ what is kept

  /** The PII parts reported by a set of scans. */
  ghost function PiiParts(scans: set<Flags>): set<Pii>
  {
    set f | f in scans && f.pii.Some? :: f.pii.value
  }

  ghost function Fields(parts: set<Pii>): set<Name>
  {
    set p, x | p in parts && x in p.fields :: x
  }

  ghost function Types(parts: set<Pii>): set<Name>
  {
    set p, x | p in parts && x in p.types :: x
  }

  ghost function PiiSeverities(parts: set<Pii>): set<Severity>
  {
    set p | p in parts :: p.maxSeverity
  }

  ghost function Severities(scans: set<Flags>): set<Severity>
  {
    set f | f in scans && f.maxSeverity.Some? :: f.maxSeverity.value
  }

  ghost predicate IsMaxSeverity(s: Severity, seen: set<Severity>)
  {
    s in seen && forall v :: v in seen ==> v.Rank() <= s.Rank()
  }

  ghost predicate PiiSummarises(m: Option<Pii>, parts: set<Pii>)
  {
    if m.None? then parts == {}
    else
      && m.value.types == Types(parts)
      && m.value.fields == Ten(Fields(parts))
      && IsMaxSeverity(m.value.maxSeverity, PiiSeverities(parts))
  }

  ghost predicate RiskSummarises(risk: nat, scans: set<Flags>)
  {
    && (forall f :: f in scans ==> f.risk <= risk)
    && (risk == 0 || exists f :: f in scans && f.risk == risk)
  }

  /** What the accumulated flags say, in terms of the set of scans alone. */
  ghost predicate Summarises(m: Flags, scans: set<Flags>)
  {
    && RiskSummarises(m.risk, scans)
    && (if m.maxSeverity.None? then Severities(scans) == {}
        else IsMaxSeverity(m.maxSeverity.value, Severities(scans)))
    && PiiSummarises(m.pii, PiiParts(scans))
  }

  lemma MergePiiSummarises(m: Option<Pii>, parts: set<Pii>, fresher: Pii)
    requires PiiSummarises(m, parts)
    ensures PiiSummarises(MergePii(m, Some(fresher)), parts + {fresher})
  {
    var all := parts + {fresher};
    var r := MergePii(m, Some(fresher)).value;
    assert Types(all) == Types(parts) + fresher.types;
    assert Fields(all) == Fields(parts) + Elems(fresher.fields);
    assert PiiSeverities(all) == PiiSeverities(parts) + {fresher.maxSeverity};
    if m.Some? {
      MergedFields(Fields(parts), Elems(fresher.fields));
    } else {
      assert Elems<Name>([]) + Elems(fresher.fields) == Fields(all);
    }
  }

  lemma MergeSummarises(m: Flags, scans: set<Flags>, f: Flags)
    requires Summarises(m, scans)
    ensures Summarises(Merge(m, f), scans + {f})
  {
    assert f in scans + {f};
    assert Severities(scans + {f}) == Severities(scans) + (if f.maxSeverity.Some? then {f.maxSeverity.value} else {});
    if f.pii.Some? {
      MergePiiSummarises(m.pii, PiiParts(scans), f.pii.value);
      assert PiiParts(scans + {f}) == PiiParts(scans) + {f.pii.value};
    } else {
      assert PiiParts(scans + {f}) == PiiParts(scans);
    }
  }

  lemma {:induction false} MergeAllSummarises(scans: seq<Flags>)
    ensures Summarises(MergeAll(NO_FLAGS, scans), Elems(scans))
  {
    if scans == [] {
      assert Elems(scans) == {};
      assert Severities({}) == {} && PiiParts({}) == {};
    } else {
      var front, last := scans[..|scans| - 1], scans[|scans| - 1];
      MergeAllSummarises(front);
      MergeSummarises(MergeAll(NO_FLAGS, front), Elems(front), last);
      assert scans == front + [last];
      assert Elems(scans) == Elems(front) + {last};
    }
  }

  /** Reordering or redelivering scans changes neither risk, severity, types nor the kept fields;
      the kept fields are the ten smallest of every field any scan reported. */
  lemma OrderAndRedeliveryIrrelevant(xs: seq<Flags>, ys: seq<Flags>)
    requires Elems(xs) == Elems(ys)
    ensures var a, b := MergeAll(NO_FLAGS, xs), MergeAll(NO_FLAGS, ys);
            && a.risk == b.risk && a.maxSeverity == b.maxSeverity && a.pii.Some? == b.pii.Some?
            && (a.pii.Some? ==>
                  && a.pii.value.types == b.pii.value.types
                  && a.pii.value.fields == b.pii.value.fields
                  && a.pii.value.maxSeverity == b.pii.value.maxSeverity
                  && Elems(a.pii.value.fields) == Smallest(Fields(PiiParts(Elems(xs)))))
  {
    MergeAllSummarises(xs);
    MergeAllSummarises(ys);
    TenIsSmallest(Fields(PiiParts(Elems(xs))));
    var a, b := MergeAll(NO_FLAGS, xs), MergeAll(NO_FLAGS, ys);
    if a.pii.Some? { assert a.pii.value.maxSeverity in PiiSeverities(PiiParts(Elems(xs))); }
    if b.pii.Some? { assert b.pii.value.maxSeverity in PiiSeverities(PiiParts(Elems(xs))); }
    RankInjective();
  }

  lemma RankInjective()
    ensures forall a: Severity, b: Severity :: a.Rank() == b.Rank() ==> a == b
  {
  }

  // ------------------------------------------------- which injection is shown

  /** Scan i reports the best injection of all: no earlier one scores higher, and every later one less. */
  ghost predicate IsLastBest(scans: seq<Flags>, i: nat)
  {
    && i < |scans| && scans[i].injection.Some?
    && (forall j :: 0 <= j < i && scans[j].injection.Some? ==>
          scans[j].injection.value.score <= scans[i].injection.value.score)
    && (forall j :: i < j < |scans| && scans[j].injection.Some? ==>
          scans[j].injection.value.score < scans[i].injection.value.score)
  }

  ghost predicate ShowsBest(scans: seq<Flags>, shown: Option<Injection>)
  {
    if shown.None? then forall j :: 0 <= j < |scans| ==> scans[j].injection.None?
    else exists i: nat :: IsLastBest(scans, i) && scans[i].injection == shown
  }

  lemma OneMoreInjection(front: seq<Flags>, last: Flags, shown: Option<Injection>)
    requires ShowsBest(front, shown)
    ensures ShowsBest(front + [last], MergeInjection(shown, last.injection))
  {
    var all := front + [last];
    if MergeInjection(shown, last.injection) != shown || shown.None? {
      if last.injection.Some? {
        assert IsLastBest(all, |front|) by {
          if shown.Some? { var i: nat :| IsLastBest(front, i) && front[i].injection == shown; }
        }
      }
    } else {
      var i: nat :| IsLastBest(front, i) && front[i].injection == shown;
      var better := last.injection.Some? && last.injection.value.score >= shown.value.score;
      assert IsLastBest(all, if better then |front| else i);
    }
  }

  /** The accumulated flags show an injection exactly when some scan reported one: the one of the highest
      score, and the last of those. */
  lemma {:induction false} BestInjectionStays(scans: seq<Flags>)
    ensures ShowsBest(scans, MergeAll(NO_FLAGS, scans).injection)
  {
    if scans != [] {
      var front, last := scans[..|scans| - 1], scans[|scans| - 1];
      BestInjectionStays(front);
      OneMoreInjection(front, last, MergeAll(NO_FLAGS, front).injection);
      assert scans == front + [last];
    }
  }

  /** In terms of the set of scans: nobody reports a higher score. */
  ghost predicate HasTopScore(scans: set<Flags>, shown: Option<Injection>)
  {
    && (shown.Some? <==> exists f :: f in scans && f.injection.Some?)
    && (shown.Some? ==> exists f :: f in scans && f.injection == shown)
    && (forall f :: f in scans && f.injection.Some? ==> shown.Some? && f.injection.value.score <= shown.value.score)
  }

  lemma BestHasTopScore(scans: seq<Flags>, shown: Option<Injection>)
    requires ShowsBest(scans, shown)
    ensures HasTopScore(Elems(scans), shown)
  {
    if shown.Some? {
      var i: nat :| IsLastBest(scans, i) && scans[i].injection == shown;
      assert scans[i] in Elems(scans);
    }
  }

  lemma OneTopScore(scans: set<Flags>, a: Option<Injection>, b: Option<Injection>)
    requires HasTopScore(scans, a) && HasTopScore(scans, b)
    ensures a.Some? == b.Some? && (a.Some? ==> a.value.score == b.value.score)
  {
  }

  /** Neither order nor repetition of the scans changes the score that is shown. */
  lemma InjectionScoreIsOrderFree(xs: seq<Flags>, ys: seq<Flags>)
    requires Elems(xs) == Elems(ys)
    ensures var a, b := MergeAll(NO_FLAGS, xs).injection, MergeAll(NO_FLAGS, ys).injection;
            a.Some? == b.Some? && (a.Some? ==> a.value.score == b.value.score)
  {
    BestInjectionStays(xs);
    BestInjectionStays(ys);
    var a, b := MergeAll(NO_FLAGS, xs).injection, MergeAll(NO_FLAGS, ys).injection;
    BestHasTopScore(xs, a);
    BestHasTopScore(ys, b);
    OneTopScore(Elems(xs), a, b);
  }

  // ------------------------------------------------------- counters and engines

  function Findings(scans: seq<Flags>): nat
  {
    if scans == [] then 0 else Findings(scans[..|scans| - 1]) + scans[|scans| - 1].findings
  }

  function PiiCount(f: Flags): nat
  {
    if f.pii.Some? then f.pii.value.count else 0
  }

  function PiiCounts(scans: seq<Flags>): nat
  {
    if scans == [] then 0 else PiiCounts(scans[..|scans| - 1]) + PiiCount(scans[|scans| - 1])
  }

  ghost predicate NamesEnginesLast(scans: seq<Flags>, i: nat)
    requires i < |scans|
  {
    scans[i].engines.Some? && forall j :: i < j < |scans| ==> scans[j].engines.None?
  }

  /** Both counters add up, repetitions included, and the engines are those of the last scan that names any. */
  lemma {:induction false} CountersAddUp(scans: seq<Flags>)
    ensures var m := MergeAll(NO_FLAGS, scans);
            && m.findings == Findings(scans) && PiiCount(m) == PiiCounts(scans)
            && (m.scanned <==> scans != [])
            && (forall i :: 0 <= i < |scans| && NamesEnginesLast(scans, i) ==> m.engines == scans[i].engines)
  {
    if scans != [] {
      var front, last := scans[..|scans| - 1], scans[|scans| - 1];
      CountersAddUp(front);
      assert forall i :: 0 <= i < |front| && NamesEnginesLast(scans, i) ==> NamesEnginesLast(front, i);
    }
  }

  // ------------------------------------------------------------ _summarize()

  function SeverityBase(s: Severity): nat
  {
    match s
    case Info => 0
    case Low => 15
    case Medium => 35
    case High => 70
    case Critical => 95
  }

  const ADDITIONAL_TYPE_WEIGHT := 5

  /** `Severity.max_of` over the findings, or over the PII findings only. */
  function Worst(findings: seq<Finding>, piiOnly: bool): Severity
  {
    if findings == [] then Info
    else
      var worst, last := Worst(findings[..|findings| - 1], piiOnly), findings[|findings| - 1];
      if piiOnly && !last.isPii then worst else MaxSeverity(worst, last.severity)
  }

  function CountPii(findings: seq<Finding>): nat
  {
    if findings == [] then 0
    else CountPii(findings[..|findings| - 1]) + (if findings[|findings| - 1].isPii then 1 else 0)
  }

  /** `max(injection_findings, key=score)`: the first of the best. */
  function WorstInjection(findings: seq<Finding>): Option<Injection>
  {
    if findings == [] then None
    else
      var best, f := WorstInjection(findings[..|findings| - 1]), findings[|findings| - 1];
      if f.isPii || (best.Some? && best.value.score >= f.score) then best
      else Some(Injection(f.findingType, f.score, f.field, f.severity))
  }

  ghost function PiiTypes(findings: seq<Finding>): set<Name>
  {
    set f | f in findings && f.isPii :: f.findingType
  }

  ghost function PiiFields(findings: seq<Finding>): set<Name>
  {
    set f | f in findings && f.isPii :: f.field
  }

  ghost function PiiOf(findings: seq<Finding>): Option<Pii>
  {
    if CountPii(findings) == 0 then None
    else Some(Pii(CountPii(findings), PiiTypes(findings), Ten(PiiFields(findings)), Worst(findings, true)))
  }

  function RiskScore(worst: Severity, kinds: nat): nat
  {
    var risk := SeverityBase(worst) + ADDITIONAL_TYPE_WEIGHT * (kinds - 1);
    if risk > 100 then 100 else if risk < 0 then 0 else risk
  }

  /** What the findings are of: detector and type. */
  ghost function Kinds(findings: seq<Finding>): set<(bool, Name)>
  {
    set f | f in findings :: (f.isPii, f.findingType)
  }

  ghost function Summarize(findings: seq<Finding>, engines: Name): Flags
  {
    if findings == [] then Flags(true, 0, 0, None, None, None, None)
    else
      Flags(true, |findings|, RiskScore(Worst(findings, false), |Kinds(findings)|),
            Some(Worst(findings, false)), Some(engines), PiiOf(findings), WorstInjection(findings))
  }

  lemma {:induction false} WorstConcat(xs: seq<Finding>, ys: seq<Finding>, piiOnly: bool)
    ensures Worst(xs + ys, piiOnly) == MaxSeverity(Worst(xs, piiOnly), Worst(ys, piiOnly))
    ensures CountPii(xs + ys) == CountPii(xs) + CountPii(ys)
  {
    if ys == [] {
      assert xs + ys == xs;
    } else {
      WorstConcat(xs, ys[..|ys| - 1], piiOnly);
      assert (xs + ys)[..|xs + ys| - 1] == xs + ys[..|ys| - 1];
    }
  }

  // ------------------------------------------------- what one scan's summary says

  /** The worst severity: nothing relevant is above it, and unless it is Info something relevant has it. */
  lemma {:induction false} WorstIsMax(findings: seq<Finding>, piiOnly: bool)
    ensures var worst := Worst(findings, piiOnly);
            && (forall f :: f in findings && (f.isPii || !piiOnly) ==> f.severity.Rank() <= worst.Rank())
            && (worst == Info || exists f :: f in findings && (f.isPii || !piiOnly) && f.severity == worst)
  {
    if findings != [] {
      var front, last := findings[..|findings| - 1], findings[|findings| - 1];
      WorstIsMax(front, piiOnly);
      assert findings == front + [last] && last in findings && forall f :: f in front ==> f in findings;
      assert forall f :: f in findings ==> f in front || f == last;
    }
  }

  /** Finding i is the first of the injections with the highest score. */
  ghost predicate IsFirstBest(findings: seq<Finding>, i: nat)
  {
    && i < |findings| && !findings[i].isPii
    && (forall j :: 0 <= j < i && !findings[j].isPii ==> findings[j].score < findings[i].score)
    && (forall j :: i < j < |findings| && !findings[j].isPii ==> findings[j].score <= findings[i].score)
  }

  ghost predicate ReportsBest(findings: seq<Finding>, shown: Option<Injection>)
  {
    if shown.None? then forall j :: 0 <= j < |findings| ==> findings[j].isPii
    else exists i: nat :: IsFirstBest(findings, i)
           && var f := findings[i]; shown.value == Injection(f.findingType, f.score, f.field, f.severity)
  }

  lemma {:induction false} WorstInjectionIsFirstBest(findings: seq<Finding>)
    ensures ReportsBest(findings, WorstInjection(findings))
  {
    if findings != [] {
      var front, last := findings[..|findings| - 1], findings[|findings| - 1];
      WorstInjectionIsFirstBest(front);
      OneMoreFinding(front, last, WorstInjection(front));
      assert findings == front + [last];
    }
  }

  lemma OneMoreFinding(front: seq<Finding>, f: Finding, best: Option<Injection>)
    requires ReportsBest(front, best)
    ensures ReportsBest(front + [f], if f.isPii || (best.Some? && best.value.score >= f.score) then best
        else Some(Injection(f.findingType, f.score, f.field, f.severity)))
  {
    var all := front + [f];
    if f.isPii || (best.Some? && best.value.score >= f.score) {
      if best.Some? {
        var i: nat :| IsFirstBest(front, i) && best.value
          == Injection(front[i].findingType, front[i].score, front[i].field, front[i].severity);
        assert IsFirstBest(all, i);
      }
    } else {
      assert IsFirstBest(all, |front|);
    }
  }

  lemma {:induction false} CountPiiCounts(findings: seq<Finding>)
    ensures CountPii(findings) == |set i | 0 <= i < |findings| && findings[i].isPii|
  {
    if findings != [] {
      var n := |findings| - 1;
      var front := findings[..n];
      CountPiiCounts(front);
      var before, now := set i | 0 <= i < n && front[i].isPii, set i | 0 <= i < |findings| && findings[i].isPii;
      assert now == if findings[n].isPii then before + {n} else before;
    }
  }

  function Capped(risk: nat): nat
  {
    if risk > 100 then 100 else risk
  }

  /** The risk of one finding. */
  lemma RiskOfOne(f: Finding, engines: Name)
    ensures var risk := Summarize([f], engines).risk;
            match f.severity
            case Info => risk == 0
            case Low => risk == 15
            case Medium => risk == 35
            case High => risk == 70
            case Critical => risk == 95
  {
    assert Kinds([f]) == {(f.isPii, f.findingType)};
    assert [f][..0] == [] && Worst([f], false) == MaxSeverity(Worst([], false), f.severity);
  }

  /** A further finding no worse than the worst adds five if its detector and type are new and nothing if not;
      and never more than a hundred in all. */
  lemma RiskOfOneMore(front: seq<Finding>, f: Finding, engines: Name)
    requires front != [] && f.severity.Rank() <= Worst(front, false).Rank()
    ensures var before, after := Summarize(front, engines).risk, Summarize(front + [f], engines).risk;
            if exists g :: g in front && g.isPii == f.isPii && g.findingType == f.findingType then after == before
            else after == Capped(before + 5)
  {
    assert (front + [f])[..|front|] == front;
    assert Worst(front + [f], false) == Worst(front, false);
    assert (front[0].isPii, front[0].findingType) in Kinds(front);
    assert Kinds(front + [f]) == Kinds(front) + {(f.isPii, f.findingType)};
    if g :| g in front && g.isPii == f.isPii && g.findingType == f.findingType {
      assert (g.isPii, g.findingType) in Kinds(front);
      assert Kinds(front + [f]) == Kinds(front);
    } else {
      assert (f.isPii, f.findingType) !in Kinds(front);
    }
  }

  /** The risk depends on the set of findings only, and more findings never lower it. */
  lemma RiskGrows(xs: seq<Finding>, ys: seq<Finding>, engines: Name)
    requires Elems(xs) <= Elems(ys)
    ensures Summarize(xs, engines).risk <= Summarize(ys, engines).risk <= 100
  {
    if xs != [] {
      assert xs[0] in Elems(xs);
      forall f | f in xs ensures f in ys { assert f in Elems(xs) && f in Elems(ys); }
      WorstIsMax(xs, false);
      WorstIsMax(ys, false);
      assert (xs[0].isPii, xs[0].findingType) in Kinds(xs);
      SubsetSize(Kinds(xs), Kinds(ys));
      BaseGrows(Worst(xs, false), Worst(ys, false));
    }
  }

  lemma BaseGrows(a: Severity, b: Severity)
    requires a.Rank() <= b.Rank()
    ensures SeverityBase(a) <= SeverityBase(b)
  {
  }

  lemma {:induction false} NoPii(findings: seq<Finding>)
    requires CountPii(findings) == 0
    ensures PiiTypes(findings) == {} && PiiFields(findings) == {} && Worst(findings, true) == Info
  {
    if findings != [] {
      var front, last := findings[..|findings| - 1], findings[|findings| - 1];
      NoPii(front);
      assert findings == front + [last];
      assert PiiTypes(findings) == PiiTypes(front) && PiiFields(findings) == PiiFields(front);
    }
  }

  /** Scanning two events separately and merging reports the same findings count, severity and PII
      part as scanning their findings together. */
  lemma SummarizeConcat(xs: seq<Finding>, ys: seq<Finding>, engines: Name)
    ensures var whole, merged := Summarize(xs + ys, engines), Merge(Summarize(xs, engines), Summarize(ys, engines));
            whole.findings == merged.findings && whole.maxSeverity == merged.maxSeverity && whole.pii == merged.pii
  {
    WorstConcat(xs, ys, false);
    WorstConcat(xs, ys, true);
    assert xs + [] == xs && [] + ys == ys;
    PiiConcat(xs, ys);
  }

  lemma BothTruncated(a: set<Name>, b: set<Name>)
    ensures Ten(Elems(Ten(a)) + Elems(Ten(b))) == Ten(a + b)
  {
    MergedFields(a, Elems(Ten(b)));
    MergedFields(b, a);
    assert Elems(Ten(b)) + a == a + Elems(Ten(b));
    assert b + a == a + b;
  }

  lemma PiiConcat(xs: seq<Finding>, ys: seq<Finding>)
    ensures PiiOf(xs + ys) == MergePii(PiiOf(xs), PiiOf(ys))
  {
    WorstConcat(xs, ys, true);
    var a, b := PiiFields(xs), PiiFields(ys);
    assert PiiTypes(xs + ys) == PiiTypes(xs) + PiiTypes(ys);
    assert PiiFields(xs + ys) == a + b;
    if CountPii(xs) == 0 { NoPii(xs); }
    if CountPii(ys) == 0 { NoPii(ys); }
    if CountPii(xs) > 0 && CountPii(ys) > 0 {
      BothTruncated(a, b);
      assert PiiOf(xs + ys).value.fields == MergePii(PiiOf(xs), PiiOf(ys)).value.fields;
    } else if CountPii(ys) > 0 {
      assert Elems<Name>([]) + Elems(Ten(b)) == Elems(Ten(b)) + {};
      assert a + b == b + {};
      MergedFields(b, {});
      assert {} + PiiTypes(ys) == PiiTypes(ys) && PiiTypes(xs + ys) == PiiTypes(ys);
      assert PiiOf(xs + ys).value.fields == MergePii(PiiOf(xs), PiiOf(ys)).value.fields;
    } else if CountPii(xs) > 0 {
      assert a + b == a;
      assert PiiTypes(xs + ys) == PiiTypes(xs);
    }
  }
}
