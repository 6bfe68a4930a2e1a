/** The two writers of the traces table, interleaved: each keeps its own columns.  */
module Interleaving {
  import opened Ids
  import opened Events
  import opened TraceMerge
  import opened Store
  import Flags = GuardrailFlags

  /** The steps of one kind, in order. */
  function Only(steps: seq<Step>, storage: bool): seq<Step>
  {
    if steps == [] then []
    else
      var front, last := Only(steps[..|steps| - 1], storage), steps[|steps| - 1];
      if last.StorageBatch? == storage then front + [last] else front
  }

  ghost predicate SameStorageView(a: Db, b: Db)
  {
    a.spans == b.spans && forall t :: CoreView(a, t) == CoreView(b, t) && RollupView(a, t) == RollupView(b, t)
  }

  ghost predicate SameGuardView(a: Db, b: Db)
  {
    a.findings == b.findings && forall t :: GuardView(a, t) == GuardView(b, t)
  }

  /** What a storage batch writes depends on the storage columns only, a stub row counting as no row. */
  lemma StorageReadsItsOwnColumns(cfg: Settings, a: Db, b: Db, events: seq<Event>)
    requires SameStorageView(a, b)
    ensures SameStorageView(StorageTxn(cfg, a, events), StorageTxn(cfg, b, events))
    ensures forall t :: GuardView(StorageTxn(cfg, a, events), t) == GuardView(a, t)
  {
    var c, d := StorageTxn(cfg, a, events), StorageTxn(cfg, b, events);
    forall t
      ensures CoreView(c, t) == CoreView(d, t) && RollupView(c, t) == RollupView(d, t) &&
          GuardView(c, t) == GuardView(a, t)
    {
      assert CoreView(a, t) == CoreView(b, t) && RollupView(a, t) == RollupView(b, t);
      OneRowView(cfg, a, events, t);
      OneRowView(cfg, b, events, t);
    }
  }

  lemma ScanReadsItsOwnColumns(a: Db, b: Db, scans: seq<Scan>)
    requires SameGuardView(a, b)
    ensures SameGuardView(ScanTxn(a, scans), ScanTxn(b, scans))
    ensures SameStorageView(ScanTxn(a, scans), a)
  {
    var c, d := ScanTxn(a, scans), ScanTxn(b, scans);
    forall t
      ensures GuardView(c, t) == GuardView(d, t) && CoreView(c, t) == CoreView(a, t) &&
          RollupView(c, t) == RollupView(a, t)
    {
      assert GuardView(a, t) == GuardView(b, t);
    }
  }

  /** Erasing the other consumer group's batches changes nothing in a group's own columns. */
  lemma {:induction false} GroupsAreIndependent(cfg: Settings, steps: seq<Step>)
    ensures SameStorageView(Run(cfg, steps), Run(cfg, Only(steps, true)))
    ensures SameGuardView(Run(cfg, steps), Run(cfg, Only(steps, false)))
    ensures Run(cfg, steps).traces.Keys ==
        Run(cfg, Only(steps, true)).traces.Keys + Run(cfg, Only(steps, false)).traces.Keys
  {
    if steps != [] {
      var front, last := steps[..|steps| - 1], steps[|steps| - 1];
      GroupsAreIndependent(cfg, front);
      var mine := Only(front, last.StorageBatch?);
      assert Only(steps, last.StorageBatch?) == mine + [last];
      assert (mine + [last])[..|mine + [last]| - 1] == mine;
      var db, own := Run(cfg, front), Run(cfg, mine);
      assert Run(cfg, mine + [last]) == Apply(cfg, own, last);
      match last
      case StorageBatch(events) => StorageReadsItsOwnColumns(cfg, db, own, events);
      case ScanBatch(scans) => ScanReadsItsOwnColumns(db, own, scans);
    }
  }

  /** Every event and scan of the run names the one tenant its trace has. */
  ghost predicate OneTenant(steps: seq<Step>, tenantOf: Id -> string)
  {
    forall i :: 0 <= i < |steps| ==>
      match steps[i]
      case StorageBatch(events) => forall e :: e in events ==> e.tenant == tenantOf(e.trace)
      case ScanBatch(scans) => forall s :: s in scans ==> s.tenant == tenantOf(s.trace)
  }

  lemma {:induction false} RowsNameTheTenant(cfg: Settings, steps: seq<Step>, tenantOf: Id -> string)
    requires OneTenant(steps, tenantOf)
    ensures forall t :: t in Run(cfg, steps).traces ==> Run(cfg, steps).traces[t].tenant == tenantOf(t)
  {
    if steps != [] {
      var front, last := steps[..|steps| - 1], steps[|steps| - 1];
      RowsNameTheTenant(cfg, front, tenantOf);
      assert steps[|steps| - 1] == last;
      forall t | t in Run(cfg, steps).traces && t !in Run(cfg, front).traces
        ensures Run(cfg, steps).traces[t].tenant == tenantOf(t)
      {
        match last
        case StorageBatch(events) => MergedTenant(events, t, tenantOf(t));
        case ScanBatch(scans) => ScannedTenant(scans, t, tenantOf(t));
      }
    }
  }

  lemma MergedTenant(events: seq<Event>, t: Id, tenant: string)
    requires t in TraceIds(events) && forall e :: e in events && e.trace == t ==> e.tenant == tenant
    ensures EventsOf(events, t) != [] && SortByTime(EventsOf(events, t)) != []
    ensures LastTenant(SortByTime(EventsOf(events, t))) == tenant
  {
    var mine := EventsOf(events, t);
    EventsOfNonEmpty(events, t);
    EventsOfElems(events, t);
    SortNonEmpty(mine);
    SortKeepsElems(mine);
    var sorted := SortByTime(mine);
    assert sorted[|sorted| - 1] in Elems(sorted);
    assert forall e :: e in Elems(mine) <==> e in mine;
  }

  lemma ScannedTenant(scans: seq<Scan>, t: Id, tenant: string)
    requires t in ScanIds(scans) && forall s :: s in scans && s.trace == t ==> s.tenant == tenant
    ensures ScansOf(scans, t) != [] && ScansOf(scans, t)[0].tenant == tenant
  {
    ScansOfNonEmpty(scans, t);
    ScansOfElems(scans, t);
    assert ScansOf(scans, t)[0] in ScansOf(scans, t);
  }

  /** Whatever way the two groups' batches interleave, the tables end up the same. */
  lemma InterleavingIrrelevant(cfg: Settings, xs: seq<Step>, ys: seq<Step>, tenantOf: Id -> string)
    requires Only(xs, true) == Only(ys, true) && Only(xs, false) == Only(ys, false)
    requires OneTenant(xs, tenantOf) && OneTenant(ys, tenantOf)
    ensures Run(cfg, xs) == Run(cfg, ys)
  {
    GroupsAreIndependent(cfg, xs);
    GroupsAreIndependent(cfg, ys);
    RowsNameTheTenant(cfg, xs, tenantOf);
    RowsNameTheTenant(cfg, ys, tenantOf);
    SameViewsTransitive(Run(cfg, xs), Run(cfg, Only(xs, true)), Run(cfg, Only(xs, false)), Run(cfg, ys));
    SameViewsSameDb(Run(cfg, xs), Run(cfg, ys));
  }

  lemma SameViewsTransitive(a: Db, storage: Db, scan: Db, b: Db)
    requires SameStorageView(a, storage) && SameStorageView(b, storage)
    requires SameGuardView(a, scan) && SameGuardView(b, scan)
    ensures SameStorageView(a, b) && SameGuardView(a, b)
  {
  }

  lemma SameViewsSameDb(a: Db, b: Db)
    requires SameStorageView(a, b) && SameGuardView(a, b) && a.traces.Keys == b.traces.Keys
    requires forall t :: t in a.traces && t in b.traces ==> a.traces[t].tenant == b.traces[t].tenant
    ensures a == b
  {
    forall t | t in a.traces ensures a.traces[t] == b.traces[t] {
      assert t in b.traces.Keys;
      assert CoreView(a, t) == CoreView(b, t) && RollupView(a, t) == RollupView(b, t) &&
          GuardView(a, t) == GuardView(b, t);
    }
    assert a.traces == b.traces;
  }

  // -------------------------------------------------- flagged iff a finding row

  ghost predicate HasFinding(db: Db, t: Id)
  {
    exists k :: k in db.findings && k.trace == t
  }

  /** The scanner's columns of one trace, against the findings table. */
  ghost predicate GuardConsistent(db: Db, t: Id)
  {
    var g := GuardView(db, t);
    && (g.status.Flagged? <==> HasFinding(db, t))
    && (g.flags.findings > 0 <==> HasFinding(db, t))
    && g.risk == g.flags.risk && g.severity == g.flags.maxSeverity
  }

  lemma FindingsOfOne(s: Scan)
    ensures FlagsOf(s).findings == |s.hits|
  {
    assert |Findings(s.hits)| == |s.hits|;
  }

  lemma {:induction false} MergeAllCounts(scans: seq<Scan>)
    ensures Flags.MergeAll(Flags.NO_FLAGS, FlagsOfAll(scans)).findings > 0 <==> SomeHit(scans)
  {
    if scans != [] {
      var front, last := scans[..|scans| - 1], scans[|scans| - 1];
      MergeAllCounts(front);
      FindingsOfOne(last);
      var all := FlagsOfAll(scans);
      assert all[..|all| - 1] == FlagsOfAll(front) && all[|all| - 1] == FlagsOf(last);
      assert Flags.MergeAll(Flags.NO_FLAGS, all) ==
          Flags.Merge(Flags.MergeAll(Flags.NO_FLAGS, FlagsOfAll(front)), FlagsOf(last));
      assert scans == front + [last];
      assert SomeHit(scans) <==> SomeHit(front) || last.hits != [];
    }
  }

  lemma MirrorsKept(g: Guard, scans: seq<Scan>)
    requires g.risk == g.flags.risk && g.severity == g.flags.maxSeverity
    ensures Rescan(g, scans).risk == Rescan(g, scans).flags.risk
    ensures Rescan(g, scans).severity == Rescan(g, scans).flags.maxSeverity
  {
  }

  ghost predicate SomeHit(scans: seq<Scan>)
  {
    exists s :: s in scans && s.hits != []
  }

  lemma FindingsStep(db: Db, scans: seq<Scan>, t: Id)
    ensures HasFinding(ScanTxn(db, scans), t) <==> HasFinding(db, t) || SomeHit(ScansOf(scans, t))
  {
    var after := ScanTxn(db, scans);
    ScansOfElems(scans, t);
    if HasFinding(after, t) {
      var k :| k in after.findings && k.trace == t;
      if k !in db.findings {
        var s :| s in scans && k in KeysOf(s);
        assert s in ScansOf(scans, t) && s.hits != [];
      }
    }
    if HasFinding(db, t) {
      var k :| k in db.findings && k.trace == t;
      assert k in after.findings;
    }
    if SomeHit(ScansOf(scans, t)) {
      var s :| s in ScansOf(scans, t) && s.hits != [];
      var h := s.hits[0];
      var k := FindingKey(s.trace, s.span, h.finding.isPii, h.finding.findingType, h.finding.field, h.offset);
      assert k in KeysOf(s);
      assert k in after.findings && k.trace == t;
    }
  }

  lemma ScanKeepsConsistent(db: Db, scans: seq<Scan>, t: Id)
    requires GuardConsistent(db, t)
    ensures GuardConsistent(ScanTxn(db, scans), t)
  {
    var mine := ScansOf(scans, t);
    ScansOfElems(scans, t);
    MergeAllCounts(mine);
    FindingsStep(db, scans, t);
    if t in ScanIds(scans) {
      MirrorsKept(GuardView(db, t), mine);
    } else if SomeHit(mine) {
      SomeHitMentioned(scans, t);
    }
  }

  lemma SomeHitMentioned(scans: seq<Scan>, t: Id)
    requires SomeHit(ScansOf(scans, t))
    ensures t in ScanIds(scans)
  {
    ScansOfElems(scans, t);
    var s :| s in ScansOf(scans, t) && s.hits != [];
    assert s in scans;
  }

  /** In every run a trace is flagged exactly when it has a row in the findings table, and its risk and
      severity columns are those of its flags. */
  lemma {:induction false} FlaggedIffFinding(cfg: Settings, steps: seq<Step>, t: Id)
    ensures GuardConsistent(Run(cfg, steps), t)
  {
    if steps != [] {
      var front, last := steps[..|steps| - 1], steps[|steps| - 1];
      FlaggedIffFinding(cfg, front, t);
      match last
      case StorageBatch(events) =>
        StorageReadsItsOwnColumns(cfg, Run(cfg, front), Run(cfg, front), events);
        assert GuardView(Run(cfg, steps), t) == GuardView(Run(cfg, front), t);
      case ScanBatch(scans) => ScanKeepsConsistent(Run(cfg, front), scans, t);
    }
  }

  // --------------------------------------------- the guard columns of a whole run

  /** All scans of one trace, in the order the run's batches carried them. */
  function ScansIn(steps: seq<Step>, t: Id): seq<Scan>
  {
    if steps == [] then []
    else ScansIn(steps[..|steps| - 1], t) +
         (match steps[|steps| - 1] case StorageBatch(_) => [] case ScanBatch(scans) => ScansOf(scans, t))
  }

  /** The columns that scanning these events one by one would leave. */
  ghost function GuardOf(scans: seq<Scan>): Guard
  {
    if scans == [] then GUARD_DEFAULTS
    else
      var flags := Flags.MergeAll(Flags.NO_FLAGS, FlagsOfAll(scans));
      Guard(if flags.findings > 0 then Flagged else Clean, flags, flags.risk, flags.maxSeverity)
  }

  lemma FlagsAreNormal(scans: seq<Scan>)
    ensures forall f :: f in FlagsOfAll(scans) ==> Flags.Normal(f)
  {
    forall f | f in FlagsOfAll(scans) ensures Flags.Normal(f) {
      var i :| 0 <= i < |scans| && f == FlagsOf(scans[i]);
      Flags.TenIsSmallest(Flags.PiiFields(Findings(scans[i].hits)));
    }
  }

  lemma RescanMore(stored: seq<Scan>, mine: seq<Scan>)
    requires mine != []
    ensures Rescan(GuardOf(stored), mine) == GuardOf(stored + mine)
  {
    var start := Flags.MergeAll(Flags.NO_FLAGS, FlagsOfAll(stored));
    assert FlagsOfAll(stored + mine) == FlagsOfAll(stored) + FlagsOfAll(mine);
    FlagsAreNormal(mine);
    Flags.MergeAllFrom(start, FlagsOfAll(mine));
    Flags.MergeAllAppend(Flags.NO_FLAGS, FlagsOfAll(stored), FlagsOfAll(mine));
    assert GuardOf(stored).flags == start;
    MirrorsKept(GuardOf(stored), mine);
  }

  lemma ScannedIff(scans: seq<Scan>, t: Id)
    ensures t in ScanIds(scans) <==> ScansOf(scans, t) != []
  {
    if t in ScanIds(scans) { ScansOfNonEmpty(scans, t); }
    if ScansOf(scans, t) != [] {
      ScansOfElems(scans, t);
      assert ScansOf(scans, t)[0] in ScansOf(scans, t);
    }
  }

  lemma ScanGuardStep(db: Db, scans: seq<Scan>, t: Id, stored: seq<Scan>)
    requires GuardView(db, t) == GuardOf(stored)
    ensures GuardView(ScanTxn(db, scans), t) == GuardOf(stored + ScansOf(scans, t))
  {
    var mine := ScansOf(scans, t);
    ScannedIff(scans, t);
    if mine != [] {
      RescanMore(stored, mine);
    } else {
      assert stored + mine == stored;
    }
  }

  /** In every run a trace's guard columns are those of all its scans merged one by one: how the scans
      were batched, and what the storage writer did in between, makes no difference. */
  lemma {:induction false} RunGuards(cfg: Settings, steps: seq<Step>, t: Id)
    ensures GuardView(Run(cfg, steps), t) == GuardOf(ScansIn(steps, t))
  {
    if steps != [] {
      var front, last := steps[..|steps| - 1], steps[|steps| - 1];
      RunGuards(cfg, front, t);
      match last
      case StorageBatch(events) =>
        OneRowView(cfg, Run(cfg, front), events, t);
        assert ScansIn(steps, t) == ScansIn(front, t);
      case ScanBatch(scans) => ScanGuardStep(Run(cfg, front), scans, t, ScansIn(front, t));
    }
  }

  /** The finding row's identity is that of one hit of a scan. */
  predicate IsHit(k: FindingKey, s: Scan, h: Hit)
  {
    && k.trace == s.trace && k.span == s.span && k.isPii == h.finding.isPii
    && k.findingType == h.finding.findingType && k.field == h.finding.field && k.offset == h.offset
  }

  ghost predicate IsFound(k: FindingKey, scans: seq<Scan>)
  {
    exists s, h :: s in scans && h in s.hits && IsHit(k, s, h)
  }

  /** In every run the findings table holds exactly the hits of all scans, each once. */
  lemma {:induction false} RunFindings(cfg: Settings, steps: seq<Step>, k: FindingKey)
    ensures k in Run(cfg, steps).findings <==> IsFound(k, ScansIn(steps, k.trace))
  {
    if steps != [] {
      var front, last := steps[..|steps| - 1], steps[|steps| - 1];
      RunFindings(cfg, front, k);
      match last
      case StorageBatch(events) => assert ScansIn(steps, k.trace) == ScansIn(front, k.trace);
      case ScanBatch(scans) =>
        BatchFindings(scans, k);
        MoreFound(k, ScansIn(front, k.trace), ScansOf(scans, k.trace));
    }
  }

  lemma MoreFound(k: FindingKey, a: seq<Scan>, b: seq<Scan>)
    ensures IsFound(k, a + b) <==> IsFound(k, a) || IsFound(k, b)
  {
  }

  lemma BatchFindings(scans: seq<Scan>, k: FindingKey)
    ensures (exists s :: s in scans && k in KeysOf(s)) <==> IsFound(k, ScansOf(scans, k.trace))
  {
    ScansOfElems(scans, k.trace);
    if s :| s in scans && k in KeysOf(s) {
      var h :| h in s.hits &&
        k == FindingKey(s.trace, s.span, h.finding.isPii, h.finding.findingType, h.finding.field, h.offset);
      assert s in ScansOf(scans, k.trace) && IsHit(k, s, h);
    }
    if IsFound(k, ScansOf(scans, k.trace)) {
      var s, h :| s in ScansOf(scans, k.trace) && h in s.hits && IsHit(k, s, h);
      assert k in KeysOf(s);
    }
  }

  /** Two runs that delivered the same scans of a trace, in any order, batching and repetition, show the
      same verdict on it. */
  lemma ScanOrderIrrelevant(cfg: Settings, xs: seq<Step>, ys: seq<Step>, t: Id)
    requires Elems(ScansIn(xs, t)) == Elems(ScansIn(ys, t))
    ensures var g, h := GuardView(Run(cfg, xs), t), GuardView(Run(cfg, ys), t);
            && g.status == h.status && g.risk == h.risk && g.severity == h.severity
            && g.flags.pii.Some? == h.flags.pii.Some?
            && (g.flags.pii.Some? ==> g.flags.pii.value.types == h.flags.pii.value.types
                                      && g.flags.pii.value.fields == h.flags.pii.value.fields)
  {
    var a, b := ScansIn(xs, t), ScansIn(ys, t);
    RunGuards(cfg, xs, t);
    RunGuards(cfg, ys, t);
    MergeAllCounts(a);
    MergeAllCounts(b);
    assert forall s :: (s in a <==> s in Elems(a)) && (s in b <==> s in Elems(b));
    SameFlagSets(a, b);
    Flags.OrderAndRedeliveryIrrelevant(FlagsOfAll(a), FlagsOfAll(b));
  }

  lemma SameFlagSets(a: seq<Scan>, b: seq<Scan>)
    requires Elems(a) == Elems(b)
    ensures Elems(FlagsOfAll(a)) == Elems(FlagsOfAll(b)) && (a == [] <==> b == [])
  {
    FlagSet(a);
    FlagSet(b);
    assert a != [] ==> a[0] in Elems(a);
    assert b != [] ==> b[0] in Elems(b);
  }

  lemma FlagSet(a: seq<Scan>)
    ensures Elems(FlagsOfAll(a)) == set s | s in Elems(a) :: FlagsOf(s)
  {
    forall s | s in a ensures FlagsOf(s) in FlagsOfAll(a) {
      var i :| 0 <= i < |a| && a[i] == s;
      assert FlagsOfAll(a)[i] == FlagsOf(s);
    }
    forall f | f in FlagsOfAll(a) ensures exists s :: s in Elems(a) && f == FlagsOf(s) {
      var i :| 0 <= i < |a| && f == FlagsOf(a[i]);
      assert a[i] in Elems(a);
    }
  }
}
