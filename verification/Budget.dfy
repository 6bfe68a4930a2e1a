/** The per-tenant cap on what the judge may spend: scorer replicas check the stored totals, run the
    judge, and add what the run cost.  Caps and costs are integer micro-dollars. */
module Budget {
  import opened Ids

  datatype Kind = Day | Month

  /** The unique index of tenant_usage, the purpose being fixed. */
  datatype Key = Key(tenant: Id, kind: Kind, period: Id)

  datatype Usage = Usage(prompt: nat, completion: nat, total: nat, cost: nat, calls: nat)

  const NO_USAGE := Usage(0, 0, 0, 0, 0)

  datatype Caps = Caps(dayCost: int, monthCost: int, dayTokens: int)

  function Add(a: Usage, b: Usage): Usage
  {
    Usage(a.prompt + b.prompt, a.completion + b.completion, a.total + b.total, a.cost + b.cost, a.calls + b.calls)
  }

  /** A missing row counts as zero. */
  function Stored(rows: map<Key, Usage>, k: Key): Usage
  {
    if k in rows then rows[k] else NO_USAGE
  }

  predicate Allows(caps: Caps, day: Usage, month: Usage)
  {
    day.cost < caps.dayCost && month.cost < caps.monthCost && day.total < caps.dayTokens
  }

  // ----------------------------------------------- the statements themselves

  datatype Reason = WithinBudget | DayCostReached | MonthCostReached | DayTokensReached

  class UsageTable {
    var rows: map<Key, Usage>

    constructor ()
      ensures rows == map[]
    {
      rows := map[];
    }

    method CheckBudget(tenant: Id, day: Id, month: Id, caps: Caps) returns (allowed: bool, reason: Reason)
      ensures allowed <==> Allows(caps, Stored(rows, Key(tenant, Day, day)), Stored(rows, Key(tenant, Month, month)))
      ensures allowed <==> reason == WithinBudget
      ensures reason == DayCostReached <==> Stored(rows, Key(tenant, Day, day)).cost >= caps.dayCost
      ensures reason == MonthCostReached <==>
                Stored(rows, Key(tenant, Day, day)).cost < caps.dayCost &&
                    Stored(rows, Key(tenant, Month, month)).cost >= caps.monthCost
      ensures reason == DayTokensReached <==>
                && Stored(rows, Key(tenant, Day, day)).cost < caps.dayCost
                && Stored(rows, Key(tenant, Month, month)).cost < caps.monthCost
                && Stored(rows, Key(tenant, Day, day)).total >= caps.dayTokens
    {
      var daily, monthly := NO_USAGE, NO_USAGE;
      if Key(tenant, Day, day) in rows { daily := rows[Key(tenant, Day, day)]; }
      if Key(tenant, Month, month) in rows { monthly := rows[Key(tenant, Month, month)]; }
      allowed, reason := true, WithinBudget;
      if daily.cost >= caps.dayCost {
        allowed, reason := false, DayCostReached;
      } else if monthly.cost >= caps.monthCost {
        allowed, reason := false, MonthCostReached;
      } else if daily.total >= caps.dayTokens {
        allowed, reason := false, DayTokensReached;
      }
    }

    method RecordSpend(tenant: Id, day: Id, month: Id, promptTokens: nat, completionTokens: nat, cost: nat, calls: nat)
      modifies this
      ensures forall k ::
                var was, now := Stored(old(rows), k), Stored(rows, k);
                if k == Key(tenant, Day, day) || k == Key(tenant, Month, month) then
                  && now.prompt == was.prompt + promptTokens && now.completion == was.completion + completionTokens
                  && now.total == was.total + promptTokens + completionTokens
                  && now.cost == was.cost + cost && now.calls == was.calls + calls
                else now == was
    {
      var spent := Usage(promptTokens, completionTokens, promptTokens + completionTokens, cost, calls);
      Increment(Key(tenant, Day, day), spent);
      Increment(Key(tenant, Month, month), spent);
    }

    method Increment(k: Key, spent: Usage)
      modifies this
      ensures rows == old(rows)[k := Add(Stored(old(rows), k), spent)]
    {
      if k in rows { rows := rows[k := Add(rows[k], spent)]; } else { rows := rows[k := spent]; }
    }
  }

  // ---------------------------------------- replicas, statement by statement

  /** One replica.  A transaction sees committed rows and its own writes; an increment locks its row
      until the commit, so the value it computed stays the committed one plus its own. */
  datatype Scorer =
    | Idle
    | Started(tenant: Id, day: Id, month: Id)
    | DayRead(tenant: Id, day: Id, month: Id, seen: Usage)
    | Running(tenant: Id, day: Id, month: Id, spent: Usage)
    | DayHeld(tenant: Id, day: Id, month: Id, spent: Usage, dayRow: Usage)
    | BothHeld(tenant: Id, day: Id, month: Id, spent: Usage, dayRow: Usage, monthRow: Usage)

  datatype Spend = Spend(tenant: Id, day: Id, month: Id, spent: Usage)

  /** `log` is the history of the committed runs. */
  datatype State = State(rows: map<Key, Usage>, scorers: seq<Scorer>, day: Id, month: Id, log: seq<Spend>)

  /** Caps and the most one run may cost. */
  datatype Limits = Limits(caps: Caps, runCost: nat, runTokens: nat)

  datatype Step =
    | Begin(i: nat, tenant: Id)
    | ReadDay(i: nat)
    | ReadMonth(i: nat, spent: Usage)
    | AddDay(i: nat)
    | AddMonth(i: nat)
    | Commit(i: nat)
    | Abandon(i: nat)
    | Tick(day: Id, month: Id)

  predicate Holds(s: Scorer, k: Key)
  {
    || ((s.DayHeld? || s.BothHeld?) && k == Key(s.tenant, Day, s.day))
    || (s.BothHeld? && k == Key(s.tenant, Month, s.month))
  }

  predicate Locked(scorers: seq<Scorer>, k: Key)
  {
    exists j :: 0 <= j < |scorers| && Holds(scorers[j], k)
  }

  predicate Enabled(limits: Limits, s: State, step: Step)
  {
    match step
    case Tick(day, month) => s.day.order <= day.order && s.month.order <= month.order
    case Begin(i, _) => i < |s.scorers| && s.scorers[i].Idle?
    case ReadDay(i) => i < |s.scorers| && s.scorers[i].Started?
    case ReadMonth(i, spent) => i < |s.scorers| && s.scorers[i].DayRead? && spent.cost <= limits.runCost &&
        spent.total <= limits.runTokens
    case AddDay(i) => i < |s.scorers| && s.scorers[i].Running? &&
        !Locked(s.scorers, Key(s.scorers[i].tenant, Day, s.day))
    case AddMonth(i) =>
      i < |s.scorers| && s.scorers[i].DayHeld? &&
          !Locked(s.scorers, Key(s.scorers[i].tenant, Month, s.scorers[i].month))
    case Commit(i) => i < |s.scorers| && s.scorers[i].BothHeld?
    case Abandon(i) => i < |s.scorers|
  }

  function Moved(s: State, i: nat, x: Scorer): State
    requires i < |s.scorers|
  {
    s.(scorers := s.scorers[i := x])
  }

  /** The period keys are taken afresh when a run is recorded. */
  function Next(limits: Limits, s: State, step: Step): State
    requires Enabled(limits, s, step)
  {
    match step
    case Tick(day, month) => s.(day := day, month := month)
    case Begin(i, tenant) => Moved(s, i, Started(tenant, s.day, s.month))
    case ReadDay(i) =>
      var x := s.scorers[i];
      Moved(s, i, DayRead(x.tenant, x.day, x.month, Stored(s.rows, Key(x.tenant, Day, x.day))))
    case ReadMonth(i, spent) =>
      var x := s.scorers[i];
      if Allows(limits.caps, x.seen, Stored(s.rows, Key(x.tenant, Month, x.month))) then
        Moved(s, i, Running(x.tenant, x.day, x.month, spent))
      else Moved(s, i, Idle)
    case AddDay(i) =>
      var x := s.scorers[i];
      Moved(s, i, DayHeld(x.tenant, s.day, s.month, x.spent, Add(Stored(s.rows, Key(x.tenant, Day, s.day)), x.spent)))
    case AddMonth(i) =>
      var x := s.scorers[i];
      Moved(s, i, BothHeld(x.tenant, x.day, x.month, x.spent, x.dayRow,
          Add(Stored(s.rows, Key(x.tenant, Month, x.month)), x.spent)))
    case Commit(i) =>
      var x := s.scorers[i];
      Moved(s, i, Idle).(rows := s.rows[Key(x.tenant, Day, x.day) := x.dayRow]
          [Key(x.tenant, Month, x.month) := x.monthRow],
                         log := s.log + [Spend(x.tenant, x.day, x.month, x.spent)])
    case Abandon(i) => Moved(s, i, Idle)
  }

  function Fresh(n: nat, day: Id, month: Id): State
  {
    State(map[], seq(n, _ => Idle), day, month, [])
  }

  ghost predicate Reaches(limits: Limits, s: State, steps: seq<Step>, t: State)
    decreases |steps|
  {
    if steps == [] then s == t
    else Enabled(limits, s, steps[0]) && Reaches(limits, Next(limits, s, steps[0]), steps[1..], t)
  }

  predicate Books(x: Spend, k: Key)
  {
    x.tenant == k.tenant && k.period == (if k.kind.Day? then x.day else x.month)
  }

  /** What the committed runs add up to. */
  function Recorded(log: seq<Spend>, k: Key): Usage
  {
    if log == [] then NO_USAGE
    else
      var front, last := Recorded(log[..|log| - 1], k), log[|log| - 1];
      if Books(last, k) then Add(front, last.spent) else front
  }

  // ------------------------------------------------- totals lose no increment

  ghost predicate Exact(s: State)
  {
    forall k :: Stored(s.rows, k) == Recorded(s.log, k)
  }

  ghost predicate HeldRowsCurrent(s: State)
  {
    forall i :: 0 <= i < |s.scorers| ==>
      && (s.scorers[i].DayHeld? || s.scorers[i].BothHeld? ==>
            s.scorers[i].dayRow == Add(Stored(s.rows, Key(s.scorers[i].tenant, Day, s.scorers[i].day)),
                s.scorers[i].spent))
      && (s.scorers[i].BothHeld? ==>
            s.scorers[i].monthRow == Add(Stored(s.rows, Key(s.scorers[i].tenant, Month, s.scorers[i].month)),
                s.scorers[i].spent))
  }

  ghost predicate OneHolder(s: State)
  {
    forall i, j, k :: 0 <= i < j < |s.scorers| ==> !(Holds(s.scorers[i], k) && Holds(s.scorers[j], k))
  }

  ghost predicate LedgerInv(s: State)
  {
    Exact(s) && HeldRowsCurrent(s) && OneHolder(s)
  }

  lemma CommitExact(limits: Limits, s: State, i: nat)
    requires LedgerInv(s) && Enabled(limits, s, Commit(i))
    ensures Exact(Next(limits, s, Commit(i)))
  {
  }

  /** The rows a commit writes are nobody else's. */
  lemma CommitHeld(limits: Limits, s: State, i: nat)
    requires LedgerInv(s) && Enabled(limits, s, Commit(i))
    ensures HeldRowsCurrent(Next(limits, s, Commit(i))) && OneHolder(Next(limits, s, Commit(i)))
  {
    var x := s.scorers[i];
    forall j | 0 <= j < |s.scorers| && j != i
      ensures !Holds(s.scorers[j], Key(x.tenant, Day, x.day)) && !Holds(s.scorers[j], Key(x.tenant, Month, x.month))
    {
      assert Holds(x, Key(x.tenant, Day, x.day)) && Holds(x, Key(x.tenant, Month, x.month));
    }
  }

  lemma LedgerStep(limits: Limits, s: State, step: Step)
    requires LedgerInv(s) && Enabled(limits, s, step)
    ensures LedgerInv(Next(limits, s, step))
  {
    if step.Commit? {
      CommitExact(limits, s, step.i);
      CommitHeld(limits, s, step.i);
    } else {
      assert Exact(Next(limits, s, step)) by {
        forall k ensures Stored(Next(limits, s, step).rows, k) == Recorded(Next(limits, s, step).log, k) {
          assert Stored(s.rows, k) == Recorded(s.log, k);
        }
      }
    }
  }

  lemma {:induction false} LedgerRun(limits: Limits, s: State, steps: seq<Step>, t: State)
    requires LedgerInv(s) && Reaches(limits, s, steps, t)
    ensures LedgerInv(t)
    decreases |steps|
  {
    if steps != [] {
      LedgerStep(limits, s, steps[0]);
      LedgerRun(limits, Next(limits, s, steps[0]), steps[1..], t);
    }
  }

  /** In every reachable state every stored total is exactly the sum of the committed runs of its
      tenant and period: no replica's increment is lost, whatever the interleaving. */
  lemma TotalsAreExact(limits: Limits, n: nat, day: Id, month: Id, steps: seq<Step>, t: State)
    requires Reaches(limits, Fresh(n, day, month), steps, t)
    ensures forall k :: Stored(t.rows, k) == Recorded(t.log, k)
  {
    LedgerRun(limits, Fresh(n, day, month), steps, t);
  }

  /** The sum of one figure over the committed runs booked on k. */
  function Booked(log: seq<Spend>, k: Key, figure: Usage -> nat): nat
  {
    if log == [] then 0
    else
      var last := log[|log| - 1];
      Booked(log[..|log| - 1], k, figure) + if Books(last, k) then figure(last.spent) else 0
  }

  lemma {:induction false} RecordedFigures(log: seq<Spend>, k: Key)
    ensures Recorded(log, k).prompt == Booked(log, k, (u: Usage) => u.prompt)
    ensures Recorded(log, k).completion == Booked(log, k, (u: Usage) => u.completion)
    ensures Recorded(log, k).total == Booked(log, k, (u: Usage) => u.total)
    ensures Recorded(log, k).cost == Booked(log, k, (u: Usage) => u.cost)
    ensures Recorded(log, k).calls == Booked(log, k, (u: Usage) => u.calls)
  {
    if log != [] { RecordedFigures(log[..|log| - 1], k); }
  }

  /** In every reachable state each stored figure is the sum of that figure over the committed runs of its
      tenant and period. */
  lemma FiguresAreSums(limits: Limits, n: nat, day: Id, month: Id, steps: seq<Step>, t: State, k: Key)
    requires Reaches(limits, Fresh(n, day, month), steps, t)
    ensures Stored(t.rows, k).prompt == Booked(t.log, k, (u: Usage) => u.prompt)
    ensures Stored(t.rows, k).completion == Booked(t.log, k, (u: Usage) => u.completion)
    ensures Stored(t.rows, k).total == Booked(t.log, k, (u: Usage) => u.total)
    ensures Stored(t.rows, k).cost == Booked(t.log, k, (u: Usage) => u.cost)
    ensures Stored(t.rows, k).calls == Booked(t.log, k, (u: Usage) => u.calls)
  {
    TotalsAreExact(limits, n, day, month, steps, t);
    RecordedFigures(t.log, k);
  }

  /** A commit raises every figure of the run's day and month by what the run spent, and touches no other row. */
  lemma CommitRecords(limits: Limits, n: nat, day: Id, month: Id, steps: seq<Step>, s: State, i: nat, k: Key)
    requires Reaches(limits, Fresh(n, day, month), steps, s) && Enabled(limits, s, Commit(i))
    ensures var x, was, now := s.scorers[i], Stored(s.rows, k), Stored(Next(limits, s, Commit(i)).rows, k);
            if k == Key(x.tenant, Day, x.day) || k == Key(x.tenant, Month, x.month) then
              && now.prompt == was.prompt + x.spent.prompt && now.completion == was.completion + x.spent.completion
              && now.total == was.total + x.spent.total && now.cost == was.cost + x.spent.cost
              && now.calls == was.calls + x.spent.calls
            else now == was
  {
    LedgerRun(limits, Fresh(n, day, month), steps, s);
  }

  /** A run is booked on the day and the month in which it is recorded, whenever it was admitted. */
  lemma BookedWhenRecorded(limits: Limits, s: State, i: nat)
    requires Enabled(limits, s, AddDay(i))
    ensures var x, y := s.scorers[i], Next(limits, s, AddDay(i)).scorers[i];
            y.DayHeld? && y.tenant == x.tenant && y.day == s.day && y.month == s.month && y.spent == x.spent
  {
  }

  /** A replica goes on to the judge exactly when the totals it read are below all three caps. */
  lemma AdmittedIff(limits: Limits, s: State, i: nat, spent: Usage)
    requires Enabled(limits, s, ReadMonth(i, spent))
    ensures var x := s.scorers[i];
            var monthly := Stored(s.rows, Key(x.tenant, Month, x.month));
            Next(limits, s, ReadMonth(i, spent)).scorers[i] ==
              if x.seen.cost < limits.caps.dayCost && monthly.cost < limits.caps.monthCost &&
                 x.seen.total < limits.caps.dayTokens
              then Running(x.tenant, x.day, x.month, spent) else Idle
  {
  }

  // ------------------------------------------------------- the cap's overshoot

  datatype Meter = DayCost | MonthCost | DayTokens

  /** One capped quantity of one tenant in one period. */
  datatype Target = Target(meter: Meter, tenant: Id, period: Id)

  function KeyOf(g: Target): Key
  {
    Key(g.tenant, if g.meter.MonthCost? then Month else Day, g.period)
  }

  function Read(m: Meter, u: Usage): nat
  {
    if m.DayTokens? then u.total else u.cost
  }

  function CapOf(caps: Caps, m: Meter): int
  {
    match m
    case DayCost => caps.dayCost
    case MonthCost => caps.monthCost
    case DayTokens => caps.dayTokens
  }

  function MostPerRun(limits: Limits, m: Meter): nat
  {
    if m.DayTokens? then limits.runTokens else limits.runCost
  }

  function PeriodOf(m: Meter, day: Id, month: Id): Id
  {
    if m.MonthCost? then month else day
  }

  function Total(rows: map<Key, Usage>, g: Target): nat
  {
    Read(g.meter, Stored(rows, KeyOf(g)))
  }

  /** The replica may still add to g; `full` says that g has reached its cap. */
  predicate Threatens(caps: Caps, x: Scorer, g: Target, full: bool)
  {
    && !x.Idle? && x.tenant == g.tenant
    && var p := PeriodOf(g.meter, x.day, x.month);
       match x
       case Started(_, _, _) => p.order <= g.period.order && !(p == g.period && full)
       case DayRead(_, _, _, seen) =>
         if g.meter.MonthCost? then p.order <= g.period.order && !(p == g.period && full)
         else p.order <= g.period.order && Read(g.meter, seen) < CapOf(caps, g.meter)
       case Running(_, _, _, _) => p.order <= g.period.order
       case _ => p == g.period
  }

  function Threats(caps: Caps, xs: seq<Scorer>, g: Target, full: bool): (n: nat)
    ensures n <= |xs|
  {
    if xs == [] then 0
    else Threats(caps, xs[..|xs| - 1], g, full) + if Threatens(caps, xs[|xs| - 1], g, full) then 1 else 0
  }

  lemma {:induction false} ThreatsUpdate(caps: Caps, xs: seq<Scorer>, i: nat, x: Scorer, g: Target, full: bool)
    requires i < |xs|
    ensures Threats(caps, xs[i := x], g, full) + (if Threatens(caps, xs[i], g, full) then 1 else 0)
         == Threats(caps, xs, g, full) + (if Threatens(caps, x, g, full) then 1 else 0)
  {
    var front, last := xs[..|xs| - 1], xs[|xs| - 1];
    if i < |xs| - 1 {
      ThreatsUpdate(caps, front, i, x, g, full);
      assert xs[i := x][..|xs| - 1] == front[i := x];
    } else {
      assert xs[i := x][..|xs| - 1] == front;
    }
  }

  lemma {:induction false} FullThreatens(caps: Caps, xs: seq<Scorer>, g: Target)
    ensures Threats(caps, xs, g, true) <= Threats(caps, xs, g, false)
  {
    if xs != [] { FullThreatens(caps, xs[..|xs| - 1], g); }
  }

  lemma {:induction false} IdleThreatensNot(caps: Caps, xs: seq<Scorer>, i: nat, g: Target, full: bool)
    requires i < |xs| && xs[i].Idle?
    ensures Threats(caps, xs, g, full) < |xs|
  {
    if i < |xs| - 1 { IdleThreatensNot(caps, xs[..|xs| - 1], i, g, full); }
  }

  /** A run in hand was admitted under positive caps and costs no more than a run can. */
  predicate SoundRun(limits: Limits, x: Scorer)
  {
    (x.Running? || x.DayHeld? || x.BothHeld?) ==>
      && x.spent.cost <= limits.runCost && x.spent.total <= limits.runTokens
      && (forall m: Meter :: CapOf(limits.caps, m) >= 1)
  }

  ghost predicate Bounded(limits: Limits, s: State, g: Target)
  {
    var total, cap := Total(s.rows, g), CapOf(limits.caps, g.meter);
    && (total > 0 ==> g.period.order <= PeriodOf(g.meter, s.day, s.month).order && cap >= 1)
    && (total > 0 && total >= cap ==>
          total <= cap - 1 + MostPerRun(limits, g.meter) * (|s.scorers| - Threats(limits.caps, s.scorers, g, true)))
  }

  ghost predicate CapInv(limits: Limits, s: State, g: Target)
  {
    && LedgerInv(s)
    && (forall i :: 0 <= i < |s.scorers| ==> SoundRun(limits, s.scorers[i]))
    && PeriodsPassed(s)
    && Bounded(limits, s, g)
  }

  /** Every period key in use was the current one at some time. */
  predicate PeriodsPassed(s: State)
  {
    forall i :: 0 <= i < |s.scorers| && !s.scorers[i].Idle? ==>
      s.scorers[i].day.order <= s.day.order && s.scorers[i].month.order <= s.month.order
  }

  /** Any step but a commit: nobody becomes a new threat to a target at its cap. */
  lemma NoNewThreat(limits: Limits, s: State, step: Step, g: Target)
    requires Enabled(limits, s, step) && !step.Commit? && !step.Tick?
    requires Total(s.rows, g) >= CapOf(limits.caps, g.meter) &&
        g.period.order <= PeriodOf(g.meter, s.day, s.month).order
    requires PeriodsPassed(s)
    ensures Threatens(limits.caps, Next(limits, s, step).scorers[step.i], g, true) ==>
        Threatens(limits.caps, s.scorers[step.i], g, true)
  {
  }

  /** Any step but a commit moves no total. */
  lemma QuietStep(limits: Limits, s: State, step: Step, g: Target)
    requires Bounded(limits, s, g) && PeriodsPassed(s) && Enabled(limits, s, step) && !step.Commit?
    ensures Bounded(limits, Next(limits, s, step), g)
  {
    if !step.Tick? && Total(s.rows, g) > 0 && Total(s.rows, g) >= CapOf(limits.caps, g.meter) {
      NoNewThreat(limits, s, step, g);
      var t := Next(limits, s, step);
      var y := t.scorers[step.i];
      ThreatsUpdate(limits.caps, s.scorers, step.i, y, g, true);
      assert t.scorers == s.scorers[step.i := y];
      MoreRoom(MostPerRun(limits, g.meter), |s.scorers| - Threats(limits.caps, s.scorers, g, true),
               |s.scorers| - Threats(limits.caps, t.scorers, g, true));
    }
  }

  lemma OneMore(m: nat, a: int)
    ensures m * (a + 1) == m * a + m
  {
  }

  lemma {:induction false} MoreRoom(m: nat, a: int, b: int)
    requires a <= b
    ensures m * a <= m * b && (a < b ==> m * a + m <= m * b)
    decreases b - a
  {
    if a < b {
      MoreRoom(m, a, b - 1);
      OneMore(m, b - 1);
    }
  }

  /** A commit adds to a target only if its replica threatened it, and then no more than a run can cost. */
  lemma CommitAdds(limits: Limits, s: State, i: nat, g: Target)
    requires CapInv(limits, s, g) && i < |s.scorers| && s.scorers[i].BothHeld?
    ensures Total(Next(limits, s, Commit(i)).rows, g)
         <= Total(s.rows, g)
             + (if Threatens(limits.caps, s.scorers[i], g, true) then MostPerRun(limits, g.meter) else 0)
    ensures Threatens(limits.caps, s.scorers[i], g, true) ==> CapOf(limits.caps, g.meter) >= 1
    ensures Threatens(limits.caps, s.scorers[i], g, true) ==> g.period.order <= PeriodOf(g.meter, s.day, s.month).order
  {
  }

  lemma RoomAfter(total: nat, after: nat, cap: int, m: nat, n: nat, k0: nat, k1: nat)
    requires after <= total + (if k0 > k1 then m else 0) && k1 <= k0 <= k1 + 1 && k1 < n
    requires total > 0 && total >= cap ==> total <= cap - 1 + m * (n - k0)
    requires total <= after && cap >= 1 && after >= cap
    ensures after <= cap - 1 + m * (n - k1)
  {
    MoreRoom(m, n - k0, n - k1);
    MoreRoom(m, 0, n - k1);
  }

  lemma CommitStep(limits: Limits, s: State, i: nat, g: Target)
    requires CapInv(limits, s, g) && i < |s.scorers| && s.scorers[i].BothHeld?
    ensures Bounded(limits, Next(limits, s, Commit(i)), g)
  {
    var t := Next(limits, s, Commit(i));
    CommitAdds(limits, s, i, g);
    TotalsGrow(limits, s, i, g);
    ThreatsUpdate(limits.caps, s.scorers, i, Idle, g, true);
    IdleThreatensNot(limits.caps, t.scorers, i, g, true);
    var total, cap := Total(t.rows, g), CapOf(limits.caps, g.meter);
    if total > 0 && total >= cap {
      RoomAfter(Total(s.rows, g), total, cap, MostPerRun(limits, g.meter), |s.scorers|,
                Threats(limits.caps, s.scorers, g, true), Threats(limits.caps, t.scorers, g, true));
    }
  }

  lemma TotalsGrow(limits: Limits, s: State, i: nat, g: Target)
    requires LedgerInv(s) && i < |s.scorers| && s.scorers[i].BothHeld?
    ensures Total(Next(limits, s, Commit(i)).rows, g) >= Total(s.rows, g)
  {
  }

  lemma CapStep(limits: Limits, s: State, step: Step, g: Target)
    requires CapInv(limits, s, g) && Enabled(limits, s, step)
    ensures CapInv(limits, Next(limits, s, step), g)
  {
    var t := Next(limits, s, step);
    LedgerStep(limits, s, step);
    if step.Commit? { CommitStep(limits, s, step.i, g); } else { QuietStep(limits, s, step, g); }
    if step.ReadMonth? && t.scorers[step.i].Running? {
      assert CapOf(limits.caps, DayCost) >= 1 && CapOf(limits.caps, MonthCost) >= 1 &&
          CapOf(limits.caps, DayTokens) >= 1;
      forall m: Meter ensures CapOf(limits.caps, m) >= 1 { }
    }
  }

  lemma {:induction false} CapRun(limits: Limits, s: State, steps: seq<Step>, t: State, g: Target)
    requires CapInv(limits, s, g) && Reaches(limits, s, steps, t)
    ensures CapInv(limits, t, g) && |t.scorers| == |s.scorers|
    decreases |steps|
  {
    if steps != [] {
      CapStep(limits, s, steps[0], g);
      CapRun(limits, Next(limits, s, steps[0]), steps[1..], t, g);
    }
  }

  /** With n replicas and no run above its maximum, a capped total ends at most n runs above the last
      total that was still admitted; under a cap of zero nothing is ever recorded. */
  lemma OvershootIsBounded(limits: Limits, n: nat, day: Id, month: Id, steps: seq<Step>, t: State, g: Target)
    requires Reaches(limits, Fresh(n, day, month), steps, t)
    ensures Total(t.rows, g) <= (if CapOf(limits.caps, g.meter) >= 1
        then CapOf(limits.caps, g.meter) - 1 + n * MostPerRun(limits, g.meter) else 0)
  {
    CapRun(limits, Fresh(n, day, month), steps, t, g);
    WithinCap(Total(t.rows, g), CapOf(limits.caps, g.meter), MostPerRun(limits, g.meter), n,
        Threats(limits.caps, t.scorers, g, true));
  }

  lemma WithinCap(total: nat, cap: int, m: nat, n: nat, k: nat)
    requires k <= n && (total > 0 ==> cap >= 1)
    requires total > 0 && total >= cap ==> total <= cap - 1 + m * (n - k)
    ensures total <= if cap >= 1 then cap - 1 + n * m else 0
  {
  }

  /** Recording takes the day row before the month row, so recorders never wait for each other in a
      circle: while anybody is at work, somebody can go on without giving up. */
  lemma SomebodyCanGoOn(limits: Limits, s: State, i: nat)
    requires i < |s.scorers| && !s.scorers[i].Idle?
    ensures exists step :: Enabled(limits, s, step) && !step.Abandon? && !step.Tick? && !step.Begin?
  {
    var x := s.scorers[i];
    if x.Started? {
      assert Enabled(limits, s, ReadDay(i));
    } else if x.DayRead? {
      assert Enabled(limits, s, ReadMonth(i, NO_USAGE));
    } else if x.BothHeld? {
      assert Enabled(limits, s, Commit(i));
    } else if x.DayHeld? {
      HolderCanGoOn(limits, s, i);
    } else if Locked(s.scorers, Key(x.tenant, Day, s.day)) {
      var j :| 0 <= j < |s.scorers| && Holds(s.scorers[j], Key(x.tenant, Day, s.day));
      HolderCanGoOn(limits, s, j);
    } else {
      assert Enabled(limits, s, AddDay(i));
    }
  }

  lemma HolderCanGoOn(limits: Limits, s: State, i: nat)
    requires i < |s.scorers| && (s.scorers[i].DayHeld? || s.scorers[i].BothHeld?)
    ensures exists step :: Enabled(limits, s, step) && !step.Abandon? && !step.Tick? && !step.Begin?
  {
    var x := s.scorers[i];
    if x.BothHeld? {
      assert Enabled(limits, s, Commit(i));
    } else if Locked(s.scorers, Key(x.tenant, Month, x.month)) {
      var j :| 0 <= j < |s.scorers| && Holds(s.scorers[j], Key(x.tenant, Month, x.month));
      assert Enabled(limits, s, Commit(j));
    } else {
      assert Enabled(limits, s, AddMonth(i));
    }
  }

  // ------------------------------------------- cost shares on the score rows

  /** A verdict counts for the rows it gets: none when it is an error or has no scores. */
  datatype Verdict = Verdict(trace: Id, scores: nat, failed: bool)

  function Sum(xs: seq<nat>): nat
  {
    if xs == [] then 0 else Sum(xs[..|xs| - 1]) + xs[|xs| - 1]
  }

  function AtLeastOne(n: nat): (m: nat)
    ensures m >= 1
  {
    if n < 1 then 1 else n
  }

  /** The cost column of the rows, when every verdict gets `share`. */
  function Shares(share: nat, verdicts: seq<Verdict>): seq<nat>
  {
    if verdicts == [] then []
    else
      var front, v := Shares(share, verdicts[..|verdicts| - 1]), verdicts[|verdicts| - 1];
      if v.failed || v.scores == 0 then front else front + seq(v.scores, _ => share / v.scores)
  }

  method CostShares(cost: nat, verdicts: seq<Verdict>) returns (rows: seq<nat>)
    ensures rows == Shares(cost / AtLeastOne(|verdicts|), verdicts)
  {
    rows := [];
    var share := cost / AtLeastOne(|verdicts|);
    for i := 0 to |verdicts|
      invariant rows == Shares(share, verdicts[..i])
    {
      var v := verdicts[i];
      assert verdicts[..i + 1][..i] == verdicts[..i];
      if !v.failed && v.scores > 0 {
        var each, before := share / AtLeastOne(v.scores), rows;
        for k := 0 to v.scores
          invariant rows == before + seq(k, _ => each)
        {
          rows := rows + [each];
        }
      }
    }
    assert verdicts[..|verdicts|] == verdicts;
  }

  lemma {:induction false} SumRepeated(xs: seq<nat>, each: nat, k: nat)
    ensures Sum(xs + seq(k, _ => each)) == Sum(xs) + each * k
    decreases k
  {
    var all := xs + seq(k, _ => each);
    if k == 0 {
      assert all == xs;
    } else {
      SumRepeated(xs, each, k - 1);
      assert all[..|all| - 1] == xs + seq(k - 1, _ => each);
      OneMore(each, k - 1);
    }
  }

  lemma DivisionFits(a: nat, n: nat)
    requires n > 0
    ensures (a / n) * n <= a
  {
  }

  lemma {:induction false} SharesFit(share: nat, verdicts: seq<Verdict>)
    ensures Sum(Shares(share, verdicts)) <= share * |verdicts|
  {
    if verdicts != [] {
      var v := verdicts[|verdicts| - 1];
      SharesFit(share, verdicts[..|verdicts| - 1]);
      OneMore(share, |verdicts| - 1);
      if !v.failed && v.scores > 0 {
        SumRepeated(Shares(share, verdicts[..|verdicts| - 1]), share / v.scores, v.scores);
        DivisionFits(share, v.scores);
      }
    }
  }

  /** The cost shares of one run never add up to more than the run cost. */
  lemma SharesStayWithinRun(cost: nat, verdicts: seq<Verdict>)
    ensures Sum(Shares(cost / AtLeastOne(|verdicts|), verdicts)) <= cost
  {
    var n := AtLeastOne(|verdicts|);
    SharesFit(cost / n, verdicts);
    MoreRoom(cost / n, |verdicts|, n);
    DivisionFits(cost, n);
  }

  /** The rows of all verdicts that count. */
  function Rows(verdicts: seq<Verdict>): nat
  {
    if verdicts == [] then 0
    else Rows(verdicts[..|verdicts| - 1]) + RowsOf(verdicts[|verdicts| - 1])
  }

  function RowsOf(v: Verdict): nat
  {
    if v.failed then 0 else v.scores
  }

  lemma NestedDivision(a: nat, n: nat, k: nat)
    requires n > 0 && k > 0
    ensures n * k > 0 && a / n / k == a / (n * k)
  {
    var q := a / n / k;
    var r, t := a - n * (a / n), a / n - k * q;
    assert 0 <= r < n && 0 <= t < k;
    QuotientIs(a, n, k, q, t, r);
  }

  lemma QuotientIs(a: nat, n: nat, k: nat, q: nat, t: nat, r: nat)
    requires a == n * (k * q + t) + r && r < n && t < k
    ensures n * k > 0 && a / (n * k) == q
  {
    assert n * (k * q + t) == n * k * q + n * t;
    assert n * t + n <= n * k by { MoreRoom(n, t + 1, k); OneMore(n, t); }
    assert n * k * q <= a < n * k * q + n * k;
    DivisionBetween(a, n * k, q);
  }

  lemma DivisionBetween(a: nat, d: nat, q: nat)
    requires d > 0 && d * q <= a < d * q + d
    ensures a / d == q
  {
    var e := a - d * q;
    assert a == d * q + e && 0 <= e < d;
    if a / d < q {
      MoreRoom(d, a / d + 1, q);
      OneMore(d, a / d);
    } else if a / d > q {
      MoreRoom(d, q + 1, a / d);
      OneMore(d, q);
    }
  }

  /** Row j of the list belongs to verdict i. */
  predicate RowIsOf(verdicts: seq<Verdict>, i: nat, j: nat)
    requires i < |verdicts|
  {
    Rows(verdicts[..i]) <= j < Rows(verdicts[..i + 1])
  }

  lemma {:induction false} ShareOfRow(share: nat, verdicts: seq<Verdict>, i: nat, j: nat)
    requires i < |verdicts| && RowIsOf(verdicts, i, j)
    ensures |Shares(share, verdicts)| == Rows(verdicts) && j < Rows(verdicts)
    ensures verdicts[i].scores > 0 && Shares(share, verdicts)[j] == share / verdicts[i].scores
  {
    var n := |verdicts| - 1;
    ShareCount(share, verdicts);
    ShareCount(share, verdicts[..n]);
    assert verdicts[..n + 1] == verdicts;
    if i < n {
      assert verdicts[..n][..i] == verdicts[..i] && verdicts[..n][..i + 1] == verdicts[..i + 1];
      ShareOfRow(share, verdicts[..n], i, j);
    }
  }

  lemma {:induction false} ShareCount(share: nat, verdicts: seq<Verdict>)
    ensures |Shares(share, verdicts)| == Rows(verdicts)
  {
    if verdicts != [] { ShareCount(share, verdicts[..|verdicts| - 1]); }
  }

  /** Every score of a verdict that counts gets one row, in order, with the run's cost divided by the number of
      verdicts and of that verdict's scores, rounded down. */
  lemma ShareIsQuotient(cost: nat, verdicts: seq<Verdict>, i: nat, j: nat)
    requires i < |verdicts| && RowIsOf(verdicts, i, j)
    ensures var rows := Shares(cost / AtLeastOne(|verdicts|), verdicts);
            |rows| == Rows(verdicts) && j < |rows| && verdicts[i].scores > 0 &&
            rows[j] == cost / (|verdicts| * verdicts[i].scores)
  {
    ShareOfRow(cost / |verdicts|, verdicts, i, j);
    NestedDivision(cost, |verdicts|, verdicts[i].scores);
  }
}
