/** How a plan's periods end: upgrades inside them, refunds, the beat, and the evidence kept. */
module PlanEnds {
  import opened Wrappers
  import opened Naturals
  import opened Slices
  import opened Plans
  import opened PlanSafety

  // ---- pro rata ------------------------------------------------------------------------------------

  function Quotient(x: nat, total: nat): nat
    requires total > 0
  {
    x / total
  }

  lemma Floor(x: nat, total: nat)
    requires total > 0
    ensures Quotient(x, total) * total <= x < (Quotient(x, total) + 1) * total
  {
  }

  /** Every whole TOKU of the part still to run, and the fraction dropped. */
  lemma ProrataIsTheFloor(step: nat, remaining: nat, total: nat)
    requires total > 0
    ensures Prorata(step, remaining, total) * total <= step * Min(remaining, total) < (Prorata(step, remaining, total) + 1) * total
  {
    Floor(step * Min(remaining, total), total);
  }

  lemma FloorsAdd(x: nat, y: nat, total: nat)
    requires total > 0
    ensures Quotient(x, total) + Quotient(y, total) <= Quotient(x + y, total) <= Quotient(x, total) + Quotient(y, total) + 1
  {
    hide Quotient;
    Floor(x, total);
    Floor(y, total);
    Floor(x + y, total);
    FloorsOrdered(x, y, Quotient(x, total), Quotient(y, total), Quotient(x + y, total), total);
  }

  lemma FloorsOrdered(x: nat, y: nat, a: nat, b: nat, c: nat, total: nat)
    requires a * total <= x < (a + 1) * total && b * total <= y < (b + 1) * total && c * total <= x + y < (c + 1) * total
    ensures a + b <= c <= a + b + 1
  {
    assert a * total + b * total == (a + b) * total;
    assert (a + 1) * total + (b + 1) * total == (a + b + 2) * total;
    Ordered(a + b, c + 1, total);
    Ordered(c, a + b + 2, total);
  }

  lemma Ordered(a: nat, b: nat, total: nat)
    requires a * total < b * total
    ensures a < b
  {
  }

  /** Two upgrades at one moment add no more than one over both steps, and at most one TOKU less. */
  lemma UpgradesInSteps(a: nat, b: nat, remaining: nat, total: nat)
    ensures Prorata(a, remaining, total) + Prorata(b, remaining, total) <= Prorata(a + b, remaining, total)
    ensures Prorata(a + b, remaining, total) <= Prorata(a, remaining, total) + Prorata(b, remaining, total) + 1
  {
    if total > 0 {
      var m := Min(remaining, total);
      assert (a + b) * m == a * m + b * m;
      FloorsAdd(a * m, b * m, total);
    }
  }

  /** An upgrade before the period has begun to run makes its allowance the higher tier's. */
  lemma UpgradeAtTheStart(a: Account, tier: nat, now: nat)
    requires a.plan.Some? && a.row.Some?
    requires var p := a.plan.value; var slice := SliceAt(p.start, p.until, p.yearly, now);
             && slice.Some? && now <= slice.value.0 && p.grantedPeriod == PeriodKey(slice.value.0)
             && p.grantedTier < Step(tier) && a.row.value.granted == TIERS[Step(p.grantedTier)]
    ensures Next(a, ToTier(tier, now)).row.value.granted == TIERS[Step(tier)]
  {
    hide SliceAt, PeriodKey, UpgradeExtra;
    var p := a.plan.value;
    var (s, e) := SliceAt(p.start, p.until, p.yearly, now).value;
    SliceIsProper(p.start, p.until, p.yearly, now);
    WholeStep(p.grantedTier, tier, s, e, now);
  }

  /** Before the period has begun to run, the whole step is added. */
  lemma WholeStep(base: nat, tier: nat, s: nat, e: nat, now: nat)
    requires now <= s < e && base < Step(tier)
    ensures UpgradeExtra(base, Step(tier), s, e, now) + TIERS[Step(base)] == TIERS[Step(tier)]
  {
    hide Prorata;
    ProrataWithin(Monus(TIERS[Step(Step(tier))], TIERS[Step(base)]), Monus(e, now), e - s);
  }

  // ---- money back ------------------------------------------------------------------------------------

  /** Over: not paid at any later moment, and nothing granted or left. */
  predicate Over(a: Account, clock: nat) {
    && (a.plan.Some? ==> !a.plan.value.active && a.plan.value.until <= clock)
    && (a.row.Some? ==> a.row.value.granted == 0 && a.row.value.left == 0)
  }

  function ClockOf(es: seq<Event>, clock: nat): nat {
    if es == [] then clock else ClockAfter(ClockOf(es[..|es| - 1], clock), es[|es| - 1])
  }

  /** The beat, a tier change or another refund, under a clock that does not go back. */
  predicate Quiet(es: seq<Event>, clock: nat) {
    es != [] ==>
      var n, e := |es| - 1, es[|es| - 1];
      Quiet(es[..n], clock) && (e.Beat? || e.ToTier? || e.Back?) && e.now >= ClockOf(es[..n], clock)
  }

  lemma RefundEnds(a: Account, disputed: bool, now: nat)
    requires a.plan.Some?
    ensures Over(Next(a, Back(disputed, now)), now)
  {
    hide Closed;
  }

  lemma QuietStaysOver(a: Account, clock: nat, e: Event)
    requires Over(a, clock) && (e.Beat? || e.ToTier? || e.Back?) && e.now >= clock
    ensures Over(Next(a, e), e.now) && Granted(a, e).None?
  {
    hide Closed, Pruned;
  }

  /** Once the money has gone back, neither the beat nor a tier change brings the allowance back:
      only a new report of the rail can. */
  lemma {:induction false} NothingAfterMoneyBack(a: Account, clock: nat, es: seq<Event>)
    requires Over(a, clock) && Quiet(es, clock)
    ensures Grants(a, es) == [] && Over(After(a, es), ClockOf(es, clock))
  {
    hide Next, Granted, Over;
    if es != [] {
      var n := |es| - 1;
      NothingAfterMoneyBack(a, clock, es[..n]);
      QuietStaysOver(After(a, es[..n]), ClockOf(es[..n], clock), es[n]);
    }
  }

  // ---- the beat --------------------------------------------------------------------------------------

  /** After the beat: a paid plan's period has been granted, and without one no allowance outlives
      its end. */
  lemma AfterTheBeat(a: Account, now: nat)
    requires a.plan.Some? && PlanInTime(a)
    ensures var n := Next(a, Beat(now));
            && n.plan.Some? && n.plan.value.active == PaidAt(a.plan.value, now)
            && var slice := SliceAt(n.plan.value.start, n.plan.value.until, n.plan.value.yearly, now);
               if PaidAt(n.plan.value, now) && slice.Some? then Current(n.row) >= PeriodKey(slice.value.0)
               else n.row.None? || n.row.value.granted == 0 || now < n.row.value.ends
  {
    hide SliceAt, Closed, Pruned, Current;
    var p := a.plan.value;
    if SliceAt(p.start, p.until, p.yearly, now).Some? {
      SliceIsProper(p.start, p.until, p.yearly, now);
      var s := SliceAt(p.start, p.until, p.yearly, now).value.0;
      CurrentOf(s);
    }
  }

  lemma CurrentOf(s: nat)
    requires s < LIMIT
    ensures forall r: Row :: r.period == s / 1000 ==> Current(Some(r)) == PeriodKey(s)
  {
  }

  // ---- the evidence kept -----------------------------------------------------------------------------

  predicate OncePerPeriod(usage: seq<PeriodUsage>) {
    forall i, j :: 0 <= i < j < |usage| ==> usage[i].period != usage[j].period
  }

  /** What is kept of the usage is exactly what is young enough, in order, each once. */
  lemma {:induction false} KeptExactly(usage: seq<PeriodUsage>, now: nat)
    ensures forall u :: u in Kept(usage, now) <==> u in usage && Monus(now, u.period * 1000) < USAGE_KEEP_MS
    ensures OncePerPeriod(usage) ==> OncePerPeriod(Kept(usage, now))
  {
    if usage != [] {
      var rest := usage[1..];
      KeptExactly(rest, now);
      assert usage == [usage[0]] + rest;
      forall u | u in Kept(rest, now) && OncePerPeriod(usage) ensures u.period != usage[0].period {
        var k :| 0 <= k < |rest| && rest[k] == u;
        assert usage[k + 1] == u;
      }
    }
  }

  lemma ClosedOnce(p: Plan, row: Option<Row>)
    requires OncePerPeriod(p.usage)
    ensures OncePerPeriod(Closed(p, row).usage)
    ensures row.Some? && Current(row) != 0 && row.value.granted > 0 ==>
              exists u :: u in Closed(p, row).usage && u.period == Current(row)
  {
    hide Current, DrawnStep;
    var usage := Closed(p, row).usage;
    if usage != p.usage {
      assert usage[|usage| - 1].period == Current(row) && usage[|usage| - 1] in usage;
      assert forall i :: 0 <= i < |p.usage| ==> p.usage[i] in p.usage;
    }
  }

  predicate UsageOnce(a: Account) {
    a.plan.Some? ==> OncePerPeriod(a.plan.value.usage)
  }

  lemma StepKeepsUsage(a: Account, e: Event)
    requires UsageOnce(a) && (e.Arrive? ==> OncePerPeriod(e.plan.usage))
    ensures UsageOnce(Next(a, e))
  {
    hide SliceAt, Closed, Kept, OncePerPeriod, UpgradeExtra, PeriodKey, Current, Opened;
    NothingUsed();
    if a.plan.Some? && !e.Draw? && !e.Arrive? && !e.Leave? {
      KeptExactly(a.plan.value.usage, e.now);
    }
    match e
    case Report(tier, yearly, rail, now, start, until) =>
      ClosedOnce(Reported(if a.plan.Some? then a.plan.value else NO_PLAN, Step(tier), yearly, rail, now, start, until), a.row);
    case Beat(now) =>
      if a.plan.Some? {
        var p := Pruned(a.plan.value, now);
        ClosedOnce(p.(active := PaidAt(p, now)), a.row);
      }
    case Back(_, now) =>
      if a.plan.Some? {
        ClosedOnce(a.plan.value.(active := false, until := Min(a.plan.value.until, now), checkedAt := now), a.row);
      }
    case _ =>
  }

  lemma NothingUsed()
    ensures OncePerPeriod([])
  {
  }

  /** Over every run, an ended period leaves at most one step of usage. */
  lemma {:induction false} EachPeriodNotedOnce(es: seq<Event>)
    requires forall i :: 0 <= i < |es| && es[i].Arrive? ==> OncePerPeriod(es[i].plan.usage)
    ensures UsageOnce(After(NOBODY, es))
  {
    hide Next, UsageOnce;
    if es == [] {
      assert UsageOnce(NOBODY) by { NothingYetUsed(); }
    } else {
      EachPeriodNotedOnce(es[..|es| - 1]);
      StepKeepsUsage(After(NOBODY, es[..|es| - 1]), es[|es| - 1]);
    }
  }

  lemma NothingYetUsed()
    ensures UsageOnce(NOBODY)
  {
  }

  /** Whenever a period's allowance ends, by a new period, a lapse or a refund, its step is noted. */
  lemma EndedPeriodIsNoted(a: Account, e: Event)
    requires UsageOnce(a) && a.plan.Some? && a.row.Some? && a.row.value.granted > 0 && Current(a.row) != 0
    requires !e.Arrive? && !e.Leave? && (Granted(a, e).Some? || Next(a, e).row.value.granted == 0)
    ensures Next(a, e).plan.Some? && exists u :: u in Next(a, e).plan.value.usage && u.period == Current(a.row)
  {
    hide SliceAt, Closed, Kept, OncePerPeriod, UpgradeExtra, PeriodKey, Current;
    if !e.Draw? { KeptExactly(a.plan.value.usage, e.now); }
    match e
    case Report(tier, yearly, rail, now, start, until) =>
      ClosedOnce(Reported(a.plan.value, Step(tier), yearly, rail, now, start, until), a.row);
    case Beat(now) =>
      var p := Pruned(a.plan.value, now);
      ClosedOnce(p.(active := PaidAt(p, now)), a.row);
    case Back(_, now) =>
      ClosedOnce(a.plan.value.(active := false, until := Min(a.plan.value.until, now), checkedAt := now), a.row);
    case _ =>
  }

  /** What a step of usage says of an allowance and what is left of it: none of it drawn, under half,
      under 95 in a hundred, or as good as all. */
  predicate Says(drawn: Drawn, granted: nat, left: nat) {
    match drawn
    case NoneDrawn => granted <= left
    case SomeDrawn => left < granted && granted < 2 * left
    case MostDrawn => left < granted && 2 * left <= granted && granted < 20 * left
    case AllDrawn => left < granted && 20 * left <= granted
  }

  lemma ClosingNotes(p: Plan, row: Option<Row>)
    requires row.Some? && row.value.granted > 0 && Current(row) != 0 && forall u :: u in p.usage ==> u.period != Current(row)
    ensures var usage := Closed(p, row).usage;
            && usage != []
            && var u := usage[|usage| - 1];
               u.period == Current(row) && Says(u.drawn, row.value.granted, row.value.left) && u.tier == p.tier
  {
    hide Current;
  }

  /** The step noted for a period that ends now is of the plan's tier as it then stands, and says how
      much of the allowance was drawn. */
  lemma EndedPeriodIsNotedRight(a: Account, e: Event)
    requires a.plan.Some? && a.row.Some? && a.row.value.granted > 0 && Current(a.row) != 0
    requires forall u :: u in a.plan.value.usage ==> u.period != Current(a.row)
    requires (e.Report? || e.Beat? || e.Back?) && (Granted(a, e).Some? || Next(a, e).row.value.granted == 0)
    ensures var p := Next(a, e).plan;
            && p.Some? && p.value.usage != []
            && var u := p.value.usage[|p.value.usage| - 1];
               u.period == Current(a.row) && Says(u.drawn, a.row.value.granted, a.row.value.left)
               && u.tier == if e.Report? then Step(e.tier) else a.plan.value.tier
  {
    hide SliceAt, Closed, Kept, PeriodKey, Current, UpgradeExtra, Opened, Says;
    KeptExactly(a.plan.value.usage, e.now);
    match e
    case Report(tier, yearly, rail, now, start, until) =>
      ClosingNotes(Reported(a.plan.value, Step(tier), yearly, rail, now, start, until), a.row);
    case Beat(now) =>
      var p := Pruned(a.plan.value, now);
      ClosingNotes(p.(active := PaidAt(p, now)), a.row);
    case Back(_, now) =>
      ClosingNotes(a.plan.value.(active := false, until := Min(a.plan.value.until, now), checkedAt := now), a.row);
    case _ =>
  }

  const DAYS_120 := 10_368_000_000
  const DAYS_180 := 15_552_000_000

  /** A chargeback is remembered, and any other refund leaves that as it was. */
  lemma DisputeIsRemembered(a: Account, disputed: bool, now: nat)
    requires a.plan.Some?
    ensures var p := Next(a, Back(disputed, now)).plan;
            p.Some? && p.value.disputedAt == if disputed then now else a.plan.value.disputedAt
  {
    hide Closed;
  }

  /** The beat drops a step of usage exactly when its period began 120 days ago or earlier and there has
      been no chargeback for 180 days. */
  lemma UsageGoesExactlyWhenOld(a: Account, now: nat, u: PeriodUsage)
    requires a.plan.Some? && u in a.plan.value.usage && u.period != Current(a.row)
    ensures var p := Next(a, Beat(now)).plan;
            p.Some? && (u in p.value.usage <==>
              || now < u.period * 1000 + DAYS_120
              || (a.plan.value.disputedAt > 0 && now < a.plan.value.disputedAt + DAYS_180))
  {
    hide SliceAt, Kept, PeriodKey, Current, Opened;
    KeptExactly(a.plan.value.usage, now);
  }

  /** The usage noted before an event, and not too old for it. */
  function UsageBefore(a: Account, e: Event): seq<PeriodUsage>
    requires a.plan.Some?
  {
    if e.Beat? then Pruned(a.plan.value, e.now).usage else a.plan.value.usage
  }

  /** A step of usage is noted exactly when a period with an allowance ends, by a new one, a lapse or a
      refund, of which none is noted yet. */
  lemma NotedExactly(a: Account, e: Event)
    requires a.plan.Some? && (e.Report? || e.Beat? || e.Back?)
    ensures var p := Next(a, e).plan;
            && p.Some? && UsageBefore(a, e) <= p.value.usage && |p.value.usage| <= |UsageBefore(a, e)| + 1
            && (p.value.usage != UsageBefore(a, e) <==>
                  && a.row.Some? && a.row.value.granted > 0 && Current(a.row) != 0
                  && (Granted(a, e).Some? || e.Back? || (e.Beat? && Next(a, e).row != a.row))
                  && forall u :: u in UsageBefore(a, e) ==> u.period != Current(a.row))
  {
    hide SliceAt, Kept, PeriodKey, Current, UpgradeExtra, Opened, DrawnStep;
  }
}
