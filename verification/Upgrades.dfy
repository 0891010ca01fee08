/** What upgrades add to a period, against the highest tier whose allowance it has received: exactly
    which steps add more than the step above that, over every run and with plans moving. */
module Upgrades {
  import opened Wrappers
  import opened Naturals
  import opened Slices
  import opened Plans
  import opened PlanSafety
  import PlanEnds

  // ---- one step ------------------------------------------------------------------------------------

  /** What an event adds to the row there is. */
  function RaisedBy(a: Account, e: Event): nat {
    var row := Next(a, e).row;
    if e.Arrive? || Granted(a, e).Some? || a.row.None? || row.None? then 0 else Monus(row.value.granted, a.row.value.granted)
  }

  /** The slice the account's plan is in after an event. */
  function Running(a: Account, e: Event): Option<(nat, nat)> {
    var p := Next(a, e).plan;
    if p.None? || !(e.Report? || e.ToTier?) then None else SliceAt(p.value.start, p.value.until, p.value.yearly, e.now)
  }

  /** The promise: what is added is added to the period that is running, and is at most the share of the
      step above `had`, the highest tier whose allowance that period has received. */
  predicate AddsTheStep(a: Account, had: nat, e: Event) {
    RaisedBy(a, e) > 0 ==>
      var slice := Running(a, e);
      && slice.Some? && slice.value.0 < slice.value.1 && slice.value.0 / 1000 == a.row.value.period
      && Next(a, e).plan.Some?
      && RaisedBy(a, e) <= UpgradeExtra(had, Next(a, e).plan.value.tier, slice.value.0, slice.value.1, e.now)
  }

  /** The highest tier whose allowance the row's period has received, one event on. */
  function HadAfter(a: Account, had: nat, e: Event): nat {
    var p := Next(a, e).plan;
    if p.None? then had
    else if Granted(a, e).Some? then Step(p.value.tier)
    else if RaisedBy(a, e) > 0 then Max(had, Step(p.value.tier))
    else had
  }

  /** What can be checked before a step up from `base` to `tier`: it is no step up; or the row is the
      running period's, and `base` is not below `had` or only by what rounds away; or so little of the
      period is left that the whole step rounds to nothing. */
  predicate SmallEnough(row: Row, had: nat, slice: Option<(nat, nat)>, base: nat, tier: nat, now: nat)
    requires tier <= TOP
  {
    slice.None? || tier <= base || slice.value.0 >= slice.value.1
    || (var ((s, e), total) := (slice.value, slice.value.1 - slice.value.0);
        var left := Min(Monus(e, now), total);
        var above := Monus(TIERS[tier], TIERS[Step(had)]);
        var step := TIERS[tier] - TIERS[base];
        || (s / 1000 == row.period && (Step(had) <= base || (step - above) * left + above * left % total < total))
        || step * left < total)
  }

  /** The tier that the running period's allowance stands at in the record. */
  function BaseIn(p: Plan, slice: Option<(nat, nat)>): nat {
    if slice.Some? then GrantedBase(p, p.tier, slice.value.0) else 0
  }

  predicate Checked(a: Account, had: nat, e: Event) {
    match e
    case Report(tier, yearly, rail, now, start, until) =>
      var before := if a.plan.Some? then a.plan.value else NO_PLAN;
      var p := Reported(before, Step(tier), yearly, rail, now, start, until);
      var slice := SliceAt(p.start, p.until, p.yearly, now);
      a.row.None? || Granted(a, e).Some? || before.rail != rail
      || SmallEnough(a.row.value, had, slice, BaseIn(before, slice), Step(tier), now)
    case ToTier(tier, now) =>
      a.plan.None? || a.row.None?
      || (var p := a.plan.value;
          var slice := SliceAt(p.start, p.until, p.yearly, now);
          SmallEnough(a.row.value, had, slice, BaseIn(p, slice), Step(tier), now))
    case _ => true
  }

  lemma Ordered(a: nat, b: nat, total: nat)
    requires a <= b
    ensures a * total <= b * total
  {
  }

  /** Adding `x` leaves the quotient as it is exactly when it fits beside the remainder. */
  lemma FloorsAgree(x: nat, y: nat, total: nat)
    requires total > 0
    ensures PlanEnds.Quotient(x + y, total) <= PlanEnds.Quotient(y, total) <==> x + y % total < total
  {
    hide PlanEnds.Quotient;
    var p, q, r := PlanEnds.Quotient(x + y, total), PlanEnds.Quotient(y, total), y % total;
    PlanEnds.Floor(x + y, total);
    Whole(y, total);
    assert (q + 1) * total == q * total + total;
    if p <= q { Ordered(p + 1, q + 1, total); } else { Ordered(q + 1, p, total); }
  }

  lemma Whole(y: nat, total: nat)
    requires total > 0
    ensures y == PlanEnds.Quotient(y, total) * total + y % total
  {
  }

  /** The step up from `base` against the step up from `had`. */
  lemma AgainstHad(base: nat, had: nat, tier: nat, s: nat, e: nat, now: nat)
    requires base < tier <= TOP && s < e
    ensures var left := Min(Monus(e, now), e - s);
            var above, step := Monus(TIERS[tier], TIERS[Step(had)]), TIERS[tier] - TIERS[base];
            && (UpgradeExtra(base, tier, s, e, now) <= UpgradeExtra(had, tier, s, e, now)
                <==> Step(had) <= base || (step - above) * left + above * left % (e - s) < e - s)
            && (UpgradeExtra(base, tier, s, e, now) == 0 <==> step * left < e - s)
  {
    hide PlanEnds.Quotient, Prorata;
    var total, left := e - s, Min(Monus(e, now), e - s);
    var above, step := Monus(TIERS[tier], TIERS[Step(had)]), TIERS[tier] - TIERS[base];
    ExtraIsNothing(base, tier, s, e, now);
    if Step(had) <= base {
      PlanEnds.UpgradesInSteps(step, above - step, Monus(e, now), total);
    } else {
      assert step * left == (step - above) * left + above * left;
      FloorsAgree((step - above) * left, above * left, total);
      Share(step, Monus(e, now), total);
      Share(above, Monus(e, now), total);
    }
  }

  lemma Share(step: nat, remaining: nat, total: nat)
    requires total > 0
    ensures Prorata(step, remaining, total) == PlanEnds.Quotient(step * Min(remaining, total), total)
  {
  }

  /** What a step up adds, and the slice it is for. */
  lemma RaisedByReport(a: Account, e: Event)
    requires e.Report? && a.row.Some? && Granted(a, e).None?
    ensures var before := if a.plan.Some? then a.plan.value else NO_PLAN;
            var p := Reported(before, Step(e.tier), e.yearly, e.rail, e.now, e.start, e.until);
            var slice := SliceAt(p.start, p.until, p.yearly, e.now);
            && Next(a, e).plan.Some? && Next(a, e).plan.value.tier == Step(e.tier) && Running(a, e) == slice
            && (slice.Some? ==> slice.value.0 < slice.value.1)
            && RaisedBy(a, e)
               == if slice.Some? && before.rail == e.rail && Step(e.tier) > BaseIn(before, slice)
                  then UpgradeExtra(BaseIn(before, slice), Step(e.tier), slice.value.0, slice.value.1, e.now)
                  else 0
  {
    hide SliceAt, UpgradeExtra, PeriodKey, Closed, Current, Opened;
    var before := if a.plan.Some? then a.plan.value else NO_PLAN;
    var p := Reported(before, Step(e.tier), e.yearly, e.rail, e.now, e.start, e.until);
    if SliceAt(p.start, p.until, p.yearly, e.now).Some? { SliceIsProper(p.start, p.until, p.yearly, e.now); }
  }

  lemma RaisedByChange(a: Account, e: Event)
    requires e.ToTier? && a.plan.Some? && a.row.Some?
    ensures var p := a.plan.value;
            var slice := SliceAt(p.start, p.until, p.yearly, e.now);
            && Next(a, e).plan.Some? && Next(a, e).plan.value.tier == Step(e.tier) && Running(a, e) == slice
            && (slice.Some? ==> slice.value.0 < slice.value.1)
            && RaisedBy(a, e)
               == if slice.Some? && Step(e.tier) > BaseIn(p, slice)
                  then UpgradeExtra(BaseIn(p, slice), Step(e.tier), slice.value.0, slice.value.1, e.now)
                  else 0
  {
    hide SliceAt, UpgradeExtra, PeriodKey;
    var p := a.plan.value;
    if SliceAt(p.start, p.until, p.yearly, e.now).Some? { SliceIsProper(p.start, p.until, p.yearly, e.now); }
  }

  predicate MayRaise(a: Account, e: Event) {
    (e.Report? || (e.ToTier? && a.plan.Some?)) && a.row.Some? && Granted(a, e).None?
  }

  lemma OthersRaiseNothing(a: Account, e: Event)
    requires !MayRaise(a, e)
    ensures RaisedBy(a, e) == 0
  {
    hide SliceAt, Closed, Pruned, PeriodKey, Current, UpgradeExtra;
  }

  lemma StepExactly(a: Account, had: nat, e: Event, base: nat, known: bool)
    requires MayRaise(a, e) && Next(a, e).plan.Some? && Next(a, e).plan.value.tier == Step(e.tier)
    requires Running(a, e).Some? ==> Running(a, e).value.0 < Running(a, e).value.1
    requires RaisedBy(a, e)
             == if Running(a, e).Some? && known && Step(e.tier) > base
                then UpgradeExtra(base, Step(e.tier), Running(a, e).value.0, Running(a, e).value.1, e.now) else 0
    ensures AddsTheStep(a, had, e) <==> !known || SmallEnough(a.row.value, had, Running(a, e), base, Step(e.tier), e.now)
  {
    hide Next, UpgradeExtra, Granted, RaisedBy, Running;
    var slice := Running(a, e);
    if slice.Some? && known && base < Step(e.tier) {
      AgainstHad(base, had, Step(e.tier), slice.value.0, slice.value.1, e.now);
    }
  }

  /** One event adds at most the step above what the period has had, and to that period only, exactly
      when it was small enough: for any account, under any clock, whatever was reported. */
  lemma AddsTheStepExactly(a: Account, had: nat, e: Event)
    ensures AddsTheStep(a, had, e) <==> Checked(a, had, e)
  {
    hide Next, SliceAt, UpgradeExtra, PeriodKey, Granted, RaisedBy, Running, SmallEnough, AddsTheStep;
    if !MayRaise(a, e) {
      OthersRaiseNothing(a, e);
      NothingRaised(a, had, e);
      OthersPass(a, had, e);
    } else {
      var before := if a.plan.Some? then a.plan.value else NO_PLAN;
      if e.Report? { RaisedByReport(a, e); } else { RaisedByChange(a, e); }
      var slice := Running(a, e);
      var base := BaseIn(before, slice);
      StepExactly(a, had, e, base, e.ToTier? || before.rail == e.rail);
    }
  }
  lemma OthersPass(a: Account, had: nat, e: Event)
    requires !MayRaise(a, e)
    ensures Checked(a, had, e)
  {
    hide SliceAt, PeriodKey, SmallEnough, Current;
  }

  lemma NothingRaised(a: Account, had: nat, e: Event)
    requires RaisedBy(a, e) == 0
    ensures AddsTheStep(a, had, e)
  {
  }

  /** Then no more has been granted than the allowance of that tier. */
  lemma StaysWithinHad(a: Account, had: nat, e: Event)
    requires Within(a, had) && !e.Arrive? && AddsTheStep(a, had, e)
    ensures Within(Next(a, e), HadAfter(a, had, e))
  {
    hide Next, SliceAt, UpgradeExtra, PeriodKey, Granted, Running;
    OnlyGrantsBegin(a, e);
    if Granted(a, e).Some? {
      GrantedTier(a, e);
    } else if MayRaise(a, e) {
      NothingElseRaises(a, e);
      if RaisedBy(a, e) > 0 {
        StepAbove(had, Next(a, e).plan.value.tier, Running(a, e).value.0, Running(a, e).value.1, e.now);
      }
    } else {
      OthersRaiseNothing(a, e);
      if a.row.Some? { NothingElseRaises(a, e); }
    }
  }

  predicate Within(a: Account, had: nat) {
    had <= TOP && (a.row.Some? ==> a.row.value.granted <= TIERS[had])
  }

  lemma GrantedTier(a: Account, e: Event)
    requires Granted(a, e).Some?
    ensures Next(a, e).plan.Some? && Next(a, e).row.Some? && Next(a, e).row.value.granted == TIERS[Step(Next(a, e).plan.value.tier)]
  {
    hide SliceAt, Closed, Pruned, PeriodKey, Current;
  }

  lemma NothingElseRaises(a: Account, e: Event)
    requires !e.Arrive? && Granted(a, e).None? && a.row.Some? && Next(a, e).row.Some?
    ensures Next(a, e).row.value.granted <= a.row.value.granted + RaisedBy(a, e)
  {
    hide Next, Granted;
  }

  lemma StepAbove(had: nat, tier: nat, s: nat, e: nat, now: nat)
    requires s < e && had <= TOP
    ensures TIERS[had] + UpgradeExtra(had, tier, s, e, now) <= TIERS[Max(had, Step(tier))]
  {
    hide Prorata;
    ProrataWithin(Monus(TIERS[Step(tier)], TIERS[Step(had)]), Monus(e, now), e - s);
  }
}
