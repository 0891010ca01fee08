/** The record of what a period was granted: over which runs it stays true, step by step. */
module PlanRecord {
  import opened Wrappers
  import opened Slices
  import opened Plans
  import opened PlanSafety

  /** The record names the row's period, and no more was granted than its tier's allowance. */
  predicate RecordHolds(a: Account) {
    a.plan.Some? && a.row.Some? ==> WithinTier(a.plan.value, a.row.value)
  }

  /** An account as runs without a move make it. */
  predicate Named(a: Account) {
    && (a.plan.Some? || a.row.None?)
    && (a.row.Some? ==> a.row.value.period < U32)
    && PlanInTime(a)
  }

  /** A slice whose period is the one recorded, or a tier not above the plan's. */
  predicate InRecord(p: Plan, slice: Option<(nat, nat)>, tier: nat) {
    slice.Some? ==> PeriodKey(slice.value.0) == p.grantedPeriod || Step(tier) <= p.tier
  }

  /** What the caller can check before a step: a report grants anew, or is not about the known rail, or
      stays in the record; a tier change stays in the record; the beat opens nothing, or what was
      recorded already. */
  predicate RecordedStep(a: Account, e: Event) {
    match e
    case Report(tier, yearly, rail, now, start, until) =>
      a.plan.None? || a.row.None?
      || (var p := Reported(a.plan.value, Step(tier), yearly, rail, now, start, until);
          OpensAt(p, a.row, now).Some? || a.plan.value.rail != rail
          || InRecord(a.plan.value, SliceAt(p.start, p.until, p.yearly, now), tier))
    case ToTier(tier, now) =>
      a.plan.None? || a.row.None?
      || InRecord(a.plan.value, SliceAt(a.plan.value.start, a.plan.value.until, a.plan.value.yearly, now), tier)
    case Beat(now) =>
      var g := Granted(a, e);
      g.Some? ==>
        a.row.None? && PeriodKey(g.value.at) == a.plan.value.grantedPeriod
        && Step(a.plan.value.tier) <= a.plan.value.grantedTier <= TOP
    case _ => true
  }

  predicate Stays(e: Event) {
    !e.Arrive? && !e.Leave?
  }

  lemma NamedStep(a: Account, e: Event)
    requires Named(a) && InTime(e) && Stays(e)
    ensures Named(Next(a, e))
  {
    hide SliceAt, Closed, Pruned, UpgradeExtra, Current, PeriodKey, Granted;
    StepInTime(a, e);
    OnlyGrantsBegin(a, e);
    GrantInTime(a, e);
  }

  lemma GrantInTime(a: Account, e: Event)
    requires PlanInTime(a) && InTime(e)
    ensures Granted(a, e).Some? ==> Granted(a, e).value.at / 1000 < U32
  {
    hide SliceAt, Current, PeriodKey;
    match e
    case Report(tier, yearly, rail, now, start, until) =>
      var before := if a.plan.Some? then a.plan.value else NO_PLAN;
      GrantIsProper(Reported(before, Step(tier), yearly, rail, now, start, until), a.row, now);
    case Beat(now) => if a.plan.Some? { GrantIsProper(a.plan.value, a.row, now); }
    case _ =>
  }

  lemma ReportRecords(a: Account, e: Event)
    requires Named(a) && RecordHolds(a) && InTime(e) && e.Report?
    ensures RecordHolds(Next(a, e)) <==> RecordedStep(a, e)
  {
    hide SliceAt, Closed, UpgradeExtra;
    var before := if a.plan.Some? then a.plan.value else NO_PLAN;
    var p := Reported(before, Step(e.tier), e.yearly, e.rail, e.now, e.start, e.until);
    var slice := SliceAt(p.start, p.until, p.yearly, e.now);
    if slice.Some? {
      SliceIsProper(p.start, p.until, p.yearly, e.now);
      StepWithin(GrantedBase(p, before.tier, slice.value.0), p.tier, slice.value.0, slice.value.1, e.now);
    }
  }

  lemma ToTierRecords(a: Account, e: Event)
    requires Named(a) && RecordHolds(a) && e.ToTier?
    ensures RecordHolds(Next(a, e)) <==> RecordedStep(a, e)
  {
    hide SliceAt, UpgradeExtra, PeriodKey;
    if a.plan.Some? {
      var p := a.plan.value;
      var slice := SliceAt(p.start, p.until, p.yearly, e.now);
      if slice.Some? {
        SliceIsProper(p.start, p.until, p.yearly, e.now);
        StepWithin(GrantedBase(p, p.tier, slice.value.0), Step(e.tier), slice.value.0, slice.value.1, e.now);
      }
    }
  }

  lemma BeatRecords(a: Account, e: Event)
    requires Named(a) && RecordHolds(a) && e.Beat?
    ensures RecordHolds(Next(a, e)) <==> RecordedStep(a, e)
  {
    hide SliceAt, Next, OpensAt, PaidAt;
    if Granted(a, e).Some? {
      BeatOpens(a.plan.value, a.row, e.now);
      GrantInTime(a, e);
      OpenedKeepsRecord(a, e);
    } else {
      QuietBeat(a, e);
    }
  }

  /** A row opened anew names a period the record names only if there was no row before. */
  lemma OpenedKeepsRecord(a: Account, e: Event)
    requires Named(a) && RecordHolds(a) && e.Beat? && Granted(a, e).Some? && Granted(a, e).value.at / 1000 < U32
    ensures a.row.Some? ==> PeriodKey(Granted(a, e).value.at) != a.plan.value.grantedPeriod
    ensures PeriodKey(Granted(a, e).value.at) == Granted(a, e).value.at / 1000
  {
    hide SliceAt;
  }

  lemma QuietBeat(a: Account, e: Event)
    requires RecordHolds(a) && e.Beat? && Granted(a, e).None?
    ensures RecordHolds(Next(a, e))
  {
    hide SliceAt, Closed, Pruned, PeriodKey, Current;
  }

  /** One step: from a record that holds, it holds exactly when the step was recorded. */
  lemma StepKeepsRecordExactly(a: Account, e: Event)
    requires Named(a) && RecordHolds(a) && InTime(e) && Stays(e)
    ensures RecordHolds(Next(a, e)) <==> RecordedStep(a, e)
  {
    hide Next, RecordedStep, RecordHolds;
    match e
    case Report(_, _, _, _, _, _) => ReportRecords(a, e);
    case ToTier(_, _) => ToTierRecords(a, e);
    case Beat(_) => BeatRecords(a, e);
    case _ => OthersKeepRecord(a, e);
  }

  lemma OthersKeepRecord(a: Account, e: Event)
    requires RecordHolds(a) && (e.Back? || e.Draw?)
    ensures RecordHolds(Next(a, e)) && RecordedStep(a, e)
  {
    hide Closed;
  }

  predicate AllRecorded(es: seq<Event>) {
    es != [] ==> AllRecorded(es[..|es| - 1]) && RecordedStep(After(NOBODY, es[..|es| - 1]), es[|es| - 1])
  }

  lemma {:induction false} RecordFollowsSteps(es: seq<Event>)
    requires forall i :: 0 <= i < |es| ==> InTime(es[i]) && Stays(es[i])
    ensures Named(After(NOBODY, es))
    ensures AllRecorded(es) ==> RecordHolds(After(NOBODY, es))
  {
    hide Next, RecordedStep, RecordHolds, Named;
    if es == [] {
      NobodyIsNamed();
    } else {
      var n := |es| - 1;
      var a := After(NOBODY, es[..n]);
      RecordFollowsSteps(es[..n]);
      NamedStep(a, es[n]);
      if AllRecorded(es) { StepKeepsRecordExactly(a, es[n]); }
    }
  }

  lemma NobodyIsNamed()
    ensures Named(NOBODY) && RecordHolds(NOBODY)
  {
  }

  /** Over every run, monthly or yearly, under any clock and whatever starts the rail reports: the record
      holds at every moment exactly when every step was a recorded one. */
  lemma {:induction false} RecordHoldsExactlyOverRecordedSteps(es: seq<Event>)
    requires forall i :: 0 <= i < |es| ==> InTime(es[i]) && Stays(es[i])
    ensures (forall n :: 0 <= n <= |es| ==> RecordHolds(After(NOBODY, es[..n]))) <==> AllRecorded(es)
  {
    hide Next, RecordedStep, RecordHolds, Named;
    if es == [] {
      NobodyIsNamed();
      assert forall n :: 0 <= n <= |es| ==> es[..n] == [];
    } else {
      var n := |es| - 1;
      var a := After(NOBODY, es[..n]);
      RecordHoldsExactlyOverRecordedSteps(es[..n]);
      RecordFollowsSteps(es[..n]);
      assert forall k :: 0 <= k <= n ==> es[..n][..k] == es[..k];
      assert es[..|es|] == es;
      if AllRecorded(es[..n]) {
        StepKeepsRecordExactly(a, es[n]);
        if RecordHolds(After(NOBODY, es)) {
          forall k | 0 <= k <= |es| ensures RecordHolds(After(NOBODY, es[..k])) {
            assert k <= n ==> RecordHolds(After(NOBODY, es[..n][..k]));
          }
        }
      } else {
        var k :| 0 <= k <= n && !RecordHolds(After(NOBODY, es[..n][..k]));
        assert !RecordHolds(After(NOBODY, es[..k]));
      }
    }
  }

  /** A forward run of a monthly plan is one of recorded steps, one after the other. */
  lemma {:induction false} ForwardRunsAreRecorded(es: seq<Event>)
    requires ForwardRun(es) && forall i :: 0 <= i < |es| ==> InTime(es[i])
    ensures AllRecorded(es)
  {
    hide Next, RecordedStep, RecordHolds, Named;
    if es != [] {
      var n := |es| - 1;
      StaysForward(es);
      ForwardRunsAreRecorded(es[..n]);
      RecordFollowsSteps(es[..n]);
      MonthlyHolds(es);
      StepKeepsRecordExactly(After(NOBODY, es[..n]), es[n]);
    }
  }

  lemma {:induction false} StaysForward(es: seq<Event>)
    requires ForwardRun(es)
    ensures forall i :: 0 <= i < |es| ==> Stays(es[i])
  {
    if es != [] { StaysForward(es[..|es| - 1]); }
  }

  lemma MonthlyHolds(es: seq<Event>)
    requires ForwardRun(es)
    ensures RecordHolds(After(NOBODY, es))
  {
    hide After, ForwardRun, WithinTier, PeriodKey;
    MonthlyInvHolds(es);
  }

  // ---- reports of an older start --------------------------------------------------------------------

  /** A report of the known rail with a start older than the granted period's keeps the record exactly
      when it reports no running period, or no higher tier. */
  lemma OlderReportKeepsRecordExactly(a: Account, clock: nat, e: Event)
    requires MonthlyInv(a, clock) && a.plan.Some? && a.row.Some?
    requires e.Report? && InTime(e) && !e.yearly && e.rail == a.plan.value.rail
    requires 0 < e.start < a.plan.value.start && PeriodKey(e.start) < a.row.value.period
    ensures var n := Next(a, e);
            && n.plan.Some? && n.row.Some?
            && (n.row.value.period == n.plan.value.grantedPeriod
                <==> e.until <= e.now || e.start >= e.until || Step(e.tier) <= a.plan.value.tier)
  {
    hide Closed, UpgradeExtra;
    KeysInOrder(e.start, a.plan.value.start);
  }

  /** The clock matters too: set back behind a period that was reported when it was already over, it
      lets a tier change add that period's step to the one before. */
  lemma ClockBackBreaksTheBound()
    ensures exists es: seq<Event> ::
              && |es| == 3 && (forall i :: 0 <= i < 3 ==> InTime(es[i]) && (es[i].Report? ==> !es[i].yearly))
              && es[0].Report? && es[1].Report? && es[0].start < es[1].start
              && After(NOBODY, es).row.Some? && After(NOBODY, es).plan.Some? && After(NOBODY, es).plan.value.grantedTier <= TOP
              && After(NOBODY, es).row.value.granted > TIERS[After(NOBODY, es).plan.value.grantedTier]
  {
    hide Next, After;
    var r := "iap:1";
    var e0 := Report(1, false, r, 2_000_000, 2_000_000, 4_000_000);
    var e1 := Report(0, false, r, 9_000_000, 5_000_000, 8_000_000);
    var e2 := ToTier(1, 6_000_000);
    var p0 := Plan(1, false, r, 2_000_000, 4_000_000, true, 2_000_000, 0, [], 1, 2000);
    var row := Row(2000, 4_000_000, 1_500_000, 1_500_000);
    var p1 := Plan(0, false, r, 5_000_000, 8_000_000, false, 9_000_000, 0, [], 1, 2000);
    PaidAhead(e0, p0, row);
    OverWhenReported(e1, p0, p1, row);
    AddedBehind(e2, p1, row);
    ThreeSteps(e0, e1, e2);
    var es := [e0, e1, e2];
    assert After(NOBODY, es) == Next(Account(Some(p1), Some(row)), e2);
    assert After(NOBODY, es).row.value.granted == 2_033_333;
  }

  lemma ThreeSteps(e0: Event, e1: Event, e2: Event)
    ensures After(NOBODY, [e0, e1, e2]) == Next(Next(Next(NOBODY, e0), e1), e2)
  {
    hide Next;
    assert [] + [e0] == [e0] && [e0] + [e1] == [e0, e1] && [e0, e1] + [e2] == [e0, e1, e2];
    AfterOne(NOBODY, [], e0);
    AfterOne(NOBODY, [e0], e1);
    AfterOne(NOBODY, [e0, e1], e2);
  }

  lemma PaidAhead(e: Event, p: Plan, row: Row)
    requires e == Report(1, false, "iap:1", 2_000_000, 2_000_000, 4_000_000)
    requires p == Plan(1, false, "iap:1", 2_000_000, 4_000_000, true, 2_000_000, 0, [], 1, 2000)
    requires row == Row(2000, 4_000_000, 1_500_000, 1_500_000)
    ensures Next(NOBODY, e) == Account(Some(p), Some(row))
  {
  }

  lemma OverWhenReported(e: Event, p: Plan, q: Plan, row: Row)
    requires e == Report(0, false, "iap:1", 9_000_000, 5_000_000, 8_000_000)
    requires p == Plan(1, false, "iap:1", 2_000_000, 4_000_000, true, 2_000_000, 0, [], 1, 2000)
    requires q == Plan(0, false, "iap:1", 5_000_000, 8_000_000, false, 9_000_000, 0, [], 1, 2000)
    ensures Next(Account(Some(p), Some(row)), e) == Account(Some(q), Some(row))
  {
    hide Closed;
  }

  lemma AddedBehind(e: Event, q: Plan, row: Row)
    requires e == ToTier(1, 6_000_000) && row == Row(2000, 4_000_000, 1_500_000, 1_500_000)
    requires q == Plan(0, false, "iap:1", 5_000_000, 8_000_000, false, 9_000_000, 0, [], 1, 2000)
    ensures var n := Next(Account(Some(q), Some(row)), e);
            && n.plan.Some? && n.plan.value.grantedTier == 1
            && n.row == Some(Row(2000, 4_000_000, 2_033_333, 2_033_333))
  {
  }
}
