/** Upgrades over whole runs: on one account, on all the tables with plans moving between them, and
    the runs that always keep to the step above what a period has had. */
module TierRuns {
  import opened Wrappers
  import opened Names
  import opened Slices
  import opened Plans
  import opened PlanSafety
  import opened Upgrades
  import Calendar
  import NoteOrPlan
  import PlanEnds
  import PlanRuns

  // ---- one account -----------------------------------------------------------------------------------

  /** The highest tier whose allowance the row's period has received in a run. */
  function Had(es: seq<Event>): nat {
    if es == [] then 0
    else
      var n := |es| - 1;
      HadAfter(After(NOBODY, es[..n]), Had(es[..n]), es[n])
  }

  predicate RunAdds(es: seq<Event>) {
    es != [] ==>
      var n := |es| - 1;
      RunAdds(es[..n]) && AddsTheStep(After(NOBODY, es[..n]), Had(es[..n]), es[n])
  }

  predicate RunChecked(es: seq<Event>) {
    es != [] ==>
      var n := |es| - 1;
      RunChecked(es[..n]) && Checked(After(NOBODY, es[..n]), Had(es[..n]), es[n])
  }

  /** Over every run on one account, monthly or yearly, under any clock and whatever starts the rail
      reports: every event adds at most the step above what its period has had exactly when every event
      was small enough. */
  lemma {:induction false} RunAddsExactly(es: seq<Event>)
    ensures RunAdds(es) <==> RunChecked(es)
  {
    hide AddsTheStep, Checked, HadAfter, Next;
    if es != [] {
      RunAddsExactly(es[..|es| - 1]);
      AddsTheStepExactly(After(NOBODY, es[..|es| - 1]), Had(es[..|es| - 1]), es[|es| - 1]);
    }
  }

  /** A run in which the clock and the starts a monthly plan's rail reports do not go back. */
  lemma {:induction false} ForwardRunsAreChecked(es: seq<Event>)
    requires ForwardRun(es)
    ensures RunChecked(es)
    ensures After(NOBODY, es).row.Some? ==> After(NOBODY, es).plan.Some? && Had(es) <= After(NOBODY, es).plan.value.grantedTier
  {
    hide Next, Checked, HadAfter, MonthlyInv, Forward;
    if es != [] {
      var n := |es| - 1;
      ForwardRunsAreChecked(es[..n]);
      MonthlyInvHolds(es[..n]);
      ForwardStepIsChecked(After(NOBODY, es[..n]), Clock(es[..n]), Had(es[..n]), es[n]);
    }
  }

  lemma ForwardStepIsChecked(a: Account, clock: nat, had: nat, e: Event)
    requires MonthlyInv(a, clock) && Forward(a, clock, e)
    requires a.row.Some? ==> a.plan.Some? && had <= a.plan.value.grantedTier
    ensures Checked(a, had, e)
    ensures var n := Next(a, e); n.row.Some? ==> n.plan.Some? && HadAfter(a, had, e) <= n.plan.value.grantedTier
  {
    hide Next, Checked, HadAfter, MonthlyInv;
    match e
    case Report(_, _, _, _, _, _) => ForwardReport(a, clock, had, e);
    case ToTier(_, _) => ForwardChange(a, clock, had, e);
    case Beat(_) => ForwardBeat(a, clock, had, e);
    case _ => ForwardElse(a, clock, had, e);
  }

  lemma ForwardReport(a: Account, clock: nat, had: nat, e: Event)
    requires MonthlyInv(a, clock) && Forward(a, clock, e) && e.Report?
    requires a.row.Some? ==> a.plan.Some? && had <= a.plan.value.grantedTier
    ensures Checked(a, had, e)
    ensures var n := Next(a, e); n.row.Some? ==> n.plan.Some? && HadAfter(a, had, e) <= n.plan.value.grantedTier
  {
    hide UpgradeExtra, Closed;
  }

  lemma ForwardChange(a: Account, clock: nat, had: nat, e: Event)
    requires MonthlyInv(a, clock) && Forward(a, clock, e) && e.ToTier?
    requires a.row.Some? ==> a.plan.Some? && had <= a.plan.value.grantedTier
    ensures Checked(a, had, e)
    ensures var n := Next(a, e); n.row.Some? ==> n.plan.Some? && HadAfter(a, had, e) <= n.plan.value.grantedTier
  {
    hide UpgradeExtra;
  }

  lemma ForwardBeat(a: Account, clock: nat, had: nat, e: Event)
    requires MonthlyInv(a, clock) && Forward(a, clock, e) && e.Beat?
    requires a.row.Some? ==> a.plan.Some? && had <= a.plan.value.grantedTier
    ensures Checked(a, had, e)
    ensures var n := Next(a, e); n.row.Some? ==> n.plan.Some? && HadAfter(a, had, e) <= n.plan.value.grantedTier
  {
    hide Closed, Pruned, PeriodKey;
    if a.plan.Some? { KeysInOrder(a.plan.value.start, a.plan.value.start); }
  }

  lemma ForwardElse(a: Account, clock: nat, had: nat, e: Event)
    requires MonthlyInv(a, clock) && Forward(a, clock, e) && (e.Back? || e.Draw?)
    requires a.row.Some? ==> a.plan.Some? && had <= a.plan.value.grantedTier
    ensures Checked(a, had, e)
    ensures var n := Next(a, e); n.row.Some? ==> n.plan.Some? && HadAfter(a, had, e) <= n.plan.value.grantedTier
  {
    hide Closed, PeriodKey;
  }

  // ---- plans that are not lowered ------------------------------------------------------------------------

  /** No tier goes down, and what is reported or changed is about the row's own period or a later one
      that it opens. Yearly plans, whose months the beat opens, are meant as well as monthly ones. */
  predicate Climbing(a: Account, e: Event) {
    match e
    case Report(tier, yearly, rail, now, start, until) =>
      var p := Reported(if a.plan.Some? then a.plan.value else NO_PLAN, Step(tier), yearly, rail, now, start, until);
      until <= LIMIT && (a.plan.Some? ==> a.plan.value.tier <= Step(tier)) && (Granted(a, e).Some? || OwnPeriod(a.row, p, now))
    case ToTier(tier, now) => a.plan.Some? ==> a.plan.value.tier <= Step(tier) && OwnPeriod(a.row, a.plan.value, now)
    case Arrive(_, _) => false
    case Leave => false
    case _ => true
  }

  predicate OwnPeriod(row: Option<Row>, p: Plan, now: nat) {
    var slice := SliceAt(p.start, p.until, p.yearly, now);
    slice.Some? ==> row.Some? && slice.value.0 / 1000 == row.value.period
  }

  predicate ClimbingRun(es: seq<Event>) {
    es != [] ==> ClimbingRun(es[..|es| - 1]) && Climbing(After(NOBODY, es[..|es| - 1]), es[|es| - 1])
  }

  /** What such runs keep: the record of the row's period, if it is one, does not lag behind. */
  predicate Climbed(a: Account, had: nat) {
    && had <= TOP && PlanInTime(a)
    && (a.plan.Some? ==> a.plan.value.tier <= TOP)
    && (a.row.None? ==> a.plan.Some? ==> a.plan.value.grantedPeriod == 0)
    && (a.row.Some? ==>
          && a.plan.Some? && had <= a.plan.value.tier
          && 0 < a.row.value.period < U32 && a.plan.value.grantedPeriod <= a.row.value.period
          && (a.plan.value.grantedPeriod == a.row.value.period ==> had <= a.plan.value.grantedTier))
  }

  lemma {:induction false} ClimbingRunsAreChecked(es: seq<Event>)
    requires ClimbingRun(es)
    ensures RunChecked(es) && Climbed(After(NOBODY, es), Had(es))
  {
    hide Next, Checked, HadAfter, Climbed, Climbing;
    if es == [] {
      NobodyClimbed();
    } else {
      var n := |es| - 1;
      ClimbingRunsAreChecked(es[..n]);
      ClimbingStep(After(NOBODY, es[..n]), Had(es[..n]), es[n]);
    }
  }

  lemma NobodyClimbed()
    ensures Climbed(NOBODY, 0)
  {
  }

  lemma ClimbingStep(a: Account, had: nat, e: Event)
    requires Climbed(a, had) && Climbing(a, e)
    ensures Checked(a, had, e) && Climbed(Next(a, e), HadAfter(a, had, e))
  {
    hide Next, Checked, HadAfter, Climbed, Climbing;
    match e
    case Report(_, _, _, _, _, _) => if Granted(a, e).Some? { ClimbingGrant(a, had, e); } else { ClimbingReport(a, had, e); }
    case ToTier(_, _) => ClimbingChange(a, had, e);
    case Beat(_) => if Granted(a, e).Some? { ClimbingGrant(a, had, e); } else { ClimbingElse(a, had, e); }
    case _ => ClimbingElse(a, had, e);
  }

  lemma ClimbingGrant(a: Account, had: nat, e: Event)
    requires Climbed(a, had) && Climbing(a, e) && Granted(a, e).Some?
    ensures Checked(a, had, e) && Climbed(Next(a, e), HadAfter(a, had, e))
  {
    hide SliceAt, Next, Granted, Current, PeriodKey, SmallEnough, Climbing, Checked, RaisedBy, Calendar.AddMonths;
    GrantIsChecked(a, had, e);
    GrantShape(a, e);
    OnlyGrantsBegin(a, e);
    StepInTime(a, e);
    GrantRises(a, e);
    CurrentKey(Next(a, e).row);
    CurrentKey(a.row);
  }

  lemma GrantIsChecked(a: Account, had: nat, e: Event)
    requires Granted(a, e).Some?
    ensures Checked(a, had, e)
  {
    hide SmallEnough, SliceAt;
  }

  lemma CurrentKey(row: Option<Row>)
    ensures row.Some? && row.value.period < U32 ==> Current(row) == row.value.period
    ensures Current(row) < U32
  {
  }

  /** What a grant leaves in the plan. */
  lemma GrantShape(a: Account, e: Event)
    requires Climbed(a, 0) && Climbing(a, e) && Granted(a, e).Some?
    ensures Next(a, e).plan.Some? && Next(a, e).plan.value.tier <= TOP && InTime(e)
    ensures var (at, p) := (Granted(a, e).value.at, Next(a, e).plan.value);
            at / 1000 < U32 && at > 0
            && if e.Beat? then a.plan.Some? && p.grantedPeriod == a.plan.value.grantedPeriod
               else p.grantedPeriod == at / 1000 && p.grantedTier == p.tier
  {
    hide SliceAt, Closed, Pruned, UpgradeExtra, Opened;
    var p := if e.Beat? then a.plan.value
             else Reported(if a.plan.Some? then a.plan.value else NO_PLAN, Step(e.tier), e.yearly, e.rail, e.now, e.start, e.until);
    SliceIsProper(p.start, p.until, p.yearly, e.now);
  }

  lemma ClimbingReport(a: Account, had: nat, e: Event)
    requires Climbed(a, had) && Climbing(a, e) && e.Report? && Granted(a, e).None?
    ensures Checked(a, had, e) && Climbed(Next(a, e), HadAfter(a, had, e))
  {
    hide SliceAt, Closed, UpgradeExtra;
    var p := Reported(if a.plan.Some? then a.plan.value else NO_PLAN, Step(e.tier), e.yearly, e.rail, e.now, e.start, e.until);
    if SliceAt(p.start, p.until, p.yearly, e.now).Some? { SliceIsProper(p.start, p.until, p.yearly, e.now); }
  }

  lemma ClimbingChange(a: Account, had: nat, e: Event)
    requires Climbed(a, had) && Climbing(a, e) && e.ToTier?
    ensures Checked(a, had, e) && Climbed(Next(a, e), HadAfter(a, had, e))
  {
    hide SliceAt, UpgradeExtra;
    if a.plan.Some? {
      var p := a.plan.value;
      if SliceAt(p.start, p.until, p.yearly, e.now).Some? { SliceIsProper(p.start, p.until, p.yearly, e.now); }
    }
  }

  lemma ClimbingElse(a: Account, had: nat, e: Event)
    requires Climbed(a, had) && Climbing(a, e) && !e.Report? && !e.ToTier? && Granted(a, e).None?
    ensures Checked(a, had, e) && Climbed(Next(a, e), HadAfter(a, had, e))
  {
    hide SliceAt, Closed, Pruned, UpgradeExtra, PeriodKey, Current;
  }

  // ---- all accounts, with plans moving -------------------------------------------------------------------

  /** The same on the tables: a row that moves brings along what its period has received. */
  function HadOf(es: seq<NoteOrPlan.Event>, key: Acct): nat {
    if es == [] then 0
    else
      var n := |es| - 1;
      var b := NoteOrPlan.After(EMPTY, es[..n]);
      match PlanRuns.OnAccount(b, es[n], key)
      case None => HadOf(es[..n], key)
      case Some(Arrive(_, row)) => HadOf(es[..n], if row.Some? then b.rails[es[n].rail] else key)
      case Some(x) => HadAfter(At(b, key), HadOf(es[..n], key), x)
  }

  predicate TablesAdd(es: seq<NoteOrPlan.Event>, key: Acct) {
    es != [] ==>
      var n := |es| - 1;
      var b := NoteOrPlan.After(EMPTY, es[..n]);
      var x := PlanRuns.OnAccount(b, es[n], key);
      TablesAdd(es[..n], key) && (x.Some? ==> AddsTheStep(At(b, key), HadOf(es[..n], key), x.value))
  }

  predicate TablesChecked(es: seq<NoteOrPlan.Event>, key: Acct) {
    es != [] ==>
      var n := |es| - 1;
      var b := NoteOrPlan.After(EMPTY, es[..n]);
      var x := PlanRuns.OnAccount(b, es[n], key);
      TablesChecked(es[..n], key) && (x.Some? ==> Checked(At(b, key), HadOf(es[..n], key), x.value))
  }

  /** Over every run on the tables, moves included, and for every account. */
  lemma {:induction false} TablesAddExactly(es: seq<NoteOrPlan.Event>, key: Acct)
    ensures TablesAdd(es, key) <==> TablesChecked(es, key)
  {
    hide AddsTheStep, Checked, HadAfter, NoteOrPlan.Next, PlanRuns.OnAccount, At;
    if es != [] {
      var n := |es| - 1;
      var b := NoteOrPlan.After(EMPTY, es[..n]);
      TablesAddExactly(es[..n], key);
      var x := PlanRuns.OnAccount(b, es[n], key);
      if x.Some? { AddsTheStepExactly(At(b, key), HadOf(es[..n], key), x.value); }
    }
  }

  /** And then no row was ever granted more than one allowance of the highest tier its period has had,
      wherever it has moved. */
  lemma {:induction false} GrantedWithinHad(es: seq<NoteOrPlan.Event>, key: Acct)
    requires forall k :: TablesChecked(es, k)
    ensures Within(At(NoteOrPlan.After(EMPTY, es), key), HadOf(es, key))
  {
    hide AddsTheStep, Checked, HadAfter, NoteOrPlan.Next, PlanRuns.OnAccount, Within, At, Carried;
    if es == [] {
      NothingYet(key);
    } else {
      var n := |es| - 1;
      var b := NoteOrPlan.After(EMPTY, es[..n]);
      assert forall k :: TablesChecked(es, k) ==> TablesChecked(es[..n], k);
      GrantedWithinHad(es[..n], key);
      PlanRuns.StepOnAccount(b, es[n], key);
      var x := PlanRuns.OnAccount(b, es[n], key);
      if x.Some? {
        if x.value.Arrive? {
          ArrivesFrom(b, es[n], key);
          GrantedWithinHad(es[..n], b.rails[es[n].rail]);
          CarriedWithin(At(b, key), At(b, b.rails[es[n].rail]), x.value, HadOf(es[..n], key), HadOf(es[..n], b.rails[es[n].rail]));
        } else {
          assert TablesChecked(es, key);
          AddsTheStepExactly(At(b, key), HadOf(es[..n], key), x.value);
          StaysWithinHad(At(b, key), HadOf(es[..n], key), x.value);
        }
      }
    }
  }

  lemma NothingYet(key: Acct)
    ensures Within(At(EMPTY, key), 0)
  {
  }

  lemma ArrivesFrom(b: Book, e: NoteOrPlan.Event, key: Acct)
    requires var x := PlanRuns.OnAccount(b, e, key); x.Some? && x.value.Arrive?
    ensures e.MoveTo? && e.rail in b.rails && PlanRuns.OnAccount(b, e, key).value.row == At(b, b.rails[e.rail]).row
  {
  }

  lemma CarriedWithin(a: Account, from: Account, e: Event, had: nat, hadThere: nat)
    requires e.Arrive? && e.row == from.row && Within(a, had) && Within(from, hadThere)
    ensures Within(Next(a, e), if e.row.Some? then hadThere else had)
  {
  }

  /** An account that no plan moves to has the run of its own share. */
  lemma {:induction false} WithoutArrivals(es: seq<NoteOrPlan.Event>, key: Acct)
    requires var xs := PlanRuns.Share(EMPTY, es, key); forall i :: 0 <= i < |xs| ==> !xs[i].Arrive?
    ensures var xs := PlanRuns.Share(EMPTY, es, key);
            HadOf(es, key) == Had(xs) && (TablesChecked(es, key) <==> RunChecked(xs))
  {
    hide Checked, HadAfter, NoteOrPlan.Next, PlanRuns.OnAccount, At;
    if es != [] {
      var n := |es| - 1;
      var b := NoteOrPlan.After(EMPTY, es[..n]);
      var before := PlanRuns.Share(EMPTY, es[..n], key);
      var x := PlanRuns.OnAccount(b, es[n], key);
      assert PlanRuns.Share(EMPTY, es, key) == before + if x.Some? then [x.value] else [];
      assert forall i :: 0 <= i < |before| ==> PlanRuns.Share(EMPTY, es, key)[i] == before[i];
      WithoutArrivals(es[..n], key);
      if x.Some? {
        assert PlanRuns.Share(EMPTY, es, key)[|before|] == x.value;
        NobodyAt(key);
        PlanRuns.RunOnAccount(EMPTY, es[..n], key);
        OneMore(before, x.value);
      } else {
        assert before + [] == before;
      }
    }
  }

  lemma NobodyAt(key: Acct)
    ensures At(EMPTY, key) == NOBODY
  {
  }

  lemma OneMore(xs: seq<Event>, x: Event)
    ensures Had(xs + [x]) == HadAfter(After(NOBODY, xs), Had(xs), x)
    ensures RunChecked(xs + [x]) <==> RunChecked(xs) && Checked(After(NOBODY, xs), Had(xs), x)
  {
    assert (xs + [x])[..|xs|] == xs;
  }

  // ---- runs that add more --------------------------------------------------------------------------------

  /** A yearly plan as it is reported, and as it stands once the beat has opened its second month. */
  function YearPlan(tier: nat, s: nat): Plan {
    NO_PLAN.(tier := tier, yearly := true, rail := "r", start := s, until := Calendar.AddMonths(s, 12),
             active := true, checkedAt := s, grantedTier := tier, grantedPeriod := s / 1000)
  }

  predicate Year(s: nat) {
    1000 <= s && Calendar.AddMonths(s, 12) <= LIMIT
  }

  lemma MonthsOfTheYear(s: nat)
    requires Year(s)
    ensures var (m, y) := (Calendar.AddMonths(s, 1), Calendar.AddMonths(s, 12));
            && s < m < Calendar.AddMonths(s, 2) <= y && s / 1000 < m / 1000 < U32 && s + Calendar.DAY_MS <= m
            && SliceAt(s, y, true, s) == Some((s, m)) && SliceAt(s, y, true, m) == Some((m, Calendar.AddMonths(s, 2)))
  {
    hide Calendar.AddMonths, SliceAt;
    Calendar.NoMonths(s);
    FullSlice(s, 0);
    FullSlice(s, 1);
    Calendar.AddMonthsIncreases(s, 0, 1);
    Calendar.AddMonthsIncreases(s, 1, 2);
    Calendar.AddMonthsIncreases(s, 2, 12);
    Calendar.AddMonthsLands(s, 1);
    Calendar.AddMonthsLands(s, 0);
    NoteOrPlan.AtLeastADay(s, Calendar.AddMonths(s, 1));
  }

  lemma YearReported(tier: nat, s: nat)
    requires Year(s) && tier <= TOP
    ensures var (m, e) := (Calendar.AddMonths(s, 1), Report(tier, true, "r", s, s, Calendar.AddMonths(s, 12)));
            && Next(NOBODY, e) == Account(Some(YearPlan(tier, s)), Some(Row(s / 1000, m, TIERS[tier], TIERS[tier])))
            && Granted(NOBODY, e).Some?
  {
    hide Calendar.AddMonths, SliceAt;
    MonthsOfTheYear(s);
  }

  /** No more is granted in such a run than the tier that was had allows. */
  lemma {:induction false} RunStaysWithin(es: seq<Event>)
    requires RunAdds(es) && forall i :: 0 <= i < |es| ==> !es[i].Arrive?
    ensures Within(After(NOBODY, es), Had(es))
  {
    hide AddsTheStep, HadAfter, Next;
    if es != [] {
      RunStaysWithin(es[..|es| - 1]);
      StaysWithinHad(After(NOBODY, es[..|es| - 1]), Had(es[..|es| - 1]), es[|es| - 1]);
    }
  }

  /** Down a tier, and up again. */
  lemma HadStays(a: Account, tier: nat, now: nat)
    requires a.plan.Some? && tier <= 1
    ensures HadAfter(a, 1, ToTier(tier, now)) == 1
  {
    hide SliceAt, PeriodKey, UpgradeExtra;
  }

  function Reporting(tier: nat, s: nat): Event {
    Report(tier, true, "r", s, s, Calendar.AddMonths(s, 12))
  }

  function DownAndUpRun(s: nat): seq<Event> {
    var m := Calendar.AddMonths(s, 1);
    [Reporting(1, s), Beat(m), ToTier(0, m), ToTier(1, m)]
  }

  function EarlyRun(s: nat): seq<Event> {
    [Reporting(0, s), ToTier(1, Calendar.AddMonths(s, 1))]
  }

  lemma BegunMonth(s: nat)
    requires Year(s)
    ensures var (m, a) := (Calendar.AddMonths(s, 1), Next(NOBODY, Reporting(1, s)));
            var b := Next(a, Beat(m));
            && HadAfter(NOBODY, 0, Reporting(1, s)) == 1 && HadAfter(a, 1, Beat(m)) == 1
            && b.plan.Some? && b.plan.value == YearPlan(1, s).(usage := b.plan.value.usage)
            && b.row == Some(Row(m / 1000, Calendar.AddMonths(s, 2), TIERS[1], TIERS[1]))
  {
    hide Calendar.AddMonths, SliceAt, Next;
    MonthsOfTheYear(s);
    YearReported(1, s);
    BeatOpens(YearPlan(1, s), Some(Row(s / 1000, Calendar.AddMonths(s, 1), TIERS[1], TIERS[1])), Calendar.AddMonths(s, 1));
  }

  /** In the second month of any year that is paid for, once the beat has opened it: down a tier and up
      again at once adds the whole step a second time. */
  lemma DownAndUpAfterTheBeat(s: nat)
    requires Year(s)
    ensures var es := DownAndUpRun(s);
            && Had(es) == 1 && After(NOBODY, es).row.Some?
            && After(NOBODY, es).row.value.granted == TIERS[1] + (TIERS[1] - TIERS[0]) && !RunAdds(es)
  {
    hide Calendar.AddMonths, SliceAt, Next, HadAfter, UpgradeExtra, AddsTheStep;
    var m := Calendar.AddMonths(s, 1);
    var a := Next(NOBODY, Reporting(1, s));
    var b := Next(a, Beat(m));
    MonthsOfTheYear(s);
    BegunMonth(s);
    DownAndUp(b, 0, 1, m);
    PlanEnds.WholeStep(0, 1, m, Calendar.AddMonths(s, 2), m);
    HadStays(b, 0, m);
    ChangedPlan(b, 0, m);
    HadStays(Next(b, ToTier(0, m)), 1, m);
    FourSteps(Reporting(1, s), Beat(m), ToTier(0, m), ToTier(1, m));
    if RunAdds(DownAndUpRun(s)) { RunStaysWithin(DownAndUpRun(s)); }
  }

  lemma ChangedPlan(a: Account, tier: nat, now: nat)
    requires a.plan.Some?
    ensures Next(a, ToTier(tier, now)).plan.Some?
  {
    hide SliceAt, UpgradeExtra;
  }

  lemma FourSteps(e0: Event, e1: Event, e2: Event, e3: Event)
    ensures After(NOBODY, [e0, e1, e2, e3]) == Next(Next(Next(Next(NOBODY, e0), e1), e2), e3)
    ensures var a := Next(NOBODY, e0);
            Had([e0, e1, e2, e3])
            == HadAfter(Next(Next(a, e1), e2), HadAfter(Next(a, e1), HadAfter(a, HadAfter(NOBODY, 0, e0), e1), e2), e3)
  {
    hide Next, HadAfter;
    Unfold(e0, e1, e2, e3);
    assert [] + [e0] == [e0] && [e0] + [e1] == [e0, e1] && [e0, e1] + [e2] == [e0, e1, e2] && [e0, e1, e2] + [e3] == [e0, e1, e2, e3];
    OneMore([], e0);
    OneMore([e0], e1);
    OneMore([e0, e1], e2);
    OneMore([e0, e1, e2], e3);
    AfterOne(NOBODY, [], e0);
    AfterOne(NOBODY, [e0], e1);
    AfterOne(NOBODY, [e0, e1], e2);
  }

  /** A step up that comes after a month has begun, but before the beat, is added to the month before. */
  lemma ChangeBeforeTheBeat(s: nat)
    requires Year(s)
    ensures var es := EarlyRun(s);
            && After(NOBODY, es).row.Some? && After(NOBODY, es).row.value.granted == TIERS[1]
            && After(NOBODY, es).row.value.period == s / 1000 < Calendar.AddMonths(s, 1) / 1000 && !RunAdds(es)
  {
    hide Calendar.AddMonths, SliceAt, Next, UpgradeExtra;
    var m := Calendar.AddMonths(s, 1);
    MonthsOfTheYear(s);
    YearReported(0, s);
    var a := Next(NOBODY, Reporting(0, s));
    PlanEnds.WholeStep(0, 1, m, Calendar.AddMonths(s, 2), m);
    EarlyChange(a, YearPlan(0, s), a.row.value, m, Calendar.AddMonths(s, 2));
    var es := EarlyRun(s);
    assert [] + [es[0]] == es[..1] && es[..1] + [es[1]] == es;
    AfterOne(NOBODY, [], es[0]);
    AfterOne(NOBODY, es[..1], es[1]);
  }

  lemma EarlyChange(a: Account, p: Plan, row: Row, m: nat, n: nat)
    requires a == Account(Some(p), Some(row)) && row.granted == TIERS[0] && p.tier == 0
    requires SliceAt(p.start, p.until, p.yearly, m) == Some((m, n)) && p.grantedPeriod != PeriodKey(m)
    requires m < n && UpgradeExtra(0, 1, m, n, m) == TIERS[1] - TIERS[0]
    ensures Next(a, ToTier(1, m)).row.Some? && Next(a, ToTier(1, m)).row.value.period == row.period
    ensures Next(a, ToTier(1, m)).row.value.granted == TIERS[1]
    ensures RaisedBy(a, ToTier(1, m)) > 0 && Running(a, ToTier(1, m)) == Some((m, n))
  {
    hide SliceAt, UpgradeExtra, PeriodKey;
  }
}
