/** Whole runs over one account's plan: no period is granted twice, a paid year grants at most
    twelve times, and what a monthly period was granted stays within its highest tier. */
module PlanSafety {
  import opened Wrappers
  import opened Naturals
  import opened Slices
  import opened Plans
  import opened Calendar

  datatype Event =
    | Report(tier: nat, yearly: bool, rail: string, now: nat, start: nat, until: nat)
    | ToTier(tier: nat, now: nat)
    | Beat(now: nat)
    | Back(disputed: bool, now: nat)
    | Draw(left: nat)
    | Arrive(plan: Plan, row: Option<Row>)
    | Leave

  const NOBODY := Account(None, None)

  function Next(a: Account, e: Event): Account {
    match e
    case Report(tier, yearly, rail, now, start, until) => Renewed(a, tier, yearly, rail, now, start, until).0
    case ToTier(tier, now) => TierChanged(a, tier, now).0
    case Beat(now) => Rolled(a, now).0
    case Back(disputed, now) => Ended(a, disputed, now)
    case Draw(left) => a.(row := if a.row.Some? then Some(a.row.value.(left := left)) else None)
    case Arrive(plan, row) => Account(Some(plan), if row.Some? then Some(Carried(row.value)) else a.row)
    case Leave => Account(None, Lapsed(a.row))
  }

  function After(a: Account, es: seq<Event>): Account {
    if es == [] then a else Next(After(a, es[..|es| - 1]), es[|es| - 1])
  }

  // ---- grants ------------------------------------------------------------------------------------

  /** A full allowance handed out: for the period beginning `at`, of a paid period beginning
      `paidStart`. */
  datatype Grant = Grant(at: nat, paidStart: nat)

  function OpensAt(p: Plan, row: Option<Row>, now: nat): Option<Grant> {
    var slice := SliceAt(p.start, p.until, p.yearly, now);
    if slice.Some? && PeriodKey(slice.value.0) > Current(row) then Some(Grant(slice.value.0, p.start)) else None
  }

  function Granted(a: Account, e: Event): Option<Grant> {
    match e
    case Report(tier, yearly, rail, now, start, until) =>
      OpensAt(Reported(if a.plan.Some? then a.plan.value else NO_PLAN, Step(tier), yearly, rail, now, start, until), a.row, now)
    case Beat(now) => if a.plan.Some? && PaidAt(a.plan.value, now) then OpensAt(a.plan.value, a.row, now) else None
    case _ => None
  }

  function Grants(a: Account, es: seq<Event>): seq<Grant> {
    if es == [] then []
    else
      var n := |es| - 1;
      var g := Granted(After(a, es[..n]), es[n]);
      Grants(a, es[..n]) + if g.Some? then [g.value] else []
  }

  /** The row begins anew exactly at a grant, with one tier's allowance; but for a plan that arrives
      with its own, nothing else moves its period or makes a row. */
  lemma OnlyGrantsBegin(a: Account, e: Event)
    ensures var g, row := Granted(a, e), Next(a, e).row;
            && (g.Some? ==> row.Some? && row.value.period == g.value.at / 1000 && row.value.granted == row.value.left
                            && row.value.granted in TIERS)
            && (g.None? && !e.Arrive? ==> (row.Some? <==> a.row.Some?) && (row.Some? ==> row.value.period == a.row.value.period))
  {
    hide SliceAt, Closed, Pruned, PeriodKey, Current;
  }

  const LIMIT := U32 * 1000

  /** The rail's dates lie before the seconds outgrow 32 bits, early in 2106. */
  predicate InTime(e: Event) {
    (e.Report? ==> e.until <= LIMIT) && (e.Arrive? ==> e.plan.until <= LIMIT)
  }

  /** A plan that arrives does not bring an older period than the account's own. */
  predicate Steady(a: Account, e: Event) {
    e.Arrive? && e.row.Some? ==> Current(e.row) >= Current(a.row)
  }

  predicate SteadyRun(a: Account, es: seq<Event>) {
    es != [] ==> SteadyRun(a, es[..|es| - 1]) && Steady(After(a, es[..|es| - 1]), es[|es| - 1])
  }

  predicate PlanInTime(a: Account) {
    a.plan.Some? ==> a.plan.value.until <= LIMIT
  }

  predicate Rising(gs: seq<Grant>) {
    forall i, j :: 0 <= i < j < |gs| ==> gs[i].at / 1000 < gs[j].at / 1000
  }

  lemma StepInTime(a: Account, e: Event)
    requires PlanInTime(a) && InTime(e)
    ensures PlanInTime(Next(a, e))
  {
    hide SliceAt, Closed, Pruned, UpgradeExtra;
  }

  lemma GrantRises(a: Account, e: Event)
    requires PlanInTime(a) && InTime(e)
    ensures var g := Granted(a, e);
            if g.Some? then Current(Next(a, e).row) == g.value.at / 1000 > Current(a.row)
            else Steady(a, e) <==> Current(Next(a, e).row) >= Current(a.row)
    ensures Granted(a, e).Some? ==>
              exists k: nat :: k < 12 && Granted(a, e).value.at == AddMonths(Granted(a, e).value.paidStart, k)
  {
    hide SliceAt, AddMonths, Renewed, TierChanged, Rolled, Ended;
    OnlyGrantsBegin(a, e);
    match e
    case Report(tier, yearly, rail, now, start, until) =>
      var before := if a.plan.Some? then a.plan.value else NO_PLAN;
      GrantIsProper(Reported(before, Step(tier), yearly, rail, now, start, until), a.row, now);
    case Beat(now) => if a.plan.Some? { GrantIsProper(a.plan.value, a.row, now); }
    case _ =>
  }

  lemma GrantIsProper(p: Plan, row: Option<Row>, now: nat)
    requires p.until <= LIMIT
    ensures var g := OpensAt(p, row, now);
            g.Some? ==> g.value.at / 1000 % U32 == g.value.at / 1000 > Current(row) && g.value.paidStart == p.start
    ensures var g := OpensAt(p, row, now);
            g.Some? ==> exists k: nat :: k < 12 && g.value.at == AddMonths(p.start, k)
  {
    hide SliceAt, AddMonths, Current;
    if OpensAt(p, row, now).Some? {
      SliceIsProper(p.start, p.until, p.yearly, now);
    }
  }

  /** In every run, however often a rail reports and whenever the beat comes, and with plans moving in
      and out as long as none brings an older period: each full allowance is for a later period than
      the one before, so no period is granted twice. */
  lemma {:induction false} NoPeriodTwice(a: Account, es: seq<Event>)
    requires PlanInTime(a) && SteadyRun(a, es) && forall i :: 0 <= i < |es| ==> InTime(es[i])
    ensures Rising(Grants(a, es)) && PlanInTime(After(a, es))
    ensures var gs := Grants(a, es);
            if gs == [] then Current(After(a, es).row) >= Current(a.row)
            else gs[0].at / 1000 > Current(a.row) && Current(After(a, es).row) >= gs[|gs| - 1].at / 1000
  {
    hide Next, Granted, Current, PlanInTime, Rising, Steady;
    if es == [] {
      NoneRise();
    } else {
      var n := |es| - 1;
      NoPeriodTwice(a, es[..n]);
      var b := After(a, es[..n]);
      StepInTime(b, es[n]);
      GrantRises(b, es[n]);
      assert Grants(a, es[..n]) + [] == Grants(a, es[..n]);
      if Granted(b, es[n]).Some? { OneMoreRises(Grants(a, es[..n]), Granted(b, es[n]).value); }
    }
  }

  lemma NoneRise()
    ensures Rising([])
  {
  }

  lemma OneMoreRises(gs: seq<Grant>, g: Grant)
    requires Rising(gs) && (gs != [] ==> gs[|gs| - 1].at / 1000 < g.at / 1000)
    ensures Rising(gs + [g])
  {
  }

  // ---- a paid year -----------------------------------------------------------------------------------

  /** The grants of one paid period. */
  function OfPaid(gs: seq<Grant>, paidStart: nat): (r: seq<Grant>)
    ensures forall g :: g in r ==> g in gs && g.paidStart == paidStart
  {
    if gs == [] then []
    else OfPaid(gs[..|gs| - 1], paidStart) + if gs[|gs| - 1].paidStart == paidStart then [gs[|gs| - 1]] else []
  }

  lemma {:induction false} OfPaidRises(gs: seq<Grant>, paidStart: nat)
    requires Rising(gs)
    ensures Rising(OfPaid(gs, paidStart))
  {
    if gs != [] {
      var n := |gs| - 1;
      OfPaidRises(gs[..n], paidStart);
      var r := OfPaid(gs[..n], paidStart);
      forall i | 0 <= i < |r| ensures r[i].at / 1000 < gs[n].at / 1000 {
        assert r[i] in gs[..n];
      }
    }
  }

  predicate OnAMonth(g: Grant, from: nat) {
    exists k: nat :: from <= k < 12 && g.at == AddMonths(g.paidStart, k)
  }

  lemma {:induction false} GrantsOnMonths(a: Account, es: seq<Event>)
    requires PlanInTime(a) && forall i :: 0 <= i < |es| ==> InTime(es[i])
    ensures PlanInTime(After(a, es)) && forall g :: g in Grants(a, es) ==> OnAMonth(g, 0)
  {
    hide Next, Granted, AddMonths, PlanInTime;
    if es != [] {
      var n := |es| - 1;
      GrantsOnMonths(a, es[..n]);
      StepInTime(After(a, es[..n]), es[n]);
      GrantRises(After(a, es[..n]), es[n]);
    }
  }

  lemma {:induction false} LaterMonth(gs: seq<Grant>, paidStart: nat, i: nat)
    requires Rising(gs) && i < |gs|
    requires forall g :: g in gs ==> g.paidStart == paidStart && OnAMonth(g, 0)
    ensures OnAMonth(gs[i], i)
  {
    hide AddMonths;
    assert gs[i] in gs;
    if i > 0 {
      LaterMonth(gs, paidStart, i - 1);
      assert gs[i - 1] in gs;
      var j: nat :| i - 1 <= j < 12 && gs[i - 1].at == AddMonths(paidStart, j);
      var k: nat :| k < 12 && gs[i].at == AddMonths(paidStart, k);
      if k < j { AddMonthsIncreases(paidStart, k, j); }
    }
  }

  /** One paid period hands out at most twelve allowances, in any such run. */
  lemma AtMostTwelveGrants(a: Account, es: seq<Event>, paidStart: nat)
    requires PlanInTime(a) && SteadyRun(a, es) && forall i :: 0 <= i < |es| ==> InTime(es[i])
    ensures |OfPaid(Grants(a, es), paidStart)| <= 12
  {
    hide Grants, OfPaid, OnAMonth, SteadyRun;
    var gs := OfPaid(Grants(a, es), paidStart);
    NoPeriodTwice(a, es);
    OfPaidRises(Grants(a, es), paidStart);
    GrantsOnMonths(a, es);
    if gs != [] {
      LaterMonth(gs, paidStart, |gs| - 1);
      TwelveMonths(gs[|gs| - 1], |gs| - 1);
    }
  }

  lemma TwelveMonths(g: Grant, from: nat)
    requires OnAMonth(g, from)
    ensures from < 12
  {
  }

  predicate Monthly(a: Account) {
    a.plan.Some? ==> !a.plan.value.yearly
  }

  predicate MonthlyEvent(e: Event) {
    (e.Report? ==> !e.yearly) && (e.Arrive? ==> !e.plan.yearly)
  }

  lemma {:induction false} MonthlyGrants(a: Account, es: seq<Event>)
    requires Monthly(a) && forall i :: 0 <= i < |es| ==> MonthlyEvent(es[i])
    ensures Monthly(After(a, es)) && forall g :: g in Grants(a, es) ==> g.at == g.paidStart
  {
    hide Closed, Pruned, UpgradeExtra, PeriodKey, Current;
    if es != [] {
      MonthlyGrants(a, es[..|es| - 1]);
    }
  }

  /** In a run that never reports a year, at most one. */
  lemma AtMostOneGrant(a: Account, es: seq<Event>, paidStart: nat)
    requires Monthly(a) && PlanInTime(a) && SteadyRun(a, es)
    requires forall i :: 0 <= i < |es| ==> InTime(es[i]) && MonthlyEvent(es[i])
    ensures |OfPaid(Grants(a, es), paidStart)| <= 1
  {
    hide Grants, OfPaid, SteadyRun;
    var gs := OfPaid(Grants(a, es), paidStart);
    NoPeriodTwice(a, es);
    OfPaidRises(Grants(a, es), paidStart);
    MonthlyGrants(a, es);
    forall i | 0 <= i < |gs| ensures gs[i].at == paidStart {
      assert gs[i] in gs;
    }
    if gs != [] { Climbs(gs, |gs| - 1); }
  }

  lemma {:induction false} Climbs(gs: seq<Grant>, i: nat)
    requires Rising(gs) && i < |gs|
    ensures gs[i].at / 1000 >= gs[0].at / 1000 + i
  {
    if i > 0 { Climbs(gs, i - 1); }
  }

  /** Past 32 bits of seconds the stored period is cut and the one compared with it is not: a period
      just granted is granted again by the next report exactly then, save for the one second whose
      cut value is the largest. */
  lemma GrantedAgainExactlyPastTheLimit(p: Plan, row: Option<Row>, now: nat)
    requires OpensAt(p, row, now).Some?
    ensures var g := OpensAt(p, row, now).value;
            OpensAt(p, Some(Row(g.at / 1000, p.until, TIERS[0], TIERS[0])), now).Some?
            <==> g.at / 1000 >= U32 && g.at / 1000 % U32 != U32 - 1
  {
    hide SliceAt;
  }

  /** One report, sent twice: the period that begins with second 2^32 is granted twice. */
  lemma GrantedTwiceIn2106()
    ensures var (s, e) := (LIMIT, Report(0, false, "r", LIMIT, LIMIT, LIMIT + 1000));
            Grants(NOBODY, [e, e]) == [Grant(s, s), Grant(s, s)]
  {
    hide Next;
    var e := Report(0, false, "r", LIMIT, LIMIT, LIMIT + 1000);
    FarGrant(e);
    assert [e, e][..1] == [e] && [e][..0] == [];
    assert Grants(NOBODY, [e]) == [Grant(LIMIT, LIMIT)];
    assert After(NOBODY, [e]) == Next(NOBODY, e);
  }

  lemma FarGrant(e: Event)
    requires e == Report(0, false, "r", LIMIT, LIMIT, LIMIT + 1000)
    ensures Granted(NOBODY, e) == Some(Grant(LIMIT, LIMIT)) && Granted(Next(NOBODY, e), e) == Some(Grant(LIMIT, LIMIT))
  {
  }

  // ---- what a monthly period was granted -------------------------------------------------------------

  lemma ProrataWithin(step: nat, remaining: nat, total: nat)
    ensures Prorata(step, remaining, total) <= step
    ensures total > 0 && remaining >= total ==> Prorata(step, remaining, total) == step
  {
    if total > 0 {
      Times(step, Min(remaining, total), total);
    }
  }

  lemma Times(step: nat, part: nat, total: nat)
    requires part <= total && total > 0
    ensures step * part / total <= step && (part == total ==> step * part / total == step)
  {
    assert step * part <= step * total;
    assert step * total / total == step;
  }

  /** The clock of an event; a draw happens between two readings. */
  function ClockAfter(clock: nat, e: Event): nat {
    if e.Draw? || e.Arrive? || e.Leave? then clock else e.now
  }

  function Clock(es: seq<Event>): nat {
    if es == [] then 0 else ClockAfter(Clock(es[..|es| - 1]), es[|es| - 1])
  }

  /** A monthly plan's event: the clock does not go back, nor does the start a rail reports. */
  predicate Forward(a: Account, clock: nat, e: Event) {
    && ClockAfter(clock, e) >= clock && !e.Arrive? && !e.Leave?
    && (e.Report? ==> !e.yearly && e.until <= LIMIT && (e.start == 0 || a.plan.None? || e.start >= a.plan.value.start))
  }

  predicate ForwardRun(es: seq<Event>) {
    es != [] ==>
      var n := |es| - 1;
      ForwardRun(es[..n]) && Forward(After(NOBODY, es[..n]), Clock(es[..n]), es[n])
  }

  /** The row is the period that the tier was recorded for, and no more was granted than that
      tier's allowance. */
  predicate WithinTier(p: Plan, row: Row) {
    && p.grantedTier <= TOP
    && row.period == p.grantedPeriod
    && row.granted <= TIERS[p.grantedTier]
  }

  predicate MonthlyInv(a: Account, clock: nat) {
    if a.plan.None? then a.row.None?
    else
      var p, row := a.plan.value, a.row;
      && !p.yearly && p.tier <= TOP && p.until <= LIMIT
      && (row.Some? ==> WithinTier(p, row.value) && 0 < row.value.period <= PeriodKey(p.start))
      && (p.until > clock && 0 < p.start < p.until ==>
            PeriodKey(p.start) == 0 || (row.Some? && row.value.period == PeriodKey(p.start)))
  }

  lemma ReportKeepsBound(a: Account, clock: nat, e: Event)
    requires MonthlyInv(a, clock) && Forward(a, clock, e) && e.Report?
    ensures MonthlyInv(Next(a, e), e.now)
  {
    hide Closed, UpgradeExtra;
    var before := if a.plan.Some? then a.plan.value else NO_PLAN;
    var p := Reported(before, Step(e.tier), e.yearly, e.rail, e.now, e.start, e.until);
    KeysInOrder(before.start, p.start);
    if p.until > e.now && 0 < p.start < p.until {
      KeyInTime(p.start, p.until);
      if !(PeriodKey(p.start) > Current(a.row)) {
        StepWithin(GrantedBase(p, before.tier, p.start), p.tier, p.start, p.until, e.now);
      }
    }
  }

  lemma KeysInOrder(s: nat, t: nat)
    ensures s <= t ==> PeriodKey(s) <= PeriodKey(t)
    ensures PeriodKey(s) < U32
  {
  }

  lemma KeyInTime(s: nat, until: nat)
    requires s < until <= LIMIT
    ensures PeriodKey(s) == s / 1000 < U32
  {
  }

  lemma StepWithin(base: nat, tier: nat, s: nat, e: nat, now: nat)
    requires s < e
    ensures base < tier <= TOP ==> TIERS[base] + UpgradeExtra(base, tier, s, e, now) <= TIERS[tier]
  {
    hide Prorata;
    ProrataWithin(Monus(TIERS[Step(tier)], TIERS[Step(base)]), Monus(e, now), e - s);
  }

  lemma ToTierKeepsBound(a: Account, clock: nat, e: Event)
    requires MonthlyInv(a, clock) && Forward(a, clock, e) && e.ToTier?
    ensures MonthlyInv(Next(a, e), e.now)
  {
    hide UpgradeExtra, PeriodKey;
    if a.plan.Some? {
      var p := a.plan.value;
      if p.until > e.now && 0 < p.start < p.until {
        StepWithin(GrantedBase(p, p.tier, p.start), Step(e.tier), p.start, p.until, e.now);
      }
    }
  }

  lemma BeatKeepsBound(a: Account, clock: nat, e: Event)
    requires MonthlyInv(a, clock) && Forward(a, clock, e) && e.Beat?
    ensures MonthlyInv(Next(a, e), e.now)
  {
    hide Closed, Pruned, PeriodKey;
    if a.plan.Some? {
      KeysInOrder(a.plan.value.start, a.plan.value.start);
    }
  }

  lemma OtherKeepsBound(a: Account, clock: nat, e: Event)
    requires MonthlyInv(a, clock) && Forward(a, clock, e) && (e.Back? || e.Draw?)
    ensures MonthlyInv(Next(a, e), ClockAfter(clock, e))
  {
    hide Closed, PeriodKey;
  }

  lemma {:induction false} MonthlyInvHolds(es: seq<Event>)
    requires ForwardRun(es)
    ensures MonthlyInv(After(NOBODY, es), Clock(es))
  {
    hide MonthlyInv, Next;
    if es == [] {
      NobodyStarts();
    } else {
      var n := |es| - 1;
      MonthlyInvHolds(es[..n]);
      var a, c, e := After(NOBODY, es[..n]), Clock(es[..n]), es[n];
      if e.Report? { ReportKeepsBound(a, c, e); }
      else if e.ToTier? { ToTierKeepsBound(a, c, e); }
      else if e.Beat? { BeatKeepsBound(a, c, e); }
      else { OtherKeepsBound(a, c, e); }
    }
  }

  lemma NobodyStarts()
    ensures MonthlyInv(NOBODY, 0)
  {
  }

  /** However a monthly plan's tier goes up and down, however often the rail reports it: what the
      current period was granted in all is at most one allowance of the tier recorded for it. */
  lemma MonthlyAllowanceBound(es: seq<Event>)
    requires ForwardRun(es) && After(NOBODY, es).row.Some?
    ensures After(NOBODY, es).plan.Some? && WithinTier(After(NOBODY, es).plan.value, After(NOBODY, es).row.value)
  {
    hide WithinTier, After, ForwardRun, PeriodKey;
    MonthlyInvHolds(es);
  }

  /** The bound needs the reported starts not to go back: a report of an older period moves the
      record of what was granted away from the current one. */
  lemma OlderReportBreaksTheBound()
    ensures exists es: seq<Event> ::
              && |es| == 4 && (forall i :: 0 <= i < 4 ==> InTime(es[i]) && (es[i].Report? ==> !es[i].yearly))
              && After(NOBODY, es).row.Some? && After(NOBODY, es).plan.Some? && After(NOBODY, es).plan.value.grantedTier <= TOP
              && After(NOBODY, es).row.value.granted > TIERS[After(NOBODY, es).plan.value.grantedTier]
  {
    var r := "iap:1";
    var e0 := Report(0, false, r, 2_000_000, 2_000_000, 4_000_000);
    var e1 := Report(1, false, r, 2_000_000, 1_000_000, 4_000_000);
    var e2 := Report(0, false, r, 2_000_000, 2_000_000, 4_000_000);
    var e3 := ToTier(1, 2_000_000);
    var p := NO_PLAN.(rail := r, active := true, checkedAt := 2_000_000, until := 4_000_000);
    var a1 := Account(Some(p.(start := 2_000_000, grantedPeriod := 2000)), Some(Row(2000, 4_000_000, 700_000, 700_000)));
    var raised := Some(Row(2000, 4_000_000, 1_233_333, 1_233_333));
    var a2 := Account(Some(p.(tier := 1, start := 1_000_000, grantedTier := 1, grantedPeriod := 1000)), raised);
    var a3 := Account(Some(p.(start := 2_000_000, grantedTier := 1, grantedPeriod := 1000)), raised);
    Unfold(e0, e1, e2, e3);
    assert Next(NOBODY, e0) == a1;
    assert Next(a1, e1) == a2;
    assert Next(a2, e2) == a3;
    assert Next(a3, e3).row == Some(Row(2000, 4_000_000, 2_033_333, 2_033_333));
    assert After(NOBODY, [e0, e1, e2, e3]) == Next(a3, e3);
  }

  lemma Unfold(e0: Event, e1: Event, e2: Event, e3: Event)
    ensures After(NOBODY, [e0, e1, e2, e3]) == Next(Next(Next(Next(NOBODY, e0), e1), e2), e3)
  {
    hide Next;
    assert [] + [e0] == [e0] && [e0] + [e1] == [e0, e1] && [e0, e1] + [e2] == [e0, e1, e2] && [e0, e1, e2] + [e3] == [e0, e1, e2, e3];
    AfterOne(NOBODY, [], e0);
    AfterOne(NOBODY, [e0], e1);
    AfterOne(NOBODY, [e0, e1], e2);
    AfterOne(NOBODY, [e0, e1, e2], e3);
  }

  lemma AfterOne(a: Account, es: seq<Event>, e: Event)
    ensures After(a, es + [e]) == Next(After(a, es), e)
  {
    assert (es + [e])[..|es|] == es;
  }

  lemma DownAndUp(a: Account, down: nat, up: nat, now: nat)
    requires a.plan.Some? && down < up <= a.plan.value.tier <= TOP
    requires var slice := SliceAt(a.plan.value.start, a.plan.value.until, a.plan.value.yearly, now);
             slice.Some? && a.plan.value.grantedPeriod != PeriodKey(slice.value.0) && slice.value.0 < slice.value.1
    ensures var (s, e) := SliceAt(a.plan.value.start, a.plan.value.until, a.plan.value.yearly, now).value;
            Next(Next(a, ToTier(down, now)), ToTier(up, now)).row == Added(a.row, UpgradeExtra(down, up, s, e, now))
  {
    hide SliceAt, UpgradeExtra, PeriodKey, Added;
  }

  lemma BeatOpens(p: Plan, row: Option<Row>, now: nat)
    requires PaidAt(p, now) && OpensAt(p, row, now).Some?
    ensures var slice, a := SliceAt(p.start, p.until, p.yearly, now), Next(Account(Some(p), row), Beat(now));
            && slice.Some? && slice.value.0 == OpensAt(p, row, now).value.at
            && a.plan.Some? && a.plan.value == p.(usage := a.plan.value.usage)
            && a.row == Opened(slice.value.0, slice.value.1, p.tier)
  {
    hide SliceAt, Closed, Pruned, PeriodKey, Current, Opened;
  }

  /** A period that the beat opened is not recorded as granted. Down a tier and up again inside it
      adds the step once more, unless so little of the period is left that its share is not one TOKU. */
  lemma OpenedByTheBeat(p: Plan, row: Option<Row>, down: nat, up: nat, now: nat)
    requires PaidAt(p, now) && OpensAt(p, row, now).Some?
    requires down < up <= p.tier <= TOP && p.grantedPeriod != PeriodKey(OpensAt(p, row, now).value.at)
    ensures var (s, e) := SliceAt(p.start, p.until, p.yearly, now).value;
            var begun := Next(Account(Some(p), row), Beat(now));
            var row2 := Next(Next(begun, ToTier(down, now)), ToTier(up, now)).row;
            && s < e && row2.Some?
            && (row2.value.granted <= TIERS[p.tier] <==> (TIERS[up] - TIERS[down]) * Min(Monus(e, now), e - s) < e - s)
  {
    hide SliceAt, OpensAt, UpgradeExtra, PeriodKey, Next, PaidAt;
    BeatOpens(p, row, now);
    SliceIsProper(p.start, p.until, p.yearly, now);
    DownAndUp(Next(Account(Some(p), row), Beat(now)), down, up, now);
    var (s, e) := SliceAt(p.start, p.until, p.yearly, now).value;
    ExtraIsNothing(down, up, s, e, now);
  }

  /** A step comes to nothing when its share of the time still to run is less than one TOKU. */
  lemma ExtraIsNothing(down: nat, up: nat, s: nat, e: nat, now: nat)
    requires s < e && down < up <= TOP
    ensures UpgradeExtra(down, up, s, e, now) == 0 <==> (TIERS[up] - TIERS[down]) * Min(Monus(e, now), e - s) < e - s
  {
    NothingWhole((TIERS[up] - TIERS[down]) * Min(Monus(e, now), e - s), e - s);
  }

  lemma NothingWhole(x: nat, total: nat)
    requires total > 0
    ensures x / total == 0 <==> x < total
  {
  }
}
