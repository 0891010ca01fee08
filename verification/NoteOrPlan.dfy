/** Whole runs over the plan tables: a payment's month pays as a note or as a plan, never both, a
    rail belongs to the account whose plan it pays, and each account sees its own events only. */
module NoteOrPlan {
  import opened Wrappers
  import opened Names
  import opened Slices
  import opened Plans
  import PlanSafety
  import Calendar

  datatype Event =
    | Sight(key: Acct, tier: nat, yearly: bool, rail: string, now: nat, start: nat, until: nat)
    | ByRail(rail: string, tier: nat, yearly: bool, now: nat, start: nat, until: nat)
    | ToTier(key: Acct, tier: nat, now: nat)
    | Beat(key: Acct, now: nat)
    | Back(rail: string, disputed: bool, now: nat)
    | MoveTo(rail: string, to: Acct, now: nat)
    | Mint(rail: string, epoch: nat, fingerprint: string)
    | Draw(key: Acct, left: nat)

  function Accepted(r: Result<(Book, bool), string>, b: Book): Book {
    if r.Ok? then r.value.0 else b
  }

  /** What a sighting is to the account that it is about. */
  function Sighting(b: Book, e: Event): Option<Event> {
    if e.Sight? then Some(e)
    else if e.ByRail? && e.rail in b.rails then Some(Sight(b.rails[e.rail], e.tier, e.yearly, e.rail, e.now, e.start, e.until))
    else None
  }

  function RenewBy(b: Book, e: Event): Result<(Book, bool), string>
    requires e.Sight?
  {
    Renew(b, e.key, e.tier, e.yearly, e.rail, e.now, e.start, e.until)
  }

  function Next(b: Book, e: Event): Book {
    match e
    case Sight(_, _, _, _, _, _, _) => Accepted(RenewBy(b, e), b)
    case ByRail(_, _, _, _, _, _) =>
      var s := Sighting(b, e);
      if s.Some? then Accepted(RenewBy(b, s.value), b) else b
    case ToTier(key, tier, now) => With(b, key, TierChanged(At(b, key), tier, now).0)
    case Beat(key, now) => With(b, key, Rolled(At(b, key), now).0)
    case Back(rail, disputed, now) => Revoke(b, rail, disputed, now).0
    case MoveTo(rail, to, now) => Move(b, rail, to, now).0
    case Mint(rail, epoch, fingerprint) => Accepted(MintAdmission(b, rail, epoch, fingerprint), b)
    case Draw(key, left) => With(b, key, PlanSafety.Next(At(b, key), PlanSafety.Draw(left)))
  }

  function After(b: Book, es: seq<Event>): Book {
    if es == [] then b else Next(After(b, es[..|es| - 1]), es[|es| - 1])
  }

  // ---- rails and their owners ----------------------------------------------------------------------

  /** Every plan's rail belongs to the account that holds the plan. */
  predicate Owned(b: Book) {
    forall key :: key in b.plans ==> b.plans[key].rail in b.rails && b.rails[b.plans[key].rail] == key
  }

  lemma RenewKeepsOwned(b: Book, e: Event)
    requires Owned(b) && e.Sight?
    ensures Owned(Accepted(RenewBy(b, e), b))
  {
    hide HandedOut, AnyMinted, EpochsCovered;
    RenewedRail(At(b, e.key), e);
  }

  lemma RenewedRail(a: Account, e: Event)
    requires e.Sight?
    ensures var p := Renewed(a, e.tier, e.yearly, e.rail, e.now, e.start, e.until).0.plan;
            p.Some? && p.value.rail == e.rail && p.value.until == e.until && p.value.yearly == e.yearly
            && (e.start > 0 ==> p.value.start == e.start)
  {
    hide SliceAt, Closed, UpgradeExtra, Opened;
  }

  lemma WithKeepsOwned(b: Book, key: Acct, a: Account)
    requires Owned(b) && (a.plan.Some? <==> key in b.plans) && (a.plan.Some? ==> a.plan.value.rail == b.plans[key].rail)
    ensures Owned(With(b, key, a))
  {
  }

  lemma MoveKeepsOwned(b: Book, rail: string, to: Acct, now: nat)
    requires Owned(b)
    ensures Owned(Move(b, rail, to, now).0)
  {
    hide Carried, Lapsed, PaidAt;
  }

  /** A tier change, the beat and a refund leave a plan its rail. */
  lemma SameRail(a: Account, tier: nat, disputed: bool, now: nat)
    ensures forall x :: x in [TierChanged(a, tier, now).0, Rolled(a, now).0, Ended(a, disputed, now)] ==>
              (x.plan.Some? <==> a.plan.Some?) && (a.plan.Some? ==> x.plan.value.rail == a.plan.value.rail)
  {
    hide SliceAt, Closed, Pruned, UpgradeExtra, Opened, PeriodKey, Current;
  }

  lemma StepKeepsOwned(b: Book, e: Event)
    requires Owned(b)
    ensures Owned(Next(b, e))
  {
    hide Owned, Renew, TierChanged, Rolled, Ended, Move, With;
    match e
    case Sight(_, _, _, _, _, _, _) => RenewKeepsOwned(b, e);
    case ByRail(_, _, _, _, _, _) => if Sighting(b, e).Some? { RenewKeepsOwned(b, Sighting(b, e).value); }
    case ToTier(key, tier, now) =>
      SameRail(At(b, key), tier, false, now);
      WithKeepsOwned(b, key, TierChanged(At(b, key), tier, now).0);
    case Beat(key, now) =>
      SameRail(At(b, key), 0, false, now);
      WithKeepsOwned(b, key, Rolled(At(b, key), now).0);
    case Back(rail, disputed, now) =>
      if OnRail(b, rail).Some? {
        var key := OnRail(b, rail).value;
        SameRail(At(b, key), 0, disputed, now);
        WithKeepsOwned(b, key, Ended(At(b, key), disputed, now));
      }
    case MoveTo(rail, to, now) => MoveKeepsOwned(b, rail, to, now);
    case Mint(rail, epoch, fingerprint) => MintKeepsOwned(b, rail, epoch, fingerprint);
    case Draw(key, left) => WithKeepsOwned(b, key, PlanSafety.Next(At(b, key), PlanSafety.Draw(left)));
  }

  lemma MintKeepsOwned(b: Book, rail: string, epoch: nat, fingerprint: string)
    requires Owned(b)
    ensures Owned(Accepted(MintAdmission(b, rail, epoch, fingerprint), b))
  {
  }

  /** One paid plan per account: while an account's plan is paid, no sighting and no move puts
      another rail's plan in its place. */
  lemma PaidPlanIsNotReplaced(b: Book, e: Event, key: Acct)
    requires key in b.plans && b.plans[key].rail != ""
    requires (e.Sight? || e.ByRail? || (e.MoveTo? && e.rail != b.plans[key].rail)) && PaidAt(b.plans[key], e.now)
    ensures key in Next(b, e).plans && Next(b, e).plans[key].rail == b.plans[key].rail
  {
    hide HandedOut, AnyMinted, EpochsCovered, PaidAt, Carried, Lapsed;
    if Sighting(b, e).Some? {
      var s := Sighting(b, e).value;
      RenewedRail(At(b, s.key), s);
    }
  }

  // ---- a note or a plan ------------------------------------------------------------------------------

  function MonthsOf(rail: string, epochs: seq<nat>): set<(string, nat)> {
    set i | 0 <= i < |epochs| :: (rail, epochs[i])
  }

  /** The months that a sighting, taken in, puts under a plan paid directly: those of the row it
      leaves. */
  function PaidBy(b: Book, e: Event): set<(string, nat)>
    requires e.Sight?
  {
    if RenewBy(b, e).Err? || IsNote(e.rail) || (e.until <= e.now && e.key !in b.plans) then {}
    else
      var p := Renewed(At(b, e.key), e.tier, e.yearly, e.rail, e.now, e.start, e.until).0.plan;
      if p.None? then {} else MonthsOf(e.rail, EpochsCovered(p.value.start, p.value.until, p.value.yearly))
  }

  function Paid(b: Book, e: Event): set<(string, nat)> {
    var s := Sighting(b, e);
    if s.Some? then PaidBy(b, s.value) else {}
  }

  /** Every (rail, month) a plan was ever paid with directly, in a run. */
  function EverPaid(b: Book, es: seq<Event>): set<(string, nat)> {
    if es == [] then {}
    else EverPaid(b, es[..|es| - 1]) + Paid(After(b, es[..|es| - 1]), es[|es| - 1])
  }

  predicate Apart(b: Book, paid: set<(string, nat)>) {
    forall m :: m in paid ==> m.0 in b.rails && m !in b.minted
  }

  /** The start that the row has after a sighting: the one reported, or else the one known. */
  function KeptStart(b: Book, e: Event): nat
    requires e.Sight?
  {
    if e.start > 0 then e.start else if e.key in b.plans then b.plans[e.key].start else 0
  }

  /** A sighting that writes no plan paid directly, or one whose kept months have not been minted. */
  predicate ClearSight(b: Book, e: Event)
    requires e.Sight?
  {
    RenewBy(b, e).Ok? && !IsNote(e.rail) && (e.until > e.now || e.key in b.plans) ==>
      !AnyMinted(b, e.rail, EpochsCovered(KeptStart(b, e), e.until, e.yearly))
  }

  predicate Clear(b: Book, e: Event) {
    var s := Sighting(b, e);
    s.Some? ==> ClearSight(b, s.value)
  }

  lemma RenewedStart(a: Account, e: Event)
    requires e.Sight?
    ensures var p := Renewed(a, e.tier, e.yearly, e.rail, e.now, e.start, e.until).0.plan;
            p.Some? && p.value.start == if e.start > 0 then e.start else if a.plan.Some? then a.plan.value.start else 0
  {
    hide SliceAt, Closed, UpgradeExtra, Opened;
  }

  /** A sighting keeps notes and plans apart exactly when the months its row then covers are unminted. */
  lemma SightKeepsApartExactly(b: Book, e: Event, paid: set<(string, nat)>)
    requires Apart(b, paid) && e.Sight?
    ensures Apart(Accepted(RenewBy(b, e), b), paid + PaidBy(b, e)) <==> ClearSight(b, e)
  {
    hide HandedOut, EpochsCovered, Renewed;
    RenewedRail(At(b, e.key), e);
    RenewedStart(At(b, e.key), e);
    var months := EpochsCovered(KeptStart(b, e), e.until, e.yearly);
    if !ClearSight(b, e) {
      var i :| 0 <= i < |months| && (e.rail, months[i]) in b.minted;
      assert (e.rail, months[i]) in MonthsOf(e.rail, months);
    }
  }

  /** A sighting that names its start, or finds no plan, looks up just those months. */
  lemma NamedStartIsClear(b: Book, e: Event)
    requires e.Sight? && (e.start > 0 || e.key !in b.plans)
    ensures ClearSight(b, e)
  {
    hide EpochsCovered, Renewed, PaidAt;
  }

  /** Nothing but a mint adds a month to the minted ones, and no rail is ever forgotten. */
  lemma OthersKeepApart(b: Book, e: Event, paid: set<(string, nat)>)
    requires Apart(b, paid) && !e.Sight? && !e.ByRail?
    ensures Apart(Next(b, e), paid)
  {
    hide TierChanged, Rolled, Ended, Carried, Lapsed, PaidAt, Placed;
  }

  lemma StepKeepsApartExactly(b: Book, e: Event, paid: set<(string, nat)>)
    requires Apart(b, paid)
    ensures Apart(Next(b, e), paid + Paid(b, e)) <==> Clear(b, e)
  {
    hide Apart, Renew, PaidBy, ClearSight;
    var s := Sighting(b, e);
    if s.Some? {
      SightKeepsApartExactly(b, s.value, paid);
    } else {
      assert paid + {} == paid;
      if !e.ByRail? { OthersKeepApart(b, e, paid); }
    }
  }

  /** What is minted stays so, and so does the ownership of a rail. */
  lemma NothingForgotten(b: Book, e: Event)
    ensures b.minted.Keys <= Next(b, e).minted.Keys && b.rails.Keys <= Next(b, e).rails.Keys
  {
    hide TierChanged, Rolled, Ended, Carried, Lapsed, PaidAt, Placed, Renewed, AnyMinted, EpochsCovered;
  }

  lemma PaidIsBound(b: Book, e: Event)
    ensures forall m :: m in Paid(b, e) ==> m.0 in Next(b, e).rails
  {
    hide Renewed, EpochsCovered, PaidAt;
  }

  /** Every step of a run was clear. */
  predicate AllClear(es: seq<Event>) {
    es != [] ==> AllClear(es[..|es| - 1]) && Clear(After(EMPTY, es[..|es| - 1]), es[|es| - 1])
  }

  lemma {:induction false} EverPaidIsBound(es: seq<Event>)
    ensures forall m :: m in EverPaid(EMPTY, es) ==> m.0 in After(EMPTY, es).rails
  {
    hide Next, Paid;
    if es != [] {
      var n := |es| - 1;
      EverPaidIsBound(es[..n]);
      NothingForgotten(After(EMPTY, es[..n]), es[n]);
      PaidIsBound(After(EMPTY, es[..n]), es[n]);
    }
  }

  /** In every run of mints, sightings, renewals, beats, refunds and moves: no month of a payment was
      both minted into a note and paid a plan directly exactly when every sighting was clear. */
  lemma {:induction false} NeverBothExactlyWhenClear(es: seq<Event>)
    ensures EverPaid(EMPTY, es) !! After(EMPTY, es).minted.Keys <==> AllClear(es)
  {
    hide Next, Paid, Clear;
    if es != [] {
      var n := |es| - 1;
      var b, paid := After(EMPTY, es[..n]), EverPaid(EMPTY, es[..n]);
      NeverBothExactlyWhenClear(es[..n]);
      EverPaidIsBound(es[..n]);
      EverPaidIsBound(es);
      NothingForgotten(b, es[n]);
      if AllClear(es[..n]) {
        assert Apart(b, paid);
        StepKeepsApartExactly(b, es[n], paid);
        assert Apart(Next(b, es[n]), EverPaid(EMPTY, es)) <==> EverPaid(EMPTY, es) !! After(EMPTY, es).minted.Keys;
      } else {
        var m :| m in paid && m in b.minted;
        assert m in EverPaid(EMPTY, es) && m in After(EMPTY, es).minted;
      }
    }
  }

  predicate StartNamed(e: Event) {
    e.Sight? || e.ByRail? ==> e.start > 0
  }

  /** When every report names a start, a payment's month never pays both ways; and in any run every plan's
      rail is its account's. */
  lemma {:induction false} NeverBoth(es: seq<Event>)
    ensures (forall i :: 0 <= i < |es| ==> StartNamed(es[i])) ==> EverPaid(EMPTY, es) !! After(EMPTY, es).minted.Keys
    ensures Owned(After(EMPTY, es))
  {
    hide Next, Paid, Owned, Clear;
    OwnedAfter(es);
    NeverBothExactlyWhenClear(es);
    if forall i :: 0 <= i < |es| ==> StartNamed(es[i]) { NamedStartsAreClear(es); }
  }

  lemma {:induction false} NamedStartsAreClear(es: seq<Event>)
    requires forall i :: 0 <= i < |es| ==> StartNamed(es[i])
    ensures AllClear(es)
  {
    hide Next, ClearSight, After;
    if es != [] {
      var b, e := After(EMPTY, es[..|es| - 1]), es[|es| - 1];
      NamedStartsAreClear(es[..|es| - 1]);
      if Sighting(b, e).Some? { NamedStartIsClear(b, Sighting(b, e).value); }
    }
  }

  lemma {:induction false} OwnedAfter(es: seq<Event>)
    ensures Owned(After(EMPTY, es))
  {
    hide Next, Owned;
    if es == [] {
      NothingYet();
    } else {
      OwnedAfter(es[..|es| - 1]);
      StepKeepsOwned(After(EMPTY, es[..|es| - 1]), es[|es| - 1]);
    }
  }

  lemma NothingYet()
    ensures Apart(EMPTY, {}) && Owned(EMPTY)
  {
  }

  // ---- a report without a start -------------------------------------------------------------------------

  lemma MonthCovered(start: nat, until: nat)
    requires start < until <= start + 2
    ensures EpochsCovered(start, until, false) == [EpochOfMs(until - 1)]
  {
    hide Calendar.AddMonths, EpochOfMs;
    Calendar.NoMonths(start);
    Calendar.AddMonthsIncreases(start, 0, 1);
    Calendar.AddMonthsLands(start, 1);
    Calendar.AddMonthsLands(start, 0);
    AtLeastADay(start, Calendar.AddMonths(start, 1));
    var e := MonthEnd(start, until, 0);
    assert e == until;
    assert EpochsFrom(start, until, 0, 1) == [EpochOfMs(e - 1)] + EpochsFrom(start, until, 1, 1);
  }

  lemma AtLeastADay(a: nat, b: nat)
    requires a < b && a % Calendar.DAY_MS == b % Calendar.DAY_MS
    ensures a + Calendar.DAY_MS <= b
  {
  }

  lemma NothingCoveredButTheFirst(until: nat)
    requires until > 0
    ensures EpochsCovered(0, until, false) == [0]
  {
    hide Calendar.AddMonths, Calendar.CivilFromMs;
    Calendar.NoMonths(0);
    Calendar.AddMonthsIncreases(0, 0, 1);
    Calendar.AddMonthsLands(0, 1);
    Calendar.CivilIsCounting(0);
    var e := MonthEnd(0, until, 0);
    EpochsKeepOrder(e - 1, Calendar.AddMonths(0, 1));
    assert EpochsFrom(0, until, 0, 1) == [EpochOfMs(e - 1)] + EpochsFrom(0, until, 1, 1);
  }

  lemma InApril(ms: nat)
    requires EpochStart(3) <= ms <= EpochStart(3) + 1
    ensures EpochOfMs(ms) == 3 && ms > 0
  {
    hide EpochOfMs, EpochStart;
    EpochBounds(ms, 3);
    EpochStartIsFirstDay(3);
    EpochStartIsFirstDay(4);
    Calendar.FirstDaysIncrease(24_315, 24_316);
    Calendar.FirstDaysIncrease(24_312, 24_315);
    EpochStartIsFirstDay(0);
  }

  /** A report that names no start keeps the start known, and the months then covered are not the
      ones that were looked up: such a payment can pay both ways. */
  lemma StartlessReportPaysTwice()
    ensures exists es :: |es| == 3 && EverPaid(EMPTY, es) * After(EMPTY, es).minted.Keys != {}
  {
    hide EpochsCovered, EpochOfMs, EpochStart, Next, Paid;
    var s := EpochStart(3);
    InApril(s);
    var e0, e1 := Sight("a", 0, false, "iap:1", s, s, s + 1), Mint("iap:2", 3, "f");
    var e2 := Sight("a", 0, false, "iap:2", s + 1, 0, s + 2);
    var b2 := Next(Next(EMPTY, e0), e1);
    FirstSight(s, e0, e1);
    SecondSight(b2, s, e2);
    ThreeSteps(e0, e1, e2);
    assert ("iap:2", 3) in EverPaid(EMPTY, [e0, e1, e2]) * After(EMPTY, [e0, e1, e2]).minted.Keys;
  }

  predicate OnePlanOneNote(b: Book, s: nat) {
    && "a" in b.plans && b.plans["a"].rail == "iap:1" && b.plans["a"].start == s && b.plans["a"].until == s + 1
    && b.rails == map["iap:1" := "a"]
    && b.minted == map[("iap:2", 3) := "f"]
  }

  lemma FirstSight(s: nat, e0: Event, e1: Event)
    requires s > 0 && e0 == Sight("a", 0, false, "iap:1", s, s, s + 1) && e1 == Mint("iap:2", 3, "f")
    ensures OnePlanOneNote(Next(Next(EMPTY, e0), e1), s)
  {
    hide EpochsCovered, HandedOut;
    RenewedRail(At(EMPTY, "a"), e0);
  }

  lemma SecondSight(b: Book, s: nat, e: Event)
    requires s == EpochStart(3) && OnePlanOneNote(b, s) && e == Sight("a", 0, false, "iap:2", s + 1, 0, s + 2)
    ensures ("iap:2", 3) in Paid(b, e) && ("iap:2", 3) in Next(b, e).minted
  {
    hide EpochsCovered, EpochOfMs, EpochStart, HandedOut, Renewed;
    InApril(s + 1);
    NothingCoveredButTheFirst(s + 2);
    MonthCovered(s, s + 2);
    StartKept(At(b, "a"), e);
    RenewedRail(At(b, "a"), e);
    assert EpochsCovered(s, s + 2, false)[0] == 3;
    assert ("iap:2", 3) in MonthsOf("iap:2", EpochsCovered(s, s + 2, false));
    assert "iap:2"[..5][0] == 'i' && "note:"[0] == 'n' && !IsNote("iap:2");
    assert !AnyMinted(b, "iap:2", EpochsCovered(0, s + 2, false));
    assert RenewBy(b, e).Ok?;
  }

  lemma StartKept(a: Account, e: Event)
    requires e.Sight? && e.start == 0 && a.plan.Some?
    ensures Renewed(a, e.tier, e.yearly, e.rail, e.now, e.start, e.until).0.plan.Some?
    ensures Renewed(a, e.tier, e.yearly, e.rail, e.now, e.start, e.until).0.plan.value.start == a.plan.value.start
  {
    hide SliceAt, Closed, UpgradeExtra, Opened;
  }

  lemma ThreeSteps(e0: Event, e1: Event, e2: Event)
    ensures After(EMPTY, [e0, e1, e2]) == Next(Next(Next(EMPTY, e0), e1), e2)
    ensures Paid(Next(Next(EMPTY, e0), e1), e2) <= EverPaid(EMPTY, [e0, e1, e2])
  {
    hide Next, Paid;
    assert [e0][..0] == [];
    assert After(EMPTY, [e0]) == Next(EMPTY, e0);
    assert [e0, e1][..1] == [e0];
    assert After(EMPTY, [e0, e1]) == Next(After(EMPTY, [e0]), e1);
    assert [e0, e1, e2][..2] == [e0, e1];
  }
}
