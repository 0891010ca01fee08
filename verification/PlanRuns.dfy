/** Runs over all the plan tables, seen account by account, and what moves do to them. */
module PlanRuns {
  import opened Wrappers
  import opened Names
  import opened Naturals
  import opened Slices
  import opened Plans
  import opened NoteOrPlan
  import PlanSafety

  // ---- one account's share of a run ---------------------------------------------------------------------

  function OnAccount(b: Book, e: Event, key: Acct): Option<PlanSafety.Event> {
    var s := Sighting(b, e);
    if s.Some? then
      var x := s.value;
      if x.key == key && RenewBy(b, x).Ok? && !(x.until <= x.now && key !in b.plans)
      then Some(PlanSafety.Report(x.tier, x.yearly, x.rail, x.now, x.start, x.until)) else None
    else
      match e
      case ToTier(k, tier, now) => if k == key then Some(PlanSafety.ToTier(tier, now)) else None
      case Beat(k, now) => if k == key then Some(PlanSafety.Beat(now)) else None
      case Back(rail, disputed, now) => if OnRail(b, rail) == Some(key) then Some(PlanSafety.Back(disputed, now)) else None
      case Draw(k, left) => if k == key then Some(PlanSafety.Draw(left)) else None
      case MoveTo(rail, to, now) =>
        if !Move(b, rail, to, now).1 then None
        else if key == to then Some(PlanSafety.Arrive(b.plans[b.rails[rail]], At(b, b.rails[rail]).row))
        else if key == b.rails[rail] then Some(PlanSafety.Leave)
        else None
      case _ => None
  }

  function Share(b: Book, es: seq<Event>, key: Acct): seq<PlanSafety.Event> {
    if es == [] then []
    else
      var n := |es| - 1;
      var x := OnAccount(After(b, es[..n]), es[n], key);
      Share(b, es[..n], key) + if x.Some? then [x.value] else []
  }

  lemma WithAt(b: Book, key: Acct, a: Account, k: Acct)
    requires (a.plan.None? ==> key !in b.plans) && (a.row.None? ==> key !in b.allowance)
    ensures At(With(b, key, a), k) == if k == key then a else At(b, k)
  {
  }

  /** No operation but a move takes away a plan or a row. */
  lemma NothingVanishes(a: Account, x: PlanSafety.Event)
    requires !x.Leave?
    ensures (a.plan.Some? ==> PlanSafety.Next(a, x).plan.Some?) && (a.row.Some? ==> PlanSafety.Next(a, x).row.Some?)
  {
    hide SliceAt, Closed, Pruned, UpgradeExtra, PeriodKey, Current;
  }

  lemma SightOnAccount(b: Book, e: Event, key: Acct)
    requires e.Sight?
    ensures var x := PlanSafety.Report(e.tier, e.yearly, e.rail, e.now, e.start, e.until);
            At(Accepted(RenewBy(b, e), b), key)
            == if e.key == key && RenewBy(b, e).Ok? && !(e.until <= e.now && key !in b.plans)
               then PlanSafety.Next(At(b, key), x) else At(b, key)
  {
    hide Renewed, AnyMinted, EpochsCovered, AttachRefusal, Placed;
    var x := PlanSafety.Report(e.tier, e.yearly, e.rail, e.now, e.start, e.until);
    NothingVanishes(At(b, e.key), x);
    WithAt(b, e.key, PlanSafety.Next(At(b, e.key), x), key);
  }

  lemma MoveOnAccount(b: Book, e: Event, key: Acct)
    requires e.MoveTo?
    ensures var x := OnAccount(b, e, key);
            At(Next(b, e), key) == if x.Some? then PlanSafety.Next(At(b, key), x.value) else At(b, key)
  {
    hide PaidAt, Carried;
  }

  lemma StepOnAccount(b: Book, e: Event, key: Acct)
    ensures var x := OnAccount(b, e, key);
            At(Next(b, e), key) == if x.Some? then PlanSafety.Next(At(b, key), x.value) else At(b, key)
  {
    hide Renew, TierChanged, Rolled, Ended, With, Move;
    match e
    case Sight(_, _, _, _, _, _, _) => SightOnAccount(b, e, key);
    case ByRail(_, _, _, _, _, _) => if Sighting(b, e).Some? { SightOnAccount(b, Sighting(b, e).value, key); }
    case ToTier(k, tier, now) => ChangeOnAccount(b, k, PlanSafety.ToTier(tier, now), key);
    case Beat(k, now) => ChangeOnAccount(b, k, PlanSafety.Beat(now), key);
    case Back(rail, disputed, now) =>
      if OnRail(b, rail).Some? { ChangeOnAccount(b, OnRail(b, rail).value, PlanSafety.Back(disputed, now), key); }
    case Draw(k, left) => ChangeOnAccount(b, k, PlanSafety.Draw(left), key);
    case MoveTo(_, _, _) => MoveOnAccount(b, e, key);
    case Mint(_, _, _) =>
  }

  lemma ChangeOnAccount(b: Book, k: Acct, x: PlanSafety.Event, key: Acct)
    requires !x.Leave?
    ensures At(With(b, k, PlanSafety.Next(At(b, k), x)), key) == if k == key then PlanSafety.Next(At(b, k), x) else At(b, key)
  {
    hide PlanSafety.Next, With;
    NothingVanishes(At(b, k), x);
    WithAt(b, k, PlanSafety.Next(At(b, k), x), key);
  }

  /** A run over the tables is, for each account, a run of that account's own events: what is proved
      of one account's plan holds of every account in the book. */
  lemma {:induction false} RunOnAccount(b: Book, es: seq<Event>, key: Acct)
    ensures At(After(b, es), key) == PlanSafety.After(At(b, key), Share(b, es, key))
  {
    hide Next, OnAccount, PlanSafety.Next, At;
    if es != [] {
      var n := |es| - 1;
      RunOnAccount(b, es[..n], key);
      var bb := After(b, es[..n]);
      var x := OnAccount(bb, es[n], key);
      StepOnAccount(bb, es[n], key);
      if x.Some? {
        PlanSafety.AfterOne(At(b, key), Share(b, es[..n], key), x.value);
      } else {
        assert Share(b, es[..n], key) + [] == Share(b, es[..n], key);
      }
    }
  }

  predicate InTime(e: Event) {
    e.Sight? || e.ByRail? ==> e.until <= PlanSafety.LIMIT
  }

  predicate PlansInTime(b: Book) {
    forall key :: key in b.plans ==> b.plans[key].until <= PlanSafety.LIMIT
  }

  lemma ShareStepInTime(b: Book, e: Event, key: Acct)
    requires PlansInTime(b) && InTime(e)
    ensures OnAccount(b, e, key).Some? ==> PlanSafety.InTime(OnAccount(b, e, key).value)
  {
    hide RenewBy, PaidAt, Carried, Lapsed;
  }

  lemma StepPlansInTime(b: Book, e: Event)
    requires PlansInTime(b) && InTime(e)
    ensures PlansInTime(Next(b, e))
  {
    hide Next, OnAccount, PlanSafety.Next, PlanSafety.InTime;
    var n := Next(b, e);
    forall key | key in n.plans ensures n.plans[key].until <= PlanSafety.LIMIT {
      StepOnAccount(b, e, key);
      ShareStepInTime(b, e, key);
      assert PlanSafety.PlanInTime(At(b, key));
      var x := OnAccount(b, e, key);
      if x.Some? { PlanSafety.StepInTime(At(b, key), x.value); }
      assert At(n, key).plan == Some(n.plans[key]);
    }
  }

  /** A move brings no account an older period than its own. */
  predicate SteadyMove(b: Book, e: Event) {
    e.MoveTo? && Move(b, e.rail, e.to, e.now).1 && b.rails[e.rail] in b.allowance ==>
      Current(At(b, b.rails[e.rail]).row) >= Current(At(b, e.to).row)
  }

  predicate SteadyMoves(es: seq<Event>) {
    es != [] ==> SteadyMoves(es[..|es| - 1]) && SteadyMove(After(EMPTY, es[..|es| - 1]), es[|es| - 1])
  }

  lemma SteadyOnAccount(b: Book, e: Event, key: Acct)
    requires SteadyMove(b, e)
    ensures OnAccount(b, e, key).Some? ==> PlanSafety.Steady(At(b, key), OnAccount(b, e, key).value)
  {
    hide Renew, PaidAt, Carried, Lapsed, Current;
  }

  lemma {:induction false} ShareIsSteady(es: seq<Event>, key: Acct)
    requires SteadyMoves(es) && forall i :: 0 <= i < |es| ==> InTime(es[i])
    ensures PlansInTime(After(EMPTY, es)) && PlanSafety.SteadyRun(PlanSafety.NOBODY, Share(EMPTY, es, key))
    ensures forall i :: 0 <= i < |Share(EMPTY, es, key)| ==> PlanSafety.InTime(Share(EMPTY, es, key)[i])
  {
    hide Next, OnAccount, SteadyMove, PlanSafety.Steady, PlanSafety.InTime, PlansInTime;
    if es == [] {
      NoPlansYet();
    } else {
      var n := |es| - 1;
      var b := After(EMPTY, es[..n]);
      ShareIsSteady(es[..n], key);
      StepPlansInTime(b, es[n]);
      ShareStepInTime(b, es[n], key);
      SteadyOnAccount(b, es[n], key);
      RunOnAccount(EMPTY, es[..n], key);
      assert At(EMPTY, key) == PlanSafety.NOBODY;
      var x := OnAccount(b, es[n], key);
      if x.Some? {
        OneMoreSteady(Share(EMPTY, es[..n], key), x.value);
      } else {
        assert Share(EMPTY, es[..n], key) + [] == Share(EMPTY, es[..n], key);
      }
    }
  }

  lemma NoPlansYet()
    ensures PlansInTime(EMPTY)
  {
  }

  lemma OneMoreSteady(xs: seq<PlanSafety.Event>, x: PlanSafety.Event)
    requires PlanSafety.SteadyRun(PlanSafety.NOBODY, xs) && PlanSafety.Steady(PlanSafety.After(PlanSafety.NOBODY, xs), x)
    ensures PlanSafety.SteadyRun(PlanSafety.NOBODY, xs + [x])
  {
    hide PlanSafety.Steady, PlanSafety.After;
    assert (xs + [x])[..|xs|] == xs;
  }

  /** In every run over the tables whose moves bring no account an older period, and for every account:
      each full allowance is for a later period than the one before, and a paid period hands out at most
      twelve. */
  lemma EveryAccountsPeriodsOnce(es: seq<Event>, key: Acct, paidStart: nat)
    requires SteadyMoves(es) && forall i :: 0 <= i < |es| ==> InTime(es[i])
    ensures At(After(EMPTY, es), key) == PlanSafety.After(PlanSafety.NOBODY, Share(EMPTY, es, key))
    ensures var gs := PlanSafety.Grants(PlanSafety.NOBODY, Share(EMPTY, es, key));
            PlanSafety.Rising(gs) && |PlanSafety.OfPaid(gs, paidStart)| <= 12
  {
    hide Share, After, SteadyMoves, PlanSafety.After, PlanSafety.Grants, PlanSafety.OfPaid, PlanSafety.Rising, PlanSafety.SteadyRun;
    assert At(EMPTY, key) == PlanSafety.NOBODY;
    RunOnAccount(EMPTY, es, key);
    ShareIsSteady(es, key);
    PlanSafety.NoPeriodTwice(PlanSafety.NOBODY, Share(EMPTY, es, key));
    PlanSafety.AtMostTwelveGrants(PlanSafety.NOBODY, Share(EMPTY, es, key), paidStart);
  }

  // ---- a plan that moves --------------------------------------------------------------------------------

  /** Moving a plan hands out nothing: on the new account the row reads as the same period, with no
      more than was left, and the old account's allowance is gone. */
  lemma MoveHandsOutNothing(b: Book, rail: string, to: Acct, now: nat, t: nat)
    requires Move(b, rail, to, now).1 && b.rails[rail] in b.allowance
    ensures var from, n := b.rails[rail], Move(b, rail, to, now).0;
            && from in n.allowance && to in n.allowance && to in n.plans && n.plans[to] == b.plans[from] && from !in n.plans
            && n.allowance[to].granted == b.allowance[from].granted && n.allowance[from].left == 0
            && n.allowance[to].left == Min(b.allowance[from].left, b.allowance[from].granted)
            && PlanSafety.OpensAt(n.plans[to], Some(n.allowance[to]), t)
               == PlanSafety.OpensAt(b.plans[from], Some(b.allowance[from]), t)
  {
    hide SliceAt, PaidAt;
  }

  /** A move lowers the period of the account it goes to exactly when that account's own is later than
      the one that moves. */
  lemma MoveLowersExactly(b: Book, rail: string, to: Acct, now: nat)
    requires Move(b, rail, to, now).1
    ensures Current(At(Move(b, rail, to, now).0, to).row) < Current(At(b, to).row)
            <==> b.rails[rail] in b.allowance && Current(At(b, b.rails[rail]).row) < Current(At(b, to).row)
  {
    hide PaidAt;
  }

  /** What a move reopens: whatever plan is reported afterwards, a period is granted that the account's
      row would have refused before, exactly when it lies after the period that moved in and not after
      the account's own. */
  lemma ReopenedByAMove(b: Book, rail: string, to: Acct, now: nat, p: Plan, t: nat)
    requires Move(b, rail, to, now).1
    ensures var slice := SliceAt(p.start, p.until, p.yearly, t);
            PlanSafety.OpensAt(p, At(Move(b, rail, to, now).0, to).row, t).Some?
            && PlanSafety.OpensAt(p, At(b, to).row, t).None?
            <==> slice.Some? && b.rails[rail] in b.allowance
                 && Current(At(b, b.rails[rail]).row) < PeriodKey(slice.value.0) <= Current(At(b, to).row)
  {
    hide PaidAt, SliceAt, PeriodKey;
  }

  // ---- a period granted twice by way of a move ------------------------------------------------------------

  function OwnPlan(): Plan {
    Plan(0, false, "iap:q", 2_000_000, 9_000_000, true, 2_000_000, 0, [], 0, 2000)
  }

  function RefundedPlan(): Plan {
    Plan(0, false, "iap:q", 2_000_000, 2_500_000, false, 2_500_000, 0, [PeriodUsage(2000, 0, NoneDrawn)], 0, 2000)
  }

  function OlderPlan(): Plan {
    Plan(0, false, "iap:r", 1_000_000, 3_000_000, true, 2_000_000, 0, [], 0, 1000)
  }

  const OWN_ROW := Row(2000, 9_000_000, 700_000, 700_000)
  const OLDER_ROW := Row(1000, 3_000_000, 700_000, 700_000)
  const ENDED_ROW := Row(2000, 9_000_000, 0, 0)

  /** The account's own share: paid, refunded, taking in an older plan, paid again. */
  function MovedRun(): seq<PlanSafety.Event> {
    [PlanSafety.Report(0, false, "iap:q", 2_000_000, 2_000_000, 9_000_000),
     PlanSafety.Back(false, 2_500_000),
     PlanSafety.Arrive(OlderPlan(), Some(OLDER_ROW)),
     PlanSafety.Report(0, false, "iap:q", 3_500_000, 2_000_000, 9_000_000)]
  }

  lemma OneMoreGrant(a: Account, es: seq<PlanSafety.Event>, e: PlanSafety.Event)
    ensures var g := PlanSafety.Granted(PlanSafety.After(a, es), e);
            PlanSafety.Grants(a, es + [e]) == PlanSafety.Grants(a, es) + if g.Some? then [g.value] else []
  {
    hide PlanSafety.Granted;
    assert (es + [e])[..|es|] == es;
  }

  lemma OwnPeriod()
    ensures PlanSafety.Next(PlanSafety.NOBODY, MovedRun()[0]) == Account(Some(OwnPlan()), Some(OWN_ROW))
    ensures PlanSafety.Granted(PlanSafety.NOBODY, MovedRun()[0]) == Some(PlanSafety.Grant(2_000_000, 2_000_000))
  {
  }

  lemma OwnRefund()
    ensures PlanSafety.Next(Account(Some(OwnPlan()), Some(OWN_ROW)), MovedRun()[1]) == Account(Some(RefundedPlan()), Some(ENDED_ROW))
  {
    var p := OwnPlan().(active := false, until := 2_500_000, checkedAt := 2_500_000);
    assert Closed(p, Some(OWN_ROW)).usage == [PeriodUsage(2000, 0, NoneDrawn)];
  }

  lemma OlderArrives()
    ensures PlanSafety.Next(Account(Some(RefundedPlan()), Some(ENDED_ROW)), MovedRun()[2])
            == Account(Some(OlderPlan()), Some(OLDER_ROW))
  {
  }

  lemma OwnPeriodAgain()
    ensures PlanSafety.Granted(Account(Some(OlderPlan()), Some(OLDER_ROW)), MovedRun()[3])
            == Some(PlanSafety.Grant(2_000_000, 2_000_000))
  {
  }

  lemma RegrantedRun()
    ensures PlanSafety.Grants(PlanSafety.NOBODY, MovedRun())
            == [PlanSafety.Grant(2_000_000, 2_000_000), PlanSafety.Grant(2_000_000, 2_000_000)]
  {
    hide PlanSafety.Next, PlanSafety.Grants;
    var nobody, es := PlanSafety.NOBODY, MovedRun();
    OwnPeriod();
    OwnRefund();
    OlderArrives();
    OwnPeriodAgain();
    assert [] + [es[0]] == es[..1] && es[..1] + [es[1]] == es[..2] && es[..2] + [es[2]] == es[..3] && es[..3] + [es[3]] == es;
    NoGrantsYet();
    PlanSafety.AfterOne(nobody, [], es[0]);
    PlanSafety.AfterOne(nobody, es[..1], es[1]);
    PlanSafety.AfterOne(nobody, es[..2], es[2]);
    OneMoreGrant(nobody, [], es[0]);
    OneMoreGrant(nobody, es[..1], es[1]);
    OneMoreGrant(nobody, es[..2], es[2]);
    OneMoreGrant(nobody, es[..3], es[3]);
  }

  lemma NoGrantsYet()
    ensures PlanSafety.Grants(PlanSafety.NOBODY, []) == [] && PlanSafety.After(PlanSafety.NOBODY, []) == PlanSafety.NOBODY
  {
  }

  // The same on the tables.

  function Paying(): Book {
    Book(map["b" := OwnPlan()], map["b" := OWN_ROW], map["iap:q" := "b"], map[])
  }

  function BothPaying(): Book {
    Book(map["b" := OwnPlan(), "a" := OlderPlan()], map["b" := OWN_ROW, "a" := OLDER_ROW], map["iap:q" := "b", "iap:r" := "a"], map[])
  }

  function OneRefunded(): Book {
    Book(map["b" := RefundedPlan(), "a" := OlderPlan()], map["b" := ENDED_ROW, "a" := OLDER_ROW],
         map["iap:q" := "b", "iap:r" := "a"], map[])
  }

  function Moved(): Book {
    Book(map["b" := OlderPlan()], map["b" := OLDER_ROW, "a" := Row(1000, 3_000_000, 0, 0)],
         map["iap:q" := "b", "iap:r" := "b"], map[])
  }

  const FIRST := Sight("b", 0, false, "iap:q", 2_000_000, 2_000_000, 9_000_000)
  const OTHER := Sight("a", 0, false, "iap:r", 2_000_000, 1_000_000, 3_000_000)
  const REFUND := Back("iap:q", false, 2_500_000)
  const MOVE := MoveTo("iap:r", "b", 3_000_000)
  const AGAIN := Sight("b", 0, false, "iap:q", 3_500_000, 2_000_000, 9_000_000)

  lemma FirstPays()
    ensures Next(EMPTY, FIRST) == Paying() && OnAccount(EMPTY, FIRST, "b") == Some(MovedRun()[0])
  {
    hide EpochsCovered, Renewed;
    OwnPeriod();
    NothingMinted(EMPTY, "iap:q", EpochsCovered(2_000_000, 9_000_000, false));
    assert Renewed(At(EMPTY, "b"), 0, false, "iap:q", 2_000_000, 2_000_000, 9_000_000).0 == Account(Some(OwnPlan()), Some(OWN_ROW));
  }

  lemma NothingMinted(b: Book, rail: string, epochs: seq<nat>)
    requires b.minted == map[]
    ensures !AnyMinted(b, rail, epochs)
  {
  }

  lemma OlderPeriod()
    ensures Renewed(Account(None, None), 0, false, "iap:r", 2_000_000, 1_000_000, 3_000_000).0
            == Account(Some(OlderPlan()), Some(OLDER_ROW))
  {
  }

  lemma OtherPays()
    ensures Next(Paying(), OTHER) == BothPaying() && OnAccount(Paying(), OTHER, "b") == None
  {
    hide EpochsCovered, Renewed;
    OlderPeriod();
    NothingMinted(Paying(), "iap:r", EpochsCovered(1_000_000, 3_000_000, false));
  }

  lemma FirstRefunded()
    ensures Next(BothPaying(), REFUND) == OneRefunded() && OnAccount(BothPaying(), REFUND, "b") == Some(MovedRun()[1])
  {
    hide Ended;
    OwnRefund();
  }

  lemma OtherMoves()
    ensures Next(OneRefunded(), MOVE) == Moved() && OnAccount(OneRefunded(), MOVE, "b") == Some(MovedRun()[2])
  {
  }

  lemma FirstAgain()
    ensures OnAccount(Moved(), AGAIN, "b") == Some(MovedRun()[3])
  {
    hide EpochsCovered, Renewed;
    NothingMinted(Moved(), "iap:q", EpochsCovered(2_000_000, 9_000_000, false));
  }

  lemma OneMoreShare(b: Book, es: seq<Event>, e: Event, key: Acct)
    ensures After(b, es + [e]) == Next(After(b, es), e)
    ensures var x := OnAccount(After(b, es), e, key);
            Share(b, es + [e], key) == Share(b, es, key) + if x.Some? then [x.value] else []
  {
    hide Next, OnAccount;
    assert (es + [e])[..|es|] == es;
  }

  lemma SharedRun()
    ensures Share(EMPTY, [FIRST, OTHER, REFUND, MOVE, AGAIN], "b") == MovedRun()
  {
    hide Next, OnAccount, Share, After;
    var es := [FIRST, OTHER, REFUND, MOVE, AGAIN];
    FirstPays();
    OtherPays();
    FirstRefunded();
    OtherMoves();
    FirstAgain();
    NothingShared("b");
    assert [] + [es[0]] == es[..1] && es[..1] + [es[1]] == es[..2] && es[..2] + [es[2]] == es[..3];
    assert es[..3] + [es[3]] == es[..4] && es[..4] + [es[4]] == es;
    OneMoreShare(EMPTY, [], es[0], "b");
    OneMoreShare(EMPTY, es[..1], es[1], "b");
    OneMoreShare(EMPTY, es[..2], es[2], "b");
    OneMoreShare(EMPTY, es[..3], es[3], "b");
    OneMoreShare(EMPTY, es[..4], es[4], "b");
  }

  lemma NothingShared(key: Acct)
    ensures After(EMPTY, []) == EMPTY && Share(EMPTY, [], key) == []
  {
  }

  /** An account whose plan was refunded takes in another with an older period; its own rail then grants
      its period again. */
  lemma GrantedAgainAfterAMove()
    ensures PlanSafety.Grants(PlanSafety.NOBODY, Share(EMPTY, [FIRST, OTHER, REFUND, MOVE, AGAIN], "b"))
            == [PlanSafety.Grant(2_000_000, 2_000_000), PlanSafety.Grant(2_000_000, 2_000_000)]
  {
    hide Next, Share, PlanSafety.Grants, MovedRun;
    SharedRun();
    RegrantedRun();
  }
}
