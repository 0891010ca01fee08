/** What each operation on plans answers, and what it leaves of the plan, the row and everybody else. */
module PlanSteps {
  import opened Wrappers
  import opened Names
  import opened Naturals
  import opened Slices
  import opened Plans
  import opened PlanSafety

  // ---- who is refused ------------------------------------------------------------------------------------

  /** Another rail is paying the account's plan now. */
  predicate PaysOtherwise(b: Book, key: Acct, rail: string, now: nat) {
    key in b.plans && b.plans[key].rail != "" && b.plans[key].rail != rail && b.plans[key].active && now < b.plans[key].until
  }

  /** Some month of the reported period was minted into a note for this payment. */
  predicate WasMinted(b: Book, rail: string, start: nat, until: nat, yearly: bool) {
    var months := EpochsCovered(start, until, yearly);
    !("note:" <= rail) && exists j :: 0 <= j < |months| && (rail, months[j]) in b.minted
  }

  const ALREADY :=
    "this account already has a plan — change it instead of taking out a second one, or cancel it and subscribe again once its month has ended"

  /** A report is refused for one of three reasons, the first that holds: the rail is another account's,
      the account pays otherwise, the payment was minted. Refused, it changes nothing. */
  lemma RefusedExactly(b: Book, key: Acct, tier: nat, yearly: bool, rail: string, now: nat, start: nat, until: nat)
    ensures var r := Renew(b, key, tier, yearly, rail, now, start, until);
            if rail in b.rails && b.rails[rail] != key then r == Err("this subscription is already on another tokumai account")
            else if PaysOtherwise(b, key, rail, now) then r == Err(ALREADY)
            else if WasMinted(b, rail, start, until, yearly)
            then r == Err("this payment was turned into a note and pays as one; it cannot also pay a plan directly")
            else r.Ok?
  {
    hide EpochsCovered, Renewed;
    PrefixOf(rail);
  }

  lemma PrefixOf(rail: string)
    ensures IsNote(rail) <==> "note:" <= rail
  {
    if "note:" <= rail { assert rail[..5] == "note:"; }
  }

  /** A report that is not refused binds its rail to the account and changes nobody else's plan or row,
      and no minted month; one that reports an ended period of an account without a plan changes nothing. */
  lemma AcceptedIsLocal(b: Book, key: Acct, tier: nat, yearly: bool, rail: string, now: nat, start: nat, until: nat, other: Acct)
    requires Renew(b, key, tier, yearly, rail, now, start, until).Ok?
    ensures var (n, granted) := Renew(b, key, tier, yearly, rail, now, start, until).value;
            if until <= now && key !in b.plans then n == b && !granted
            else
              && n.rails == b.rails[rail := key] && n.minted == b.minted
              && (other != key ==> At(n, other) == At(b, other))
              && At(n, key) == Next(At(b, key), Report(tier, yearly, rail, now, start, until))
              && (granted <==> Granted(At(b, key), Report(tier, yearly, rail, now, start, until)).Some?)
  {
    hide EpochsCovered, AnyMinted, SliceAt, Closed, UpgradeExtra, PeriodKey, Current;
  }

  // ---- what a report leaves ------------------------------------------------------------------------------

  /** The plan is as it was reported, a start only if one was named; chargebacks and the usage noted so
      far stay, with one more step of usage at most. */
  lemma PlanAsReported(a: Account, e: Event)
    requires e.Report?
    ensures var (p, was) := (Next(a, e).plan, if a.plan.Some? then a.plan.value else NO_PLAN);
            && p.Some? && p.value.tier == Min(e.tier, 2) && p.value.yearly == e.yearly && p.value.rail == e.rail
            && p.value.until == e.until && p.value.checkedAt == e.now && (p.value.active <==> e.now < e.until)
            && p.value.start == (if e.start > 0 then e.start else was.start) && p.value.disputedAt == was.disputedAt
            && was.usage <= p.value.usage && |p.value.usage| <= |was.usage| + 1
  {
    hide SliceAt, UpgradeExtra, PeriodKey, Current;
  }

  /** A grant fills the row: the period of the slice that is running, to its end, with the tier's TOKU, all
      of it left. */
  lemma GrantFillsTheRow(a: Account, e: Event)
    requires Granted(a, e).Some?
    ensures e.Report? || e.Beat?
    ensures var n := Next(a, e);
            && n.plan.Some? && n.row.Some? && SliceAt(n.plan.value.start, n.plan.value.until, n.plan.value.yearly, e.now).Some?
            && var (s, end) := SliceAt(n.plan.value.start, n.plan.value.until, n.plan.value.yearly, e.now).value;
               n.row.value == Row(s / 1000, end, Toku(n.plan.value.tier), Toku(n.plan.value.tier))
  {
    hide SliceAt, Closed, Pruned, PeriodKey, Current;
  }

  function Toku(tier: nat): nat {
    if tier == 0 then 700_000 else if tier == 1 then 1_500_000 else 4_000_000
  }

  /** Anything that is not a grant leaves the row its period and its end; what a report or a tier change
      adds to the grant it adds to what is left; and nothing else adds. */
  lemma OnlyStepsUpAdd(a: Account, e: Event)
    requires a.row.Some? && Granted(a, e).None? && !e.Arrive? && !e.Draw?
    ensures var (was, row) := (a.row.value, Next(a, e).row);
            && row.Some? && row.value.period == was.period && row.value.ends == was.ends
            && if e.Report? || e.ToTier? then row.value.granted - was.granted == row.value.left - was.left >= 0
               else row.value == was || row.value.granted == row.value.left == 0
  {
    hide SliceAt, Closed, Pruned, PeriodKey, Current, UpgradeExtra;
  }

  /** A tier change changes the tier and, at a step up, what was granted; and answers what it added. */
  lemma ChangeAnswersWhatItAdds(a: Account, tier: nat, now: nat)
    requires a.plan.Some?
    ensures var (n, extra) := TierChanged(a, tier, now);
            && n.plan.Some? && n.plan.value.tier == Min(tier, 2)
            && n.plan.value == a.plan.value.(tier := n.plan.value.tier, grantedTier := n.plan.value.grantedTier,
                                             grantedPeriod := n.plan.value.grantedPeriod)
            && n.row == (if a.row.None? then None
                         else Some(a.row.value.(granted := a.row.value.granted + extra, left := a.row.value.left + extra)))
  {
    hide SliceAt, UpgradeExtra, PeriodKey;
  }

  // ---- the beat, a refund --------------------------------------------------------------------------------

  /** The beat leaves a plan as it was, but for being paid and its usage; and counts an account exactly
      when a period of it began or its allowance lapsed. */
  lemma BeatLeavesThePlan(a: Account, now: nat)
    requires a.plan.Some?
    ensures var (n, changed) := Rolled(a, now);
            && n.plan.Some? && n.plan.value == a.plan.value.(active := n.plan.value.active, usage := n.plan.value.usage)
            && (n.plan.value.active <==> a.plan.value.active && now < a.plan.value.until)
            && (changed <==> Granted(a, Beat(now)).Some? || n.row != a.row)
            && (Granted(a, Beat(now)).None? ==>
                  n.row == if a.row.Some? && a.row.value.granted > 0 && a.row.value.ends <= now && Unpaid(a.plan.value, now)
                           then Some(a.row.value.(granted := 0, left := 0)) else a.row)
  {
    hide SliceAt, Closed, Pruned;
  }

  /** No period of the plan is running. */
  predicate Unpaid(p: Plan, now: nat) {
    !p.active || p.until <= now || SliceAt(p.start, p.until, p.yearly, now).None?
  }

  /** A refund ends the plan now, or when it ended before; the rest of it stays, and nothing of its
      allowance. */
  lemma RefundLeaves(a: Account, disputed: bool, now: nat)
    requires a.plan.Some?
    ensures var n := Ended(a, disputed, now);
            && n.plan.Some? && !n.plan.value.active && n.plan.value.until == Min(a.plan.value.until, now)
            && n.plan.value == a.plan.value.(active := false, until := n.plan.value.until, checkedAt := now,
                                             disputedAt := if disputed then now else a.plan.value.disputedAt,
                                             usage := n.plan.value.usage)
            && n.row == if a.row.None? then None else Some(Row(a.row.value.period, a.row.value.ends, 0, 0))
  {
    hide Current, DrawnStep;
  }

  /** Money back on a rail ends the plan of the account that holds it and is still on it, and answers
      whether there was one; everything else stays. */
  lemma MoneyBackExactly(b: Book, rail: string, disputed: bool, now: nat, key: Acct)
    ensures var (n, ended) := Revoke(b, rail, disputed, now);
            && n.rails == b.rails && n.minted == b.minted
            && (ended <==> rail in b.rails && b.rails[rail] in b.plans && b.plans[b.rails[rail]].rail == rail)
            && At(n, key) == if ended && key == b.rails[rail] then Ended(At(b, key), disputed, now) else At(b, key)
  {
    hide Closed;
  }

  // ---- a move --------------------------------------------------------------------------------------------

  /** A plan moves exactly from an account that holds its rail and is on it to another that pays for no
      other plan; it goes as it stands, with its row if there is one, and everybody else keeps theirs. */
  lemma MoveExactly(b: Book, rail: string, to: Acct, now: nat, key: Acct)
    ensures var (n, moved) := Move(b, rail, to, now);
            && (moved <==>
                  && rail in b.rails && b.rails[rail] != to && b.rails[rail] in b.plans && b.plans[b.rails[rail]].rail == rail
                  && !(to in b.plans && b.plans[to].rail != rail && b.plans[to].active && now < b.plans[to].until))
            && n.minted == b.minted
            && if !moved then n == b
               else
                 var from := b.rails[rail];
                 && n.rails == b.rails[rail := to]
                 && At(n, key) == if key == from then Account(None, LapsedRow(b, from))
                                  else if key == to then Account(Some(b.plans[from]), MovedRow(b, from, to))
                                  else At(b, key)
  {
  }

  function LapsedRow(b: Book, from: Acct): Option<Row> {
    if from in b.allowance then Some(Row(b.allowance[from].period, b.allowance[from].ends, 0, 0)) else None
  }

  /** A row on its new account: the same period, as far as it is read back, the same end and grant, and no
      more left than was granted. */
  function MovedRow(b: Book, from: Acct, to: Acct): Option<Row> {
    if from in b.allowance then
      var r := b.allowance[from];
      Some(Row(r.period % 0x1_0000_0000, r.ends, r.granted, Min(r.left, r.granted)))
    else Find(b.allowance, to)
  }

  // ---- paid as reported ----------------------------------------------------------------------------------

  /** The beats of a run. */
  predicate OnlyBeats(es: seq<Event>) {
    forall i :: 0 <= i < |es| ==> es[i].Beat? || es[i].Draw?
  }

  /** From a report on, until something else than the beat comes, a plan is paid at a moment exactly when
      it was reported as running then, and at the report, and at every beat since. */
  lemma {:induction false} PaidAsReported(a: Account, e: Event, es: seq<Event>, t: nat)
    requires e.Report? && OnlyBeats(es)
    ensures var p := After(Next(a, e), es).plan;
            && p.Some? && p.value.until == e.until && p.value.tier == Min(e.tier, 2) && p.value.rail == e.rail
            && (PaidAt(p.value, t) <==>
                  t < e.until && e.now < e.until && forall i :: 0 <= i < |es| && es[i].Beat? ==> es[i].now < e.until)
  {
    hide Renewed, Rolled, Closed;
    if es == [] {
      PlanAsReported(a, e);
    } else {
      var n := |es| - 1;
      PaidAsReported(a, e, es[..n], t);
      var before := After(Next(a, e), es[..n]);
      if es[n].Beat? { BeatLeavesThePlan(before, es[n].now); }
      assert forall i :: 0 <= i < n ==> es[..n][i] == es[i];
    }
  }
}
