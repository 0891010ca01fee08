/** What each change to the book makes spendable, by whom and until when: purchases, grants, upgrades,
    lapses, holds and what they give back. */
module Pockets {
  import opened Names
  import opened Naturals
  import opened Ledger
  import opened LedgerSafety
  import opened LedgerRuns
  import opened Holds
  import Calendar
  import Sums

  lemma SameLots(t: Tables, u: Tables, b: Acct, m: nat)
    requires t.lots == u.lots
    ensures LiveLotsLeft(t, b, m) == LiveLotsLeft(u, b, m)
  {
  }

  /** A purchase can be spent by its buyer for three years from that moment, and by nobody else. */
  lemma PurchaseLastsThreeYears(r: Run, acct: Acct, toku: nat, now: nat, b: Acct, m: nat)
    requires Good(r.t)
    ensures var (t, u) := (r.t, After(r, Credit(acct, toku, now)).t);
            && Balance(u, b, m) == Balance(t, b, m) + (if b == acct && m < Calendar.AddMonths(now, 36) then toku else 0)
            && u.allowance == t.allowance && u.holds == t.holds && t.nextLot in u.lots && u.lots[t.nextLot].bought == now
  {
    hide Calendar.AddMonths, Balance;
    var c := PrepaidLot(r.t, acct, toku, now);
    ApplyOne(r.t, c);
    LotArrives(r.t, c.id, c.lot, b, m);
  }

  lemma LotArrives(t: Tables, id: nat, lot: Lot, b: Acct, m: nat)
    requires id !in t.lots
    ensures Balance(Apply(t, LotPut(id, lot)), b, m) == Balance(t, b, m) + (if b == lot.acct && m < lot.expires then lot.left else 0)
  {
    var more := if b == lot.acct && m < lot.expires then lot.left else 0;
    assert LiveLotsLeft(Apply(t, LotPut(id, lot)), b, m) == LiveLotsLeft(t, b, m)[id := more];
    Sums.Put(LiveLotsLeft(t, b, m), id, more);
  }

  /** A granted allowance can be spent by its account, and nobody else, until its end, in place of
      whatever allowance there was; it is of the period that begins then. */
  lemma GrantLastsToItsEnd(r: Run, acct: Acct, start: nat, ends: nat, toku: nat, b: Acct, m: nat)
    ensures var (t, u) := (r.t, After(r, Grant(acct, start, ends, toku)).t);
            && Balance(u, b, m) == (if b == acct then Spendable(t, b, m) + (if m < ends then toku else 0) else Balance(t, b, m))
            && u.lots == t.lots && u.holds == t.holds
            && acct in u.allowance && u.allowance[acct].period == start / 1000 && u.allowance[acct].granted == toku
  {
    ApplyOne(r.t, AllowanceSet(acct, start / 1000, ends, toku));
    SameLots(r.t, After(r, Grant(acct, start, ends, toku)).t, b, m);
  }

  /** What an account's lots have to give. */
  ghost function Spendable(t: Tables, b: Acct, m: nat): int {
    Sums.MapSum(LiveLotsLeft(t, b, m))
  }

  /** Whether an account has an allowance that has not ended. */
  predicate Running(t: Tables, b: Acct, m: nat) {
    b in t.allowance && m < t.allowance[b].ends
  }

  /** An upgrade can be spent as long as the allowance that it is added to. */
  lemma UpgradeIsSpendable(r: Run, acct: Acct, extra: nat, b: Acct, m: nat)
    ensures var (t, u) := (r.t, After(r, Upgrade(acct, extra)).t);
            && Balance(u, b, m) == Balance(t, b, m) + (if b == acct && Running(t, b, m) then extra else 0)
            && (acct in t.allowance ==> acct in u.allowance && u.allowance[acct].period == t.allowance[acct].period
                                        && u.allowance[acct].granted == t.allowance[acct].granted + extra)
  {
    ApplyOne(r.t, AllowanceAdd(acct, extra));
    SameLots(r.t, After(r, Upgrade(acct, extra)).t, b, m);
  }

  /** What was used elsewhere is taken off the allowance, down to nothing. */
  lemma UsedIsTakenOff(r: Run, acct: Acct, used: nat, b: Acct, m: nat)
    requires Good(r.t)
    ensures var (t, u) := (r.t, After(r, Take(acct, used)).t);
            && (b != acct || !Running(t, b, m) ==> Balance(u, b, m) == Balance(t, b, m))
            && (Running(t, acct, m) ==> Balance(u, acct, m) == Spendable(t, acct, m) + Monus(t.allowance[acct].left, used))
            && (acct in t.allowance ==> acct in u.allowance && u.allowance[acct].period == t.allowance[acct].period
                                        && u.allowance[acct].granted == t.allowance[acct].granted)
  {
    ApplyOne(r.t, AllowanceTake(acct, used));
    SameLots(r.t, After(r, Take(acct, used)).t, b, m);
    SameLots(r.t, After(r, Take(acct, used)).t, acct, m);
  }

  /** A lapse leaves the lots. */
  lemma LapseLeavesTheLots(r: Run, acct: Acct, b: Acct, m: nat)
    ensures var (t, u) := (r.t, After(r, Lapse(acct)).t);
            && Balance(u, b, m) == (if b == acct then Spendable(t, b, m) else Balance(t, b, m))
            && (acct in t.allowance ==> acct in u.allowance && u.allowance[acct].period == t.allowance[acct].period
                                        && u.allowance[acct].granted == 0)
  {
    ApplyOne(r.t, AllowanceLapse(acct));
    SameLots(r.t, After(r, Lapse(acct)).t, b, m);
  }
}
