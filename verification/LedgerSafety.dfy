/** What the ledger keeps: no value appears or disappears between pockets and holds, a hold
    settled is a charge, and where a crash between an operation's records would break that. */
module LedgerSafety {
  import opened Names
  import opened Ledger
  import Sums

  // ---- what an account has ---------------------------------------------------------------------

  ghost function LotsOf(t: Tables, acct: Acct): map<nat, int> {
    map id | id in t.lots :: if t.lots[id].acct == acct then t.lots[id].left else 0
  }

  ghost function HeldFor(t: Tables, acct: Acct): map<nat, int> {
    map id | id in t.holds :: if t.holds[id].acct == acct then Took(t.holds[id].parts) else 0
  }

  ghost function AllowanceLeft(t: Tables, acct: Acct): int {
    if acct in t.allowance then t.allowance[acct].left else 0
  }

  /** Everything that is the account's: in its pockets, or set aside by its open holds. */
  ghost function Total(t: Tables, acct: Acct): int {
    AllowanceLeft(t, acct) + Sums.MapSum(LotsOf(t, acct)) + Sums.MapSum(HeldFor(t, acct))
  }

  predicate Has(t: Tables, acct: Acct, pocket: Pocket) {
    match pocket
    case Monthly => acct in t.allowance
    case Prepaid(id) => id in t.lots && t.lots[id].acct == acct
  }

  predicate HasAll(t: Tables, acct: Acct, parts: seq<Part>) {
    forall i :: 0 <= i < |parts| ==> Has(t, acct, parts[i].pocket)
  }

  /** No pocket is below zero. */
  predicate InTheBlack(t: Tables) {
    && Solvent(t)
    && forall id :: id in t.lots ==> t.lots[id].left >= 0
  }

  /** Every open hold took from pockets its account has. */
  predicate HoldsStand(t: Tables) {
    && (forall id :: id in t.lots ==> id < t.nextLot)
    && (forall id :: id in t.holds ==> id < t.nextHold && HasAll(t, t.holds[id].acct, t.holds[id].parts))
  }

  predicate Good(t: Tables) {
    InTheBlack(t) && HoldsStand(t)
  }

  /** The same pockets, whatever is left in them. */
  predicate SamePockets(t: Tables, u: Tables) {
    && t.allowance.Keys == u.allowance.Keys
    && t.lots.Keys == u.lots.Keys
    && (forall id :: id in t.lots ==> t.lots[id].acct == u.lots[id].acct)
    && t.nextLot == u.nextLot
  }

  predicate SameRows(t: Tables, u: Tables) {
    SamePockets(t, u) && t.holds == u.holds && t.nextHold == u.nextHold
  }

  function Mine(a: Acct, b: Acct, n: int): int {
    if a == b then n else 0
  }

  // ---- one change at a time ----------------------------------------------------------------------

  lemma MoreMoves(t: Tables, acct: Acct, pocket: Pocket, amount: int, b: Acct)
    requires Has(t, acct, pocket)
    ensures Total(Apply(t, More(acct, pocket, amount)), b) == Total(t, b) + Mine(acct, b, amount)
    ensures SameRows(t, Apply(t, More(acct, pocket, amount)))
  {
    hide Total, SameRows;
    MoreSameRows(t, acct, pocket, amount);
    match pocket
    case Monthly =>
      ApplyMonthly(t, acct, amount);
      AllowanceMoves(t, Apply(t, More(acct, pocket, amount)), b);
    case Prepaid(id) =>
      ApplyPrepaid(t, acct, id, amount);
      LotMoves(t, acct, id, amount, b);
  }

  lemma MoreSameRows(t: Tables, acct: Acct, pocket: Pocket, amount: int)
    requires Has(t, acct, pocket)
    ensures SameRows(t, Apply(t, More(acct, pocket, amount)))
  {
  }

  lemma LotMoves(t: Tables, acct: Acct, id: nat, amount: int, b: Acct)
    requires id in t.lots && t.lots[id].acct == acct
    ensures var u := t.(lots := t.lots[id := t.lots[id].(left := t.lots[id].left + amount)]);
            Total(u, b) == Total(t, b) + Mine(acct, b, amount)
  {
    var u := t.(lots := t.lots[id := t.lots[id].(left := t.lots[id].left + amount)]);
    assert HeldFor(u, b) == HeldFor(t, b);
    Sums.Put(LotsOf(t, b), id, LotsOf(t, b)[id] + Mine(acct, b, amount));
    assert LotsOf(u, b) == LotsOf(t, b)[id := LotsOf(t, b)[id] + Mine(acct, b, amount)];
  }

  lemma HoldPutAdds(t: Tables, id: nat, row: HoldRow, b: Acct)
    requires id !in t.holds
    ensures Total(Apply(t, HoldPut(id, row)), b) == Total(t, b) + Mine(row.acct, b, Took(row.parts))
  {
    var u := Apply(t, HoldPut(id, row));
    assert LotsOf(u, b) == LotsOf(t, b);
    Sums.Put(HeldFor(t, b), id, Mine(row.acct, b, Took(row.parts)));
    assert HeldFor(u, b) == HeldFor(t, b)[id := Mine(row.acct, b, Took(row.parts))];
  }

  lemma HoldDeleteDrops(t: Tables, id: nat, b: Acct)
    requires id in t.holds
    ensures Total(Apply(t, HoldDelete(id)), b) == Total(t, b) - Mine(t.holds[id].acct, b, Took(t.holds[id].parts))
  {
    var u := Apply(t, HoldDelete(id));
    assert LotsOf(u, b) == LotsOf(t, b);
    Sums.Remove(HeldFor(t, b), id);
    assert HeldFor(u, b) == HeldFor(t, b) - {id};
  }

  lemma LotPutAdds(t: Tables, id: nat, lot: Lot, b: Acct)
    requires id !in t.lots
    ensures Total(Apply(t, LotPut(id, lot)), b) == Total(t, b) + Mine(lot.acct, b, lot.left)
  {
    var u := Apply(t, LotPut(id, lot));
    assert HeldFor(u, b) == HeldFor(t, b);
    Sums.Put(LotsOf(t, b), id, Mine(lot.acct, b, lot.left));
    assert LotsOf(u, b) == LotsOf(t, b)[id := Mine(lot.acct, b, lot.left)];
  }

  /** A change of the allowance row moves the total by what it moves the row. */
  lemma AllowanceMoves(t: Tables, u: Tables, b: Acct)
    requires u == t.(allowance := u.allowance)
    ensures Total(u, b) - Total(t, b) == AllowanceLeft(u, b) - AllowanceLeft(t, b)
  {
    assert LotsOf(u, b) == LotsOf(t, b) && HeldFor(u, b) == HeldFor(t, b);
  }

  // ---- a run of takes, a run of give-backs ------------------------------------------------------

  lemma SameRowsKeep(t: Tables, u: Tables, acct: Acct, parts: seq<Part>)
    requires SamePockets(t, u) && HasAll(t, acct, parts)
    ensures HasAll(u, acct, parts)
  {
  }

  lemma SameRowsThrough(t: Tables, u: Tables, v: Tables)
    requires SameRows(t, u) && SameRows(u, v)
    ensures SameRows(t, v)
  {
  }

  lemma {:induction false} TakesMove(t: Tables, acct: Acct, parts: seq<Part>, b: Acct)
    requires HasAll(t, acct, parts)
    ensures Total(ApplyAll(t, Takes(acct, parts)), b) == Total(t, b) - Mine(acct, b, Took(parts))
    ensures SameRows(t, ApplyAll(t, Takes(acct, parts)))
  {
    hide Total, Apply, SameRows, HasAll;
    if parts == [] {
      SameRowsSelf(t);
    } else {
      var n := |parts| - 1;
      var u := ApplyAll(t, Takes(acct, parts[..n]));
      HasAllFirst(t, acct, parts);
      TakesMove(t, acct, parts[..n], b);
      assert Takes(acct, parts) == Takes(acct, parts[..n]) + [More(acct, parts[n].pocket, -(parts[n].took as int))];
      ApplyOneMore(t, Takes(acct, parts[..n]), More(acct, parts[n].pocket, -(parts[n].took as int)));
      HasAllLast(t, u, acct, parts);
      MoreMoves(u, acct, parts[n].pocket, -(parts[n].took as int), b);
      SameRowsThrough(t, u, ApplyAll(t, Takes(acct, parts)));
    }
  }

  lemma SameRowsSelf(t: Tables)
    ensures SameRows(t, t)
  {
  }

  lemma HasAllFirst(t: Tables, acct: Acct, parts: seq<Part>)
    requires parts != [] && HasAll(t, acct, parts)
    ensures HasAll(t, acct, parts[..|parts| - 1])
  {
  }

  lemma HasAllLast(t: Tables, u: Tables, acct: Acct, parts: seq<Part>)
    requires parts != [] && HasAll(t, acct, parts) && SameRows(t, u)
    ensures Has(u, acct, parts[|parts| - 1].pocket)
  {
  }

  lemma MoreStaysBlack(t: Tables, acct: Acct, pocket: Pocket, amount: nat)
    requires InTheBlack(t)
    ensures InTheBlack(Apply(t, More(acct, pocket, amount)))
  {
  }

  lemma {:induction false} GiveBacksMove(t: Tables, acct: Acct, parts: seq<Part>, refund: nat, b: Acct)
    requires HasAll(t, acct, parts) && InTheBlack(t)
    ensures Total(ApplyAll(t, GiveBacks(acct, parts, refund)), b)
            == Total(t, b) + Mine(acct, b, if refund <= Took(parts) then refund else Took(parts))
    ensures SameRows(t, ApplyAll(t, GiveBacks(acct, parts, refund)))
    ensures InTheBlack(ApplyAll(t, GiveBacks(acct, parts, refund)))
    decreases |parts|
  {
    hide Total, Apply, SameRows, HasAll, InTheBlack;
    if parts == [] || refund == 0 {
      SameRowsSelf(t);
    } else {
      var n := |parts| - 1;
      var back := if refund <= parts[n].took then refund else parts[n].took;
      var first := More(acct, parts[n].pocket, back);
      var u := Apply(t, first);
      SameRowsSelf(t);
      HasAllLast(t, t, acct, parts);
      MoreMoves(t, acct, parts[n].pocket, back, b);
      MoreStaysBlack(t, acct, parts[n].pocket, back);
      HasAllFirst(t, acct, parts);
      SameRowsApart(t, u);
      SameRowsKeep(t, u, acct, parts[..n]);
      GiveBacksMove(u, acct, parts[..n], refund - back, b);
      ApplyInTwo(t, [first], GiveBacks(acct, parts[..n], refund - back));
      ApplyOne(t, first);
      SameRowsThrough(t, u, ApplyAll(t, GiveBacks(acct, parts, refund)));
    }
  }

  lemma SameRowsApart(t: Tables, u: Tables)
    requires SameRows(t, u)
    ensures SamePockets(t, u) && t.holds == u.holds && t.nextHold == u.nextHold
  {
  }

  lemma {:induction false} GiveBackAllMoves(t: Tables, acct: Acct, parts: seq<Part>, b: Acct)
    requires HasAll(t, acct, parts) && InTheBlack(t)
    ensures Total(ApplyAll(t, GiveBackAll(acct, parts)), b) == Total(t, b) + Mine(acct, b, Took(parts))
    ensures SameRows(t, ApplyAll(t, GiveBackAll(acct, parts)))
    ensures InTheBlack(ApplyAll(t, GiveBackAll(acct, parts)))
  {
    hide Total, Apply, SameRows, HasAll, InTheBlack;
    if parts == [] {
      SameRowsSelf(t);
    } else {
      var n := |parts| - 1;
      var u := ApplyAll(t, GiveBackAll(acct, parts[..n]));
      HasAllFirst(t, acct, parts);
      GiveBackAllMoves(t, acct, parts[..n], b);
      assert GiveBackAll(acct, parts) == GiveBackAll(acct, parts[..n]) + [More(acct, parts[n].pocket, parts[n].took)];
      ApplyOneMore(t, GiveBackAll(acct, parts[..n]), More(acct, parts[n].pocket, parts[n].took));
      HasAllLast(t, u, acct, parts);
      MoreMoves(u, acct, parts[n].pocket, parts[n].took, b);
      MoreStaysBlack(u, acct, parts[n].pocket, parts[n].took);
      SameRowsThrough(t, u, ApplyAll(t, GiveBackAll(acct, parts)));
    }
  }

  // ---- greedy taking leaves no pocket overdrawn --------------------------------------------------

  function PocketLeft(t: Tables, acct: Acct, pocket: Pocket): int
    requires Has(t, acct, pocket)
  {
    match pocket
    case Monthly => t.allowance[acct].left
    case Prepaid(id) => t.lots[id].left
  }

  /** The purses say what is in the account's pockets, no pocket twice. */
  predicate Matches(t: Tables, acct: Acct, ps: seq<Purse>) {
    && (forall i :: 0 <= i < |ps| ==>
          Has(t, acct, ps[i].pocket) && PocketLeft(t, acct, ps[i].pocket) == ps[i].left && ps[i].left > 0)
    && (forall i, j :: 0 <= i < j < |ps| ==> ps[i].pocket != ps[j].pocket)
  }

  lemma PursesMatch(t: Tables, acct: Acct, now: nat)
    ensures Matches(t, acct, Purses(t, acct, now))
  {
    hide InOrder;
    var ids := LiveLots(t, acct, now);
    var ps := Purses(t, acct, now);
    var n := if LiveAllowance(t, acct, now) then 1 else 0;
    forall i | n <= i < |ps|
      ensures ps[i] == Purse(Prepaid(ids[i - n]), t.lots[ids[i - n]].left) && ids[i - n] in ids
    {
    }
  }

  lemma OneTaken(t: Tables, acct: Acct, ps: seq<Purse>, take: int)
    requires Matches(t, acct, ps) && ps != [] && 0 <= take <= ps[0].left && InTheBlack(t)
    ensures var u := Apply(t, More(acct, ps[0].pocket, -take));
            InTheBlack(u) && Matches(u, acct, ps[1..])
  {
    var u := Apply(t, More(acct, ps[0].pocket, -take));
    forall i | 0 <= i < |ps[1..]|
      ensures Has(u, acct, ps[1..][i].pocket) && PocketLeft(u, acct, ps[1..][i].pocket) == ps[1..][i].left
    {
      assert ps[1..][i] == ps[i + 1] && ps[0].pocket != ps[i + 1].pocket;
    }
  }

  lemma {:induction false} TakesStayBlack(t: Tables, acct: Acct, ps: seq<Purse>, need: nat)
    requires Matches(t, acct, ps) && InTheBlack(t)
    ensures InTheBlack(ApplyAll(t, Takes(acct, Greedy(ps, need))))
    decreases |ps|
  {
    hide Apply, Matches, InTheBlack;
    if ps == [] || need == 0 {
      assert Takes(acct, Greedy(ps, need)) == [];
    } else {
      FirstMatches(t, acct, ps);
      var take := if need <= ps[0].left then need else ps[0].left;
      var first := More(acct, ps[0].pocket, -take);
      var rest := Greedy(ps[1..], need - take);
      OneTaken(t, acct, ps, take);
      TakesStayBlack(Apply(t, first), acct, ps[1..], need - take);
      assert Takes(acct, [Part(ps[0].pocket, take)] + rest) == [first] + Takes(acct, rest);
      ApplyInTwo(t, [first], Takes(acct, rest));
      ApplyOne(t, first);
    }
  }

  lemma FirstMatches(t: Tables, acct: Acct, ps: seq<Purse>)
    requires Matches(t, acct, ps) && ps != []
    ensures Has(t, acct, ps[0].pocket) && ps[0].left > 0
  {
  }

  /** The parts of a hold are the account's pockets, something from each. */
  lemma {:induction false} PartsStand(t: Tables, acct: Acct, ps: seq<Purse>, need: nat)
    requires forall i :: 0 <= i < |ps| ==> Has(t, acct, ps[i].pocket) && ps[i].left > 0
    ensures HasAll(t, acct, Greedy(ps, need))
    ensures forall i :: 0 <= i < |Greedy(ps, need)| ==> Greedy(ps, need)[i].took > 0
  {
    if ps != [] && need > 0 {
      var take := if need <= ps[0].left then need else ps[0].left;
      PartsStand(t, acct, ps[1..], need - take);
    }
  }

  // ---- holding -------------------------------------------------------------------------------------

  function HoldParts(t: Tables, acct: Acct, amount: nat, now: nat): seq<Part> {
    Greedy(Purses(t, acct, now), amount)
  }

  lemma HoldPartsStand(t: Tables, acct: Acct, amount: nat, now: nat)
    ensures HasAll(t, acct, HoldParts(t, acct, amount, now))
    ensures forall i :: 0 <= i < |HoldParts(t, acct, amount, now)| ==> HoldParts(t, acct, amount, now)[i].took > 0
    ensures Took(HoldParts(t, acct, amount, now)) <= amount
  {
    hide Purses;
    PursesMatch(t, acct, now);
    PartsStand(t, acct, Purses(t, acct, now), amount);
    GreedyTakes(Purses(t, acct, now), amount);
  }

  /** A hold sets value aside, under any number no open hold has: nobody's total changes, no pocket is
      overdrawn. */
  lemma HoldKeeps(t: Tables, id: nat, acct: Acct, amount: nat, now: nat, b: Acct)
    requires Good(t) && id !in t.holds && HoldWritesAs(t, id, acct, amount, now).Ok?
    ensures var u := ApplyAll(t, HoldWritesAs(t, id, acct, amount, now).value);
            var row := HoldRow(acct, HoldParts(t, acct, amount, now));
            Good(u) && Total(u, b) == Total(t, b) && u.holds == t.holds[id := row] && Took(row.parts) == amount
  {
    hide Total, Greedy, Purses, Took, Apply, Takes, InTheBlack, HasAll, SameRows;
    var parts := HoldParts(t, acct, amount, now);
    var row := HoldRow(acct, parts);
    var mid := ApplyAll(t, Takes(acct, parts));
    HoldPartsStand(t, acct, amount, now);
    PursesMatch(t, acct, now);
    TakesMove(t, acct, parts, b);
    TakesStayBlack(t, acct, Purses(t, acct, now), amount);
    ApplyOneMore(t, Takes(acct, parts), HoldPut(id, row));
    SameRowsApart(t, mid);
    HoldPutAdds(mid, id, row, b);
    HoldPutStands(t, mid, id, row);
  }

  lemma HoldPutStands(t: Tables, mid: Tables, id: nat, row: HoldRow)
    requires HoldsStand(t) && SamePockets(t, mid) && t.holds == mid.holds && t.nextHold == mid.nextHold && InTheBlack(mid)
    requires HasAll(t, row.acct, row.parts)
    ensures var u := Apply(mid, HoldPut(id, row));
            Good(u) && u.holds == t.holds[id := row]
  {
    hide HasAll;
    var u := Apply(mid, HoldPut(id, row));
    forall i | i in u.holds ensures i < u.nextHold && HasAll(u, u.holds[i].acct, u.holds[i].parts) {
      SameRowsKeep(t, u, u.holds[i].acct, u.holds[i].parts);
    }
  }

  // ---- settling ----------------------------------------------------------------------------------

  /** The hold in a request's hand is the row the table has. */
  predicate Open(t: Tables, h: Held) {
    h.id in t.holds && t.holds[h.id] == HoldRow(h.acct, h.parts) && Took(h.parts) == h.amount
  }

  /** Settling costs the account exactly the cost, at most what was held. */
  lemma SettleCharges(t: Tables, h: Held, cost: nat, b: Acct)
    requires Good(t) && Open(t, h)
    ensures var u := ApplyAll(t, SettleWrites(h, cost));
            && Good(u) && u.holds == t.holds - {h.id}
            && Total(u, b) == Total(t, b) - Mine(h.acct, b, if cost <= h.amount then cost else h.amount)
  {
    hide Total, Took, Apply, InTheBlack, HasAll, SameRows, GiveBacks;
    var refund: nat := if cost <= h.amount then h.amount - cost else 0;
    var backs := GiveBacks(h.acct, h.parts, refund);
    var mid := ApplyAll(t, backs);
    GiveBacksMove(t, h.acct, h.parts, refund, b);
    ApplyOneMore(t, backs, HoldDelete(h.id));
    SameRowsApart(t, mid);
    HoldDeleteDrops(mid, h.id, b);
    HoldDeleteStands(t, mid, h.id);
  }

  lemma HoldDeleteStands(t: Tables, mid: Tables, id: nat)
    requires HoldsStand(t) && SamePockets(t, mid) && t.holds == mid.holds && t.nextHold == mid.nextHold && InTheBlack(mid)
    ensures var u := Apply(mid, HoldDelete(id));
            Good(u) && u.holds == t.holds - {id} && SamePockets(t, u)
  {
    hide HasAll;
    var u := Apply(mid, HoldDelete(id));
    forall i | i in u.holds ensures i < u.nextHold && HasAll(u, u.holds[i].acct, u.holds[i].parts) {
      SameRowsKeep(t, u, u.holds[i].acct, u.holds[i].parts);
    }
  }

  // ---- the release at a start ---------------------------------------------------------------------

  lemma OneRowReleased(t: Tables, id: nat, b: Acct)
    requires Good(t) && id in t.holds
    ensures var u := ApplyAll(t, GiveBackAll(t.holds[id].acct, t.holds[id].parts) + [HoldDelete(id)]);
            Good(u) && Total(u, b) == Total(t, b) && u.holds == t.holds - {id}
  {
    hide Total, Took, Apply, InTheBlack, HasAll, SameRows, GiveBackAll;
    var row := t.holds[id];
    var mid := ApplyAll(t, GiveBackAll(row.acct, row.parts));
    GiveBackAllMoves(t, row.acct, row.parts, b);
    ApplyOneMore(t, GiveBackAll(row.acct, row.parts), HoldDelete(id));
    SameRowsApart(t, mid);
    HoldDeleteDrops(mid, id, b);
    HoldDeleteStands(t, mid, id);
  }

  lemma {:induction false} RowsReleased(t: Tables, ids: seq<nat>, b: Acct)
    requires Good(t) && (forall id :: id in ids ==> id in t.holds)
    requires forall i, j :: 0 <= i < j < |ids| ==> ids[i] < ids[j]
    ensures var u := ApplyAll(t, ReleaseWrites(t.holds, ids));
            Good(u) && Total(u, b) == Total(t, b) && u.holds == t.holds - (set id | id in ids)
  {
    hide Total, Took, Apply, GiveBackAll, Good;
    if ids == [] {
      assert t.holds - (set id: nat | id in ids) == t.holds;
    } else {
      var n := |ids| - 1;
      RowsReleased(t, ids[..n], b);
      var w := ReleaseWrites(t.holds, ids[..n]);
      var mid := ApplyAll(t, w);
      AllButLast(t.holds, ids);
      OneRowReleased(mid, ids[n], b);
      ApplyInTwo(t, w, GiveBackAll(t.holds[ids[n]].acct, t.holds[ids[n]].parts) + [HoldDelete(ids[n])]);
    }
  }

  lemma AllButLast(holds: map<nat, HoldRow>, ids: seq<nat>)
    requires ids != [] && (forall id :: id in ids ==> id in holds)
    requires forall i, j :: 0 <= i < j < |ids| ==> ids[i] < ids[j]
    ensures var n := |ids| - 1; var rest := holds - (set id | id in ids[..n]);
            && ids[n] in rest && rest[ids[n]] == holds[ids[n]]
            && holds - (set id | id in ids) == rest - {ids[n]}
  {
    var n := |ids| - 1;
    assert ids[n] !in ids[..n];
    assert (set id | id in ids) == (set id | id in ids[..n]) + {ids[n]};
  }

  /** Whatever requests died with the last life: nobody gains or loses, and no hold is left. */
  lemma ReleaseKeeps(t: Tables, b: Acct)
    requires Good(t)
    ensures var u := ApplyAll(t, ReleaseWrites(t.holds, Ascending(t.holds.Keys)));
            Good(u) && Total(u, b) == Total(t, b) && u.holds == map[]
  {
    hide Total, Ascending, ReleaseWrites, Good;
    var ids := Ascending(t.holds.Keys);
    RowsReleased(t, ids, b);
    assert (set id | id in ids) == t.holds.Keys;
  }
}
