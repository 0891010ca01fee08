/** The account book's tables, the changes written to them, and the operations on a balance:
    a request holds its worst case, then settles at what it cost. */
module Ledger {
  import opened Wrappers
  import opened Names
  import opened Naturals
  import Calendar

  datatype Allowance = Allowance(period: nat, ends: nat, granted: int, left: int)
  datatype Lot = Lot(acct: Acct, left: int, expires: nat, bought: nat)
  datatype Pocket = Monthly | Prepaid(id: nat)
  datatype Part = Part(pocket: Pocket, took: nat)
  datatype HoldRow = HoldRow(acct: Acct, parts: seq<Part>)

  datatype Tables = Tables(
    allowance: map<Acct, Allowance>, lots: map<nat, Lot>, holds: map<nat, HoldRow>, nextLot: nat, nextHold: nat)

  /** How long prepaid credit lasts. */
  const PREPAID_MONTHS := 36

  const NoTables := Tables(map[], map[], map[], 1, 1)

  /** One change, as it is written down and replayed. An update of a row that is not there
      changes nothing. */
  datatype Change =
    | AllowanceSet(acct: Acct, period: nat, ends: nat, toku: nat)
    | AllowanceMore(acct: Acct, amount: int)
    | AllowanceAdd(acct: Acct, extra: nat)
    | AllowanceTake(acct: Acct, used: nat)
    | AllowanceLapse(acct: Acct)
    | LotPut(id: nat, lot: Lot)
    | LotMore(id: nat, amount: int)
    | HoldPut(id: nat, row: HoldRow)
    | HoldDelete(id: nat)

  function Apply(t: Tables, c: Change): Tables {
    match c
    case AllowanceSet(acct, period, ends, toku) => t.(allowance := t.allowance[acct := Allowance(period, ends, toku, toku)])
    case AllowanceMore(acct, amount) =>
      if acct !in t.allowance then t
      else t.(allowance := t.allowance[acct := t.allowance[acct].(left := t.allowance[acct].left + amount)])
    case AllowanceAdd(acct, extra) =>
      if acct !in t.allowance then t
      else
        var row := t.allowance[acct];
        t.(allowance := t.allowance[acct := row.(granted := row.granted + extra, left := row.left + extra)])
    case AllowanceTake(acct, used) =>
      if acct !in t.allowance then t
      else
        var row := t.allowance[acct];
        t.(allowance := t.allowance[acct := row.(left := if row.left <= used then 0 else row.left - used)])
    case AllowanceLapse(acct) =>
      if acct !in t.allowance then t
      else t.(allowance := t.allowance[acct := t.allowance[acct].(granted := 0, left := 0)])
    case LotPut(id, lot) => t.(lots := t.lots[id := lot], nextLot := Max(t.nextLot, id + 1))
    case LotMore(id, amount) =>
      if id !in t.lots then t
      else t.(lots := t.lots[id := t.lots[id].(left := t.lots[id].left + amount)])
    case HoldPut(id, row) => t.(holds := t.holds[id := row], nextHold := Max(t.nextHold, id + 1))
    case HoldDelete(id) => t.(holds := t.holds - {id})
  }

  function ApplyAll(t: Tables, cs: seq<Change>): Tables {
    if cs == [] then t else Apply(ApplyAll(t, cs[..|cs| - 1]), cs[|cs| - 1])
  }

  lemma {:induction false} ApplyInTwo(t: Tables, a: seq<Change>, b: seq<Change>)
    ensures ApplyAll(t, a + b) == ApplyAll(ApplyAll(t, a), b)
  {
    if b == [] {
      assert a + b == a;
    } else {
      var n := |b| - 1;
      ApplyInTwo(t, a, b[..n]);
      assert (a + b)[..|a + b| - 1] == a + b[..n];
    }
  }

  lemma ApplyOne(t: Tables, c: Change)
    ensures ApplyAll(t, [c]) == Apply(t, c)
  {
    assert [c][..0] == [];
  }

  lemma ApplyOneMore(t: Tables, a: seq<Change>, c: Change)
    ensures ApplyAll(t, a + [c]) == Apply(ApplyAll(t, a), c)
  {
    assert (a + [c])[..|a|] == a;
  }

  // ---- the order pockets are spent in -------------------------------------------------------

  /** Soonest to expire first; of equal ones the older row. */
  predicate SpentBefore(lots: map<nat, Lot>, a: nat, b: nat)
    requires a in lots && b in lots
  {
    lots[a].expires < lots[b].expires || (lots[a].expires == lots[b].expires && a <= b)
  }

  predicate Soonest(first: nat, ids: set<nat>, lots: map<nat, Lot>)
    requires ids <= lots.Keys
  {
    first in ids && forall id :: id in ids ==> SpentBefore(lots, first, id)
  }

  lemma {:induction false} SoonestExists(ids: set<nat>, lots: map<nat, Lot>)
    requires ids != {} && ids <= lots.Keys
    ensures exists first :: Soonest(first, ids, lots)
    decreases |ids|
  {
    var x :| x in ids;
    if ids == {x} {
      assert Soonest(x, ids, lots);
    } else {
      SoonestExists(ids - {x}, lots);
      var y :| Soonest(y, ids - {x}, lots);
      var z := if SpentBefore(lots, x, y) then x else y;
      forall id | id in ids ensures SpentBefore(lots, z, id) {
        assert id != x ==> SpentBefore(lots, y, id);
      }
      assert Soonest(z, ids, lots);
    }
  }

  /** The rows of a query, in the order it asks for. */
  function InOrder(ids: set<nat>, lots: map<nat, Lot>): (r: seq<nat>)
    requires ids <= lots.Keys
    ensures forall id :: id in r <==> id in ids
    ensures forall i, j :: 0 <= i < j < |r| ==> SpentBefore(lots, r[i], r[j]) && r[i] != r[j]
  {
    if ids == {} then []
    else
      SoonestExists(ids, lots);
      var first :| Soonest(first, ids, lots);
      [first] + InOrder(ids - {first}, lots)
  }

  function LiveLots(t: Tables, acct: Acct, now: nat): (r: seq<nat>)
    ensures forall id :: id in r ==> id in t.lots && t.lots[id].left > 0
    ensures forall i, j :: 0 <= i < j < |r| ==> r[i] != r[j]
  {
    InOrder((set id | id in t.lots && t.lots[id].acct == acct && t.lots[id].left > 0 && t.lots[id].expires > now), t.lots)
  }

  /** What a pocket has to give. */
  datatype Purse = Purse(pocket: Pocket, left: nat)

  function LotPurses(t: Tables, ids: seq<nat>): seq<Purse>
    requires forall id :: id in ids ==> id in t.lots && t.lots[id].left > 0
  {
    seq(|ids|, i requires 0 <= i < |ids| => Purse(Prepaid(ids[i]), t.lots[ids[i]].left))
  }

  predicate LiveAllowance(t: Tables, acct: Acct, now: nat) {
    acct in t.allowance && t.allowance[acct].ends > now && t.allowance[acct].left > 0
  }

  /** The pockets of an account that can be spent from now, in the order they are. */
  function Purses(t: Tables, acct: Acct, now: nat): seq<Purse> {
    (if LiveAllowance(t, acct, now) then [Purse(Monthly, t.allowance[acct].left)] else [])
    + LotPurses(t, LiveLots(t, acct, now))
  }

  function Holdings(ps: seq<Purse>): nat {
    if ps == [] then 0 else ps[0].left + Holdings(ps[1..])
  }

  function Took(parts: seq<Part>): nat {
    if parts == [] then 0 else Took(parts[..|parts| - 1]) + parts[|parts| - 1].took
  }

  /** Taking `need` in order, each pocket to its last before the next. */
  function Greedy(ps: seq<Purse>, need: nat): seq<Part> {
    if ps == [] || need == 0 then []
    else
      var take := if need <= ps[0].left then need else ps[0].left;
      [Part(ps[0].pocket, take)] + Greedy(ps[1..], need - take)
  }

  /** What is left of a charge when `refund` is given back, last pocket first. */
  function AfterRefund(parts: seq<Part>, refund: nat): seq<Part> {
    if parts == [] then []
    else
      var n := |parts| - 1;
      var last := parts[n];
      if refund >= last.took then AfterRefund(parts[..n], refund - last.took)
      else parts[..n] + [Part(last.pocket, last.took - refund)]
  }

  lemma {:induction false} TookFirst(p: Part, rest: seq<Part>)
    ensures Took([p] + rest) == p.took + Took(rest)
  {
    if rest == [] {
      assert ([p] + rest)[..0] == [];
    } else {
      var n := |rest| - 1;
      TookFirst(p, rest[..n]);
      assert ([p] + rest)[..|rest|] == [p] + rest[..n];
    }
  }

  /** Greedy taking takes all that is asked for, or all there is. */
  lemma {:induction false} GreedyTakes(ps: seq<Purse>, need: nat)
    ensures Took(Greedy(ps, need)) == if need <= Holdings(ps) then need else Holdings(ps)
  {
    if ps != [] && need > 0 {
      var take := if need <= ps[0].left then need else ps[0].left;
      GreedyTakes(ps[1..], need - take);
      TookFirst(Part(ps[0].pocket, take), Greedy(ps[1..], need - take));
    }
  }

  lemma {:induction false} RefundWithin(p: Part, rest: seq<Part>, refund: nat)
    ensures refund < p.took + Took(rest) ==>
              AfterRefund([p] + rest, refund) ==
                if refund < Took(rest) then [p] + AfterRefund(rest, refund)
                else [Part(p.pocket, p.took - (refund - Took(rest)))]
    ensures refund >= p.took + Took(rest) ==> AfterRefund([p] + rest, refund) == []
    decreases |rest|
  {
    var whole := [p] + rest;
    if rest == [] {
      assert whole[..0] == [];
    } else {
      var n := |rest| - 1;
      var last := rest[n];
      assert whole[..|rest|] == [p] + rest[..n] && whole[|rest|] == last;
      if refund >= last.took {
        RefundWithin(p, rest[..n], refund - last.took);
      } else {
        assert [p] + (rest[..n] + [Part(last.pocket, last.took - refund)]) == whole[..|rest|] + [Part(last.pocket, last.took - refund)];
      }
    }
  }

  /** Holding `held` and giving the rest back at `cost` leaves exactly the charge that taking
      `cost` in the first place makes. */
  lemma {:induction false} HoldThenRefund(ps: seq<Purse>, held: nat, cost: nat)
    requires cost <= held <= Holdings(ps)
    requires forall i :: 0 <= i < |ps| ==> ps[i].left > 0
    ensures AfterRefund(Greedy(ps, held), held - cost) == Greedy(ps, cost)
  {
    hide AfterRefund, Took, Holdings;
    if ps == [] || held == 0 {
      NothingToRefund();
    } else {
      var left := ps[0].left;
      var take := if held <= left then held else left;
      var p, rest := Part(ps[0].pocket, take), Greedy(ps[1..], held - take);
      GreedyTakes(ps[1..], held - take);
      RefundWithin(p, rest, held - cost);
      HoldingsFirst(ps);
      if cost > take {
        HoldThenRefund(ps[1..], held - take, cost - take);
      } else {
        NothingNeeded(ps[1..]);
      }
    }
  }

  lemma NothingToRefund()
    ensures AfterRefund([], 0) == [] && Holdings([]) == 0
  {
  }

  lemma HoldingsFirst(ps: seq<Purse>)
    requires ps != []
    ensures Holdings(ps) == ps[0].left + Holdings(ps[1..])
  {
  }

  lemma NothingNeeded(ps: seq<Purse>)
    ensures Greedy(ps, 0) == []
  {
  }

  // ---- the operations, as what they write -------------------------------------------------------

  function More(acct: Acct, pocket: Pocket, amount: int): Change {
    match pocket
    case Monthly => AllowanceMore(acct, amount)
    case Prepaid(id) => LotMore(id, amount)
  }

  function Takes(acct: Acct, parts: seq<Part>): seq<Change> {
    seq(|parts|, i requires 0 <= i < |parts| => More(acct, parts[i].pocket, -(parts[i].took as int)))
  }

  /** The give-backs of a refund, last pocket first. */
  function GiveBacks(acct: Acct, parts: seq<Part>, refund: nat): seq<Change> {
    if parts == [] || refund == 0 then []
    else
      var n := |parts| - 1;
      var back := if refund <= parts[n].took then refund else parts[n].took;
      [More(acct, parts[n].pocket, back)] + GiveBacks(acct, parts[..n], refund - back)
  }

  function GiveBackAll(acct: Acct, parts: seq<Part>): seq<Change> {
    seq(|parts|, i requires 0 <= i < |parts| => More(acct, parts[i].pocket, parts[i].took))
  }

  /** What a hold with this number writes, or how much the account has instead. */
  function HoldWritesAs(t: Tables, id: nat, acct: Acct, amount: nat, now: nat): Result<seq<Change>, nat> {
    var parts := Greedy(Purses(t, acct, now), amount);
    if Took(parts) < amount then Err(Took(parts))
    else Ok(Takes(acct, parts) + [HoldPut(id, HoldRow(acct, parts))])
  }

  /** A hold takes the next number of its table. */
  function HoldWrites(t: Tables, acct: Acct, amount: nat, now: nat): Result<seq<Change>, nat> {
    HoldWritesAs(t, t.nextHold, acct, amount, now)
  }

  /** A hold in the hand of the request that made it. */
  datatype Held = Held(id: nat, acct: Acct, amount: nat, parts: seq<Part>)

  function SettleWrites(h: Held, cost: nat): seq<Change> {
    GiveBacks(h.acct, h.parts, if cost <= h.amount then h.amount - cost else 0) + [HoldDelete(h.id)]
  }

  predicate Least(first: nat, ids: set<nat>) {
    first in ids && forall id :: id in ids ==> first <= id
  }

  lemma {:induction false} LeastExists(ids: set<nat>)
    requires ids != {}
    ensures exists first :: Least(first, ids)
    decreases |ids|
  {
    var x :| x in ids;
    if ids == {x} {
      assert Least(x, ids);
    } else {
      LeastExists(ids - {x});
      var y :| Least(y, ids - {x});
      var z := if x <= y then x else y;
      forall id | id in ids ensures z <= id {
        assert id != x ==> id in ids - {x};
      }
      assert Least(z, ids);
    }
  }

  /** The numbers of a set, smallest first. */
  function Ascending(ids: set<nat>): (r: seq<nat>)
    ensures forall id :: id in r <==> id in ids
    ensures forall i, j :: 0 <= i < j < |r| ==> r[i] < r[j]
  {
    if ids == {} then []
    else
      LeastExists(ids);
      var first :| Least(first, ids);
      [first] + Ascending(ids - {first})
  }

  /** Everything the open holds took goes back, row by row. */
  function ReleaseWrites(holds: map<nat, HoldRow>, ids: seq<nat>): seq<Change>
    requires forall id :: id in ids ==> id in holds
  {
    if ids == [] then []
    else
      var n := |ids| - 1;
      ReleaseWrites(holds, ids[..n]) + (GiveBackAll(holds[ids[n]].acct, holds[ids[n]].parts) + [HoldDelete(ids[n])])
  }

  function PrepaidLot(t: Tables, acct: Acct, toku: nat, now: nat): Change {
    LotPut(t.nextLot, Lot(acct, toku, Calendar.AddMonths(now, PREPAID_MONTHS), now))
  }

  /** No allowance is overdrawn. */
  predicate Solvent(t: Tables) {
    forall acct :: acct in t.allowance ==> t.allowance[acct].left >= 0
  }

  // ---- the pockets of a hold, one by one ----------------------------------------------------

  /** The first `i` pockets have been asked, `parts` is what they gave, `need` is still open. */
  predicate Underway(ps: seq<Purse>, amount: nat, i: nat, parts: seq<Part>, need: nat) {
    && i <= |ps|
    && parts + Greedy(ps[i..], need) == Greedy(ps, amount)
    && Took(parts) + need == amount
  }

  lemma NothingTaken(t: Tables, acct: Acct, ps: seq<Purse>, amount: nat)
    ensures Underway(ps, amount, 0, [], amount)
    ensures Takes(acct, []) == [] && ApplyAll(t, []) == t
  {
    assert ps[0..] == ps;
  }

  lemma OneMorePurse(ps: seq<Purse>, amount: nat, i: nat, parts: seq<Part>, need: nat)
    requires Underway(ps, amount, i, parts, need) && i < |ps| && need > 0
    ensures var take := if need <= ps[i].left then need else ps[i].left;
            Underway(ps, amount, i + 1, parts + [Part(ps[i].pocket, take)], need - take)
  {
    var take := if need <= ps[i].left then need else ps[i].left;
    var part := Part(ps[i].pocket, take);
    assert ps[i..][1..] == ps[i + 1..];
    assert (parts + [part])[..|parts|] == parts;
    assert parts + ([part] + Greedy(ps[i + 1..], need - take)) == parts + [part] + Greedy(ps[i + 1..], need - take);
  }

  lemma AllTaken(ps: seq<Purse>, amount: nat, i: nat, parts: seq<Part>, need: nat)
    requires Underway(ps, amount, i, parts, need)
    requires need == 0 || i == |ps|
    ensures parts == Greedy(ps, amount) && Took(parts) == amount - need
  {
    assert Greedy(ps[i..], need) == [];
  }

  /** The live lots are a matter of the lots alone. */
  lemma LiveLotsOf(t: Tables, u: Tables, acct: Acct, now: nat)
    requires t.lots == u.lots
    ensures LiveLots(t, acct, now) == LiveLots(u, acct, now)
  {
  }

  lemma ApplyPrepaid(t: Tables, acct: Acct, id: nat, amount: int)
    requires id in t.lots
    ensures Apply(t, More(acct, Prepaid(id), amount))
            == t.(lots := t.lots[id := t.lots[id].(left := t.lots[id].left + amount)])
  {
  }

  lemma ApplyMonthly(t: Tables, acct: Acct, amount: int)
    requires acct in t.allowance
    ensures Apply(t, More(acct, Monthly, amount))
            == t.(allowance := t.allowance[acct := t.allowance[acct].(left := t.allowance[acct].left + amount)])
  {
  }

  lemma ApplyHoldPut(t: Tables, id: nat, row: HoldRow)
    requires t.nextHold == id
    ensures Apply(t, HoldPut(id, row)) == t.(holds := t.holds[id := row], nextHold := id + 1)
  {
  }

  lemma ApplyHoldDelete(t: Tables, id: nat)
    ensures Apply(t, HoldDelete(id)) == t.(holds := t.holds - {id})
  {
  }

  lemma ApplyNone(t: Tables)
    ensures ApplyAll(t, []) == t
  {
  }

  lemma MoreKeepsHolds(t: Tables, acct: Acct, pocket: Pocket, amount: int)
    ensures Apply(t, More(acct, pocket, amount)).holds == t.holds
  {
  }

  lemma OneGivenBack(acct: Acct, parts: seq<Part>, i: nat, refund: nat)
    requires 0 < i <= |parts|
    ensures refund > 0 ==>
              var back := if refund <= parts[i - 1].took then refund else parts[i - 1].took;
              GiveBacks(acct, parts[..i], refund)
              == [More(acct, parts[i - 1].pocket, back)] + GiveBacks(acct, parts[..i - 1], refund - back)
  {
    assert parts[..i][..i - 1] == parts[..i - 1];
  }

  lemma AllGivenBack(acct: Acct, parts: seq<Part>, i: nat, refund: nat)
    requires i <= |parts| && (i == 0 || refund == 0)
    ensures GiveBacks(acct, parts[..i], refund) == []
  {
  }

  lemma NothingReleased(holds: map<nat, HoldRow>)
    ensures ReleaseWrites(holds, []) == []
  {
  }

  lemma OneReleased(holds: map<nat, HoldRow>, ids: seq<nat>, i: nat)
    requires i < |ids| && forall id :: id in ids ==> id in holds
    ensures ReleaseWrites(holds, ids[..i + 1])
            == ReleaseWrites(holds, ids[..i]) + GiveBackAll(holds[ids[i]].acct, holds[ids[i]].parts) + [HoldDelete(ids[i])]
  {
    assert ids[..i + 1][..i] == ids[..i];
  }

  /** The ledger in memory. */
  class Accounts {
    var allowance: map<Acct, Allowance>
    var lots: map<nat, Lot>
    var holds: map<nat, HoldRow>
    var nextLot: nat
    var nextHold: nat

    constructor ()
      ensures State() == NoTables
    {
      allowance, lots, holds, nextLot, nextHold := map[], map[], map[], 1, 1;
    }

    function State(): Tables
      reads this
    {
      Tables(allowance, lots, holds, nextLot, nextHold)
    }

    /** A prepaid purchase is a lot of its own. */
    method CreditPrepaid(acct: Acct, toku: nat, now: nat) returns (written: seq<Change>)
      modifies this
      ensures written == [PrepaidLot(old(State()), acct, toku, now)]
      ensures State() == ApplyAll(old(State()), written)
    {
      hide Calendar.AddMonths;
      ghost var was := State();
      var lot := Lot(acct, toku, Calendar.AddMonths(now, PREPAID_MONTHS), now);
      written := [LotPut(nextLot, lot)];
      lots := lots[nextLot := lot];
      nextLot := nextLot + 1;
      ApplyOne(was, written[0]);
    }

    /** A period's allowance is set, whatever was left of the last. */
    method GrantAllowance(acct: Acct, start: nat, ends: nat, toku: nat) returns (written: seq<Change>)
      modifies this
      ensures written == [AllowanceSet(acct, start / 1000, ends, toku)]
      ensures State() == ApplyAll(old(State()), written)
    {
      ghost var was := State();
      written := [AllowanceSet(acct, start / 1000, ends, toku)];
      allowance := allowance[acct := Allowance(start / 1000, ends, toku, toku)];
      ApplyOne(was, written[0]);
    }

    /** One take from, or give back to, a pocket. */
    method Move(acct: Acct, pocket: Pocket, amount: int)
      modifies this
      ensures State() == Apply(old(State()), More(acct, pocket, amount))
    {
      match pocket
      case Monthly =>
        if acct in allowance {
          allowance := allowance[acct := allowance[acct].(left := allowance[acct].left + amount)];
        }
      case Prepaid(id) =>
        if id in lots {
          lots := lots[id := lots[id].(left := lots[id].left + amount)];
        }
    }

    /** One more part of a hold. */
    method TakePart(ghost before: Tables, acct: Acct, part: Part, parts: seq<Part>, written: seq<Change>)
      returns (moreParts: seq<Part>, moreWritten: seq<Change>)
      requires written == Takes(acct, parts) && State() == ApplyAll(before, written)
      modifies this
      ensures State() == Apply(old(State()), More(acct, part.pocket, -(part.took as int)))
      ensures moreParts == parts + [part] && moreWritten == Takes(acct, moreParts)
      ensures State() == ApplyAll(before, moreWritten)
    {
      hide ApplyAll, Apply;
      Move(acct, part.pocket, -(part.took as int));
      moreParts := parts + [part];
      moreWritten := written + [More(acct, part.pocket, -(part.took as int))];
      ApplyOneMore(before, written, More(acct, part.pocket, -(part.took as int)));
      assert moreWritten == Takes(acct, moreParts);
    }

    /** Ask the account's allowance first. */
    method TakeFromAllowance(ghost purses: seq<Purse>, acct: Acct, amount: nat, now: nat)
      returns (parts: seq<Part>, written: seq<Change>, need: nat, ghost asked: nat)
      requires Solvent(State()) && purses == Purses(State(), acct, now)
      modifies this
      ensures lots == old(lots) && holds == old(holds) && nextHold == old(nextHold) && nextLot == old(nextLot)
      ensures written == Takes(acct, parts) && State() == ApplyAll(old(State()), written)
      ensures Underway(purses, amount, asked, parts, need)
      ensures need == 0 || asked == if LiveAllowance(old(State()), acct, now) then 1 else 0
    {
      hide Greedy, LiveLots, ApplyAll, Takes, Apply, Underway;
      ghost var before := State();
      parts, written, need, asked := [], [], amount, 0;
      NothingTaken(before, acct, purses, amount);
      if LiveAllowance(State(), acct, now) {
        var left := allowance[acct].left;
        var take := if need <= left then need else left;
        if take > 0 {
          asked := 1;
          ApplyMonthly(before, acct, -take);
          OneMorePurse(purses, amount, 0, parts, need);
          parts, written := TakePart(before, acct, Part(Monthly, take), parts, written);
          need := need - take;
        }
      }
    }

    /** Ask the account's live lots, soonest to expire first, for what is still needed. */
    method TakeFromLots(ghost before: Tables, ghost purses: seq<Purse>, acct: Acct, ghost amount: nat, now: nat,
                        ghost first: nat, parts0: seq<Part>, written0: seq<Change>, need0: nat)
      returns (parts: seq<Part>, written: seq<Change>, need: nat, ghost asked: nat)
      requires first + |LiveLots(before, acct, now)| == |purses|
      requires forall i :: 0 <= i < |LiveLots(before, acct, now)| ==>
                 var id := LiveLots(before, acct, now)[i]; purses[first + i] == Purse(Prepaid(id), before.lots[id].left)
      requires lots == before.lots && holds == before.holds && nextHold == before.nextHold && nextLot == before.nextLot
      requires written0 == Takes(acct, parts0) && State() == ApplyAll(before, written0)
      requires Underway(purses, amount, first, parts0, need0)
      modifies this
      ensures holds == before.holds && nextHold == before.nextHold && nextLot == before.nextLot
      ensures written == Takes(acct, parts) && State() == ApplyAll(before, written)
      ensures Underway(purses, amount, first + asked, parts, need) && (need == 0 || first + asked == |purses|)
    {
      hide Greedy, LiveLots, ApplyAll, Took, Takes, Apply, Underway;
      parts, written, need := parts0, written0, need0;
      LiveLotsOf(before, State(), acct, now);
      var ids := LiveLots(State(), acct, now);
      var i := 0;
      while i < |ids|
        invariant 0 <= i <= |ids|
        invariant lots.Keys == before.lots.Keys
        invariant holds == before.holds && nextHold == before.nextHold && nextLot == before.nextLot
        invariant forall k :: i <= k < |ids| ==> lots[ids[k]] == before.lots[ids[k]]
        invariant written == Takes(acct, parts) && State() == ApplyAll(before, written)
        invariant Underway(purses, amount, first + i, parts, need)
      {
        if need == 0 { break; }
        var left := lots[ids[i]].left;
        var take := if need <= left then need else left;
        OneMorePurse(purses, amount, first + i, parts, need);
        ApplyPrepaid(State(), acct, ids[i], -take);
        parts, written := TakePart(before, acct, Part(Prepaid(ids[i]), take), parts, written);
        need := need - take;
        i := i + 1;
      }
      asked := i;
    }

    /** Take `amount` off the pockets for one request, or nothing at all. */
    method Hold(acct: Acct, amount: nat, now: nat) returns (r: Result<Held, nat>, written: seq<Change>)
      requires Solvent(State())
      modifies this
      ensures r.Ok? <==> HoldWrites(old(State()), acct, amount, now).Ok?
      ensures r.Ok? ==>
                written == HoldWrites(old(State()), acct, amount, now).value
                && r.value == Held(old(nextHold), acct, amount, Greedy(Purses(old(State()), acct, now), amount))
      ensures r.Err? ==> written == [] && r.error == HoldWrites(old(State()), acct, amount, now).error
      ensures State() == ApplyAll(old(State()), written)
    {
      hide Greedy, LiveLots, ApplyAll, Took, Takes, Apply, Underway;
      var before := State();
      ghost var purses := Purses(before, acct, now);
      var parts: seq<Part>, need: nat;
      ghost var first;
      parts, written, need, first := TakeFromAllowance(purses, acct, amount, now);
      if need > 0 {
        ghost var asked;
        parts, written, need, asked := TakeFromLots(before, purses, acct, amount, now, first, parts, written, need);
        first := first + asked;
      }
      AllTaken(purses, amount, first, parts, need);
      if need > 0 {
        allowance, lots := before.allowance, before.lots;
        ApplyNone(before);
        return Err(amount - need), [];
      }
      r := Ok(Held(nextHold, acct, amount, parts));
      var row := HoldRow(acct, parts);
      ApplyOneMore(before, written, HoldPut(nextHold, row));
      ApplyHoldPut(State(), nextHold, row);
      written := written + [HoldPut(nextHold, row)];
      holds := holds[nextHold := row];
      nextHold := nextHold + 1;
    }

    /** The request is answered: keep `cost`, at most what was held, and give the rest back,
        last pocket first. */
    method Settle(h: Held, cost: nat) returns (kept: nat, written: seq<Change>)
      modifies this
      ensures kept == if cost <= h.amount then cost else h.amount
      ensures written == SettleWrites(h, cost) && State() == ApplyAll(old(State()), written)
    {
      hide ApplyAll, Apply, GiveBacks;
      ghost var before := State();
      kept := if cost <= h.amount then cost else h.amount;
      var refund: nat := h.amount - kept;
      written := [];
      var i := |h.parts|;
      assert h.parts[..i] == h.parts;
      ApplyNone(before);
      while i > 0
        invariant 0 <= i <= |h.parts|
        invariant written + GiveBacks(h.acct, h.parts[..i], refund) == GiveBacks(h.acct, h.parts, h.amount - kept)
        invariant State() == ApplyAll(before, written)
      {
        OneGivenBack(h.acct, h.parts, i, refund);
        if refund == 0 { break; }
        var part := h.parts[i - 1];
        var back := if refund <= part.took then refund else part.took;
        Move(h.acct, part.pocket, back);
        ApplyOneMore(before, written, More(h.acct, part.pocket, back));
        written := written + [More(h.acct, part.pocket, back)];
        refund := refund - back;
        i := i - 1;
      }
      AllGivenBack(h.acct, h.parts, i, refund);
      ApplyOneMore(before, written, HoldDelete(h.id));
      ApplyHoldDelete(State(), h.id);
      written := written + [HoldDelete(h.id)];
      holds := holds - {h.id};
    }

    /** Give back all that one row took. */
    method GiveRowBack(ghost before: Tables, acct: Acct, parts: seq<Part>, written: seq<Change>) returns (more: seq<Change>)
      requires State() == ApplyAll(before, written)
      modifies this
      ensures more == written + GiveBackAll(acct, parts) && State() == ApplyAll(before, more)
      ensures holds == old(holds)
    {
      hide ApplyAll, Apply;
      more := written;
      var i := 0;
      while i < |parts|
        invariant 0 <= i <= |parts|
        invariant more == written + GiveBackAll(acct, parts)[..i]
        invariant State() == ApplyAll(before, more)
        invariant holds == old(holds)
      {
        ghost var was := State();
        Move(acct, parts[i].pocket, parts[i].took);
        ApplyOneMore(before, more, More(acct, parts[i].pocket, parts[i].took));
        MoreKeepsHolds(was, acct, parts[i].pocket, parts[i].took);
        more := more + [More(acct, parts[i].pocket, parts[i].took)];
        i := i + 1;
      }
    }

    /** At start: holds left by requests that died with the last process go back in full. */
    method ReleaseOpenHolds() returns (released: nat, written: seq<Change>)
      modifies this
      ensures released == |Ascending(old(holds).Keys)|
      ensures written == ReleaseWrites(old(holds), Ascending(old(holds).Keys))
      ensures State() == ApplyAll(old(State()), written)
    {
      hide ApplyAll, Apply, ReleaseWrites;
      ghost var before := State();
      var rows := holds;
      var ids := Ascending(holds.Keys);
      written := [];
      ApplyNone(before);
      NothingReleased(rows);
      var i := 0;
      while i < |ids|
        invariant 0 <= i <= |ids|
        invariant written == ReleaseWrites(rows, ids[..i])
        invariant State() == ApplyAll(before, written)
      {
        OneReleased(rows, ids, i);
        written := GiveRowBack(before, rows[ids[i]].acct, rows[ids[i]].parts, written);
        ApplyOneMore(before, written, HoldDelete(ids[i]));
        ApplyHoldDelete(State(), ids[i]);
        written := written + [HoldDelete(ids[i])];
        holds := holds - {ids[i]};
        i := i + 1;
      }
      assert ids[..i] == ids;
      released := |ids|;
    }
  }
}
