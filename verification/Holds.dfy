/** A request's hold against what it stands for: the balance it needs, the charge it becomes, and
    what is left of either when a crash tears the records of one operation. */
module Holds {
  import opened Names
  import opened Ledger
  import opened LedgerSafety
  import Sums

  // ---- when a hold succeeds --------------------------------------------------------------------------

  ghost function LiveLotsLeft(t: Tables, acct: Acct, now: nat): map<nat, int> {
    map id | id in t.lots :: if t.lots[id].acct == acct && t.lots[id].expires > now then t.lots[id].left else 0
  }

  /** What an account can spend now: an allowance that has not ended, and the lots that have not
      expired, in whatever order. */
  ghost function Balance(t: Tables, acct: Acct, now: nat): int {
    (if acct in t.allowance && t.allowance[acct].ends > now then t.allowance[acct].left else 0)
    + Sums.MapSum(LiveLotsLeft(t, acct, now))
  }

  /** The lots of `ids` only. */
  ghost function Among(t: Tables, ids: seq<nat>): map<nat, int> {
    map id | id in t.lots :: if id in ids then t.lots[id].left else 0
  }

  lemma {:induction false} ZerosAddUp(m: map<nat, int>)
    requires forall id :: id in m ==> m[id] == 0
    ensures Sums.MapSum(m) == 0
    decreases |m|
  {
    if m != map[] {
      var k :| k in m;
      Sums.PickAny(m, k);
      ZerosAddUp(m - {k});
    }
  }

  lemma {:induction false} PursesAddUp(t: Tables, ids: seq<nat>)
    requires forall id :: id in ids ==> id in t.lots && t.lots[id].left > 0
    requires forall i, j :: 0 <= i < j < |ids| ==> ids[i] != ids[j]
    ensures Holdings(LotPurses(t, ids)) == Sums.MapSum(Among(t, ids))
  {
    if ids == [] {
      ZerosAddUp(Among(t, ids));
    } else {
      var rest := ids[1..];
      PursesAddUp(t, rest);
      assert LotPurses(t, ids)[1..] == LotPurses(t, rest);
      assert ids == [ids[0]] + rest && ids[0] !in rest;
      Sums.Put(Among(t, rest), ids[0], t.lots[ids[0]].left);
      assert Among(t, ids) == Among(t, rest)[ids[0] := t.lots[ids[0]].left];
    }
  }

  lemma PursesAreTheBalance(t: Tables, acct: Acct, now: nat)
    requires InTheBlack(t)
    ensures Holdings(Purses(t, acct, now)) == Balance(t, acct, now)
  {
    hide InOrder;
    var ids := LiveLots(t, acct, now);
    PursesAddUp(t, ids);
    LiveLotsAre(t, acct, now);
    if LiveAllowance(t, acct, now) {
      assert Purses(t, acct, now)[1..] == LotPurses(t, ids);
    } else {
      assert Purses(t, acct, now) == LotPurses(t, ids);
    }
  }

  lemma LiveLotsAre(t: Tables, acct: Acct, now: nat)
    requires InTheBlack(t)
    ensures Among(t, LiveLots(t, acct, now)) == LiveLotsLeft(t, acct, now)
  {
    hide InOrder;
    var ids := LiveLots(t, acct, now);
    var live := (set id | id in t.lots && t.lots[id].acct == acct && t.lots[id].left > 0 && t.lots[id].expires > now);
    assert forall id :: id in ids <==> id in live;
  }

  /** A hold is granted exactly when the balance covers it; a refusal names the balance. */
  lemma HoldNeedsTheBalance(t: Tables, acct: Acct, amount: nat, now: nat)
    requires InTheBlack(t)
    ensures HoldWrites(t, acct, amount, now).Ok? <==> amount <= Balance(t, acct, now)
    ensures HoldWrites(t, acct, amount, now).Err? ==> HoldWrites(t, acct, amount, now).error == Balance(t, acct, now)
  {
    hide Greedy, Purses, Holdings, Took, Balance;
    GreedyTakes(Purses(t, acct, now), amount);
    PursesAreTheBalance(t, acct, now);
  }

  // ---- a hold that is settled is a charge ----------------------------------------------------------------

  lemma MoreTwice(t: Tables, acct: Acct, pocket: Pocket, a: int, b: int)
    ensures Apply(Apply(t, More(acct, pocket, a)), More(acct, pocket, b)) == Apply(t, More(acct, pocket, a + b))
    ensures Apply(t, More(acct, pocket, 0)) == t
  {
    if pocket.Monthly? {
      if acct in t.allowance {
        assert t.allowance[acct := t.allowance[acct]] == t.allowance;
      }
    } else if pocket.id in t.lots {
      assert t.lots[pocket.id := t.lots[pocket.id]] == t.lots;
    }
  }

  lemma TakesNone(t: Tables, acct: Acct)
    ensures ApplyAll(t, Takes(acct, [])) == t && ApplyAll(t, []) == t
  {
  }

  lemma TakesLast(acct: Acct, parts: seq<Part>)
    requires parts != []
    ensures var n := |parts| - 1;
            Takes(acct, parts) == Takes(acct, parts[..n]) + [More(acct, parts[n].pocket, -(parts[n].took as int))]
  {
  }

  /** The last take of a hold meets the first give-back of its settlement. */
  lemma LastTaken(u: Tables, acct: Acct, last: Part, back: nat)
    ensures Apply(Apply(u, More(acct, last.pocket, -(last.took as int))), More(acct, last.pocket, back))
            == Apply(u, More(acct, last.pocket, back - last.took))
    ensures back == last.took ==> Apply(u, More(acct, last.pocket, back - last.took)) == u
  {
    MoreTwice(u, acct, last.pocket, -(last.took as int), back);
  }

  lemma {:induction false} TakenAndGivenBack(t: Tables, acct: Acct, parts: seq<Part>, refund: nat)
    requires forall i :: 0 <= i < |parts| ==> parts[i].took > 0
    ensures ApplyAll(ApplyAll(t, Takes(acct, parts)), GiveBacks(acct, parts, refund))
            == ApplyAll(t, Takes(acct, AfterRefund(parts, refund)))
    decreases |parts|
  {
    hide Apply, Took, More, Takes;
    if parts == [] {
      TakesNone(t, acct);
    } else if refund == 0 {
      var n := |parts| - 1;
      assert AfterRefund(parts, 0) == parts[..n] + [parts[n]] == parts;
      ApplyNone(ApplyAll(t, Takes(acct, parts)));
    } else {
      var n := |parts| - 1;
      var last := parts[n];
      var back := if refund <= last.took then refund else last.took;
      var out, home := More(acct, last.pocket, -(last.took as int)), More(acct, last.pocket, back);
      var u := ApplyAll(t, Takes(acct, parts[..n]));
      TakesLast(acct, parts);
      ApplyOneMore(t, Takes(acct, parts[..n]), out);
      ApplyInTwo(Apply(u, out), [home], GiveBacks(acct, parts[..n], refund - back));
      ApplyOne(Apply(u, out), home);
      LastTaken(u, acct, last, back);
      if refund >= last.took {
        TakenAndGivenBack(t, acct, parts[..n], refund - last.took);
      } else {
        var less := parts[..n] + [Part(last.pocket, last.took - refund)];
        TakesLast(acct, less);
        assert less[..n] == parts[..n];
        ApplyOneMore(t, Takes(acct, parts[..n]), More(acct, last.pocket, -((last.took - refund) as int)));
        ApplyNone(Apply(Apply(u, out), home));
      }
    }
  }

  predicate OnPockets(c: Change) {
    c.AllowanceMore? || c.LotMore?
  }

  lemma {:induction false} HoldsApart(t: Tables, cs: seq<Change>, holds: map<nat, HoldRow>, next: nat)
    requires forall i :: 0 <= i < |cs| ==> OnPockets(cs[i])
    ensures ApplyAll(t.(holds := holds, nextHold := next), cs) == ApplyAll(t, cs).(holds := holds, nextHold := next)
    ensures ApplyAll(t, cs).holds == t.holds && ApplyAll(t, cs).nextHold == t.nextHold
  {
    if cs != [] {
      HoldsApart(t, cs[..|cs| - 1], holds, next);
      assert OnPockets(cs[|cs| - 1]);
    }
  }

  lemma {:induction false} GiveBacksOnPockets(acct: Acct, parts: seq<Part>, refund: nat)
    ensures forall i :: 0 <= i < |GiveBacks(acct, parts, refund)| ==> OnPockets(GiveBacks(acct, parts, refund)[i])
    decreases |parts|
  {
    if parts != [] && refund > 0 {
      var n := |parts| - 1;
      var back := if refund <= parts[n].took then refund else parts[n].took;
      GiveBacksOnPockets(acct, parts[..n], refund - back);
    }
  }

  /** Holding `amount` and settling at `cost` leaves the very tables that taking what it cost, at
      most `amount`, in the first place would have left: the allowance first, then the lots that
      expire soonest. */
  lemma HoldThenSettleIsACharge(t: Tables, acct: Acct, amount: nat, cost: nat, now: nat)
    requires t.nextHold !in t.holds
    requires HoldWrites(t, acct, amount, now).Ok?
    ensures var held := ApplyAll(t, HoldWrites(t, acct, amount, now).value);
            var h := Held(t.nextHold, acct, amount, HoldParts(t, acct, amount, now));
            ApplyAll(held, SettleWrites(h, cost))
            == ApplyAll(t, Takes(acct, Greedy(Purses(t, acct, now), if cost <= amount then cost else amount)))
               .(nextHold := t.nextHold + 1)
  {
    hide Greedy, Purses, Took, Takes, GiveBacks, AfterRefund, Holdings, ApplyAll;
    var ps := Purses(t, acct, now);
    var parts := HoldParts(t, acct, amount, now);
    var kept := if cost <= amount then cost else amount;
    var backs := GiveBacks(acct, parts, amount - kept);
    var row := HoldRow(acct, parts);
    var mid := ApplyAll(t, Takes(acct, parts));
    var rest := ApplyAll(mid, backs);
    HoldPartsStand(t, acct, amount, now);
    PursesMatch(t, acct, now);
    GreedyTakes(ps, amount);
    HoldThenRefund(ps, amount, kept);
    TakenAndGivenBack(t, acct, parts, amount - kept);
    TakesOnPockets(acct, parts);
    HoldsApart(t, Takes(acct, parts), t.holds, t.nextHold);
    GiveBacksOnPockets(acct, parts, amount - kept);
    HoldsApart(mid, backs, t.holds[t.nextHold := row], t.nextHold + 1);
    ApplyOneMore(t, Takes(acct, parts), HoldPut(t.nextHold, row));
    ApplyHoldPut(mid, t.nextHold, row);
    ApplyOneMore(mid.(holds := t.holds[t.nextHold := row], nextHold := t.nextHold + 1), backs, HoldDelete(t.nextHold));
    assert t.holds[t.nextHold := row] - {t.nextHold} == t.holds;
  }

  lemma TakesOnPockets(acct: Acct, parts: seq<Part>)
    ensures forall i :: 0 <= i < |Takes(acct, parts)| ==> OnPockets(Takes(acct, parts)[i])
  {
  }

  // ---- a hold whose request died ---------------------------------------------------------------------

  lemma CommuteRows(t: Tables, a: Acct, x: int, b: Acct, y: int)
    ensures Apply(Apply(t, AllowanceMore(a, x)), AllowanceMore(b, y)) == Apply(Apply(t, AllowanceMore(b, y)), AllowanceMore(a, x))
  {
    if a in t.allowance && b in t.allowance && a != b {
      var m, n := t.allowance[a].(left := t.allowance[a].left + x), t.allowance[b].(left := t.allowance[b].left + y);
      assert t.allowance[a := m][b := n] == t.allowance[b := n][a := m];
    }
  }

  lemma CommuteLots(t: Tables, a: nat, x: int, b: nat, y: int)
    ensures Apply(Apply(t, LotMore(a, x)), LotMore(b, y)) == Apply(Apply(t, LotMore(b, y)), LotMore(a, x))
  {
    if a in t.lots && b in t.lots && a != b {
      var m, n := t.lots[a].(left := t.lots[a].left + x), t.lots[b].(left := t.lots[b].left + y);
      assert t.lots[a := m][b := n] == t.lots[b := n][a := m];
    }
  }

  lemma CommuteKinds(t: Tables, a: Acct, x: int, b: nat, y: int)
    ensures Apply(Apply(t, AllowanceMore(a, x)), LotMore(b, y)) == Apply(Apply(t, LotMore(b, y)), AllowanceMore(a, x))
  {
  }

  lemma Commute(t: Tables, c: Change, d: Change)
    requires OnPockets(c) && OnPockets(d)
    ensures Apply(Apply(t, c), d) == Apply(Apply(t, d), c)
  {
    hide Apply;
    match (c, d)
    case (AllowanceMore(a, x), AllowanceMore(b, y)) => CommuteRows(t, a, x, b, y);
    case (LotMore(a, x), LotMore(b, y)) => CommuteLots(t, a, x, b, y);
    case (AllowanceMore(a, x), LotMore(b, y)) => CommuteKinds(t, a, x, b, y);
    case (LotMore(b, y), AllowanceMore(a, x)) => CommuteKinds(t, a, x, b, y);
  }

  lemma {:induction false} CommuteAll(t: Tables, c: Change, cs: seq<Change>)
    requires OnPockets(c) && forall i :: 0 <= i < |cs| ==> OnPockets(cs[i])
    ensures ApplyAll(Apply(t, c), cs) == Apply(ApplyAll(t, cs), c)
  {
    if cs != [] {
      var n := |cs| - 1;
      CommuteAll(t, c, cs[..n]);
      Commute(ApplyAll(t, cs[..n]), c, cs[n]);
    }
  }

  lemma {:induction false} TakenAndAllGivenBack(t: Tables, acct: Acct, parts: seq<Part>)
    ensures ApplyAll(ApplyAll(t, Takes(acct, parts)), GiveBackAll(acct, parts)) == t
  {
    hide Apply;
    if parts == [] {
      ApplyNone(t);
    } else {
      var n := |parts| - 1;
      var out, home := More(acct, parts[n].pocket, -(parts[n].took as int)), More(acct, parts[n].pocket, parts[n].took);
      var u := ApplyAll(t, Takes(acct, parts[..n]));
      var backs := GiveBackAll(acct, parts[..n]);
      TakesLast(acct, parts);
      ApplyOneMore(t, Takes(acct, parts[..n]), out);
      assert GiveBackAll(acct, parts) == backs + [home];
      ApplyOneMore(Apply(u, out), backs, home);
      CommuteAll(u, out, backs);
      TakenAndAllGivenBack(t, acct, parts[..n]);
      MoreTwice(t, acct, parts[n].pocket, -(parts[n].took as int), parts[n].took);
    }
  }

  /** A request that dies after its hold has cost nothing: the release at the next start puts
      every pocket back as it was. */
  lemma HoldThenReleaseUndoes(t: Tables, acct: Acct, amount: nat, now: nat)
    requires t.holds == map[]
    requires HoldWrites(t, acct, amount, now).Ok?
    ensures var held := ApplyAll(t, HoldWrites(t, acct, amount, now).value);
            ApplyAll(held, ReleaseWrites(held.holds, Ascending(held.holds.Keys))) == t.(nextHold := t.nextHold + 1)
  {
    hide Greedy, Purses, Took, Takes, GiveBackAll, ApplyAll, Ascending;
    var parts := HoldParts(t, acct, amount, now);
    var row := HoldRow(acct, parts);
    var mid := ApplyAll(t, Takes(acct, parts));
    var backs := GiveBackAll(acct, parts);
    TakesOnPockets(acct, parts);
    HoldsApart(t, Takes(acct, parts), map[], t.nextHold);
    ApplyOneMore(t, Takes(acct, parts), HoldPut(t.nextHold, row));
    ApplyHoldPut(mid, t.nextHold, row);
    var held := mid.(holds := map[t.nextHold := row], nextHold := t.nextHold + 1);
    OnlyOne(t.nextHold);
    assert held.holds.Keys == {t.nextHold};
    OneRelease(held.holds, t.nextHold);
    GiveBackAllOnPockets(acct, parts);
    HoldsApart(mid, backs, held.holds, held.nextHold);
    TakenAndAllGivenBack(t, acct, parts);
    ApplyOneMore(held, backs, HoldDelete(t.nextHold));
    ApplyHoldDelete(t.(holds := held.holds, nextHold := held.nextHold), t.nextHold);
  }

  lemma GiveBackAllOnPockets(acct: Acct, parts: seq<Part>)
    ensures forall i :: 0 <= i < |GiveBackAll(acct, parts)| ==> OnPockets(GiveBackAll(acct, parts)[i])
  {
  }

  lemma OnlyOne(id: nat)
    ensures Ascending({id}) == [id]
  {
    assert {id} - {id} == {};
    assert Ascending({id})[0] == id;
  }

  lemma OneRelease(holds: map<nat, HoldRow>, id: nat)
    requires id in holds
    ensures ReleaseWrites(holds, [id]) == GiveBackAll(holds[id].acct, holds[id].parts) + [HoldDelete(id)]
  {
    assert [id][..0] == [];
  }

  // ---- an operation torn by a crash --------------------------------------------------------------------

  lemma {:induction false} SomethingTaken(parts: seq<Part>)
    requires forall i :: 0 <= i < |parts| ==> parts[i].took > 0
    ensures Took(parts) > 0 <==> parts != []
  {
    if parts != [] { SomethingTaken(parts[..|parts| - 1]); }
  }

  /** A pocket that is not below zero after a take was not before it. */
  lemma BlackWithMore(t: Tables, acct: Acct, pocket: Pocket, amount: nat)
    requires InTheBlack(Apply(t, More(acct, pocket, -(amount as int))))
    ensures InTheBlack(t)
  {
    var u := Apply(t, More(acct, pocket, -(amount as int)));
    forall a | a in t.allowance ensures t.allowance[a].left >= 0 {
      assert a in u.allowance && u.allowance[a].left >= 0;
    }
    forall id | id in t.lots ensures t.lots[id].left >= 0 {
      assert id in u.lots && u.lots[id].left >= 0;
    }
  }

  lemma {:induction false} BlackBefore(t: Tables, acct: Acct, parts: seq<Part>, j: nat)
    requires j <= |parts| && InTheBlack(ApplyAll(t, Takes(acct, parts)))
    ensures InTheBlack(ApplyAll(t, Takes(acct, parts[..j])))
    decreases |parts|
  {
    hide InTheBlack, Apply, ApplyAll;
    if j == |parts| {
      assert parts[..j] == parts;
    } else {
      var n := |parts| - 1;
      var last := More(acct, parts[n].pocket, -(parts[n].took as int));
      assert Takes(acct, parts) == Takes(acct, parts[..n]) + [last];
      ApplyOneMore(t, Takes(acct, parts[..n]), last);
      BlackWithMore(ApplyAll(t, Takes(acct, parts[..n])), acct, parts[n].pocket, parts[n].took);
      BlackBefore(t, acct, parts[..n], j);
      assert parts[..n][..j] == parts[..j];
    }
  }

  /** Tables with the same rows, and nothing overdrawn, are as good. */
  lemma StaysGood(t: Tables, u: Tables)
    requires Good(t) && SameRows(t, u) && InTheBlack(u)
    ensures Good(u)
  {
    hide HasAll, InTheBlack;
    forall id | id in u.holds ensures HasAll(u, u.holds[id].acct, u.holds[id].parts) {
      SameRowsKeep(t, u, u.holds[id].acct, u.holds[id].parts);
    }
  }

  /** A hold is written as several records. After its first `j` its account is short of what those
      took, and nobody else of anything, unless the row was written with them: so the total is as
      before only when they are none or all. */
  lemma TornHold(t: Tables, id: nat, acct: Acct, amount: nat, now: nat, j: nat, b: Acct)
    requires Good(t) && id !in t.holds && HoldWritesAs(t, id, acct, amount, now).Ok?
    requires j <= |HoldWritesAs(t, id, acct, amount, now).value|
    ensures var (n, parts) := (|HoldWritesAs(t, id, acct, amount, now).value|, HoldParts(t, acct, amount, now));
            var u := ApplyAll(t, HoldWritesAs(t, id, acct, amount, now).value[..j]);
            && n == |parts| + 1 && Good(u)
            && u.holds == (if j < n then t.holds else t.holds[id := HoldRow(acct, parts)])
            && Total(u, b) == Total(t, b) - Mine(acct, b, if j < n then Took(parts[..j]) else 0)
            && (Total(u, acct) == Total(t, acct) <==> j == 0 || j == n)
  {
    hide Total, Greedy, Purses, HasAll, ApplyAll, Good, Took;
    var writes := HoldWritesAs(t, id, acct, amount, now).value;
    var parts := HoldParts(t, acct, amount, now);
    if j == |writes| {
      assert writes[..j] == writes;
      HoldKeeps(t, id, acct, amount, now, acct);
      HoldKeeps(t, id, acct, amount, now, b);
    } else {
      assert writes[..j] == Takes(acct, parts[..j]);
      FirstTakes(t, acct, amount, now, j, acct);
      FirstTakes(t, acct, amount, now, j, b);
      HoldPartsStand(t, acct, amount, now);
      SomethingTaken(parts[..j]);
    }
  }

  lemma FirstTakes(t: Tables, acct: Acct, amount: nat, now: nat, j: nat, b: Acct)
    requires Good(t) && j <= |HoldParts(t, acct, amount, now)|
    ensures var parts := HoldParts(t, acct, amount, now);
            var u := ApplyAll(t, Takes(acct, parts[..j]));
            Good(u) && u.holds == t.holds && Total(u, b) == Total(t, b) - Mine(acct, b, Took(parts[..j]))
  {
    hide Total, Greedy, Purses, HasAll, ApplyAll, Took, SameRows, InTheBlack;
    var parts := HoldParts(t, acct, amount, now);
    HoldPartsStand(t, acct, amount, now);
    PursesMatch(t, acct, now);
    TakesStayBlack(t, acct, Purses(t, acct, now), amount);
    BlackBefore(t, acct, parts, j);
    HasSome(t, acct, parts, j);
    TakesMove(t, acct, parts[..j], b);
    StaysGood(t, ApplyAll(t, Takes(acct, parts[..j])));
    SameRowsApart(t, ApplyAll(t, Takes(acct, parts[..j])));
  }

  lemma HasSome(t: Tables, acct: Acct, parts: seq<Part>, j: nat)
    requires HasAll(t, acct, parts) && j <= |parts|
    ensures HasAll(t, acct, parts[..j])
  {
  }

  /** What a settlement gives back, part by part, last pocket first. */
  function Backs(parts: seq<Part>, refund: nat): seq<Part> {
    if parts == [] || refund == 0 then []
    else
      var n := |parts| - 1;
      var back := if refund <= parts[n].took then refund else parts[n].took;
      [Part(parts[n].pocket, back)] + Backs(parts[..n], refund - back)
  }

  lemma {:induction false} BacksAreGiven(t: Tables, acct: Acct, parts: seq<Part>, refund: nat)
    requires HasAll(t, acct, parts) && forall i :: 0 <= i < |parts| ==> parts[i].took > 0
    ensures GiveBacks(acct, parts, refund) == GiveBackAll(acct, Backs(parts, refund))
    ensures HasAll(t, acct, Backs(parts, refund))
    ensures forall i :: 0 <= i < |Backs(parts, refund)| ==> Backs(parts, refund)[i].took > 0
    decreases |parts|
  {
    if parts != [] && refund > 0 {
      var n := |parts| - 1;
      var back := if refund <= parts[n].took then refund else parts[n].took;
      BacksAreGiven(t, acct, parts[..n], refund - back);
      assert GiveBackAll(acct, [Part(parts[n].pocket, back)] + Backs(parts[..n], refund - back))
          == [More(acct, parts[n].pocket, back)] + GiveBackAll(acct, Backs(parts[..n], refund - back));
    }
  }

  /** Parts given back while their row stays. */
  lemma PartsGivenBack(t: Tables, acct: Acct, parts: seq<Part>, a: Acct)
    requires Good(t) && HasAll(t, acct, parts)
    ensures var u := ApplyAll(t, GiveBackAll(acct, parts));
            Good(u) && u.holds == t.holds && Total(u, a) == Total(t, a) + Mine(acct, a, Took(parts))
  {
    hide Total, Took, HasAll, GiveBackAll, ApplyAll, SameRows, InTheBlack;
    GiveBackAllMoves(t, acct, parts, a);
    StaysGood(t, ApplyAll(t, GiveBackAll(acct, parts)));
    SameRowsApart(t, ApplyAll(t, GiveBackAll(acct, parts)));
  }

  /** The parts a settlement gives back. */
  function Refunds(h: Held, cost: nat): seq<Part> {
    Backs(h.parts, if cost <= h.amount then h.amount - cost else 0)
  }

  /** A settlement is written as several records too, and torn it pays out: after its first `j`
      records its account has what those gave back on top of the open hold, which the next start
      gives back whole. The total is that of a request never answered, or of one answered, only when
      they are none or all. */
  lemma TornSettle(t: Tables, h: Held, cost: nat, j: nat, b: Acct)
    requires Good(t) && Open(t, h) && forall i :: 0 <= i < |h.parts| ==> h.parts[i].took > 0
    requires j <= |SettleWrites(h, cost)|
    ensures var (n, backs) := (|SettleWrites(h, cost)|, Refunds(h, cost));
            var u := ApplyAll(t, SettleWrites(h, cost)[..j]);
            && n == |backs| + 1 && Good(u)
            && u.holds == (if j < n then t.holds else t.holds - {h.id})
            && Total(u, b) == Total(t, b) + Mine(h.acct, b, if j < n then Took(backs[..j])
                                                            else -(if cost <= h.amount then cost else h.amount))
            && (j < n ==> (Total(u, h.acct) == Total(t, h.acct) <==> j == 0))
  {
    hide Total, HasAll, ApplyAll, Good, Took, Backs, GiveBacks;
    var writes := SettleWrites(h, cost);
    var backs := Refunds(h, cost);
    OpenStands(t, h);
    BacksAreGiven(t, h.acct, h.parts, if cost <= h.amount then h.amount - cost else 0);
    if j == |writes| {
      assert writes[..j] == writes;
      SettleCharges(t, h, cost, b);
    } else {
      HasSome(t, h.acct, backs, j);
      assert writes[..j] == GiveBackAll(h.acct, backs[..j]);
      PartsGivenBack(t, h.acct, backs[..j], h.acct);
      PartsGivenBack(t, h.acct, backs[..j], b);
      SomethingTaken(backs[..j]);
    }
  }

  lemma OpenStands(t: Tables, h: Held)
    requires Good(t) && Open(t, h)
    ensures HasAll(t, h.acct, h.parts) && InTheBlack(t)
  {
  }

  // ---- which pocket goes first -------------------------------------------------------------------------

  function TakenFrom(parts: seq<Part>, pocket: Pocket): nat {
    if parts == [] then 0
    else TakenFrom(parts[..|parts| - 1], pocket) + if parts[|parts| - 1].pocket == pocket then parts[|parts| - 1].took else 0
  }

  lemma {:induction false} TakenFromFirst(p: Part, rest: seq<Part>, pocket: Pocket)
    ensures TakenFrom([p] + rest, pocket) == TakenFrom(rest, pocket) + if p.pocket == pocket then p.took else 0
  {
    if rest == [] {
      assert ([p] + rest)[..0] == [];
    } else {
      var n := |rest| - 1;
      TakenFromFirst(p, rest[..n], pocket);
      assert ([p] + rest)[..|rest|] == [p] + rest[..n];
    }
  }

  lemma OneMoreLeft(t: Tables, acct: Acct, pocket: Pocket, amount: int, x: Pocket)
    requires Has(t, acct, pocket) && Has(t, acct, x)
    ensures var u := Apply(t, More(acct, pocket, amount));
            Has(u, acct, x) && PocketLeft(u, acct, x) == PocketLeft(t, acct, x) + if pocket == x then amount else 0
  {
  }

  lemma {:induction false} TakesOnPocket(t: Tables, acct: Acct, parts: seq<Part>, x: Pocket)
    requires HasAll(t, acct, parts) && Has(t, acct, x)
    ensures var u := ApplyAll(t, Takes(acct, parts));
            Has(u, acct, x) && PocketLeft(u, acct, x) == PocketLeft(t, acct, x) - TakenFrom(parts, x)
  {
    hide Apply, PocketLeft, HasAll, SameRows;
    if parts == [] {
      TakesNone(t, acct);
    } else {
      var n := |parts| - 1;
      HasAllFirst(t, acct, parts);
      TakesOnPocket(t, acct, parts[..n], x);
      TakesMove(t, acct, parts[..n], acct);
      var u := ApplyAll(t, Takes(acct, parts[..n]));
      HasAllLast(t, u, acct, parts);
      TakesLast(acct, parts);
      ApplyOneMore(t, Takes(acct, parts[..n]), More(acct, parts[n].pocket, -(parts[n].took as int)));
      OneMoreLeft(u, acct, parts[n].pocket, -(parts[n].took as int), x);
    }
  }

  lemma {:induction false} NothingFromOthers(ps: seq<Purse>, need: nat, x: Pocket)
    requires forall i :: 0 <= i < |ps| ==> ps[i].pocket != x
    ensures TakenFrom(Greedy(ps, need), x) == 0
  {
    if ps != [] && need > 0 {
      var take := if need <= ps[0].left then need else ps[0].left;
      NothingFromOthers(ps[1..], need - take, x);
      TakenFromFirst(Part(ps[0].pocket, take), Greedy(ps[1..], need - take), x);
    }
  }

  /** Greedy taking empties a pocket before it asks the next. */
  lemma {:induction false} GreedyEmpties(ps: seq<Purse>, need: nat, i: nat, j: nat)
    requires i < j < |ps| && forall a, b :: 0 <= a < b < |ps| ==> ps[a].pocket != ps[b].pocket
    requires TakenFrom(Greedy(ps, need), ps[j].pocket) > 0
    ensures TakenFrom(Greedy(ps, need), ps[i].pocket) == ps[i].left
  {
    hide TakenFrom;
    NothingTakenYet(ps[j].pocket);
    var take := if need <= ps[0].left then need else ps[0].left;
    var rest := Greedy(ps[1..], need - take);
    TakenFromFirst(Part(ps[0].pocket, take), rest, ps[j].pocket);
    TakenFromFirst(Part(ps[0].pocket, take), rest, ps[i].pocket);
    if i > 0 {
      GreedyEmpties(ps[1..], need - take, i - 1, j - 1);
    } else {
      NothingFromOthers(ps[1..], need - take, ps[0].pocket);
      NothingNeeded(ps[1..]);
    }
  }

  lemma NothingTakenYet(x: Pocket)
    ensures TakenFrom([], x) == 0
  {
  }

  /** A pocket that can be spent from. */
  predicate Live(t: Tables, acct: Acct, x: Pocket, now: nat) {
    Has(t, acct, x) && PocketLeft(t, acct, x) > 0
    && if x.Monthly? then t.allowance[acct].ends > now else t.lots[x.id].expires > now
  }

  /** The allowance goes before any lot, and a lot before those that expire later. */
  predicate GoesBefore(t: Tables, x: Pocket, y: Pocket)
    requires (x.Prepaid? ==> x.id in t.lots) && (y.Prepaid? ==> y.id in t.lots)
  {
    y.Prepaid? && (x.Monthly? || t.lots[x.id].expires < t.lots[y.id].expires)
  }

  lemma LotStands(t: Tables, acct: Acct, now: nat, id: nat) returns (i: nat)
    requires Live(t, acct, Prepaid(id), now)
    ensures i < |LiveLots(t, acct, now)| && LiveLots(t, acct, now)[i] == id
  {
    hide InOrder;
    assert id in LiveLots(t, acct, now);
    i :| 0 <= i < |LiveLots(t, acct, now)| && LiveLots(t, acct, now)[i] == id;
  }

  lemma LotsSorted(t: Tables, acct: Acct, now: nat, i: nat, j: nat)
    requires i <= j < |LiveLots(t, acct, now)|
    ensures t.lots[LiveLots(t, acct, now)[i]].expires <= t.lots[LiveLots(t, acct, now)[j]].expires
  {
    hide InOrder;
  }

  lemma LivePursesInOrder(t: Tables, acct: Acct, now: nat, x: Pocket, y: Pocket) returns (i: nat, j: nat)
    requires Live(t, acct, x, now) && Live(t, acct, y, now) && GoesBefore(t, x, y)
    ensures var ps := Purses(t, acct, now);
            i < j < |ps| && ps[i].pocket == x && ps[j].pocket == y && ps[i].left == PocketLeft(t, acct, x)
  {
    hide LiveLots;
    var n := if LiveAllowance(t, acct, now) then 1 else 0;
    var b := LotStands(t, acct, now, y.id);
    j := n + b;
    if x.Monthly? {
      i := 0;
    } else {
      var a := LotStands(t, acct, now, x.id);
      if b <= a { LotsSorted(t, acct, now, b, a); }
      i := n + a;
    }
  }

  lemma OnlyLiveTaken(t: Tables, acct: Acct, amount: nat, now: nat, y: Pocket)
    requires Has(t, acct, y) && !Live(t, acct, y, now)
    ensures TakenFrom(HoldParts(t, acct, amount, now), y) == 0
  {
    hide InOrder;
    var ps := Purses(t, acct, now);
    PursesMatch(t, acct, now);
    var ids := LiveLots(t, acct, now);
    var n := if LiveAllowance(t, acct, now) then 1 else 0;
    forall i | 0 <= i < |ps| ensures ps[i].pocket != y {
      if i >= n {
        assert ps[i].pocket == Prepaid(ids[i - n]) && ids[i - n] in ids;
      }
    }
    NothingFromOthers(ps, amount, y);
  }

  /** A hold touches a pocket only once every live pocket that goes before it, the allowance before
      the lots and a lot before those that expire later, has been emptied. */
  lemma SoonestGoesFirst(t: Tables, acct: Acct, amount: nat, now: nat, x: Pocket, y: Pocket)
    requires HoldWrites(t, acct, amount, now).Ok?
    requires Live(t, acct, x, now) && Has(t, acct, y) && GoesBefore(t, x, y)
    ensures var u := ApplyAll(t, HoldWrites(t, acct, amount, now).value);
            && Has(u, acct, x) && Has(u, acct, y)
            && (PocketLeft(u, acct, y) != PocketLeft(t, acct, y) ==> PocketLeft(u, acct, x) == 0)
            && PocketLeft(u, acct, y) <= PocketLeft(t, acct, y)
  {
    hide Greedy, Purses, Takes, TakenFrom, ApplyAll, Took, HasAll, Live;
    var parts := HoldParts(t, acct, amount, now);
    var mid := ApplyAll(t, Takes(acct, parts));
    LiveHas(t, acct, x, now);
    HoldPartsStand(t, acct, amount, now);
    TakesOnPocket(t, acct, parts, x);
    TakesOnPocket(t, acct, parts, y);
    ApplyOneMore(t, Takes(acct, parts), HoldPut(t.nextHold, HoldRow(acct, parts)));
    if TakenFrom(parts, y) > 0 {
      if !Live(t, acct, y, now) { OnlyLiveTaken(t, acct, amount, now, y); }
      else {
        var i, j := LivePursesInOrder(t, acct, now, x, y);
        DistinctPurses(t, acct, now);
        GreedyEmpties(Purses(t, acct, now), amount, i, j);
      }
    }
  }

  lemma LiveHas(t: Tables, acct: Acct, x: Pocket, now: nat)
    requires Live(t, acct, x, now)
    ensures Has(t, acct, x)
  {
  }

  lemma DistinctPurses(t: Tables, acct: Acct, now: nat)
    ensures forall a, b :: 0 <= a < b < |Purses(t, acct, now)| ==> Purses(t, acct, now)[a].pocket != Purses(t, acct, now)[b].pocket
  {
    hide Purses;
    PursesMatch(t, acct, now);
  }
}
