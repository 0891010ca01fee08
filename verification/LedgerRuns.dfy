/** Whole runs over the ledger: credits, grants, requests held and answered, restarts. */
module LedgerRuns {
  import opened Names
  import opened Ledger
  import opened LedgerSafety
  import Calendar

  datatype Op =
    | Credit(acct: Acct, toku: nat, now: nat)
    | Grant(acct: Acct, start: nat, ends: nat, toku: nat)
    | Upgrade(acct: Acct, extra: nat)
    | Take(acct: Acct, used: nat)
    | Lapse(acct: Acct)
    | Ask(id: nat, acct: Acct, amount: nat, now: nat)
    | Answer(id: nat, cost: nat)
    | Restart

  /** A request's hold may have any number that no open hold has: the table's own counter starts over
      when a start finds no hold in the snapshot or the journal. */
  predicate Granted(r: Run, id: nat, acct: Acct, amount: nat, now: nat) {
    id !in r.t.holds && HoldWritesAs(r.t, id, acct, amount, now).Ok?
  }

  /** The tables, and the holds of requests still being worked on. */
  datatype Run = Run(t: Tables, hands: map<nat, Held>)

  const Fresh := Run(NoTables, map[])

  function Writes(r: Run, op: Op): seq<Change> {
    match op
    case Credit(acct, toku, now) => [PrepaidLot(r.t, acct, toku, now)]
    case Grant(acct, start, ends, toku) => [AllowanceSet(acct, start / 1000, ends, toku)]
    case Upgrade(acct, extra) => [AllowanceAdd(acct, extra)]
    case Take(acct, used) => [AllowanceTake(acct, used)]
    case Lapse(acct) => [AllowanceLapse(acct)]
    case Ask(id, acct, amount, now) =>
      if Granted(r, id, acct, amount, now) then HoldWritesAs(r.t, id, acct, amount, now).value else []
    case Answer(id, cost) => if id in r.hands then SettleWrites(r.hands[id], cost) else []
    case Restart => ReleaseWrites(r.t.holds, Ascending(r.t.holds.Keys))
  }

  function Hands(r: Run, op: Op): map<nat, Held> {
    match op
    case Ask(id, acct, amount, now) =>
      if Granted(r, id, acct, amount, now)
      then r.hands[id := Held(id, acct, amount, HoldParts(r.t, acct, amount, now))]
      else r.hands
    case Answer(id, cost) => r.hands - {id}
    case Restart => map[]
    case _ => r.hands
  }

  function After(r: Run, op: Op): Run {
    Run(ApplyAll(r.t, Writes(r, op)), Hands(r, op))
  }

  function AfterAll(r: Run, ops: seq<Op>): Run {
    if ops == [] then r else After(AfterAll(r, ops[..|ops| - 1]), ops[|ops| - 1])
  }

  /** What payments and plans put into the account, less what a plan's end took away. */
  ghost function PutIn(r: Run, op: Op, a: Acct): int {
    match op
    case Credit(acct, toku, _) => Mine(acct, a, toku)
    case Grant(acct, _, _, toku) => Mine(acct, a, toku - AllowanceLeft(r.t, acct))
    case Upgrade(acct, extra) => Mine(acct, a, if acct in r.t.allowance then extra else 0)
    case Take(acct, used) => Mine(acct, a, if AllowanceLeft(r.t, acct) <= used then -AllowanceLeft(r.t, acct) else -(used as int))
    case Lapse(acct) => Mine(acct, a, -AllowanceLeft(r.t, acct))
    case _ => 0
  }

  /** What the account paid for an answered request: its cost, at most what was held. */
  function Charged(r: Run, op: Op, a: Acct): int {
    match op
    case Answer(id, cost) =>
      if id in r.hands then Mine(r.hands[id].acct, a, if cost <= r.hands[id].amount then cost else r.hands[id].amount) else 0
    case _ => 0
  }

  ghost function PutInAll(r: Run, ops: seq<Op>, a: Acct): int {
    if ops == [] then 0
    else PutInAll(r, ops[..|ops| - 1], a) + PutIn(AfterAll(r, ops[..|ops| - 1]), ops[|ops| - 1], a)
  }

  function ChargedAll(r: Run, ops: seq<Op>, a: Acct): int {
    if ops == [] then 0
    else ChargedAll(r, ops[..|ops| - 1], a) + Charged(AfterAll(r, ops[..|ops| - 1]), ops[|ops| - 1], a)
  }

  predicate Inv(r: Run) {
    && Good(r.t)
    && forall id :: id in r.hands ==> r.hands[id].id == id && Open(r.t, r.hands[id])
  }

  // ---- one operation ---------------------------------------------------------------------------------

  lemma CreditKeeps(r: Run, acct: Acct, toku: nat, now: nat, a: Acct)
    requires Inv(r)
    ensures var n := After(r, Credit(acct, toku, now));
            Inv(n) && Total(n.t, a) == Total(r.t, a) + Mine(acct, a, toku)
  {
    hide Total, Calendar.AddMonths;
    var c := PrepaidLot(r.t, acct, toku, now);
    var u := Apply(r.t, c);
    ApplyOne(r.t, c);
    LotPutAdds(r.t, c.id, c.lot, a);
    LotPutStands(r.t, c.lot);
  }

  lemma LotPutStands(t: Tables, lot: Lot)
    requires Good(t) && lot.left >= 0
    ensures var u := Apply(t, LotPut(t.nextLot, lot)); Good(u) && u.holds == t.holds
  {
    var u := Apply(t, LotPut(t.nextLot, lot));
    forall i | i in u.holds ensures i < u.nextHold && HasAll(u, u.holds[i].acct, u.holds[i].parts) {
      assert HasAll(t, t.holds[i].acct, t.holds[i].parts);
    }
  }

  /** The changes a plan makes to an allowance row. */
  predicate OfThePlan(c: Change) {
    c.AllowanceSet? || c.AllowanceAdd? || c.AllowanceTake? || c.AllowanceLapse?
  }

  lemma PlanKeeps(r: Run, c: Change, a: Acct)
    requires Inv(r) && OfThePlan(c)
    ensures var u := ApplyAll(r.t, [c]);
            && Inv(Run(u, r.hands))
            && Total(u, a) - Total(r.t, a) == AllowanceLeft(u, a) - AllowanceLeft(r.t, a)
            && u == Apply(r.t, c)
  {
    hide Total, HasAll;
    var u := Apply(r.t, c);
    ApplyOne(r.t, c);
    AllowanceMoves(r.t, u, a);
    forall i | i in u.holds ensures HasAll(u, u.holds[i].acct, u.holds[i].parts) {
      MoreRowsKeep(r.t, u, u.holds[i].acct, u.holds[i].parts);
    }
  }

  lemma MoreRowsKeep(t: Tables, u: Tables, acct: Acct, parts: seq<Part>)
    requires HasAll(t, acct, parts) && t.allowance.Keys <= u.allowance.Keys && t.lots == u.lots
    ensures HasAll(u, acct, parts)
  {
  }

  lemma AskKeeps(r: Run, id: nat, acct: Acct, amount: nat, now: nat, a: Acct)
    requires Inv(r)
    ensures var n := After(r, Ask(id, acct, amount, now)); Inv(n) && Total(n.t, a) == Total(r.t, a)
  {
    hide Total, HoldParts, Greedy, Good, Took, ApplyAll, HoldWritesAs;
    if Granted(r, id, acct, amount, now) {
      HoldKeeps(r.t, id, acct, amount, now, a);
    } else {
      ApplyNone(r.t);
    }
  }

  lemma AnswerKeeps(r: Run, id: nat, cost: nat, a: Acct)
    requires Inv(r)
    ensures var n := After(r, Answer(id, cost)); Inv(n) && Total(n.t, a) == Total(r.t, a) - Charged(r, Answer(id, cost), a)
  {
    hide Total, Good, Took, ApplyAll, SettleWrites;
    if id in r.hands {
      SettleCharges(r.t, r.hands[id], cost, a);
    } else {
      ApplyNone(r.t);
    }
  }

  lemma StepBalances(r: Run, op: Op, a: Acct)
    requires Inv(r)
    ensures Inv(After(r, op))
    ensures Total(After(r, op).t, a) == Total(r.t, a) + PutIn(r, op, a) - Charged(r, op, a)
  {
    hide Total, Inv, ApplyAll, ReleaseWrites;
    match op
    case Credit(acct, toku, now) => CreditKeeps(r, acct, toku, now, a);
    case Ask(id, acct, amount, now) => AskKeeps(r, id, acct, amount, now, a);
    case Answer(id, cost) => AnswerKeeps(r, id, cost, a);
    case Restart => RestartKeeps(r, a);
    case _ => PlanKeeps(r, Writes(r, op)[0], a);
  }

  lemma RestartKeeps(r: Run, a: Acct)
    requires Inv(r)
    ensures var n := After(r, Restart); Inv(n) && Total(n.t, a) == Total(r.t, a) && n.t.holds == map[]
  {
    hide Total, ReleaseWrites, ApplyAll, Good, Ascending;
    ReleaseKeeps(r.t, a);
  }

  /** In every run, over any number of accounts: what an account has, in pockets and in holds, is
      what was put in less what its answered requests cost, and no pocket is below zero. */
  lemma {:induction false} BooksBalance(r: Run, ops: seq<Op>, a: Acct)
    requires Inv(r)
    ensures Inv(AfterAll(r, ops))
    ensures Total(AfterAll(r, ops).t, a) == Total(r.t, a) + PutInAll(r, ops, a) - ChargedAll(r, ops, a)
  {
    hide Total, Inv, After, PutIn, Charged;
    if ops != [] {
      var n := |ops| - 1;
      BooksBalance(r, ops[..n], a);
      StepBalances(AfterAll(r, ops[..n]), ops[n], a);
    }
  }

  lemma NothingYet(a: Acct)
    ensures Inv(Fresh) && Total(NoTables, a) == 0
  {
    assert LotsOf(NoTables, a) == map[] && HeldFor(NoTables, a) == map[];
  }

  /** From an empty ledger: every unit is where it was put, or paid for an answer. */
  lemma EveryUnitIsAccountedFor(ops: seq<Op>, a: Acct)
    ensures Total(AfterAll(Fresh, ops).t, a) == PutInAll(Fresh, ops, a) - ChargedAll(Fresh, ops, a)
    ensures InTheBlack(AfterAll(Fresh, ops).t)
  {
    hide Total, AfterAll, PutInAll, ChargedAll;
    NothingYet(a);
    BooksBalance(Fresh, ops, a);
  }
}
