/** Whole runs in which any operation may be torn by a crash: what every account has, to the unit. */
module Crashes {
  import opened Names
  import opened Ledger
  import opened LedgerSafety
  import opened LedgerRuns
  import opened Holds
  import opened TornStart
  import Calendar

  /** An operation, or its first `j` records and the end of the process; the requests that were being
      worked on end with it. */
  datatype Step = Whole(op: Op) | Torn(op: Op, j: nat)

  function Records(r: Run, s: Step): seq<Change> {
    var w := Writes(r, s.op);
    if s.Torn? && s.j < |w| then w[..s.j] else w
  }

  function Stepped(r: Run, s: Step): Run {
    Run(ApplyAll(r.t, Records(r, s)), if s.Torn? then map[] else Hands(r, s.op))
  }

  function SteppedAll(r: Run, steps: seq<Step>): Run {
    if steps == [] then r else Stepped(SteppedAll(r, steps[..|steps| - 1]), steps[|steps| - 1])
  }

  /** A step that stops before the last record of its operation. */
  predicate Tears(r: Run, s: Step) {
    s.Torn? && s.j < |Writes(r, s.op)|
  }

  function FirstOfThem(parts: seq<Part>, j: nat): seq<Part> {
    if j <= |parts| then parts[..j] else parts
  }

  /** What a tear makes of the account: a torn hold loses what its takes took, a torn settlement and a
      torn release pay out what their give-backs gave; anything else is one record. */
  function TornBy(r: Run, s: Step, a: Acct): int {
    if !Tears(r, s) then 0
    else
      match s.op
      case Ask(id, acct, amount, now) =>
        Mine(acct, a, -(Took(FirstOfThem(HoldParts(r.t, acct, amount, now), s.j)) as int))
      case Answer(id, cost) =>
        if id in r.hands then Mine(r.hands[id].acct, a, Took(FirstOfThem(Refunds(r.hands[id], cost), s.j))) else 0
      case Restart =>
        var ids := Ascending(r.t.holds.Keys);
        Mine(SpilledTo(r.t.holds, ids, s.j), a, Took(Spilled(r.t.holds, ids, s.j)))
      case _ => 0
  }

  /** What a step puts in, less what it charges, and what its tear makes of the account. */
  ghost function Moved(r: Run, s: Step, a: Acct): int {
    if Tears(r, s) then TornBy(r, s, a) else PutIn(r, s.op, a) - Charged(r, s.op, a)
  }

  ghost function MovedAll(r: Run, steps: seq<Step>, a: Acct): int {
    if steps == [] then 0
    else
      var n := |steps| - 1;
      MovedAll(r, steps[..n], a) + Moved(SteppedAll(r, steps[..n]), steps[n], a)
  }

  predicate Sound(r: Run) {
    Inv(r) && Filled(r.t)
  }

  // ---- one step ------------------------------------------------------------------------------------------

  /** Every part of every open hold took something, whatever the operation. */
  lemma FilledStays(r: Run, op: Op)
    requires Sound(r)
    ensures Filled(After(r, op).t)
  {
    hide Good, ApplyAll, Filled, HoldWritesAs, SettleWrites, ReleaseWrites, Ascending, HasAll, Total;
    match op
    case Ask(id, acct, amount, now) =>
      if Granted(r, id, acct, amount, now) { HoldIsFilled(r.t, id, acct, amount, now, ""); } else { ApplyNone(r.t); }
    case Answer(id, cost) =>
      if id in r.hands {
        SettleCharges(r.t, r.hands[id], cost, "");
        FewerFilled(r.t, After(r, op).t, {id});
      } else {
        ApplyNone(r.t);
      }
    case Restart =>
      ReleaseKeeps(r.t, "");
      FewerFilled(r.t, After(r, op).t, r.t.holds.Keys);
    case _ => OneRecord(r, op);
  }

  lemma OneRecord(r: Run, op: Op)
    requires Filled(r.t) && !op.Ask? && !op.Answer? && !op.Restart?
    ensures |Writes(r, op)| == 1 && Filled(After(r, op).t)
  {
    hide Filled, Apply, Calendar.AddMonths;
    var c := Writes(r, op)[0];
    ApplyOne(r.t, c);
    HoldsUntouched(r.t, c);
    FewerFilled(r.t, Apply(r.t, c), {});
  }

  lemma HoldsUntouched(t: Tables, c: Change)
    requires !c.HoldPut? && !c.HoldDelete?
    ensures Apply(t, c).holds == t.holds == t.holds - {}
  {
  }

  lemma TornAsk(r: Run, s: Step, a: Acct)
    requires Sound(r) && Tears(r, s) && s.op.Ask?
    ensures Sound(Stepped(r, s)) && Total(Stepped(r, s).t, a) == Total(r.t, a) + TornBy(r, s, a)
  {
    hide Good, ApplyAll, Filled, HoldWritesAs, HoldParts, Total, Took;
    TornHold(r.t, s.op.id, s.op.acct, s.op.amount, s.op.now, s.j, a);
    FewerFilled(r.t, Stepped(r, s).t, {});
  }

  lemma TornAnswer(r: Run, s: Step, a: Acct)
    requires Sound(r) && Tears(r, s) && s.op.Answer?
    ensures Sound(Stepped(r, s)) && Total(Stepped(r, s).t, a) == Total(r.t, a) + TornBy(r, s, a)
  {
    hide Good, ApplyAll, SettleWrites, Refunds, Total, Took;
    TornSettle(r.t, r.hands[s.op.id], s.op.cost, s.j, a);
    FewerFilled(r.t, Stepped(r, s).t, {});
  }

  lemma TornRestart(r: Run, s: Step, a: Acct)
    requires Sound(r) && Tears(r, s) && s.op.Restart?
    ensures Sound(Stepped(r, s)) && Total(Stepped(r, s).t, a) == Total(r.t, a) + TornBy(r, s, a)
  {
    hide Good, ApplyAll, Filled, ReleaseWrites, Ascending, Total, Took, Spilled, SpilledTo, Cut;
    TornRelease(r.t, s.j, a);
  }

  lemma NothingWritten(r: Run, s: Step, a: Acct)
    requires Sound(r) && Tears(r, s) && !s.op.Ask? && !s.op.Answer? && !s.op.Restart?
    ensures Sound(Stepped(r, s)) && Total(Stepped(r, s).t, a) == Total(r.t, a) + TornBy(r, s, a)
  {
    hide Good, ApplyAll, Filled, Total, Calendar.AddMonths;
    OneRecord(r, s.op);
    assert Records(r, s) == [];
    ApplyNone(r.t);
  }

  lemma StepMoves(r: Run, s: Step, a: Acct)
    requires Sound(r)
    ensures Sound(Stepped(r, s))
    ensures Total(Stepped(r, s).t, a) == Total(r.t, a) + Moved(r, s, a)
  {
    hide Good, ApplyAll, Filled, Writes, Hands, Total, TornBy, PutIn, Charged;
    if Tears(r, s) {
      match s.op
      case Ask(_, _, _, _) => TornAsk(r, s, a);
      case Answer(_, _) => TornAnswer(r, s, a);
      case Restart => TornRestart(r, s, a);
      case _ => NothingWritten(r, s, a);
    } else {
      StepBalances(r, s.op, a);
      FilledStays(r, s.op);
    }
  }

  /** A tear does no account any harm or good exactly when it comes before the first record, or, in a
      release, between two rows. */
  lemma HarmlessExactly(r: Run, s: Step)
    requires Sound(r) && Tears(r, s)
    ensures (forall a :: TornBy(r, s, a) == 0) <==> if s.op.Restart? then BetweenRows(r.t, s.j) else s.j == 0
  {
    hide Good, ApplyAll, HoldWritesAs, SettleWrites, ReleaseWrites, Total, Took, HoldParts, Refunds, BetweenRows, Spilled, SpilledTo;
    match s.op
    case Ask(id, acct, amount, now) =>
      TornHold(r.t, id, acct, amount, now, s.j, acct);
      assert TornBy(r, s, acct) == 0 <==> s.j == 0;
    case Answer(id, cost) =>
      TornSettle(r.t, r.hands[id], cost, s.j, r.hands[id].acct);
      assert TornBy(r, s, r.hands[id].acct) == 0 <==> s.j == 0;
    case Restart =>
      SpillCounts(r.t, s.j);
      var ids := Ascending(r.t.holds.Keys);
      assert TornBy(r, s, SpilledTo(r.t.holds, ids, s.j)) == Took(Spilled(r.t.holds, ids, s.j));
    case _ => OneRecord(r, s.op);
  }

  // ---- whole runs ----------------------------------------------------------------------------------------

  /** Over every run with any number of crashes, before, between and inside operations, and every
      account: it has what was put in, less what its answers cost, and to the unit what the tears took
      from it or paid out to it; and no pocket is below zero. */
  lemma {:induction false} CrashesBalance(r: Run, steps: seq<Step>, a: Acct)
    requires Sound(r)
    ensures Sound(SteppedAll(r, steps))
    ensures Total(SteppedAll(r, steps).t, a) == Total(r.t, a) + MovedAll(r, steps, a)
  {
    hide Sound, Stepped, Moved, Total;
    if steps != [] {
      var n := |steps| - 1;
      CrashesBalance(r, steps[..n], a);
      StepMoves(SteppedAll(r, steps[..n]), steps[n], a);
    }
  }

  lemma FreshIsSound(a: Acct)
    ensures Sound(Fresh) && Total(NoTables, a) == 0
  {
    NothingYet(a);
  }

  // ---- what a crash leaves of a run ----------------------------------------------------------------------

  function RecordsAll(r: Run, steps: seq<Step>): seq<Change> {
    if steps == [] then []
    else
      var n := |steps| - 1;
      RecordsAll(r, steps[..n]) + Records(SteppedAll(r, steps[..n]), steps[n])
  }

  /** The steps of a run as far as its first `m` records go. */
  function CutTo(r: Run, steps: seq<Step>, m: nat): seq<Step> {
    if steps == [] then []
    else
      var n := |steps| - 1;
      var before := |RecordsAll(r, steps[..n])|;
      if m <= before then CutTo(r, steps[..n], m) else steps[..n] + [Torn(steps[n].op, m - before)]
  }

  lemma TornRecords(r: Run, s: Step, k: nat)
    requires k <= |Records(r, s)|
    ensures Records(r, Torn(s.op, k)) == Records(r, s)[..k]
  {
    hide Writes;
  }

  /** Whatever prefix of a run's records is left, it is what a run writes that was torn there. */
  lemma {:induction false} CutIsPrefix(r: Run, steps: seq<Step>, m: nat)
    requires m <= |RecordsAll(r, steps)|
    ensures RecordsAll(r, CutTo(r, steps, m)) == RecordsAll(r, steps)[..m]
  {
    hide Stepped, Records;
    if steps != [] {
      var n := |steps| - 1;
      var before := RecordsAll(r, steps[..n]);
      if m <= |before| {
        CutIsPrefix(r, steps[..n], m);
      } else {
        TornRecords(SteppedAll(r, steps[..n]), steps[n], m - |before|);
        assert (steps[..n] + [Torn(steps[n].op, m - |before|)])[..n] == steps[..n];
      }
    }
  }

  lemma {:induction false} RecordsMakeTheRun(r: Run, steps: seq<Step>)
    ensures ApplyAll(r.t, RecordsAll(r, steps)) == SteppedAll(r, steps).t
  {
    hide Records, Hands;
    if steps == [] {
      ApplyNone(r.t);
    } else {
      var n := |steps| - 1;
      RecordsMakeTheRun(r, steps[..n]);
      ApplyInTwo(r.t, RecordsAll(r, steps[..n]), Records(SteppedAll(r, steps[..n]), steps[n]));
    }
  }
}
