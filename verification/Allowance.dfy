/** A subscriber's month as coins are drawn from it and handed back: what may become credit that
    never expires. */
module Allowance {
  import opened Wrappers
  import opened Naturals
  import Slices

  const U64 := 0x1_0000_0000_0000_0000

  function SatAdd(a: nat, b: nat): nat {
    if a + b < U64 then a + b else U64 - 1
  }

  datatype Month = Month(period: nat, ends: nat, granted: nat, left: nat, outstanding: nat)

  const NO_MONTH := Month(0, 0, 0, 0, 0)

  function Reset(m: Month, start: nat, ends: nat, granted: nat): Month {
    Month(Slices.PeriodKey(start), ends, granted, granted, m.outstanding)
  }

  function Upgraded(m: Month, extra: nat): Month {
    m.(granted := SatAdd(m.granted, extra), left := SatAdd(m.left, extra))
  }

  function Lapsed(m: Month): Month {
    m.(granted := 0, left := 0)
  }

  /** What a draw of `want` takes from the allowance; the rest is entitlement. */
  function FromAllowance(m: Month, want: nat): nat {
    Min(want, m.left)
  }

  function Spent(m: Month, want: nat): Month {
    m.(left := m.left - FromAllowance(m, want), outstanding := SatAdd(m.outstanding, FromAllowance(m, want)))
  }

  function Room(m: Month): nat {
    Monus(m.granted, m.left)
  }

  function Restored(m: Month, value: nat): nat {
    Min(Min(value, m.outstanding), Room(m))
  }

  /** What a return of `value` becomes entitlement. */
  function Credited(m: Month, value: nat): nat {
    value - Min(value, m.outstanding)
  }

  function GivenBack(m: Month, value: nat): Month {
    m.(left := m.left + Restored(m, value), outstanding := m.outstanding - Min(value, m.outstanding))
  }

  class Pocket {
    var period: nat
    var ends: nat
    var granted: nat
    var left: nat
    var outstanding: nat

    constructor ()
      ensures State() == NO_MONTH
    {
      period, ends, granted, left, outstanding := 0, 0, 0, 0, 0;
    }

    function State(): Month
      reads this
    {
      Month(period, ends, granted, left, outstanding)
    }

    /** A new period begins: set, never added to. */
    method ResetTo(start: nat, end: nat, toku: nat)
      modifies this
      ensures State() == Reset(old(State()), start, end, toku)
    {
      period, ends := Slices.PeriodKey(start), end;
      granted := toku;
      left := toku;
    }

    method AddUpgrade(extra: nat)
      modifies this
      ensures State() == Upgraded(old(State()), extra)
    {
      granted := SatAdd(granted, extra);
      left := SatAdd(left, extra);
    }

    method Lapse()
      modifies this
      ensures State() == Lapsed(old(State()))
    {
      granted := 0;
      left := 0;
    }

    /** The allowance goes first, because it dies with its period. */
    method Spend(want: nat) returns (fromAllowance: nat, rest: nat)
      modifies this
      ensures State() == Spent(old(State()), want)
      ensures fromAllowance == FromAllowance(old(State()), want) && fromAllowance + rest == want
    {
      fromAllowance := Min(want, left);
      left := left - fromAllowance;
      outstanding := SatAdd(outstanding, fromAllowance);
      rest := want - fromAllowance;
    }

    /** Coins come back: to the allowance they came from, as far as there is room; what is over
        becomes entitlement only if it was never allowance. */
    method GiveBack(value: nat) returns (restored: nat, credited: nat)
      modifies this
      ensures State() == GivenBack(old(State()), value)
      ensures restored == Restored(old(State()), value) && credited == Credited(old(State()), value)
    {
      var fromAllowance := Min(value, outstanding);
      outstanding := outstanding - fromAllowance;
      var room := Monus(granted, left);
      restored := Min(fromAllowance, room);
      left := left + restored;
      credited := value - fromAllowance;
    }
  }

  // ---- whole runs ------------------------------------------------------------------------------

  datatype Event =
    | Begin(start: nat, ends: nat, toku: nat)
    | Upgrade(extra: nat)
    | End
    | Draw(want: nat)
    | Return(value: nat)

  function Next(m: Month, e: Event): Month {
    match e
    case Begin(start, ends, toku) => Reset(m, start, ends, toku)
    case Upgrade(extra) => Upgraded(m, extra)
    case End => Lapsed(m)
    case Draw(want) => Spent(m, want)
    case Return(value) => GivenBack(m, value)
  }

  function After(m: Month, es: seq<Event>): Month {
    if es == [] then m else Next(After(m, es[..|es| - 1]), es[|es| - 1])
  }

  /** Drawn onto devices in all, and handed back in all. */
  function Drawn(es: seq<Event>): nat {
    if es == [] then 0 else Drawn(es[..|es| - 1]) + if es[|es| - 1].Draw? then es[|es| - 1].want else 0
  }

  function Returned(es: seq<Event>): nat {
    if es == [] then 0 else Returned(es[..|es| - 1]) + if es[|es| - 1].Return? then es[|es| - 1].value else 0
  }

  /** Drawn from entitlement in all, and credited to it by returns in all. */
  function FromEntitlement(es: seq<Event>): nat {
    if es == [] then 0
    else
      var n := |es| - 1;
      FromEntitlement(es[..n]) + if es[n].Draw? then es[n].want - FromAllowance(After(NO_MONTH, es[..n]), es[n].want) else 0
  }

  function ToEntitlement(es: seq<Event>): nat {
    if es == [] then 0
    else
      var n := |es| - 1;
      ToEntitlement(es[..n]) + if es[n].Return? then Credited(After(NO_MONTH, es[..n]), es[n].value) else 0
  }

  /** The device never returns more than it holds, and what is outstanding stays within 64 bits. */
  predicate Honest(es: seq<Event>) {
    es != [] ==>
      var n := |es| - 1;
      && Honest(es[..n])
      && (es[n].Return? ==> es[n].value + Returned(es[..n]) <= Drawn(es[..n]))
      && (es[n].Draw? ==> var m := After(NO_MONTH, es[..n]); m.outstanding + FromAllowance(m, es[n].want) < U64)
  }

  /** Never more left than was granted, and what was granted is left or still out on devices. */
  lemma {:induction false} LeftWithinGranted(es: seq<Event>)
    ensures After(NO_MONTH, es).left <= After(NO_MONTH, es).granted
    ensures Honest(es) ==> After(NO_MONTH, es).granted <= After(NO_MONTH, es).left + After(NO_MONTH, es).outstanding
  {
    if es != [] {
      LeftWithinGranted(es[..|es| - 1]);
    }
  }

  /** What is out on the devices is outstanding allowance and entitlement drawn but not credited:
      so no sequence of draws, returns and new periods turns an allowance into credit. */
  lemma {:induction false} NoAllowanceBecomesCredit(es: seq<Event>)
    requires Honest(es)
    ensures ToEntitlement(es) <= FromEntitlement(es)
    ensures Drawn(es) - Returned(es) == After(NO_MONTH, es).outstanding + FromEntitlement(es) - ToEntitlement(es)
  {
    if es != [] {
      NoAllowanceBecomesCredit(es[..|es| - 1]);
    }
  }

  /** The 64 bits matter: with as much outstanding as they hold, one more coin drawn from the
      allowance comes back as credit, though nothing was ever drawn from entitlement. */
  lemma SaturatedAllowanceBecomesCredit()
    ensures exists es :: Drawn(es) == Returned(es) && FromEntitlement(es) == 0 && ToEntitlement(es) == 1
  {
    var all := U64 - 1;
    var b1, d1 := Begin(1000, 2000, all), Draw(all);
    var b2, d2 := Begin(3000, 4000, 1), Draw(1);
    var back := Return(U64);
    var m1 := Month(1, 2000, all, 0, all);
    var m2 := Month(3, 4000, 1, 0, all);
    StepOn([], b1);
    StepOn([b1], d1);
    assert After(NO_MONTH, [b1] + [d1]) == m1;
    StepOn([b1] + [d1], b2);
    StepOn([b1] + [d1] + [b2], d2);
    assert After(NO_MONTH, [b1] + [d1] + [b2] + [d2]) == m2;
    StepOn([b1] + [d1] + [b2] + [d2], back);
  }

  /** Handing everything back after one more draw credits no more than entitlement gave exactly when
      that draw left what is outstanding within 64 bits. */
  lemma CreditNeedsRoomToCount(es: seq<Event>, want: nat)
    requires Honest(es)
    ensures Drawn(es + [Draw(want)]) >= Returned(es + [Draw(want)])
    ensures var run := es + [Draw(want)];
            var all := run + [Return(Drawn(run) - Returned(run))];
            ToEntitlement(all) <= FromEntitlement(all)
            <==> After(NO_MONTH, es).outstanding + FromAllowance(After(NO_MONTH, es), want) < U64
  {
    hide Honest, After, Drawn, Returned, ToEntitlement, FromEntitlement;
    NoAllowanceBecomesCredit(es);
    StepOn(es, Draw(want));
    var run := es + [Draw(want)];
    StepOn(run, Return(Drawn(run) - Returned(run)));
  }

  lemma StepOn(es: seq<Event>, e: Event)
    ensures After(NO_MONTH, es + [e]) == Next(After(NO_MONTH, es), e)
    ensures Drawn(es + [e]) == Drawn(es) + if e.Draw? then e.want else 0
    ensures Returned(es + [e]) == Returned(es) + if e.Return? then e.value else 0
    ensures FromEntitlement(es + [e])
            == FromEntitlement(es) + if e.Draw? then e.want - FromAllowance(After(NO_MONTH, es), e.want) else 0
    ensures ToEntitlement(es + [e]) == ToEntitlement(es) + if e.Return? then Credited(After(NO_MONTH, es), e.value) else 0
  {
    assert (es + [e])[..|es|] == es;
  }

  /** Coins of an old period: after a new one has begun, or the last has lapsed, whatever comes back
      goes back to no allowance, and becomes credit only beyond all that was ever allowance. */
  lemma {:induction false} OldCoinsComeToNothing(es: seq<Event>, e: Event, backs: seq<Event>)
    requires e.Begin? || e.End?
    requires forall i :: 0 <= i < |backs| ==> backs[i].Return?
    ensures var (was, m) := (After(NO_MONTH, es), After(NO_MONTH, es + [e] + backs));
            && m.left == m.granted == (if e.Begin? then e.toku else 0)
            && m.outstanding == Monus(was.outstanding, Returned(backs))
            && ToEntitlement(es + [e] + backs) == ToEntitlement(es) + Monus(Returned(backs), was.outstanding)
    decreases |backs|
  {
    if backs == [] {
      StepOn(es, e);
      assert es + [e] + backs == es + [e];
    } else {
      var n := |backs| - 1;
      OldCoinsComeToNothing(es, e, backs[..n]);
      StepOn(es + [e] + backs[..n], backs[n]);
      assert es + [e] + backs[..n] + [backs[n]] == es + [e] + backs;
    }
  }

  /** An upgrade leaves the room for returns as it is exactly when the grant still fits 64 bits, or
      there was no room. */
  lemma UpgradeKeepsRoom(m: Month, extra: nat)
    requires m.left <= m.granted < U64
    ensures Room(Upgraded(m, extra)) == Room(m) <==> m.granted + extra < U64 || m.left == m.granted
  {
  }

  /** A device change that draws and hands back the same amount leaves everything as it was, and
      credits what came from entitlement, exactly when nothing else is outstanding or the allowance
      covered the draw. */
  lemma DrawAndReturn(m: Month, want: nat)
    requires m.left <= m.granted && m.outstanding + FromAllowance(m, want) < U64
    ensures GivenBack(Spent(m, want), want) == m && Credited(Spent(m, want), want) == want - FromAllowance(m, want)
            <==> m.outstanding == 0 || want <= m.left
  {
  }

  // ---- what each event leaves ----------------------------------------------------------------------------

  /** The last period begun in a run. */
  function LastBegun(es: seq<Event>): Option<Event> {
    if es == [] then None
    else if es[|es| - 1].Begin? then Some(es[|es| - 1])
    else LastBegun(es[..|es| - 1])
  }

  /** Over every run the month is the last period begun: named by its first second, as far as 32 bits
      hold it, and ending when that ends. */
  lemma {:induction false} MonthIsTheLastBegun(es: seq<Event>)
    ensures var (m, last) := (After(NO_MONTH, es), LastBegun(es));
            if last.None? then m.period == 0 && m.ends == 0
            else last.value.Begin? && m.ends == last.value.ends && m.period == Min(last.value.start / 1000, 0xFFFF_FFFF)
  {
    if es != [] { MonthIsTheLastBegun(es[..|es| - 1]); }
  }

  /** What can be drawn and what was granted, after each event: a new period's allowance; an upgrade on
      top of both, as far as 64 bits hold it; nothing after a lapse; less what is drawn, and no less than
      nothing; more by what comes back, and no more than was granted. */
  lemma LeftAfter(m: Month, e: Event)
    requires m.left <= m.granted < U64
    ensures var n := Next(m, e);
            match e
            case Begin(_, _, toku) => n.granted == n.left == toku && n.outstanding == m.outstanding
            case Upgrade(extra) => n.granted == Min(m.granted + extra, U64 - 1) && n.left == Min(m.left + extra, U64 - 1)
            case End => n.granted == n.left == 0 && n.outstanding == m.outstanding
            case Draw(want) => n.granted == m.granted && n.left == Monus(m.left, want)
            case Return(value) => n.granted == m.granted && m.left <= n.left <= m.granted
                                  && (n.left == m.granted || n.left - m.left == m.outstanding - n.outstanding)
  {
  }
}
