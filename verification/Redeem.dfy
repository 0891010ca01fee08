/** Notes handed in for an allowance: each is spent once, and when it opens a period. */
module Redeem {
  import opened Wrappers
  import opened Names
  import opened Slices
  import opened Plans
  import PlanBook
  import opened Bytes
  import BlindNotes
  import Calendar

  const GRACE_MS := 7 * Calendar.DAY_MS

  /** A note, its signature already checked. */
  type Note = BlindNotes.Note

  /** What a spent note is remembered by. */
  type NoteName = (nat, seq<byte>)

  function NoteRail(key: Acct): string {
    "note:" + key
  }

  function PaidUntil(n: Note): nat {
    EpochEnd(n.epoch) + GRACE_MS
  }

  /** The note's month, from now, as a plan on the account. */
  function Credit(b: Book, key: Acct, n: Note, now: nat): Result<(Book, bool), string> {
    Renew(b, key, n.tier, false, NoteRail(key), now, now, PaidUntil(n))
  }

  datatype Till = Till(book: Book, spent: set<NoteName>)

  datatype Answer = Redeemed(granted: nat, again: nat) | Failed(error: string)

  function Name(n: Note): NoteName {
    (n.epoch, n.nonce)
  }

  /** The notes of one request, in order; the first refusal ends it, with what came before it kept. */
  function RedeemFrom(t: Till, key: Acct, notes: seq<Note>, now: nat, granted: nat, again: nat): (Till, Answer)
    decreases |notes|
  {
    if notes == [] then (t, Redeemed(granted, again))
    else
      var n := notes[0];
      if Name(n) in t.spent then RedeemFrom(t, key, notes[1..], now, granted, again + 1)
      else
        match Credit(t.book, key, n, now)
        case Err(e) => (t.(spent := t.spent + {Name(n)}), Failed(e))
        case Ok((b, _)) => RedeemFrom(Till(b, t.spent + {Name(n)}), key, notes[1..], now, granted + 1, again)
  }

  /** The notes that a request credits. */
  function CreditedBy(t: Till, key: Acct, notes: seq<Note>, now: nat): seq<NoteName>
    decreases |notes|
  {
    if notes == [] then []
    else
      var n := notes[0];
      if Name(n) in t.spent then CreditedBy(t, key, notes[1..], now)
      else
        match Credit(t.book, key, n, now)
        case Err(_) => []
        case Ok((b, _)) => [Name(n)] + CreditedBy(Till(b, t.spent + {Name(n)}), key, notes[1..], now)
  }

  class Counter {
    var spent: set<NoteName>

    constructor ()
      ensures spent == {}
    {
      spent := {};
    }

    method RedeemNotes(rows: PlanBook.Rows, key: Acct, notes: seq<Note>, now: nat) returns (a: Answer)
      modifies this, rows
      ensures (Till(rows.State(), spent), a) == RedeemFrom(Till(old(rows.State()), old(spent)), key, notes, now, 0, 0)
    {
      hide Renew, PaidUntil;
      var granted, again := 0, 0;
      ghost var start := Till(rows.State(), spent);
      var i := 0;
      assert notes[0..] == notes;
      while i < |notes|
        invariant 0 <= i <= |notes|
        invariant RedeemFrom(Till(rows.State(), spent), key, notes[i..], now, granted, again)
               == RedeemFrom(start, key, notes, now, 0, 0)
      {
        var n := notes[i];
        assert notes[i..][0] == n && notes[i..][1..] == notes[i + 1..];
        i := i + 1;
        if Name(n) in spent {
          again := again + 1;
          continue;
        }
        spent := spent + {Name(n)};
        var r := rows.SubscribeOrRenew(key, n.tier, false, NoteRail(key), now, now, PaidUntil(n));
        if r.Err? {
          return Failed(r.error);
        }
        granted := granted + 1;
      }
      a := Redeemed(granted, again);
    }
  }

  // ---- spent once ------------------------------------------------------------------------------------

  datatype Request = Request(key: Acct, notes: seq<Note>, now: nat)

  function TillAfter(t: Till, rs: seq<Request>): Till {
    if rs == [] then t
    else
      var r := rs[|rs| - 1];
      RedeemFrom(TillAfter(t, rs[..|rs| - 1]), r.key, r.notes, r.now, 0, 0).0
  }

  /** Everything that was credited over a run, in order. */
  function CreditedOver(t: Till, rs: seq<Request>): seq<NoteName> {
    if rs == [] then []
    else
      var n, r := |rs| - 1, rs[|rs| - 1];
      CreditedOver(t, rs[..n]) + CreditedBy(TillAfter(t, rs[..n]), r.key, r.notes, r.now)
  }

  predicate NoRepeats(names: seq<NoteName>) {
    forall i, j :: 0 <= i < j < |names| ==> names[i] != names[j]
  }

  lemma {:induction false} OneRequest(t: Till, key: Acct, notes: seq<Note>, now: nat, granted: nat, again: nat)
    ensures var names, u := CreditedBy(t, key, notes, now), RedeemFrom(t, key, notes, now, granted, again);
            && NoRepeats(names) && t.spent <= u.0.spent
            && (forall n :: n in names ==> n !in t.spent && n in u.0.spent)
            && (u.1.Redeemed? ==> u.1.granted == granted + |names| && u.1.granted + u.1.again == granted + again + |notes|)
            && (u.1.Redeemed? ==> u.0.spent == t.spent + set n | n in notes :: Name(n))
    decreases |notes|
  {
    hide Credit;
    if notes != [] {
      var n := notes[0];
      if Name(n) in t.spent {
        OneRequest(t, key, notes[1..], now, granted, again + 1);
      } else if Credit(t.book, key, n, now).Ok? {
        OneRequest(Till(Credit(t.book, key, n, now).value.0, t.spent + {Name(n)}), key, notes[1..], now, granted + 1, again);
      }
    }
  }

  /** However often and by whomever a note is handed in, it is credited at most once. */
  lemma {:induction false} EachNoteOnce(t: Till, rs: seq<Request>)
    ensures NoRepeats(CreditedOver(t, rs))
    ensures forall n :: n in CreditedOver(t, rs) ==> n in TillAfter(t, rs).spent
  {
    hide RedeemFrom, CreditedBy, NoRepeats;
    if rs == [] {
      NoneRepeat();
    } else {
      var k, r := |rs| - 1, rs[|rs| - 1];
      EachNoteOnce(t, rs[..k]);
      OneRequest(TillAfter(t, rs[..k]), r.key, r.notes, r.now, 0, 0);
      Joined(CreditedOver(t, rs[..k]), CreditedBy(TillAfter(t, rs[..k]), r.key, r.notes, r.now));
    }
  }

  /** The same note: the same month and the same nonce. */
  predicate SameNote(n: Note, m: Note) {
    n.epoch == m.epoch && n.nonce == m.nonce
  }

  lemma {:induction false} SpentByRequest(t: Till, key: Acct, notes: seq<Note>, now: nat, granted: nat, again: nat, n: Note)
    requires Name(n) in RedeemFrom(t, key, notes, now, granted, again).0.spent && Name(n) !in t.spent
    ensures exists i :: 0 <= i < |notes| && SameNote(notes[i], n)
    decreases |notes|
  {
    hide Credit;
    if notes != [] && !SameNote(notes[0], n) {
      var rest := notes[1..];
      if Name(notes[0]) in t.spent {
        SpentByRequest(t, key, rest, now, granted, again + 1, n);
      } else {
        var r := Credit(t.book, key, notes[0], now);
        assert r.Ok?;
        SpentByRequest(Till(r.value.0, t.spent + {Name(notes[0])}), key, rest, now, granted + 1, again, n);
      }
      var i :| 0 <= i < |rest| && SameNote(rest[i], n);
      assert notes[i + 1] == rest[i];
    }
  }

  /** Over every run a note that counts as spent was handed in, by somebody, with this month and this
      nonce: no other note uses it up. */
  lemma {:induction false} SpentWasHandedIn(t: Till, rs: seq<Request>, n: Note)
    requires Name(n) in TillAfter(t, rs).spent && Name(n) !in t.spent
    ensures exists r, i :: r in rs && 0 <= i < |r.notes| && SameNote(r.notes[i], n)
  {
    hide RedeemFrom, Name, SameNote;
    var k, r := |rs| - 1, rs[|rs| - 1];
    if Name(n) in TillAfter(t, rs[..k]).spent {
      SpentWasHandedIn(t, rs[..k], n);
    } else {
      SpentByRequest(TillAfter(t, rs[..k]), r.key, r.notes, r.now, 0, 0, n);
    }
  }

  lemma NoneRepeat()
    ensures NoRepeats([])
  {
  }

  lemma Joined(x: seq<NoteName>, y: seq<NoteName>)
    requires NoRepeats(x) && NoRepeats(y) && forall n :: n in y ==> n !in x
    ensures NoRepeats(x + y)
  {
    forall i, j | 0 <= i < j < |x + y| ensures (x + y)[i] != (x + y)[j] {
      if i < |x| <= j {
        assert x[i] in x && y[j - |x|] in y;
      }
    }
  }

  // ---- what a note opens -----------------------------------------------------------------------------

  /** The account already pays another plan directly. */
  predicate PaysAnother(b: Book, key: Acct, now: nat) {
    key in b.plans && b.plans[key].rail != "" && b.plans[key].rail != NoteRail(key) && PaidAt(b.plans[key], now)
  }

  lemma NoteRailIsNote(key: Acct)
    ensures IsNote(NoteRail(key))
  {
    assert NoteRail(key)[..5] == "note:";
  }

  const WEEK_MS := 604_800_000

  /** A moment at which a note of that month still pays: in the month or before it, or within seven days
      of its end. */
  predicate StillPays(epoch: nat, t: nat) {
    t < WEEK_MS || RawEpoch(t - WEEK_MS) <= epoch
  }

  /** Where the paid time ends, by the calendar. */
  lemma PaidUntilIs(n: Note, t: nat)
    ensures t < PaidUntil(n) <==> StillPays(n.epoch, t)
  {
    hide RawEpoch, EpochStart;
    if t >= WEEK_MS {
      BegunByEpoch(t - WEEK_MS, n.epoch + 1);
    }
  }

  /** Every moment of the note's own month is paid. */
  lemma ItsMonthIsPaid(n: Note, t: nat)
    requires EpochOfMs(t) == n.epoch < U16_MAX
    ensures StillPays(n.epoch, t)
  {
    hide RawEpoch, EpochStart;
    EpochBounds(t, n.epoch);
    PaidUntilIs(n, t);
  }

  /** A fresh note handed in while it still pays, on an account that pays nothing else and whose row
      names an earlier period, leaves the plan of the note's tier, paid until a week after the note's
      month, with that tier's allowance for a period that begins now and ends with it. */
  lemma ANotePaysItsMonth(t: Till, key: Acct, n: Note, now: nat, at: nat)
    requires now > 0 && Name(n) !in t.spent && (NoteRail(key) in t.book.rails ==> t.book.rails[NoteRail(key)] == key)
    requires !PaysAnother(t.book, key, now) && StillPays(n.epoch, now) && PeriodKey(now) > Current(At(t.book, key).row)
    ensures var (u, a) := RedeemFrom(t, key, [n], now, 0, 0);
            var after := At(u.book, key);
            && a == Redeemed(1, 0) && after.plan.Some? && after.row.Some?
            && after.plan.value.tier == Step(n.tier) && after.plan.value.rail == "note:" + key && !after.plan.value.yearly
            && (PaidAt(after.plan.value, at) <==> StillPays(n.epoch, at))
            && (at < after.row.value.ends <==> StillPays(n.epoch, at))
            && after.row.value.period == now / 1000
            && after.row.value.granted == after.row.value.left == TIERS[Step(n.tier)]
    ensures forall other :: other != key ==> At(RedeemFrom(t, key, [n], now, 0, 0).0.book, other) == At(t.book, other)
  {
    hide EpochsCovered, PaidUntil, PeriodKey, Current, Closed, StillPays;
    NoteRailIsNote(key);
    PaidUntilIs(n, now);
    PaidUntilIs(n, at);
    assert [n][1..] == [];
  }

  /** A fresh note is refused, spent all the same, exactly when its account pays another plan
      directly; and it opens a period exactly when it is not refused, its month and the week after it
      are not over, and no period began in this second or later. */
  lemma WhatANoteOpens(t: Till, key: Acct, n: Note, now: nat)
    requires now > 0 && Name(n) !in t.spent && (NoteRail(key) in t.book.rails ==> t.book.rails[NoteRail(key)] == key)
    ensures var (u, a) := RedeemFrom(t, key, [n], now, 0, 0);
            && u.spent == t.spent + {Name(n)}
            && (a.Failed? <==> PaysAnother(t.book, key, now))
            && (Credit(t.book, key, n, now).Ok? && Credit(t.book, key, n, now).value.1
                <==> !PaysAnother(t.book, key, now) && StillPays(n.epoch, now) && PeriodKey(now) > Current(At(t.book, key).row))
  {
    hide EpochsCovered, PaidUntil, PeriodKey, Current, Closed, Opened, UpgradeExtra, StillPays;
    NoteRailIsNote(key);
    PaidUntilIs(n, now);
    assert [n][1..] == [];
  }
}
