/** Notes minted for payments, over whole runs of the plan tables: one fingerprint to a payment's
    month, for ever. */
module Minting {
  import opened Wrappers
  import opened Slices
  import opened Plans
  import opened NoteOrPlan

  const BOUND := "this payment already pays a plan on an account directly; it cannot also become a note"
  const MINTED_ALREADY := "a note for this month was already minted for this payment"

  /** An accepted request to mint. */
  predicate Mints(b: Book, e: Event, rail: string, epoch: nat) {
    e.Mint? && e.rail == rail && e.epoch == epoch && MintAdmission(b, rail, epoch, e.fingerprint).Ok?
  }

  /** Nothing takes a minted month away or gives it another fingerprint. */
  lemma FingerprintStays(b: Book, e: Event, month: (string, nat))
    requires month in b.minted
    ensures month in Next(b, e).minted && Next(b, e).minted[month] == b.minted[month]
  {
    hide TierChanged, Rolled, Ended, Renewed, Carried, Lapsed, PaidAt, AnyMinted, EpochsCovered;
  }

  /** An accepted mint leaves its own fingerprint; any other event mints nothing. */
  lemma MintLeavesItsOwn(b: Book, e: Event, rail: string, epoch: nat)
    ensures Mints(b, e, rail, epoch) ==>
              (rail, epoch) in Next(b, e).minted && Next(b, e).minted[(rail, epoch)] == e.fingerprint
    ensures !Mints(b, e, rail, epoch) && (rail, epoch) !in b.minted ==> (rail, epoch) !in Next(b, e).minted
  {
    hide TierChanged, Rolled, Ended, Renewed, Carried, Lapsed, PaidAt, AnyMinted, EpochsCovered;
  }

  /** The fingerprints accepted for a payment's month in a run, in order. */
  function AcceptedFor(es: seq<Event>, rail: string, epoch: nat): seq<string> {
    if es == [] then []
    else
      var n := |es| - 1;
      AcceptedFor(es[..n], rail, epoch)
      + if Mints(After(EMPTY, es[..n]), es[n], rail, epoch) then [es[n].fingerprint] else []
  }

  /** The table holds exactly what was accepted: no month without a mint, and for a month the one
      fingerprint that every accepted mint of it named. */
  lemma {:induction false} TableIsWhatWasAccepted(es: seq<Event>, rail: string, epoch: nat)
    ensures var (b, fs) := (After(EMPTY, es), AcceptedFor(es, rail, epoch));
            && ((rail, epoch) in b.minted <==> fs != [])
            && forall f :: f in fs ==> (rail, epoch) in b.minted && f == b.minted[(rail, epoch)]
  {
    hide Next, Mints;
    if es != [] {
      var n := |es| - 1;
      var b := After(EMPTY, es[..n]);
      TableIsWhatWasAccepted(es[..n], rail, epoch);
      MintLeavesItsOwn(b, es[n], rail, epoch);
      if (rail, epoch) in b.minted {
        FingerprintStays(b, es[n], (rail, epoch));
        SameAgain(b, es[n], rail, epoch);
      }
    }
  }

  lemma SameAgain(b: Book, e: Event, rail: string, epoch: nat)
    requires (rail, epoch) in b.minted
    ensures Mints(b, e, rail, epoch) ==> e.fingerprint == b.minted[(rail, epoch)]
  {
  }

  /** After any run, a mint is accepted if and only if its payment was never bound to an account and
      every mint accepted for its month named the same fingerprint; it is a new one if and only if there
      was none; and accepting the same again changes nothing. */
  lemma AdmittedExactly(es: seq<Event>, rail: string, epoch: nat, fingerprint: string)
    ensures var (b, fs) := (After(EMPTY, es), AcceptedFor(es, rail, epoch));
            var r := MintAdmission(b, rail, epoch, fingerprint);
            && (r.Ok? <==> rail !in b.rails && forall f :: f in fs ==> f == fingerprint)
            && (r.Ok? ==> (r.value.1 <==> fs == []) && (fs != [] ==> r.value.0 == b))
    ensures var r := MintAdmission(After(EMPTY, es), rail, epoch, fingerprint);
            r.Err? ==> r.error == if rail in After(EMPTY, es).rails then BOUND else MINTED_ALREADY
  {
    hide After, AcceptedFor;
    TableIsWhatWasAccepted(es, rail, epoch);
    var fs := AcceptedFor(es, rail, epoch);
    if fs != [] { assert fs[0] in fs; }
  }

  /** So over every run at most one note is ever minted for a payment's month. */
  lemma OneNoteAMonth(es: seq<Event>, rail: string, epoch: nat)
    ensures var fs := AcceptedFor(es, rail, epoch); forall i, j :: 0 <= i < |fs| && 0 <= j < |fs| ==> fs[i] == fs[j]
  {
    hide AcceptedFor, After;
    TableIsWhatWasAccepted(es, rail, epoch);
    var fs := AcceptedFor(es, rail, epoch);
    forall i, j | 0 <= i < |fs| && 0 <= j < |fs| ensures fs[i] == fs[j] {
      assert fs[i] in fs && fs[j] in fs;
    }
  }
}
