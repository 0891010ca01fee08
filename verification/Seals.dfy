/** Whole lives of the door: its runs are the arrivals counted in `Requests`, and how often one
    ciphertext is answered under its seal. */
module Seals {
  import opened Requests

  const NOTHING := Memory(map[], map[])

  /** A life of the door: what it remembers before each delivery and after the last, and each outcome. */
  datatype Life = Life(ds: seq<Delivery>, ms: seq<Memory>, os: seq<Outcome>)
  {
    ghost predicate Valid() {
      && |ms| == |ds| + 1 && |os| == |ds| && ms[0] == NOTHING
      && forall i :: 0 <= i < |ds| ==> Handles(ms[i], ds[i], os[i], ms[i + 1])
    }

    /** The life before its last delivery. */
    function Before(): Life
      requires |ds| > 0 && |ms| == |ds| + 1 && |os| == |ds|
    {
      Life(ds[..|ds| - 1], ms[..|ds|], os[..|ds| - 1])
    }

    function Arrivals(): seq<Arrival>
      requires |ms| == |ds| + 1
    {
      seq(|ds|, i requires 0 <= i < |ds| => Arrival(ds[i].r, ds[i].now, ds[i].r.seen in ms[i].replies, ds[i].table))
    }
  }

  lemma BeforeIsValid(l: Life)
    requires l.Valid() && l.ds != []
    ensures l.Before().Valid() && l.Before().Arrivals() == l.Arrivals()[..|l.ds| - 1]
    ensures l.Before().ms[|l.ds| - 1] == l.ms[|l.ds| - 1]
  {
    hide Handles;
  }

  /** The nonces a door remembers are those its arrivals leave. */
  lemma {:induction false} NoncesAreTheArrivals(l: Life)
    requires l.Valid()
    ensures l.ms[|l.ds|].nonces == NoncesAfter(NONCE_KEEP_MS, CLOCK_SKEW_MS, l.Arrivals())
    decreases |l.ds|
  {
    hide Remembered, Recorded, First;
    if l.ds != [] {
      var n := |l.ds| - 1;
      BeforeIsValid(l);
      NoncesAreTheArrivals(l.Before());
      assert Handles(l.ms[n], l.ds[n], l.os[n], l.ms[n + 1]);
    }
  }

  /** A delivery is carried out exactly when, as an arrival, it counts as carried out. */
  lemma CarriedOutIsTheArrival(l: Life)
    requires l.Valid() && l.ds != []
    ensures var n, es := |l.ds| - 1, l.Arrivals();
            l.os[n].CarriedOut?
            <==> IsCarriedOut(NONCE_KEEP_MS, CLOCK_SKEW_MS, NoncesAfter(NONCE_KEEP_MS, CLOCK_SKEW_MS, es[..n]), es[n])
  {
    hide Remembered, Recorded, First;
    var n := |l.ds| - 1;
    BeforeIsValid(l);
    NoncesAreTheArrivals(l.Before());
    assert Handles(l.ms[n], l.ds[n], l.os[n], l.ms[n + 1]);
  }

  /** How often request `r` is carried out in a life of the door. */
  function CarriedOutTimes(ds: seq<Delivery>, os: seq<Outcome>, r: Request): nat
    requires |ds| == |os|
  {
    if ds == [] then 0
    else
      var n := |ds| - 1;
      CarriedOutTimes(ds[..n], os[..n], r) + if ds[n].r == r && os[n].CarriedOut? then 1 else 0
  }

  lemma {:induction false} CarriedOutWithinTimes(l: Life, r: Request)
    requires l.Valid()
    ensures CarriedOutTimes(l.ds, l.os, r) <= Times(NONCE_KEEP_MS, CLOCK_SKEW_MS, l.Arrivals(), r.nonce, r.ts)
    decreases |l.ds|
  {
    hide Handles, NoncesAfter, IsCarriedOut;
    if l.ds != [] {
      BeforeIsValid(l);
      CarriedOutWithinTimes(l.Before(), r);
      CarriedOutIsTheArrival(l);
    }
  }

  predicate InOrder(ds: seq<Delivery>) {
    forall i, j :: 0 <= i < j < |ds| ==> ds[i].now <= ds[j].now
  }

  /** In every life of the door under a clock that does not go back, a request is carried out at most
      once. */
  lemma DoorCarriesOutOnce(l: Life, r: Request)
    requires l.Valid() && InOrder(l.ds)
    ensures CarriedOutTimes(l.ds, l.os, r) <= 1
  {
    hide Handles, Times, CarriedOutTimes;
    CarriedOutWithinTimes(l, r);
    EveryRequestAtMostOnce(l.Arrivals(), r.nonce, r.ts);
  }

  // ---- how often one ciphertext is sealed -------------------------------------------------------------

  /** An outcome that is a new message under the request's own seal. */
  predicate Sealing(o: Outcome) {
    o.Refused? || o.CarriedOut?
  }

  /** A delivery makes one more message under its request's seal exactly when the request opens, no
      reply of it is kept, and it is not one that reaches a nonce already known. */
  lemma SealsExactlyWhen(m: Memory, d: Delivery)
    ensures Sealing(Handled(m.nonces, m.replies, d)) <==>
              d.r.opens && d.r.seen !in m.replies
              && !(Reaches(d.r, d.now, CLOCK_SKEW_MS) && d.table.Answers? && !First(m.nonces, d.r.nonce, d.now, NONCE_KEEP_MS))
  {
  }

  function SealedTimes(ds: seq<Delivery>, os: seq<Outcome>, r: Request): nat
    requires |ds| == |os|
  {
    if ds == [] then 0
    else
      var n := |ds| - 1;
      SealedTimes(ds[..n], os[..n], r) + if ds[n].r == r && Sealing(os[n]) then 1 else 0
  }

  /** Deliveries that open, find no kept reply, and are malformed, wrongly signed, outside the window of
      their clock, or met by a nonce table that fails. */
  function StrayTimes(ds: seq<Delivery>, ms: seq<Memory>, r: Request): nat
    requires |ms| == |ds| + 1
  {
    if ds == [] then 0
    else
      var n := |ds| - 1;
      StrayTimes(ds[..n], ms[..n + 1], r)
      + if ds[n].r == r && r.opens && r.seen !in ms[n].replies
           && !(Reaches(r, ds[n].now, CLOCK_SKEW_MS) && ds[n].table.Answers?) then 1 else 0
  }

  lemma {:induction false} SealsAdd(l: Life, r: Request)
    requires l.Valid()
    ensures SealedTimes(l.ds, l.os, r) == StrayTimes(l.ds, l.ms, r) + CarriedOutTimes(l.ds, l.os, r)
    decreases |l.ds|
  {
    hide Remembered, Recorded, First, Reaches;
    if l.ds != [] {
      var n := |l.ds| - 1;
      BeforeIsValid(l);
      SealsAdd(l.Before(), r);
      assert Handles(l.ms[n], l.ds[n], l.os[n], l.ms[n + 1]);
      assert l.Before().ms == l.ms[..n + 1];
    }
  }

  /** A delivery that no kept reply answers, and that reaches a nonce not known. */
  predicate Fresh(m: Memory, d: Delivery) {
    && d.r.seen !in m.replies && Reaches(d.r, d.now, CLOCK_SKEW_MS) && d.table.Answers?
    && First(m.nonces, d.r.nonce, d.now, NONCE_KEEP_MS)
  }

  predicate SomeFresh(l: Life, r: Request)
    requires |l.ms| == |l.ds| + 1
  {
    exists i :: 0 <= i < |l.ds| && l.ds[i].r == r && Fresh(l.ms[i], l.ds[i])
  }

  lemma {:induction false} CarriedOutWhenFresh(l: Life, r: Request)
    requires l.Valid()
    ensures CarriedOutTimes(l.ds, l.os, r) > 0 <==> SomeFresh(l, r)
    decreases |l.ds|
  {
    hide Remembered, Recorded, First;
    if l.ds != [] {
      var n := |l.ds| - 1;
      var before := l.Before();
      BeforeIsValid(l);
      CarriedOutWhenFresh(before, r);
      assert Handles(l.ms[n], l.ds[n], l.os[n], l.ms[n + 1]);
      assert l.os[n].CarriedOut? <==> Fresh(l.ms[n], l.ds[n]);
      assert forall i :: 0 <= i < n ==> before.ds[i] == l.ds[i] && before.ms[i] == l.ms[i];
    }
  }

  /** Over every life of the door, a request is sealed once for each stray delivery of it, and once
      more if some delivery of it reaches a nonce not known: at most one message under its seal exactly
      when it never strays, or strays once and does not get that far. */
  lemma SealedOnceExactlyWhenNotStray(l: Life, r: Request)
    requires l.Valid() && InOrder(l.ds)
    ensures SealedTimes(l.ds, l.os, r) == StrayTimes(l.ds, l.ms, r) + if SomeFresh(l, r) then 1 else 0
    ensures SealedTimes(l.ds, l.os, r) <= 1 <==>
              StrayTimes(l.ds, l.ms, r) == 0 || (StrayTimes(l.ds, l.ms, r) == 1 && !SomeFresh(l, r))
  {
    hide Handles, SealedTimes, StrayTimes, CarriedOutTimes, SomeFresh;
    SealsAdd(l, r);
    DoorCarriesOutOnce(l, r);
    CarriedOutWhenFresh(l, r);
  }

  lemma {:induction false} NeverStray(ds: seq<Delivery>, ms: seq<Memory>, r: Request)
    requires |ms| == |ds| + 1
    requires forall i :: 0 <= i < |ds| && ds[i].r == r ==> Reaches(r, ds[i].now, CLOCK_SKEW_MS) && ds[i].table.Answers?
    ensures StrayTimes(ds, ms, r) == 0
  {
    hide Reaches;
    if ds != [] {
      var n := |ds| - 1;
      NeverStray(ds[..n], ms[..n + 1], r);
    }
  }

  /** A well-formed, well-signed request that only ever arrives inside its window, with the nonce table
      answering, is answered under its seal at most once, however often it is sent and whatever the cache forgets. */
  lemma SealedOnceInsideTheWindow(l: Life, r: Request)
    requires l.Valid() && InOrder(l.ds)
    requires forall i :: 0 <= i < |l.ds| && l.ds[i].r == r ==> Reaches(r, l.ds[i].now, CLOCK_SKEW_MS) && l.ds[i].table.Answers?
    ensures SealedTimes(l.ds, l.os, r) <= 1
  {
    hide Handles, SealedTimes, StrayTimes, CarriedOutTimes, Reaches;
    NeverStray(l.ds, l.ms, r);
    SealedOnceExactlyWhenNotStray(l, r);
  }

  const AHEAD := Request("c", true, true, true, "n", 1_000_000)

  /** A request sent too early and again in time is sealed twice: the refusal, then the answer. */
  lemma TooEarlyThenInTime()
    ensures exists l: Life :: l.Valid() && l.ds == [Delivery(AHEAD, 600_000, "a", Answers), Delivery(AHEAD, 900_000, "a", Answers)]
              && l.os == [Refused, CarriedOut("a")] && SealedTimes(l.ds, l.os, AHEAD) == 2
  {
    var r := AHEAD;
    var ds := [Delivery(r, 600_000, "a", Answers), Delivery(r, 900_000, "a", Answers)];
    var kept: map<string, Reply> := map[];
    var end := Memory(map["n" := 900_000], kept["c" := Reply(900_000, "a")]);
    var l := Life(ds, [NOTHING, NOTHING, end], [Refused, CarriedOut("a")]);
    assert Sizes(kept) == map[] && Young(kept, 900_000) == kept;
    assert MadeRoom(Young(kept, 900_000), kept, 1);
    assert Remembered(kept, "c", "a", 900_000, end.replies);
    assert Handles(NOTHING, ds[0], Refused, NOTHING);
    assert Handles(NOTHING, ds[1], CarriedOut("a"), end);
    assert ds[..1] == [ds[0]] && l.os[..1] == [Refused] && ds[..1][..0] == [] && l.os[..1][..0] == [];
    assert SealedTimes(ds[..1], l.os[..1], r) == 1;
    assert SealedTimes(l.ds, l.os, r) == 2;
    assert l.Valid();
  }

  /** What a request gets when no reply to it is kept: an error in the open if it does not open; one
      under its seal if it is malformed, wrongly signed, or over five minutes off in its clock, or the
      nonce table fails; an error in the open if its nonce was recorded in the last twenty minutes; and
      only otherwise is it carried out. */
  lemma WhatARequestGets(m: Memory, d: Delivery)
    requires d.r.seen !in m.replies
    ensures Handled(m.nonces, m.replies, d)
            == if !d.r.opens then Plain
               else if !d.r.parses || !d.r.wellSigned || d.now + 300_000 < d.r.ts || d.r.ts + 300_000 < d.now then Refused
               else if d.table.Fails? then Refused
               else if d.r.nonce in m.nonces && d.now <= m.nonces[d.r.nonce] + 1_200_000 then Plain
               else CarriedOut(d.answer)
  {
  }

  /** Over every life of the door nothing is carried out but what opens, parses, is signed as it should
      be, and says a time at most five minutes off. */
  lemma OnlyTheSignedIsCarriedOut(l: Life, i: nat)
    requires l.Valid() && i < |l.ds| && l.os[i].CarriedOut?
    ensures var d := l.ds[i];
            d.r.opens && d.r.parses && d.r.wellSigned && d.r.ts <= d.now + 300_000 && d.now <= d.r.ts + 300_000
    ensures l.os[i] == CarriedOut(l.ds[i].answer)
  {
    hide Remembered, Recorded, First;
    assert Handles(l.ms[i], l.ds[i], l.os[i], l.ms[i + 1]);
    if l.ds[i].r.seen !in l.ms[i].replies { WhatARequestGets(l.ms[i], l.ds[i]); }
  }
}
