/** A signed request is carried out at most once, and the replies kept for a resend stay within
    their limits. */
module Requests {
  import opened Wrappers
  import opened Naturals
  import Sums

  const MINUTE := 60_000
  const NONCE_KEEP_MS := 20 * MINUTE
  const CLOCK_SKEW_MS := 5 * MINUTE
  const REPLY_KEEP_MS := 30 * MINUTE
  const REPLY_KEEP_MAX := 20_000
  const REPLY_KEEP_BYTES := 64 * 1024 * 1024

  function Apart(a: nat, b: nat): nat {
    if a <= b then b - a else a - b
  }

  // ---- nonces ----------------------------------------------------------------------------------

  /** The nonces still remembered at `now`, with a new one added; a known one keeps its time. */
  function Sight(nonces: map<string, nat>, nonce: string, now: nat, keep: nat): map<string, nat> {
    var known := map n | n in nonces && nonces[n] >= Monus(now, keep) :: nonces[n];
    if nonce in known then known else known[nonce := now]
  }

  predicate First(nonces: map<string, nat>, nonce: string, now: nat, keep: nat) {
    nonce in nonces ==> nonces[nonce] < Monus(now, keep)
  }

  /** The nonce table answers, or fails, with the old nonces deleted by then or not. */
  datatype Table = Answers | Fails(deleted: bool)

  function Recorded(nonces: map<string, nat>, nonce: string, now: nat, keep: nat, table: Table): map<string, nat> {
    match table
    case Answers => Sight(nonces, nonce, now, keep)
    case Fails(deleted) => if deleted then map n | n in nonces && nonces[n] >= Monus(now, keep) :: nonces[n] else nonces
  }

  // ---- replies ---------------------------------------------------------------------------------

  datatype Reply = Reply(at: nat, out: string)

  function Sizes(replies: map<string, Reply>): map<string, int> {
    map k | k in replies :: |replies[k].out|
  }

  ghost function Bytes(replies: map<string, Reply>): int {
    Sums.MapSum(Sizes(replies))
  }

  ghost predicate WithinLimits(replies: map<string, Reply>) {
    |replies| <= REPLY_KEEP_MAX && Bytes(replies) <= REPLY_KEEP_BYTES
  }

  function Young(replies: map<string, Reply>, now: nat): map<string, Reply> {
    map k | k in replies && Monus(now, replies[k].at) < REPLY_KEEP_MS :: replies[k]
  }

  predicate Oldest(replies: map<string, Reply>, k: string) {
    k in replies && forall j :: j in replies ==> replies[k].at <= replies[j].at
  }

  lemma {:induction false} OldestExists(replies: map<string, Reply>)
    requires replies != map[]
    ensures exists k :: Oldest(replies, k)
    decreases |replies|
  {
    var x :| x in replies;
    var rest := replies - {x};
    forall j | j in replies && j != x ensures j in rest {
    }
    if rest == map[] {
      assert Oldest(replies, x);
    } else {
      OldestExists(rest);
      var y :| Oldest(rest, y);
      var z := if replies[x].at <= replies[y].at then x else y;
      assert Oldest(replies, z);
    }
  }

  lemma Removed(replies: map<string, Reply>, k: string)
    requires k in replies
    ensures Bytes(replies - {k}) == Bytes(replies) - |replies[k].out|
    ensures |replies - {k}| == |replies| - 1
  {
    Sums.Remove(Sizes(replies), k);
    assert Sizes(replies - {k}) == Sizes(replies) - {k};
    assert (replies - {k}).Keys == replies.Keys - {k};
  }

  lemma Added(replies: map<string, Reply>, k: string, r: Reply)
    ensures Bytes(replies[k := r]) <= Bytes(replies) + |r.out|
    ensures |replies[k := r]| <= |replies| + 1
  {
    hide Sizes;
    Sums.Put(Sizes(replies), k, |r.out|);
    SizesAdded(replies, k, r);
    assert replies[k := r].Keys == replies.Keys + {k};
  }

  lemma SizesAdded(replies: map<string, Reply>, k: string, r: Reply)
    ensures Sizes(replies[k := r]) == Sizes(replies)[k := |r.out|]
    ensures k in Sizes(replies) ==> Sizes(replies)[k] >= 0
  {
  }

  /** What eviction has done so far: only unexpired replies remain, and each one dropped is no
      younger than each one kept. */
  predicate OldestDropped(young: map<string, Reply>, kept: map<string, Reply>) {
    && kept.Keys <= young.Keys
    && (forall k :: k in kept ==> kept[k] == young[k])
    && (forall d, k :: d in young && d !in kept && k in kept ==> young[d].at <= young[k].at)
  }

  /** Too much to keep, with a reply of `size` bytes to come. */
  ghost predicate TooMuch(replies: map<string, Reply>, size: nat) {
    |replies| >= REPLY_KEEP_MAX || Bytes(replies) + size > REPLY_KEEP_BYTES
  }

  /** Nothing was dropped, or the last one dropped would not have fitted. */
  ghost predicate NoMoreThanNeeded(young: map<string, Reply>, kept: map<string, Reply>, size: nat) {
    kept == young
    || exists d :: d in young && d !in kept
                   && (|kept| + 1 >= REPLY_KEEP_MAX || Bytes(kept) + |young[d].out| + size > REPLY_KEEP_BYTES)
  }

  /** Room was made by dropping the oldest, as many as it took and no more. */
  ghost predicate MadeRoom(young: map<string, Reply>, kept: map<string, Reply>, size: nat) {
    OldestDropped(young, kept) && NoMoreThanNeeded(young, kept, size) && !TooMuch(kept, size)
  }

  /** The bytes kept from before, an error in the open, an error under the request's own seal, or
      the answer of the operation. */
  datatype Outcome = Cached(out: string) | Plain | Refused | CarriedOut(out: string)

  /** A request as the enclave sees it: the hash of its ciphertext, whether that opens, parses and
      is signed as it should be, and what is signed. */
  datatype Request = Request(seen: string, opens: bool, parses: bool, wellSigned: bool, nonce: string, ts: nat)

  /** A request that gets as far as its nonce. */
  predicate Reaches(r: Request, now: nat, skew: nat) {
    r.opens && r.parses && Apart(r.ts, now) <= skew && r.wellSigned
  }

  function Handled(nonces: map<string, nat>, replies: map<string, Reply>, d: Delivery): Outcome {
    var (r, now) := (d.r, d.now);
    if r.seen in replies then Cached(replies[r.seen].out)
    else if !r.opens then Plain
    else if !Reaches(r, now, CLOCK_SKEW_MS) then Refused
    else if d.table.Fails? then Refused
    else if First(nonces, r.nonce, now, NONCE_KEEP_MS) then CarriedOut(d.answer)
    else Plain
  }

  /** What becomes of the replies when one more is to be kept: one over a quarter of the bytes is not. */
  ghost predicate Remembered(replies: map<string, Reply>, seen: string, out: string, now: nat, after: map<string, Reply>) {
    if |out| > REPLY_KEEP_BYTES / 4 then after == replies
    else exists kept :: MadeRoom(Young(replies, now), kept, |out|) && after == kept[seen := Reply(now, out)]
  }

  datatype Memory = Memory(nonces: map<string, nat>, replies: map<string, Reply>)

  /** A request delivered, when, what its operation would answer, and whether the nonce table does. */
  datatype Delivery = Delivery(r: Request, now: nat, answer: string, table: Table)

  /** One delivery: its outcome, and what the enclave remembers afterwards. */
  ghost predicate Handles(m: Memory, d: Delivery, o: Outcome, after: Memory) {
    && o == Handled(m.nonces, m.replies, d)
    && after.nonces == (if d.r.seen !in m.replies && Reaches(d.r, d.now, CLOCK_SKEW_MS)
                        then Recorded(m.nonces, d.r.nonce, d.now, NONCE_KEEP_MS, d.table) else m.nonces)
    && if o.CarriedOut? then Remembered(m.replies, d.r.seen, d.answer, d.now, after.replies) else after.replies == m.replies
  }

  class Door {
    var nonces: map<string, nat>
    var replies: map<string, Reply>

    constructor ()
      ensures nonces == map[] && replies == map[] && WithinLimits(replies)
    {
      nonces, replies := map[], map[];
      new;
      assert Sizes(replies) == map[];
    }

    /** Record a nonce; false if it was seen before. */
    method FirstSight(nonce: string, now: nat, table: Table) returns (r: Result<bool, ()>)
      modifies this`nonces
      ensures nonces == Recorded(old(nonces), nonce, now, NONCE_KEEP_MS, table)
      ensures r == if table.Answers? then Ok(First(old(nonces), nonce, now, NONCE_KEEP_MS)) else Err(())
    {
      if table == Fails(false) {
        return Err(());
      }
      nonces := map n | n in nonces && nonces[n] >= Monus(now, NONCE_KEEP_MS) :: nonces[n];
      if table.Fails? {
        return Err(());
      }
      var first := nonce !in nonces;
      if first {
        nonces := nonces[nonce := now];
      }
      return Ok(first);
    }

    /** Keep a reply for a resend: the oldest make room for it. */
    method Remember(seen: string, out: string, now: nat)
      requires WithinLimits(replies)
      modifies this`replies
      ensures WithinLimits(replies)
      ensures Remembered(old(replies), seen, out, now, replies)
    {
      if |out| > REPLY_KEEP_BYTES / 4 {
        return;
      }
      ghost var young := Young(replies, now);
      replies := map k | k in replies && Monus(now, replies[k].at) < REPLY_KEEP_MS :: replies[k];
      assert replies == young;
      var bytes := TotalBytes();
      bytes := bytes + |out|;
      while |replies| >= REPLY_KEEP_MAX || bytes > REPLY_KEEP_BYTES
        invariant OldestDropped(young, replies) && NoMoreThanNeeded(young, replies, |out|)
        invariant bytes == Bytes(replies) + |out|
        decreases |replies|
      {
        NotEmpty(replies, |out|);
        OldestExists(replies);
        var oldest :| Oldest(replies, oldest);
        Removed(replies, oldest);
        DropOldest(young, replies, oldest, |out|);
        bytes := bytes - |replies[oldest].out|;
        replies := replies - {oldest};
      }
      ghost var kept := replies;
      assert MadeRoom(young, kept, |out|);
      Added(kept, seen, Reply(now, out));
      replies := replies[seen := Reply(now, out)];
    }

    /** One sealed request. `answer` is what the operation would answer. */
    method Sealed(r: Request, now: nat, answer: string, table: Table) returns (o: Outcome)
      requires WithinLimits(replies)
      modifies this
      ensures WithinLimits(replies)
      ensures Handles(Memory(old(nonces), old(replies)), Delivery(r, now, answer, table), o, Memory(nonces, replies))
    {
      hide WithinLimits, Recorded, First, Remembered;
      if r.seen in replies {
        return Cached(replies[r.seen].out);
      }
      if !r.opens {
        return Plain;
      }
      if !r.parses {
        return Refused;
      }
      if Apart(r.ts, now) > CLOCK_SKEW_MS {
        return Refused;
      }
      if !r.wellSigned {
        return Refused;
      }
      var first := FirstSight(r.nonce, now, table);
      if first.Err? {
        return Refused;
      }
      if !first.value {
        return Plain;
      }
      Remember(r.seen, answer, now);
      return CarriedOut(answer);
    }

    /** The bytes of every reply kept. */
    method TotalBytes() returns (n: int)
      ensures n == Bytes(replies)
    {
      n := 0;
      var todo := replies;
      while todo != map[]
        invariant n + Bytes(todo) == Bytes(replies)
        decreases |todo|
      {
        var k :| k in todo;
        Removed(todo, k);
        n := n + |todo[k].out|;
        todo := todo - {k};
      }
      assert Sizes(todo) == map[];
    }
  }

  lemma NotEmpty(replies: map<string, Reply>, size: nat)
    requires |replies| >= REPLY_KEEP_MAX || Bytes(replies) + size > REPLY_KEEP_BYTES
    requires size <= REPLY_KEEP_BYTES / 4
    ensures replies != map[]
  {
    assert Sizes(map[]) == map[];
  }

  lemma DropOldest(young: map<string, Reply>, kept: map<string, Reply>, k: string, size: nat)
    requires OldestDropped(young, kept) && Oldest(kept, k) && TooMuch(kept, size)
    requires Bytes(kept - {k}) == Bytes(kept) - |kept[k].out| && |kept - {k}| == |kept| - 1
    ensures OldestDropped(young, kept - {k}) && NoMoreThanNeeded(young, kept - {k}, size)
  {
    hide Bytes;
    assert kept[k] == young[k];
  }

  // ---- whole runs --------------------------------------------------------------------------------

  /** A request arriving, at a moment; whatever the reply cache still has is used first. */
  datatype Arrival = Arrival(r: Request, now: nat, cached: bool, table: Table)

  function NoncesAfter(keep: nat, skew: nat, es: seq<Arrival>): map<string, nat> {
    if es == [] then map[]
    else
      var n, e := NoncesAfter(keep, skew, es[..|es| - 1]), es[|es| - 1];
      if !e.cached && Reaches(e.r, e.now, skew) then Recorded(n, e.r.nonce, e.now, keep, e.table) else n
  }

  predicate IsCarriedOut(keep: nat, skew: nat, nonces: map<string, nat>, e: Arrival) {
    !e.cached && Reaches(e.r, e.now, skew) && e.table.Answers? && First(nonces, e.r.nonce, e.now, keep)
  }

  /** How often what was signed as (nonce, ts) is carried out. */
  function Times(keep: nat, skew: nat, es: seq<Arrival>, nonce: string, ts: nat): nat {
    if es == [] then 0
    else
      var n, e := |es| - 1, es[|es| - 1];
      Times(keep, skew, es[..n], nonce, ts)
      + if e.r.nonce == nonce && e.r.ts == ts && IsCarriedOut(keep, skew, NoncesAfter(keep, skew, es[..n]), e) then 1 else 0
  }

  predicate Ordered(es: seq<Arrival>) {
    forall i, j :: 0 <= i < j < |es| ==> es[i].now <= es[j].now
  }

  /** Once carried out: the nonce is remembered, or the clock is past the request's window. */
  predicate Spent(keep: nat, skew: nat, es: seq<Arrival>, nonce: string, ts: nat) {
    var nonces := NoncesAfter(keep, skew, es);
    (nonce in nonces && nonces[nonce] + skew >= ts) || (es != [] && es[|es| - 1].now > ts + skew)
  }

  lemma {:induction false} CarriedOutOnce(keep: nat, skew: nat, es: seq<Arrival>, nonce: string, ts: nat)
    requires 2 * skew <= keep && Ordered(es)
    ensures Times(keep, skew, es, nonce, ts) <= 1
    ensures Times(keep, skew, es, nonce, ts) == 1 ==> Spent(keep, skew, es, nonce, ts)
  {
    if es != [] {
      var n := |es| - 1;
      CarriedOutOnce(keep, skew, es[..n], nonce, ts);
      if n > 0 { assert es[n - 1].now <= es[n].now; }
    }
  }

  /** The same request, at the start of its window and at the end. */
  lemma TwiceWhenForgotten(keep: nat, skew: nat)
    requires 2 * skew > keep
    ensures exists es, nonce, ts :: Ordered(es) && Times(keep, skew, es, nonce, ts) == 2
  {
    var r := Request("c", true, true, true, "n", skew);
    var es := [Arrival(r, 0, false, Answers), Arrival(r, 2 * skew, false, Answers)];
    assert es[..1] == [Arrival(r, 0, false, Answers)] && es[..1][..0] == [];
    assert NoncesAfter(keep, skew, es[..1]) == map["n" := 0];
    assert Times(keep, skew, es[..1], "n", skew) == 1;
    assert Times(keep, skew, es, "n", skew) == 2;
  }

  /** Under a clock that does not go back, and whatever the reply cache keeps or forgets, every
      signed request is carried out at most once exactly when nonces are remembered for at least
      twice the time a request's clock may be off. */
  lemma AtMostOnceExactlyWhenMemoryOutlasts(keep: nat, skew: nat)
    ensures (forall es, nonce, ts :: Ordered(es) ==> Times(keep, skew, es, nonce, ts) <= 1) <==> 2 * skew <= keep
  {
    if 2 * skew <= keep {
      forall es, nonce, ts | Ordered(es) ensures Times(keep, skew, es, nonce, ts) <= 1 {
        CarriedOutOnce(keep, skew, es, nonce, ts);
      }
    } else {
      TwiceWhenForgotten(keep, skew);
    }
  }

  /** The enclave remembers a nonce twice as long as that. */
  lemma EveryRequestAtMostOnce(es: seq<Arrival>, nonce: string, ts: nat)
    requires Ordered(es)
    ensures Times(NONCE_KEEP_MS, CLOCK_SKEW_MS, es, nonce, ts) <= 1
  {
    CarriedOutOnce(NONCE_KEEP_MS, CLOCK_SKEW_MS, es, nonce, ts);
  }

  /** A request already carried out, and its reply no longer kept: while its clock is still good and
      the nonce table answers, it gets an error in the open and no second seal; otherwise, an error
      under its seal again. */
  lemma ResendAfterTheReplyIsGone(es: seq<Arrival>, replies: map<string, Reply>, d: Delivery)
    requires Ordered(es) && (es != [] ==> es[|es| - 1].now <= d.now)
    requires Times(NONCE_KEEP_MS, CLOCK_SKEW_MS, es, d.r.nonce, d.r.ts) == 1
    requires d.r.opens && d.r.parses && d.r.wellSigned && d.r.seen !in replies
    ensures Handled(NoncesAfter(NONCE_KEEP_MS, CLOCK_SKEW_MS, es), replies, d)
            == if Apart(d.r.ts, d.now) <= CLOCK_SKEW_MS && d.table.Answers? then Plain else Refused
  {
    hide Times, NoncesAfter;
    CarriedOutOnce(NONCE_KEEP_MS, CLOCK_SKEW_MS, es, d.r.nonce, d.r.ts);
  }
}
