/** What a resend gets while its reply is kept, and how long it is. */
module Replies {
  import opened Requests
  import opened Seals
  import Naturals

  const QUARTER := 16_777_216
  const ALL_BYTES := 67_108_864
  const HALF_AN_HOUR := 1_800_000

  // ---- one delivery --------------------------------------------------------------------------------------

  /** Young enough to be kept when another reply comes. */
  predicate IsYoung(r: Reply, now: nat) {
    now < r.at + HALF_AN_HOUR
  }

  /** All the replies that are young enough fit beside one more of `size` bytes. */
  ghost predicate Fits(replies: map<string, Reply>, now: nat, size: nat) {
    var young := map k | k in replies && IsYoung(replies[k], now) :: replies[k];
    |young| < 20_000 && Bytes(young) + size <= ALL_BYTES
  }

  lemma YoungIs(replies: map<string, Reply>, now: nat)
    ensures Young(replies, now) == map k | k in replies && IsYoung(replies[k], now) :: replies[k]
  {
  }

  /** A delivery that is not carried out, or whose answer is over a quarter of the bytes, changes no
      reply. One that is carried out keeps its own answer; of the others those over half an hour old
      go, and all the rest stay if they fit beside it; if they do not, only the oldest go. */
  lemma RepliesAfter(m: Memory, d: Delivery, o: Outcome, n: Memory, k: string)
    requires Handles(m, d, o, n)
    ensures !o.CarriedOut? || |d.answer| > QUARTER ==> n.replies == m.replies
    ensures o.CarriedOut? && |d.answer| <= QUARTER ==>
              && d.r.seen in n.replies && n.replies[d.r.seen] == Reply(d.now, d.answer)
              && (k != d.r.seen && k in n.replies ==> k in m.replies && n.replies[k] == m.replies[k] && IsYoung(m.replies[k], d.now))
              && (k in m.replies && IsYoung(m.replies[k], d.now) && Fits(m.replies, d.now, |d.answer|) ==> k in n.replies)
              && (k in m.replies && IsYoung(m.replies[k], d.now) && k !in n.replies ==>
                    forall j :: j in n.replies && j != d.r.seen ==> m.replies[k].at <= m.replies[j].at)
  {
    hide Bytes, Recorded, First, Reaches;
    if o.CarriedOut? && |d.answer| <= QUARTER {
      YoungIs(m.replies, d.now);
      var young := Young(m.replies, d.now);
      var kept :| MadeRoom(young, kept, |d.answer|) && n.replies == kept[d.r.seen := Reply(d.now, d.answer)];
      if Fits(m.replies, d.now, |d.answer|) { AllStay(young, kept, |d.answer|); }
    }
  }

  /** With room for all the young ones, none is dropped. */
  lemma AllStay(young: map<string, Reply>, kept: map<string, Reply>, size: nat)
    requires MadeRoom(young, kept, size) && |young| < REPLY_KEEP_MAX && Bytes(young) + size <= REPLY_KEEP_BYTES
    ensures kept == young
  {
    if kept != young {
      var d :| d in young && d !in kept
               && (|kept| + 1 >= REPLY_KEEP_MAX || Bytes(kept) + |young[d].out| + size > REPLY_KEEP_BYTES);
      Bigger(young, kept, d);
    }
  }

  lemma Bigger(young: map<string, Reply>, kept: map<string, Reply>, d: string)
    requires OldestDropped(young, kept) && d in young && d !in kept
    ensures |kept| + 1 <= |young| && Bytes(kept) + |young[d].out| <= Bytes(young)
  {
    hide Bytes;
    Removed(young, d);
    PartIsSmaller(young - {d}, kept);
  }

  lemma {:induction false} PartIsSmaller(all: map<string, Reply>, part: map<string, Reply>)
    requires part.Keys <= all.Keys && forall k :: k in part ==> part[k] == all[k]
    ensures |part| <= |all| && Bytes(part) <= Bytes(all)
    decreases |all|
  {
    hide Bytes;
    if x :| x in all && x !in part {
      Removed(all, x);
      PartIsSmaller(all - {x}, part);
    } else {
      assert part == all;
    }
  }

  // ---- whole lives of the door ---------------------------------------------------------------------------

  /** The reply under `k` before delivery `n` was made by delivery `i`, and by none after it. */
  predicate MadeBy(l: Life, n: nat, k: string, i: nat)
    requires n < |l.ms| == |l.ds| + 1 == |l.os| + 1
  {
    && i < n && k in l.ms[n].replies && l.ds[i].r.seen == k && l.os[i] == CarriedOut(l.ds[i].answer)
    && l.ms[n].replies[k] == Reply(l.ds[i].now, l.ds[i].answer)
    && forall j :: i < j < n && l.ds[j].r.seen == k ==> !l.os[j].CarriedOut?
  }

  /** Every reply kept is the answer of a delivery of the same request that was carried out, of the
      latest one. */
  lemma {:induction false} EveryReplyWasMade(l: Life, n: nat, k: string) returns (i: nat)
    requires l.Valid() && n <= |l.ds| && k in l.ms[n].replies
    ensures MadeBy(l, n, k, i)
  {
    hide Handles;
    var d, o := l.ds[n - 1], l.os[n - 1];
    assert Handles(l.ms[n - 1], d, o, l.ms[n]);
    RepliesAfter(l.ms[n - 1], d, o, l.ms[n], k);
    AnswersItsOwn(l.ms[n - 1], d, o, l.ms[n]);
    if o.CarriedOut? && |d.answer| <= QUARTER && d.r.seen == k {
      i := n - 1;
    } else {
      i := EveryReplyWasMade(l, n - 1, k);
    }
  }

  lemma AnswersItsOwn(m: Memory, d: Delivery, o: Outcome, n: Memory)
    requires Handles(m, d, o, n)
    ensures o.CarriedOut? ==> o == CarriedOut(d.answer) && d.r.seen !in m.replies
    ensures d.r.seen in m.replies ==> o == Cached(m.replies[d.r.seen].out) && n == m
  {
    hide Remembered, Recorded, First, Reaches;
  }

  /** Whenever a request arrives and a reply to the same bytes is kept, it gets the answer of the latest
      delivery of them that was carried out, and nothing changes. */
  lemma ResendGetsTheSameReply(l: Life, n: nat) returns (i: nat)
    requires l.Valid() && n < |l.ds| && l.ds[n].r.seen in l.ms[n].replies
    ensures MadeBy(l, n, l.ds[n].r.seen, i) && l.os[n] == Cached(l.ds[i].answer) && l.ms[n + 1] == l.ms[n]
  {
    hide Handles;
    assert Handles(l.ms[n], l.ds[n], l.os[n], l.ms[n + 1]);
    AnswersItsOwn(l.ms[n], l.ds[n], l.os[n], l.ms[n + 1]);
    i := EveryReplyWasMade(l, n, l.ds[n].r.seen);
  }

  /** Another reply comes: carried out, and not too big to be kept. */
  predicate Keeps(l: Life, j: nat)
    requires j < |l.ds| == |l.os|
  {
    l.os[j].CarriedOut? && |l.ds[j].answer| <= QUARTER
  }

  /** After a delivery that was carried out with an answer of at most a quarter of the bytes, the same
      bytes get the same answer at every later delivery, as long as every reply kept since came within
      half an hour of it and found room beside the young ones. */
  lemma {:induction false} TheReplyIsStillThere(l: Life, i: nat, n: nat)
    requires l.Valid() && i < n <= |l.ds| && Keeps(l, i)
    requires forall j :: i < j < n && Keeps(l, j) ==>
               l.ds[j].now < l.ds[i].now + HALF_AN_HOUR && Fits(l.ms[j].replies, l.ds[j].now, |l.ds[j].answer|)
    ensures var k := l.ds[i].r.seen;
            && k in l.ms[n].replies && l.ms[n].replies[k] == Reply(l.ds[i].now, l.ds[i].answer)
            && (n < |l.ds| && l.ds[n].r.seen == k ==> l.os[n] == Cached(l.ds[i].answer) && l.ms[n + 1] == l.ms[n])
    decreases n
  {
    hide Handles, Fits;
    var k, d, o := l.ds[i].r.seen, l.ds[n - 1], l.os[n - 1];
    assert Handles(l.ms[n - 1], d, o, l.ms[n]);
    RepliesAfter(l.ms[n - 1], d, o, l.ms[n], k);
    AnswersItsOwn(l.ms[n - 1], d, o, l.ms[n]);
    if i < n - 1 { TheReplyIsStillThere(l, i, n - 1); }
    if n < |l.ds| {
      assert Handles(l.ms[n], l.ds[n], l.os[n], l.ms[n + 1]);
      AnswersItsOwn(l.ms[n], l.ds[n], l.os[n], l.ms[n + 1]);
    }
  }

  /** And it goes as soon as another reply is kept half an hour or more after it. */
  lemma TheReplyIsGone(l: Life, j: nat, k: string)
    requires l.Valid() && j < |l.ds| && Keeps(l, j) && k in l.ms[j].replies
    requires l.ms[j].replies[k].at + HALF_AN_HOUR <= l.ds[j].now
    ensures k !in l.ms[j + 1].replies
  {
    hide Handles;
    assert Handles(l.ms[j], l.ds[j], l.os[j], l.ms[j + 1]);
    RepliesAfter(l.ms[j], l.ds[j], l.os[j], l.ms[j + 1], k);
    AnswersItsOwn(l.ms[j], l.ds[j], l.os[j], l.ms[j + 1]);
  }
}
