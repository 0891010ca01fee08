/** The blind round at its edges: where the factor comes from, what is signed and what refused, and
    which answers unblind. */
module Signing {
  import opened Wrappers
  import opened NumberTheory
  import opened Bytes
  import Pss
  import opened BlindNotes

  /** The factor is what was drawn, cut to the modulus. */
  lemma FactorIsTheDraw(draw: seq<byte>, n: nat)
    requires n > 1
    ensures Factor(draw, n) < n && (FromBe(draw) < n ==> Factor(draw, n) == FromBe(draw))
    ensures exists q: nat :: FromBe(draw) == q * n + Factor(draw, n)
  {
    hide FromBe;
    if FromBe(draw) < n { SmallMod(FromBe(draw), n); }
    Divided(FromBe(draw), n);
  }

  lemma Divided(x: nat, n: nat)
    requires n > 0
    ensures exists q: nat :: x == q * n + x % n
  {
    assert x == (x / n) * n + x % n;
  }

  /** Every number above one can be drawn, as itself, and is accepted if and only if it has an inverse. */
  lemma EveryFactorCanBeDrawn(r: nat, n: nat, k: nat)
    requires 1 < r < n <= Pow(256, k) && k > 0
    ensures |ToFixed(r, k)| == k && Factor(ToFixed(r, k), n) == r
    ensures Acceptable(ToFixed(r, k), n) <==> exists b: nat :: (r * b) % n == 1
  {
    hide ToFixed, FromBe, ModInverse, Pow;
    ToFixedRoundTrip(r, k);
    SmallMod(r, n);
    InverseFoundExactly(r, n);
  }

  /** A draw is accepted if and only if what it comes to is above one and has an inverse. */
  lemma AcceptedExactly(draw: seq<byte>, n: nat)
    requires n > 1
    ensures Acceptable(draw, n) <==> Factor(draw, n) >= 2 && exists b: nat :: (Factor(draw, n) * b) % n == 1
  {
    hide Factor, ModInverse;
    InverseFoundExactly(Factor(draw, n), n);
  }

  /** So whatever note is blinded, any message prime to the modulus may come out, but for the one that
      factor one would give: some draw leads to it. */
  lemma AnyMessageMayComeOut(hash: Pss.Hash, key: MonthKey, note: Note, z: nat)
    requires key.Valid() && key.p * key.q > 1 && z < key.p * key.q && ModInverse(z, key.p * key.q).Some?
    requires ModInverse(Message(hash, note, key.k), key.p * key.q).Some?
    requires FactorFor(key, Message(hash, note, key.k), z) > 1
    ensures exists draw: seq<byte> ::
              && |draw| == key.k && Acceptable(draw, key.p * key.q)
              && BlindWith(key.Public(), Message(hash, note, key.k), Factor(draw, key.p * key.q)) == ToFixed(z, key.k)
  {
    hide ToFixed, FromBe, ModInverse, Pow, Message, FactorFor, BlindWith, IsPrime, OneModulo;
    var n, m := key.p * key.q, Message(hash, note, key.k);
    var r := FactorFor(key, m, z);
    FactorLeads(key, m, z);
    EveryNoteFits(key, m, z, r);
    EveryFactorCanBeDrawn(r, n, key.k);
    InverseFoundExactly(r, n);
    assert BlindWith(key.Public(), m, Factor(ToFixed(r, key.k), n)) == ToFixed(z, key.k);
  }

  /** The enclave signs exactly the numbers below the modulus at full length; and what it gives, raised
      to the public exponent, is what it was given. */
  lemma SignsExactly(key: MonthKey, blinded: seq<byte>)
    requires key.Valid() && key.p * key.q > 1
    ensures var r := BlindSign(key.Private(), blinded);
            && (r.Ok? <==> |blinded| == key.k && FromBe(blinded) < key.p * key.q)
            && (r.Ok? ==> |r.value| == key.k && FromBe(r.value) < key.p * key.q
                          && Pow(FromBe(r.value), key.e) % (key.p * key.q) == FromBe(blinded))
  {
    hide ToFixed, FromBe, Pow, IsPrime, OneModulo;
    var n := key.p * key.q;
    if |blinded| == key.k && FromBe(blinded) < n {
      ToFixedRoundTrip(ModPow(FromBe(blinded), key.d, n), key.k);
      Undo(key, FromBe(blinded));
      SmallMod(FromBe(blinded), n);
    }
  }

  function TimesMod(a: nat, b: nat, n: nat): nat
    requires n > 0
  {
    (a * b) % n
  }

  ghost predicate Invertible(a: nat, n: nat)
    requires n > 0
  {
    exists b: nat :: (a * b) % n == 1
  }

  lemma ProductOff(b: nat, r: nat, i: nat, s: nat, n: nat)
    requires n > 1 && TimesMod(r, i, n) == 1 && s < n
    ensures TimesMod(b, i, n) == s <==> b % n == TimesMod(s, r, n)
  {
    SmallMod(1, n);
    SmallMod(s, n);
    assert (s * r) * i == s * (r * i) && (b * i) * r == b * (r * i);
    ModMul(s, r * i, s, 1, n);
    ModMul(b, r * i, b, 1, n);
    if (b * i) % n == s { ModMul(b * i, r, s, r, n); }
    if b % n == (s * r) % n { ModMul(b, i, s * r, i, n); }
  }

  /** Unblinding succeeds exactly at full lengths, with an invertible secret, on the note's signature
      times that secret. */
  lemma FinalizesExactly(hash: Pss.Hash, key: MonthKey, blindSig: seq<byte>, secret: seq<byte>, note: Note)
    requires key.Valid() && key.p * key.q > 1
    ensures var n := key.p * key.q;
            Finalize(hash, key.Public(), blindSig, secret, note).Ok? <==>
              && |blindSig| == key.k && |secret| == key.k && Invertible(FromBe(secret), n)
              && FromBe(blindSig) % n == TimesMod(FromBe(Signature(hash, key, note)), FromBe(secret), n)
  {
    hide Finalize, FromBe, ModInverse, Signature, IsPrime, OneModulo, Pow, TimesMod, Invertible;
    var n := key.p * key.q;
    var r, b, s := FromBe(secret), FromBe(blindSig), FromBe(Signature(hash, key, note));
    InverseOf(r, n);
    FinalizesByInverse(hash, key, blindSig, secret, note);
    SignatureIs(hash, key, note);
    ByInverse(ModInverse(r, n), b, r, s, n);
  }

  lemma ByInverse(i: Option<nat>, b: nat, r: nat, s: nat, n: nat)
    requires n > 1 && s < n && (i.Some? ==> TimesMod(r, i.value, n) == 1)
    ensures i.Some? && TimesMod(b, i.value, n) == s <==> i.Some? && b % n == TimesMod(s, r, n)
  {
    hide TimesMod;
    if i.Some? { ProductOff(b, r, i.value, s, n); }
  }

  lemma InverseOf(r: nat, n: nat)
    requires n > 1
    ensures ModInverse(r, n).Some? <==> Invertible(r, n)
    ensures ModInverse(r, n).Some? ==> TimesMod(r, ModInverse(r, n).value, n) == 1
  {
    hide ExtGcd;
    InverseFoundExactly(r, n);
  }

  lemma FinalizesByInverse(hash: Pss.Hash, key: MonthKey, blindSig: seq<byte>, secret: seq<byte>, note: Note)
    requires key.Valid() && key.p * key.q > 1
    ensures var (n, i) := (key.p * key.q, ModInverse(FromBe(secret), key.p * key.q));
            Finalize(hash, key.Public(), blindSig, secret, note).Ok? <==>
              |blindSig| == key.k && |secret| == key.k && i.Some?
              && TimesMod(FromBe(blindSig), i.value, n) == FromBe(Signature(hash, key, note))
  {
    hide ToFixed, FromBe, ModInverse, Signature, Verify, IsPrime, OneModulo, Pow;
    var i := ModInverse(FromBe(secret), key.p * key.q);
    if i.Some? { Unblinded(hash, key, FromBe(blindSig), i.value, note); }
  }

  lemma SignatureIs(hash: Pss.Hash, key: MonthKey, note: Note)
    requires key.Valid() && key.p * key.q > 1
    ensures var s := Signature(hash, key, note);
            |s| == key.k && FromBe(s) < key.p * key.q && s == ToFixed(FromBe(s), key.k)
  {
    hide ToFixed, FromBe, Pow, IsPrime, OneModulo, ModPow, Message;
    ToFixedRoundTrip(ModPow(Message(hash, note, key.k), key.d, key.p * key.q), key.k);
  }

  /** What unblinding makes of `b` verifies exactly when it is the signature. */
  lemma Unblinded(hash: Pss.Hash, key: MonthKey, b: nat, i: nat, note: Note)
    requires key.Valid() && key.p * key.q > 1
    ensures var n := key.p * key.q;
            Verify(hash, key.Public(), note, ToFixed((b * i) % n, key.k)) <==> (b * i) % n == FromBe(Signature(hash, key, note))
  {
    hide ToFixed, FromBe, Pow, IsPrime, OneModulo, ModPow, Message, Verify, Signature;
    var x := (b * i) % (key.p * key.q);
    Below(b, i, key.p * key.q);
    OneSignaturePerNote(hash, key, note, ToFixed(x, key.k));
    SignatureIs(hash, key, note);
    ToFixedRoundTrip(x, key.k);
  }

  lemma Below(a: nat, b: nat, n: nat)
    requires n > 0
    ensures 0 <= (a * b) % n < n
  {
  }
}
