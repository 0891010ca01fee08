/** Blind notes: one paid month, signed without being read (sections 4.2 to 4.5 of RFC 9474).
    The keys are RSA keys of exactly 8k bits; the program uses k = 256. */
module BlindNotes {
  import opened Wrappers
  import opened NumberTheory
  import opened Bytes
  import Pss

  const VERSION: byte := 1
  const NONCE_LEN := 32

  datatype Note = Note(tier: byte, epoch: nat, nonce: seq<byte>) {
    ghost predicate Valid() {
      epoch < 65536 && |nonce| == NONCE_LEN
    }

    function ToBytes(): seq<byte> {
      [VERSION, tier] + ToFixed(epoch, 2) + nonce
    }
  }

  function Parse(bytes: seq<byte>): Result<Note, string> {
    if |bytes| != 36 then Err("a note is 36 bytes")
    else if bytes[0] != VERSION then Err("a note of another version")
    else Ok(Note(bytes[1], FromBe(bytes[2..4]), bytes[4..]))
  }

  /** Reading a note accepts exactly the bytes some note is written as, and gives that note. */
  lemma ParsesExactlyWhatIsWritten(bytes: seq<byte>, note: Note)
    ensures note.Valid() ==> Parse(note.ToBytes()) == Ok(note)
    ensures Parse(bytes) == Ok(note) ==> note.Valid() && note.ToBytes() == bytes
  {
    assert Pow(256, 2) == 65536 by { assert Pow(256, 1) == 256 * Pow(256, 0); }
    if note.Valid() {
      ToFixedRoundTrip(note.epoch, 2);
      var b := note.ToBytes();
      assert b[2..4] == ToFixed(note.epoch, 2) && b[4..] == note.nonce;
    }
    if Parse(bytes) == Ok(note) {
      FromBeLess(bytes[2..4]);
      FromBeRoundTrip(bytes[2..4]);
      assert bytes == [bytes[0], bytes[1]] + bytes[2..4] + bytes[4..];
    }
  }

  // ---- keys -------------------------------------------------------------------------------

  datatype PublicKey = PublicKey(n: nat, e: nat, size: nat)
  datatype PrivateKey = PrivateKey(n: nat, d: nat, size: nat)

  /** A month's key as it is generated: two different primes, matching exponents, and a
      modulus of exactly 8k bits. */
  datatype MonthKey = MonthKey(p: nat, q: nat, e: nat, d: nat, k: nat) {
    ghost predicate Valid() {
      && IsPrime(p) && IsPrime(q) && p != q
      && OneModulo(e * d, p - 1) && OneModulo(e * d, q - 1)
      && k >= Pss.H_LEN + 2
      && 128 * Pow(256, k - 1) <= p * q < Pow(256, k)
    }

    function Public(): PublicKey {
      PublicKey(p * q, e, k)
    }

    function Private(): PrivateKey {
      PrivateKey(p * q, d, k)
    }
  }

  function ModPow(b: nat, e: nat, n: nat): (r: nat)
    requires n > 0
    ensures r < n
  {
    Pow(b, e) % n
  }

  // ---- the four operations -------------------------------------------------------------------

  /** The encoded note as a number. */
  function Message(hash: Pss.Hash, note: Note, k: nat): nat
    requires k >= Pss.H_LEN + 2
  {
    Pss.EncodingIsSmall(hash, note.ToBytes(), k);
    FromBe(Pss.Encode(hash, note.ToBytes(), 8 * k - 1).value)
  }

  function Factor(draw: seq<byte>, n: nat): nat
    requires n > 1
  {
    FromBe(draw) % n
  }

  /** A draw the app accepts as its blinding factor. */
  predicate Acceptable(draw: seq<byte>, n: nat)
    requires n > 1
  {
    Factor(draw, n) > 1 && ModInverse(Factor(draw, n), n).Some?
  }

  function BlindWith(pk: PublicKey, m: nat, r: nat): seq<byte>
    requires pk.n > 0
  {
    ToFixed((m * ModPow(r, pk.e, pk.n)) % pk.n, pk.size)
  }

  ghost predicate FirstAcceptable(draws: nat -> seq<byte>, n: nat, at: nat)
    requires n > 1
  {
    Acceptable(draws(at), n) && forall i: nat :: i < at ==> !Acceptable(draws(i), n)
  }

  lemma {:induction false} FirstExists(draws: nat -> seq<byte>, n: nat, found: nat, from: nat) returns (first: nat)
    requires n > 1 && from <= found && Acceptable(draws(found), n)
    requires forall i: nat :: i < from ==> !Acceptable(draws(i), n)
    ensures FirstAcceptable(draws, n, first)
    decreases found - from
  {
    if Acceptable(draws(from), n) {
      first := from;
    } else {
      first := FirstExists(draws, n, found, from + 1);
    }
  }

  /** The app's first half. `draws` is the stream of byte strings grown from the note's seed;
      `found` is some place in it where an acceptable factor stands. */
  method Blind(hash: Pss.Hash, pk: PublicKey, note: Note, draws: nat -> seq<byte>, ghost found: nat)
    returns (res: Result<(seq<byte>, seq<byte>), string>, at: nat)
    requires pk.n > 1 && pk.size >= Pss.H_LEN + 2
    requires Acceptable(draws(found), pk.n)
    ensures res.Err? <==> Message(hash, note, pk.size) >= pk.n
    ensures res.Ok? ==>
              && FirstAcceptable(draws, pk.n, at)
              && var r := Factor(draws(at), pk.n);
                 res.value == (BlindWith(pk, Message(hash, note, pk.size), r), ToFixed(r, pk.size))
  {
    at := 0;
    var m := Message(hash, note, pk.size);
    if m >= pk.n {
      return Err("the encoded note is not below the modulus"), 0;
    }
    ghost var first := FirstExists(draws, pk.n, found, 0);
    while !Acceptable(draws(at), pk.n)
      invariant at <= first
      decreases first - at
    {
      assert at != first;
      at := at + 1;
    }
    var r := Factor(draws(at), pk.n);
    res := Ok((BlindWith(pk, m, r), ToFixed(r, pk.size)));
  }

  /** The enclave's side: sign what it cannot read. */
  function BlindSign(sk: PrivateKey, blinded: seq<byte>): Result<seq<byte>, string>
    requires sk.n > 0
  {
    if |blinded| != sk.size then Err("a blinded note has the modulus' length")
    else if FromBe(blinded) >= sk.n then Err("the blinded note is not below the modulus")
    else Ok(ToFixed(ModPow(FromBe(blinded), sk.d, sk.n), sk.size))
  }

  /** The bytes of `x` are the encoding of the note. */
  predicate Encodes(hash: Pss.Hash, note: Note, x: nat, emBits: nat)
    requires emBits > 0
  {
    Pss.Verify(hash, note.ToBytes(), ToFixed(x, Pss.EmLen(emBits)), emBits)
  }

  /** The enclave's side at redemption. */
  predicate Verify(hash: Pss.Hash, pk: PublicKey, note: Note, sig: seq<byte>)
    requires pk.n > 0 && pk.size > 0
  {
    && |sig| == pk.size
    && FromBe(sig) < pk.n
    && Encodes(hash, note, ModPow(FromBe(sig), pk.e, pk.n), 8 * pk.size - 1)
  }

  /** The app's second half: the plain signature over the plain note, checked. */
  function Finalize(hash: Pss.Hash, pk: PublicKey, blindSig: seq<byte>, secret: seq<byte>, note: Note): Result<seq<byte>, string>
    requires pk.n > 1 && pk.size > 0
  {
    if |blindSig| != pk.size || |secret| != pk.size then
      Err("a blind signature and its secret have the modulus' length")
    else
      var inv := ModInverse(FromBe(secret), pk.n);
      if inv.None? then
        Err("the blinding factor has no inverse")
      else
        var sig := ToFixed((FromBe(blindSig) * inv.value) % pk.n, pk.size);
        if Verify(hash, pk, note, sig) then Ok(sig) else Err("the signature does not unblind to the note")
  }

  // ---- what they promise ------------------------------------------------------------------------

  /** The one signature a note has under a month's key. */
  function Signature(hash: Pss.Hash, key: MonthKey, note: Note): seq<byte>
    requires key.p * key.q > 0 && key.k >= Pss.H_LEN + 2
  {
    ToFixed(ModPow(Message(hash, note, key.k), key.d, key.p * key.q), key.k)
  }

  lemma KeyFacts(key: MonthKey)
    requires key.Valid()
    ensures key.p * key.q > 1 && key.k > 0
  {
    var a, b := key.p - 2, key.q;
    MulNonNegative(a, b);
    assert key.p * key.q == 2 * b + a * b;
  }

  lemma MessageIsSmall(hash: Pss.Hash, note: Note, k: nat)
    requires k >= Pss.H_LEN + 2
    ensures Message(hash, note, k) < 128 * Pow(256, k - 1)
  {
    Pss.EncodingIsSmall(hash, note.ToBytes(), k);
    TopByte(Pss.Encode(hash, note.ToBytes(), 8 * k - 1).value);
  }

  /** The encoded note always lies below the modulus, so blinding never fails. */
  lemma MessageBelowModulus(hash: Pss.Hash, key: MonthKey, note: Note)
    requires key.Valid()
    ensures Message(hash, note, key.k) < key.p * key.q
  {
    MessageIsSmall(hash, note, key.k);
  }

  lemma Undo(key: MonthKey, x: nat)
    requires key.Valid() && key.p * key.q > 0
    ensures ModPow(ModPow(x, key.e, key.p * key.q), key.d, key.p * key.q) == x % (key.p * key.q)
    ensures ModPow(ModPow(x, key.d, key.p * key.q), key.e, key.p * key.q) == x % (key.p * key.q)
  {
    var n := key.p * key.q;
    PowMul(x, key.e, key.d);
    PowMul(x, key.d, key.e);
    assert key.e * key.d == key.d * key.e;
    ModMod(Pow(x, key.e), n);
    ModMod(Pow(x, key.d), n);
    PowMod(Pow(x, key.e) % n, Pow(x, key.e), key.d, n);
    PowMod(Pow(x, key.d) % n, Pow(x, key.d), key.e, n);
    ExponentsUndo(x, key.p, key.q, key.e, key.d);
  }

  lemma EncodesMessage(hash: Pss.Hash, note: Note, k: nat, x: nat)
    requires k >= Pss.H_LEN + 2 && x < Pow(256, k)
    ensures Encodes(hash, note, x, 8 * k - 1) <==> x == Message(hash, note, k)
  {
    hide ToFixed, FromBe, Pow, Pss.Verify, Pss.Encode, Pss.EmLen;
    var em := ToFixed(x, k);
    Pss.WholeBytes(k);
    ToFixedRoundTrip(x, k);
    Pss.VerifiesOnlyTheEncoding(hash, note.ToBytes(), em, 8 * k - 1);
    Pss.EncodingIsSmall(hash, note.ToBytes(), k);
    var want := Pss.Encode(hash, note.ToBytes(), 8 * k - 1).value;
    if FromBe(em) == FromBe(want) {
      FromBeInjective(em, want);
    }
  }

  /** A signature is accepted exactly when, raised to the public exponent, it is the encoded note. */
  lemma VerifyMeansMessage(hash: Pss.Hash, pk: PublicKey, note: Note, sig: seq<byte>)
    requires pk.size >= Pss.H_LEN + 2 && 0 < pk.n < Pow(256, pk.size)
    ensures Verify(hash, pk, note, sig) <==>
              && |sig| == pk.size && FromBe(sig) < pk.n
              && ModPow(FromBe(sig), pk.e, pk.n) == Message(hash, note, pk.size)
  {
    hide Encodes, Message, ModPow, FromBe;
    EncodesMessage(hash, note, pk.size, ModPow(FromBe(sig), pk.e, pk.n));
  }

  /** Every note has exactly one signature under a month's key, and it says nothing about
      how the note was blinded. */
  lemma OneSignaturePerNote(hash: Pss.Hash, key: MonthKey, note: Note, sig: seq<byte>)
    requires key.Valid()
    ensures key.p * key.q > 0
    ensures Verify(hash, key.Public(), note, sig) <==> sig == Signature(hash, key, note)
  {
    KeyFacts(key);
    var n := key.p * key.q;
    var m := Message(hash, note, key.k);
    VerifyMeansMessage(hash, key.Public(), note, sig);
    MessageBelowModulus(hash, key, note);
    SmallMod(m, n);
    var s := ModPow(m, key.d, n);
    ModMod(Pow(m, key.d), n);
    ToFixedRoundTrip(s, key.k);
    Undo(key, m);
    if Verify(hash, key.Public(), note, sig) {
      Undo(key, FromBe(sig));
      SmallMod(FromBe(sig), n);
      FromBeInjective(sig, ToFixed(s, key.k));
    }
  }

  lemma ModPowIs(b: nat, e: nat, n: nat)
    requires n > 0
    ensures ModPow(b, e, n) == Rem(Pow(b, e), n) && Rem(ModPow(b, e, n), n) == ModPow(b, e, n)
  {
    RemRem(Pow(b, e), n);
  }

  /** What the signer makes of a blinded message: the signature, still times the factor. */
  lemma SignedBlind(key: MonthKey, m: nat, r: nat)
    requires key.Valid() && key.p * key.q > 1
    ensures var n := key.p * key.q;
            Rem(ModPow(Rem(m * ModPow(r, key.e, n), n), key.d, n), n) == Rem(Pow(m, key.d) * r, n)
  {
    hide Rem, Pow, ModPow, IsPrime, OneModulo;
    var n := key.p * key.q;
    var re := ModPow(r, key.e, n);
    var blinded := Rem(m * re, n);
    RemOf(m * re, n);
    RemRem(m * re, n);
    PowRem(blinded, m * re, key.d, n);
    ModPowIs(blinded, key.d, n);
    PowProduct(m, re, key.d);
    Undo(key, r);
    RemOf(r, n);
    ModPowIs(re, key.d, n);
    RemMul(Pow(m, key.d), Pow(re, key.d), Pow(m, key.d), r, n);
  }

  lemma UnblindWorks(key: MonthKey, m: nat, r: nat, i: nat)
    requires key.Valid() && key.p * key.q > 1 && (r * i) % (key.p * key.q) == 1
    ensures var n := key.p * key.q;
            (ModPow((m * ModPow(r, key.e, n)) % n, key.d, n) * i) % n == ModPow(m, key.d, n)
  {
    hide Rem, Pow, ModPow, IsPrime, OneModulo;
    var n := key.p * key.q;
    var re, s := ModPow(r, key.e, n), Pow(m, key.d);
    RemOf(m * re, n);
    var y := ModPow(Rem(m * re, n), key.d, n);
    SignedBlind(key, m, r);
    OneFactor(y, s * r, i, n);
    Associates(s, r, i);
    RemOf(r * i, n);
    RemOf(1, n);
    SmallMod(1, n);
    RemMul(s, r * i, s, 1, n);
    Commutes(s, 1);
    ModPowIs(m, key.d, n);
    RemOf(y * i, n);
  }

  /** The whole round: whatever invertible factor the app blinded with, the enclave signs,
      the app unblinds, and what comes out is the note's one signature, which verifies. */
  lemma BlindRound(hash: Pss.Hash, key: MonthKey, note: Note, r: nat)
    requires key.Valid() && key.p * key.q > 1
    requires r < key.p * key.q && ModInverse(r, key.p * key.q).Some?
    ensures var blinded := BlindWith(key.Public(), Message(hash, note, key.k), r);
            var signed := BlindSign(key.Private(), blinded);
            && signed.Ok?
            && Finalize(hash, key.Public(), signed.value, ToFixed(r, key.k), note) == Ok(Signature(hash, key, note))
            && Verify(hash, key.Public(), note, Signature(hash, key, note))
  {
    hide IsPrime, OneModulo, Message, ModPow, ExtGcd, Pss.Verify;
    var n := key.p * key.q;
    var m := Message(hash, note, key.k);
    var z := (m * ModPow(r, key.e, n)) % n;
    ModMod(m * ModPow(r, key.e, n), n);
    ToFixedRoundTrip(z, key.k);
    var y := ModPow(z, key.d, n);
    ToFixedRoundTrip(y, key.k);
    ToFixedRoundTrip(r, key.k);
    UnblindWorks(key, m, r, ModInverse(r, n).value);
    OneSignaturePerNote(hash, key, note, Signature(hash, key, note));
  }

  /** Unblinding never accepts anything but the note's one signature. */
  lemma FinalizeGivesTheSignature(hash: Pss.Hash, key: MonthKey, blindSig: seq<byte>, secret: seq<byte>, note: Note)
    requires key.Valid() && key.p * key.q > 1
    ensures var r := Finalize(hash, key.Public(), blindSig, secret, note);
            r.Ok? ==> r.value == Signature(hash, key, note)
  {
    var r := Finalize(hash, key.Public(), blindSig, secret, note);
    if r.Ok? {
      OneSignaturePerNote(hash, key, note, r.value);
    }
  }

  // ---- what the signer cannot see ------------------------------------------------------------------

  /** The factor that makes message `m` look like `z`. */
  function FactorFor(key: MonthKey, m: nat, z: nat): nat
    requires key.p * key.q > 1 && ModInverse(m, key.p * key.q).Some?
  {
    var n := key.p * key.q;
    ModPow(z * ModInverse(m, n).value, key.d, n)
  }

  /** For every blinded message and every encoded note (both prime to the modulus) exactly one
      blinding factor leads from the one to the other: what the signer saw fits every note. */
  lemma EveryNoteFits(key: MonthKey, m: nat, z: nat, r: nat)
    requires key.Valid() && key.p * key.q > 1
    requires ModInverse(m, key.p * key.q).Some? && ModInverse(z, key.p * key.q).Some?
    requires z < key.p * key.q && r < key.p * key.q
    ensures BlindWith(key.Public(), m, r) == ToFixed(z, key.k) <==> r == FactorFor(key, m, z)
    ensures ModInverse(FactorFor(key, m, z), key.p * key.q).Some?
  {
    hide ModPow, ModInverse, MonthKey.Valid, FactorFor, BlindWith, ToFixed;
    FactorLeads(key, m, z);
    BlindedIs(key, m, r, z);
    BlindedIs(key, m, FactorFor(key, m, z), z);
    OnlyOneFactor(key, m, z, r);
  }

  /** The bytes sent are those of `z` exactly when the blinded message is `z`. */
  lemma BlindedIs(key: MonthKey, m: nat, r: nat, z: nat)
    requires key.Valid() && key.p * key.q > 1 && z < key.p * key.q
    ensures BlindWith(key.Public(), m, r) == ToFixed(z, key.k)
            <==> (m * ModPow(r, key.e, key.p * key.q)) % (key.p * key.q) == z
  {
    hide ModPow, ToFixed, FromBe, IsPrime, OneModulo;
    var n := key.p * key.q;
    var blinded := (m * ModPow(r, key.e, n)) % n;
    ModMod(m * ModPow(r, key.e, n), n);
    ToFixedRoundTrip(blinded, key.k);
    ToFixedRoundTrip(z, key.k);
  }

  lemma FactorLeads(key: MonthKey, m: nat, z: nat)
    requires key.Valid() && key.p * key.q > 1 && z < key.p * key.q
    requires ModInverse(m, key.p * key.q).Some? && ModInverse(z, key.p * key.q).Some?
    ensures var f := FactorFor(key, m, z);
            && f < key.p * key.q && ModInverse(f, key.p * key.q).Some?
            && (m * ModPow(f, key.e, key.p * key.q)) % (key.p * key.q) == z
  {
    hide ModPow, ExtGcd, MonthKey.Valid;
    var n := key.p * key.q;
    var i := ModInverse(m, n).value;
    var f := FactorFor(key, m, z);
    MulNonNegative(z, i);
    Undo(key, z * i);
    BlindsTo(key, m, z, i, f);
    FactorInvertible(key, m, z, f);
  }

  lemma OnlyOneFactor(key: MonthKey, m: nat, z: nat, r: nat)
    requires key.Valid() && key.p * key.q > 1 && z < key.p * key.q && r < key.p * key.q
    requires ModInverse(m, key.p * key.q).Some? && ModInverse(z, key.p * key.q).Some?
    ensures (m * ModPow(r, key.e, key.p * key.q)) % (key.p * key.q) == z ==> r == FactorFor(key, m, z)
  {
    hide ModPow, MonthKey.Valid, ExtGcd, FactorFor;
    var n := key.p * key.q;
    FactorLeads(key, m, z);
    if (m * ModPow(r, key.e, n)) % n == z {
      SameFactor(key, m, ModInverse(m, n).value, r, FactorFor(key, m, z));
    }
  }

  lemma SameFactor(key: MonthKey, m: nat, i: nat, r: nat, f: nat)
    requires key.Valid() && key.p * key.q > 1 && (m * i) % (key.p * key.q) == 1
    requires r < key.p * key.q && f < key.p * key.q
    requires var n := key.p * key.q; (m * ModPow(r, key.e, n)) % n == (m * ModPow(f, key.e, n)) % n
    ensures r == f
  {
    var n := key.p * key.q;
    SmallMod(1, n);
    Cancel(m, i, ModPow(r, key.e, n), ModPow(f, key.e, n), n);
    SmallMod(ModPow(r, key.e, n), n);
    SmallMod(ModPow(f, key.e, n), n);
    Undo(key, r);
    Undo(key, f);
    SmallMod(r, n);
    SmallMod(f, n);
  }

  lemma BlindsTo(key: MonthKey, m: nat, z: nat, i: nat, f: nat)
    requires key.p * key.q > 1 && (m * i) % (key.p * key.q) == 1 && z < key.p * key.q
    requires ModPow(f, key.e, key.p * key.q) == (z * i) % (key.p * key.q)
    ensures (m * ModPow(f, key.e, key.p * key.q)) % (key.p * key.q) == z
  {
    var n := key.p * key.q;
    ModMod(z * i, n);
    ModMul(m, ModPow(f, key.e, n), m, z * i, n);
    assert m * (z * i) == (m * i) * z;
    SmallMod(1, n);
    ModMul(m * i, z, 1, z, n);
    SmallMod(z, n);
  }

  lemma FactorInvertible(key: MonthKey, m: nat, z: nat, f: nat)
    requires key.Valid() && key.p * key.q > 1 && ModInverse(z, key.p * key.q).Some? && z < key.p * key.q
    requires (m * ModPow(f, key.e, key.p * key.q)) % (key.p * key.q) == z
    ensures ModInverse(f, key.p * key.q).Some?
  {
    hide Rem, Pow, ModPow, IsPrime, OneModulo, ExtGcd;
    var n := key.p * key.q;
    var j := ModInverse(z, n).value;
    ExponentIsSome(key);
    var fe, g := ModPow(f, key.e, n), Pow(f, key.e - 1);
    PowStep(f, key.e);
    ModPowIs(f, key.e, n);
    RemOf(m * fe, n);
    RemOf(z * j, n);
    SmallMod(z, n);
    RemOf(z, n);
    Chain(n, m, fe, f, g, z, j);
    MulNonNegative(m, g);
    MulNonNegative(m * g, j);
    RemOf(f * (m * g * j), n);
    InverseExists(f, m * g * j, n);
  }

  lemma Chain(n: nat, m: int, fe: int, f: int, g: int, z: int, j: int)
    requires n > 0 && Rem(fe, n) == Rem(f * g, n) && Rem(m * fe, n) == Rem(z, n)
    ensures Rem(f * (m * g * j), n) == Rem(z * j, n)
  {
    hide Rem;
    RemMul(m, fe, m, f * g, n);
    OneFactor(m * (f * g), z, j, n);
    Regroup(m, f, g, j);
  }

  lemma Regroup(m: int, f: int, g: int, j: int)
    ensures (m * (f * g)) * j == f * (m * g * j)
  {
  }

  /** A matching exponent is not zero. */
  lemma ExponentIsSome(key: MonthKey)
    requires key.Valid()
    ensures key.e > 0
  {
  }
}
