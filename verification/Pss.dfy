/** The deterministic encoding a note is signed in: EMSA-PSS with an empty salt
    (sections 9.1.1 and 9.1.2 of RFC 8017), over a 48-byte hash. */
module Pss {
  import opened Wrappers
  import opened NumberTheory
  import opened Bytes

  const H_LEN := 48

  function NoHash(x: seq<byte>): seq<byte> {
    Zeros(H_LEN)
  }

  /** SHA-384 as far as the encoding cares: some function to 48 bytes. */
  type Hash = h: seq<byte> -> seq<byte> | forall x :: |h(x)| == H_LEN witness NoHash

  function Block(hash: Hash, seed: seq<byte>, counter: nat): (r: seq<byte>)
    ensures |r| == H_LEN
  {
    hash(seed + ToFixed(counter, 4))
  }

  function Blocks(hash: Hash, seed: seq<byte>, count: nat): (r: seq<byte>)
    ensures |r| == 48 * count
  {
    if count == 0 then [] else Blocks(hash, seed, count - 1) + Block(hash, seed, count - 1)
  }

  /** MGF1: the hash of the seed and a counter, again and again, cut to length. */
  function Mgf1(hash: Hash, seed: seq<byte>, len: nat): (r: seq<byte>)
    ensures |r| == len
  {
    Blocks(hash, seed, (len + 47) / 48)[..len]
  }

  lemma NoBlocks(hash: Hash, seed: seq<byte>)
    ensures Blocks(hash, seed, 0) == []
  {
  }

  lemma OneMoreBlock(hash: Hash, seed: seq<byte>, counter: nat)
    ensures Blocks(hash, seed, counter + 1) == Blocks(hash, seed, counter) + Block(hash, seed, counter)
  {
  }

  lemma BlocksFor(hash: Hash, seed: seq<byte>, len: nat, counter: nat)
    requires len <= 48 * counter < len + 48
    ensures Mgf1(hash, seed, len) == Blocks(hash, seed, counter)[..len]
  {
    hide Blocks;
    assert counter == (len + 47) / 48;
  }

  method ComputeMgf1(hash: Hash, seed: seq<byte>, len: nat) returns (out: seq<byte>)
    ensures out == Mgf1(hash, seed, len)
  {
    hide Block, Blocks, Mgf1;
    NoBlocks(hash, seed);
    out := [];
    var counter := 0;
    while |out| < len
      invariant out == Blocks(hash, seed, counter)
      invariant |out| == 48 * counter < len + 48
    {
      OneMoreBlock(hash, seed, counter);
      out := out + Block(hash, seed, counter);
      counter := counter + 1;
    }
    BlocksFor(hash, seed, len, counter);
    out := out[..len];
  }

  function EmLen(emBits: nat): nat {
    (emBits + 7) / 8
  }

  function Unused(emBits: nat): (top: nat)
    requires emBits > 0
    ensures top < 8
  {
    8 * EmLen(emBits) - emBits
  }

  /** A block xored with the mask, and its first byte cut to the bits in use (the mask 0xFF >> top). */
  function Whiten(a: seq<byte>, mask: seq<byte>, top: nat): (r: seq<byte>)
    requires |a| == |mask| > 0 && top < 8
    ensures |r| == |a| && r[0] == Low(Xor(a[0], mask[0]), 8 - top)
    ensures forall i :: 0 < i < |a| ==> r[i] == Xor(a[i], mask[i])
  {
    seq(|a|, i requires 0 <= i < |a| => Xor(a[i], mask[i]))[0 := Low(Xor(a[0], mask[0]), 8 - top)]
  }

  /** Whitening undoes itself on a block whose first byte has no bit out of use. */
  lemma WhitenTwice(a: seq<byte>, mask: seq<byte>, top: nat)
    requires |a| == |mask| > 0 && top < 8 && Low(a[0], 8 - top) == a[0]
    ensures Whiten(Whiten(a, mask, top), mask, top) == a
    ensures Low(Whiten(a, mask, top)[0], 8 - top) == Whiten(a, mask, top)[0]
  {
    LowIsWhole(Low(Xor(a[0], mask[0]), 8 - top), 8 - top);
    var w := Whiten(a, mask, top);
    var again := Whiten(w, mask, top);
    assert again[0] == a[0] by {
      XorLowTwice(a[0], mask[0], 8 - top, 8);
    }
    forall i | 0 < i < |a| ensures again[i] == a[i] {
      XorTwice(a[i], mask[i]);
    }
  }

  /** The hash the encoding ends with: of eight zero bytes and the message's own hash. */
  function Tail(hash: Hash, msg: seq<byte>): seq<byte> {
    hash(Zeros(8) + hash(msg))
  }

  function Padding(len: nat): (r: seq<byte>)
    requires len > 0
    ensures |r| == len
  {
    Zeros(len - 1) + [1]
  }

  /** Zeros and a one, whitened by the mask grown from `h`. */
  function Masked(hash: Hash, h: seq<byte>, len: nat, top: nat): (r: seq<byte>)
    requires len > 0 && top < 8
    ensures |r| == len
  {
    Whiten(Padding(len), Mgf1(hash, h, len), top)
  }

  /** The check on the first part of an encoding: unwhitened, it is zeros and a one. */
  predicate Unmasks(hash: Hash, masked: seq<byte>, h: seq<byte>, top: nat)
    requires |masked| > 0 && top < 8
  {
    if Low(masked[0], 8 - top) != masked[0] then
      false
    else
      var db := Whiten(masked, Mgf1(hash, h, |masked|), top);
      var psLen := |masked| - 1;
      !(exists i :: 0 <= i < psLen && db[i] != 0) && db[psLen] == 1
  }

  lemma UnmasksTheMasked(hash: Hash, h: seq<byte>, len: nat, top: nat)
    requires len > 0 && top < 8
    ensures Unmasks(hash, Masked(hash, h, len, top), h, top)
  {
    hide Whiten, Mgf1, Low, Xor;
    var db := Padding(len);
    PaddingFits(len, 8 - top);
    WhitenTwice(db, Mgf1(hash, h, len), top);
  }

  lemma PaddingFits(len: nat, bits: nat)
    requires len > 0 && bits > 0
    ensures Low(Padding(len)[0], bits) == Padding(len)[0]
  {
    assert Low(0, bits - 1) < Pow(2, bits - 1);
    assert Pow(2, bits) == 2 * Pow(2, bits - 1);
    LowIsWhole(Padding(len)[0], bits);
  }

  lemma OnlyTheMaskedUnmasks(hash: Hash, masked: seq<byte>, h: seq<byte>, top: nat)
    requires |masked| > 0 && top < 8 && Unmasks(hash, masked, h, top)
    ensures masked == Masked(hash, h, |masked|, top)
  {
    var mask := Mgf1(hash, h, |masked|);
    WhitenTwice(masked, mask, top);
    IsPadding(Whiten(masked, mask, top));
  }

  function Encode(hash: Hash, msg: seq<byte>, emBits: nat): Result<seq<byte>, string>
    requires emBits > 0
  {
    var emLen := EmLen(emBits);
    if emLen < H_LEN + 2 then
      Err("the key is too small for the encoding")
    else
      var h := Tail(hash, msg);
      Ok(Masked(hash, h, emLen - H_LEN - 1, Unused(emBits)) + h + [0xbc])
  }

  predicate Verify(hash: Hash, msg: seq<byte>, em: seq<byte>, emBits: nat)
    requires emBits > 0
  {
    var emLen := EmLen(emBits);
    if |em| != emLen || em[emLen - 1] != 0xbc || emLen < H_LEN + 2 then
      false
    else
      var masked, rest := em[..emLen - H_LEN - 1], em[emLen - H_LEN - 1..];
      var h := rest[..H_LEN];
      Unmasks(hash, masked, h, Unused(emBits)) && Tail(hash, msg) == h
  }

  /** One encoding per message: verification accepts exactly the bytes that encoding makes. */
  lemma VerifiesOnlyTheEncoding(hash: Hash, msg: seq<byte>, em: seq<byte>, emBits: nat)
    requires emBits > 0
    ensures Verify(hash, msg, em, emBits) <==> Encode(hash, msg, emBits) == Ok(em)
  {
    if Verify(hash, msg, em, emBits) { VerifiedIsEncoding(hash, msg, em, emBits); }
    if Encode(hash, msg, emBits) == Ok(em) { EncodingVerifies(hash, msg, em, emBits); }
  }

  lemma VerifiedIsEncoding(hash: Hash, msg: seq<byte>, em: seq<byte>, emBits: nat)
    requires emBits > 0 && Verify(hash, msg, em, emBits)
    ensures Encode(hash, msg, emBits) == Ok(em)
  {
    hide Unmasks, Masked, Tail, Unused;
    var n := EmLen(emBits) - H_LEN - 1;
    OnlyTheMaskedUnmasks(hash, em[..n], em[n..][..H_LEN], Unused(emBits));
    Pieces(em, n, H_LEN);
  }

  lemma EncodingVerifies(hash: Hash, msg: seq<byte>, em: seq<byte>, emBits: nat)
    requires emBits > 0 && Encode(hash, msg, emBits) == Ok(em)
    ensures Verify(hash, msg, em, emBits)
  {
    var n := EmLen(emBits) - H_LEN - 1;
    var h := Tail(hash, msg);
    var masked := Masked(hash, h, n, Unused(emBits));
    assert |masked| == n && |h| == H_LEN;
    Joined(masked, h, 0xbc);
    assert em == masked + h + [0xbc];
    assert em[..n] == masked && em[n..][..H_LEN] == h;
    UnmasksTheMasked(hash, h, n, Unused(emBits));
  }

  lemma Joined(a: seq<byte>, b: seq<byte>, c: byte)
    ensures var s := a + b + [c];
            s[..|a|] == a && s[|a|..][..|b|] == b && s[|s| - 1] == c
  {
  }

  lemma IsPadding(db: seq<byte>)
    requires |db| > 0 && db[|db| - 1] == 1 && !(exists i :: 0 <= i < |db| - 1 && db[i] != 0)
    ensures db == Padding(|db|)
  {
  }

  lemma Pieces(em: seq<byte>, n: nat, m: nat)
    requires |em| == n + m + 1
    ensures em == em[..n] + em[n..][..m] + [em[n + m]]
  {
  }

  /** With one bit to spare at the top, the encoding is below half of what its bytes can say. */
  lemma EncodingIsSmall(hash: Hash, msg: seq<byte>, k: nat)
    requires k >= H_LEN + 2
    ensures var em := Encode(hash, msg, 8 * k - 1);
            em.Ok? && |em.value| == k && em.value[0] < 128
  {
    hide Masked, Tail, EmLen, Unused;
    WholeBytes(k);
    TailLength(hash, msg);
    MaskedIsSmall(hash, Tail(hash, msg), k - H_LEN - 1);
  }

  lemma WholeBytes(k: nat)
    requires k > 0
    ensures EmLen(8 * k - 1) == k && Unused(8 * k - 1) == 1
  {
  }

  lemma TailLength(hash: Hash, msg: seq<byte>)
    ensures |Tail(hash, msg)| == H_LEN
  {
  }

  lemma MaskedIsSmall(hash: Hash, h: seq<byte>, n: nat)
    requires n > 0
    ensures Masked(hash, h, n, 1)[0] < 128
  {
    hide Mgf1;
    assert Pow(2, 7) == 128;
  }
}
