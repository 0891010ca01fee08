/** The bytes that notes, masks and encodings consist of, place by place, as section 4 of RFC 9474 and
    sections 9.1.1 and B.2.1 of RFC 8017 lay them out. */
module Layouts {
  import opened Wrappers
  import opened NumberTheory
  import opened Bytes
  import Pss
  import opened BlindNotes

  // ---- bits and numbers ----------------------------------------------------------------------------------

  function Bit(a: nat, i: nat): nat {
    if i == 0 then a % 2 else Bit(a / 2, i - 1)
  }

  /** Exclusive or is one where just one of the bits is. */
  lemma {:induction false} XorBitIs(a: nat, b: nat, n: nat, i: nat)
    requires i < n
    ensures Bit(XorBits(a, b, n), i) == if Bit(a, i) == Bit(b, i) then 0 else 1
  {
    XorHalves(a, b, n);
    if i > 0 { XorBitIs(a / 2, b / 2, n - 1, i - 1); }
  }

  /** The low bits are the remainder by a power of two. */
  lemma {:induction false} LowIsRemainder(a: nat, n: nat)
    ensures exists high: nat :: a == high * Pow(2, n) + Low(a, n)
  {
    if n == 0 {
      assert a == a * Pow(2, 0) + Low(a, 0);
    } else {
      LowIsRemainder(a / 2, n - 1);
      var high: nat :| a / 2 == high * Pow(2, n - 1) + Low(a / 2, n - 1);
      Twice(high, Pow(2, n - 1));
      assert a == high * Pow(2, n) + Low(a, n);
    }
  }

  lemma Twice(a: nat, b: nat)
    ensures 2 * (a * b) == a * (2 * b)
  {
  }

  /** A number in `len` bytes: byte `i` is that many times 256 divided away. */
  lemma {:induction false} ByteIs(x: nat, len: nat, i: nat)
    requires i < len && x < Pow(256, len)
    ensures ToFixed(x, len)[len - 1 - i] == Shifted(x, i) % 256
  {
    ToFixedRoundTrip(x, len);
    FromBeByte(ToFixed(x, len), i);
  }

  function Shifted(x: nat, i: nat): nat {
    if i == 0 then x else Shifted(x / 256, i - 1)
  }

  lemma {:induction false} FromBeByte(s: seq<byte>, i: nat)
    requires i < |s|
    ensures Shifted(FromBe(s), i) % 256 == s[|s| - 1 - i]
    decreases |s|
  {
    var n := |s| - 1;
    assert FromBe(s) / 256 == FromBe(s[..n]) && FromBe(s) % 256 == s[n];
    if i > 0 { FromBeByte(s[..n], i - 1); }
  }

  /** Written to a length a number loses nothing, and is longer only if it does not fit. */
  lemma NothingIsCut(x: nat, len: nat)
    ensures FromBe(ToFixed(x, len)) == x && |ToFixed(x, len)| >= len
    ensures len > 0 && x < Pow(256, len) ==> |ToFixed(x, len)| == len
  {
    MinimalBeValue(x);
    if len > 0 && x < Pow(256, len) { ToFixedRoundTrip(x, len); }
    var b := MinimalBe(x);
    LeadingZeros(if len <= |b| then 0 else len - |b|, b);
  }

  // ---- a note --------------------------------------------------------------------------------------------

  /** 36 bytes: the format's version, the tier, the month in two bytes, and the nonce. */
  lemma NoteLayout(note: Note)
    requires note.Valid()
    ensures var b := note.ToBytes();
            && |b| == 36 && b[0] == 1 && b[1] == note.tier && 256 * (b[2] as int) + b[3] == note.epoch
            && forall i :: 0 <= i < 32 ==> b[4 + i] == note.nonce[i]
  {
    assert Pow(256, 2) == 65536 by { assert Pow(256, 1) == 256 * Pow(256, 0); }
    ByteIs(note.epoch, 2, 0);
    ByteIs(note.epoch, 2, 1);
    assert Shifted(note.epoch, 1) == Shifted(note.epoch / 256, 0);
    ToFixedRoundTrip(note.epoch, 2);
    var b := note.ToBytes();
    assert b[2] == ToFixed(note.epoch, 2)[0] && b[3] == ToFixed(note.epoch, 2)[1];
  }

  // ---- the mask ------------------------------------------------------------------------------------------

  /** Where each of a row of blocks lies in all of them. */
  lemma {:induction false} InTheRow(all: nat -> seq<byte>, block: nat -> seq<byte>, count: nat, c: nat, i: nat)
    requires forall k: nat :: |all(k)| == 48 * k && |block(k)| == 48 && all(k + 1) == all(k) + block(k)
    requires c < count && i < 48
    ensures all(count)[48 * c + i] == block(c)[i]
  {
    var n := count - 1;
    assert all(n + 1) == all(n) + block(n);
    if c < n { InTheRow(all, block, n, c, i); }
  }

  lemma BlockAt(hash: Pss.Hash, seed: seq<byte>, count: nat, c: nat, i: nat)
    requires c < count && i < 48
    ensures Pss.Blocks(hash, seed, count)[48 * c + i] == Pss.Block(hash, seed, c)[i]
  {
    hide Pss.Blocks, Pss.Block;
    var all, block := (k: nat) => Pss.Blocks(hash, seed, k), (k: nat) => Pss.Block(hash, seed, k);
    forall k: nat ensures |all(k)| == 48 * k && |block(k)| == 48 && all(k + 1) == all(k) + block(k) {
      Pss.OneMoreBlock(hash, seed, k);
    }
    InTheRow(all, block, count, c, i);
  }

  function FourBytes(c: nat): seq<byte> {
    [c / 0x100_0000 % 256, c / 0x1_0000 % 256, c / 256 % 256, c % 256]
  }

  lemma FourBytesAre(c: nat)
    requires c < 0x1_0000_0000
    ensures ToFixed(c, 4) == FourBytes(c)
  {
    assert Pow(256, 4) == 0x1_0000_0000 by {
      assert Pow(256, 2) == 65536 by { assert Pow(256, 1) == 256 * Pow(256, 0); }
      PowAdd(256, 2, 2);
    }
    ByteIs(c, 4, 0);
    ByteIs(c, 4, 1);
    ByteIs(c, 4, 2);
    ByteIs(c, 4, 3);
    ToFixedRoundTrip(c, 4);
    ShiftedThrice(c);
    var s := ToFixed(c, 4);
    assert s == [s[0], s[1], s[2], s[3]];
  }

  lemma ShiftedThrice(c: nat)
    ensures Shifted(c, 0) == c && Shifted(c, 1) == c / 256 && Shifted(c, 2) == c / 0x1_0000 && Shifted(c, 3) == c / 0x100_0000
  {
    assert Shifted(c, 1) == Shifted(c / 256, 0);
    assert Shifted(c, 2) == Shifted(c / 256, 1) == Shifted(c / 256 / 256, 0);
    assert Shifted(c, 3) == Shifted(c / 256, 2) == Shifted(c / 256 / 256, 1) == Shifted(c / 256 / 256 / 256, 0);
  }

  /** Byte `i` of the mask is byte `i % 48` of the hash of the seed and the counter `i / 48`, the seed in
      front and the counter behind it in four bytes. */
  lemma MaskByteIs(hash: Pss.Hash, seed: seq<byte>, len: nat, i: nat)
    requires i < len <= 48 * 0x1_0000_0000
    ensures Pss.Mgf1(hash, seed, len)[i] == hash(seed + FourBytes(i / 48))[i % 48]
  {
    hide Pss.Blocks, Pss.Block;
    var c, count := i / 48, (len + 47) / 48;
    BlockAt(hash, seed, count, c, i % 48);
    BlockBytes(hash, seed, c);
  }

  lemma BlockBytes(hash: Pss.Hash, seed: seq<byte>, c: nat)
    requires c < 0x1_0000_0000
    ensures Pss.Block(hash, seed, c) == hash(seed + FourBytes(c))
  {
    FourBytesAre(c);
  }

  // ---- the encoding --------------------------------------------------------------------------------------

  /** An encoding of 8k - 1 bits, from its end: the trailer; the hash of eight zero bytes and the
      message's hash; and in front zeros and a one, each bit turned where the mask has one, but for the
      first of all, which is clear. */
  lemma EncodingLayout(hash: Pss.Hash, msg: seq<byte>, k: nat)
    requires k >= 50
    ensures Pss.Encode(hash, msg, 8 * k - 1).Ok?
    ensures var em := Pss.Encode(hash, msg, 8 * k - 1).value;
            && |em| == k && em[k - 1] == 0xbc
            && em[k - 49..k - 1] == hash([0, 0, 0, 0, 0, 0, 0, 0] + hash(msg))
  {
    hide Pss.Masked;
    Pss.EncodingIsSmall(hash, msg, k);
    EightZeros();
    var em, h := Pss.Encode(hash, msg, 8 * k - 1).value, Pss.Tail(hash, msg);
    Pss.TailLength(hash, msg);
    assert em[k - 49..k - 1] == h;
  }

  lemma EightZeros()
    ensures Zeros(8) == [0, 0, 0, 0, 0, 0, 0, 0]
  {
  }

  lemma EncodingBits(hash: Pss.Hash, msg: seq<byte>, k: nat, em: seq<byte>, h: seq<byte>, i: nat, bit: nat)
    requires k >= 50 && Pss.Encode(hash, msg, 8 * k - 1) == Ok(em) && h == hash([0, 0, 0, 0, 0, 0, 0, 0] + hash(msg))
    requires i < k - 49 && bit < 8
    ensures |em| == k
    ensures Bit(em[i], bit) == MaskedBitOf(hash, h, k - 49, i, bit)
  {
    hide Bit, MaskedBitOf, Pss.Encode, Pss.Masked;
    EncodingFront(hash, msg, k, em, h, i);
    MaskedBit(hash, h, k - 49, i, bit);
  }

  lemma EncodingFront(hash: Pss.Hash, msg: seq<byte>, k: nat, em: seq<byte>, h: seq<byte>, i: nat)
    requires k >= 50 && Pss.Encode(hash, msg, 8 * k - 1) == Ok(em) && h == hash([0, 0, 0, 0, 0, 0, 0, 0] + hash(msg))
    requires i < k - 49
    ensures |em| == k && em[i] == Pss.Masked(hash, h, k - 49, 1)[i]
  {
    hide Pss.Encode, Pss.Masked, Pss.Tail;
    EncodingIs(hash, msg, k);
    TailIs(hash, msg);
    Parts(Pss.Masked(hash, h, k - 49, 1), h, 0xbc);
  }

  lemma TailIs(hash: Pss.Hash, msg: seq<byte>)
    ensures Pss.Tail(hash, msg) == hash([0, 0, 0, 0, 0, 0, 0, 0] + hash(msg))
  {
    EightZeros();
  }

  /** Zeros and a one, turned where the mask has a bit, and the first bit of all clear. */
  function MaskedBitOf(hash: Pss.Hash, h: seq<byte>, len: nat, i: nat, bit: nat): int
    requires i < len
  {
    if i == 0 && bit == 7 then 0
    else if i == len - 1 && bit == 0 then 1 - MaskBit(hash, h, len, i, bit)
    else MaskBit(hash, h, len, i, bit)
  }

  function MaskBit(hash: Pss.Hash, seed: seq<byte>, len: nat, i: nat, bit: nat): nat
    requires i < len
  {
    Bit(Pss.Mgf1(hash, seed, len)[i], bit)
  }

  lemma EncodingIs(hash: Pss.Hash, msg: seq<byte>, k: nat)
    requires k >= 50
    ensures var h := Pss.Tail(hash, msg);
            |h| == 48 && Pss.Encode(hash, msg, 8 * k - 1) == Ok(Pss.Masked(hash, h, k - 49, 1) + h + [0xbc])
  {
    hide Pss.Masked, Pss.Tail, Pss.EmLen, Pss.Unused;
    Pss.TailLength(hash, msg);
    Pss.WholeBytes(k);
  }

  lemma Parts(a: seq<byte>, b: seq<byte>, c: byte)
    ensures var s := a + b + [c];
            |s| == |a| + |b| + 1 && s[|a|..|a| + |b|] == b && forall i :: 0 <= i < |a| ==> s[i] == a[i]
  {
  }

  lemma MaskedBit(hash: Pss.Hash, h: seq<byte>, len: nat, i: nat, bit: nat)
    requires i < len && bit < 8
    ensures Bit(Pss.Masked(hash, h, len, 1)[i], bit) == MaskedBitOf(hash, h, len, i, bit)
  {
    hide Pss.Padding, Pss.Mgf1, Pss.Whiten, Xor, Low, Bit;
    var pad, mask := Pss.Padding(len), Pss.Mgf1(hash, h, len);
    XorByteBit(pad[i], mask[i], bit);
    PaddingBit(len, i, bit);
    BitIsBit(mask[i], bit);
    if i == 0 { LowBit(Xor(pad[0], mask[0]), 7, bit); }
  }

  lemma XorByteBit(a: byte, b: byte, bit: nat)
    requires bit < 8
    ensures Bit(Xor(a, b), bit) == if Bit(a, bit) == Bit(b, bit) then 0 else 1
  {
    XorBitIs(a, b, 8, bit);
  }

  lemma {:induction false} BitIsBit(a: nat, i: nat)
    ensures Bit(a, i) < 2
  {
    if i > 0 { BitIsBit(a / 2, i - 1); }
  }

  lemma PaddingBit(len: nat, i: nat, bit: nat)
    requires i < len && bit < 8
    ensures Bit(Pss.Padding(len)[i], bit) == if i == len - 1 && bit == 0 then 1 else 0
  {
    NoBits(bit);
    if bit > 0 { NoBits(bit - 1); }
  }

  lemma {:induction false} NoBits(bit: nat)
    ensures Bit(0, bit) == 0
  {
    if bit > 0 { NoBits(bit - 1); }
  }

  lemma {:induction false} LowBit(a: nat, n: nat, bit: nat)
    ensures Bit(Low(a, n), bit) == if bit < n then Bit(a, bit) else 0
  {
    if n == 0 {
      NoBits(bit);
    } else {
      LowHalves(a, n);
      if bit > 0 { LowBit(a / 2, n - 1, bit - 1); }
    }
  }
}
