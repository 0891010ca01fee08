/** Bytes, their bit operations, and numbers written as bytes, most significant first. */
module Bytes {
  import opened NumberTheory

  type byte = x: int | 0 <= x < 256

  /** Exclusive or of the low `n` bits, bit by bit. */
  function XorBits(a: nat, b: nat, n: nat): (r: nat)
    ensures r < Pow(2, n)
  {
    if n == 0 then 0 else (a % 2 + b % 2) % 2 + 2 * XorBits(a / 2, b / 2, n - 1)
  }

  lemma EightBits()
    ensures Pow(2, 8) == 256
  {
  }

  function Xor(a: byte, b: byte): byte {
    EightBits();
    XorBits(a, b, 8)
  }

  /** The low `n` bits of a number. */
  function Low(a: nat, n: nat): (r: nat)
    ensures r <= a && r < Pow(2, n)
  {
    if n == 0 then 0 else a % 2 + 2 * Low(a / 2, n - 1)
  }

  lemma XorHalves(a: nat, b: nat, n: nat)
    requires n > 0
    ensures XorBits(a, b, n) % 2 == (a % 2 + b % 2) % 2
    ensures XorBits(a, b, n) / 2 == XorBits(a / 2, b / 2, n - 1)
  {
  }

  lemma LowHalves(a: nat, n: nat)
    requires n > 0
    ensures Low(a, n) % 2 == a % 2 && Low(a, n) / 2 == Low(a / 2, n - 1)
  {
  }

  /** Xored, cut to the low bits, xored again and cut again: the low bits of what went in. */
  lemma {:induction false} XorLowTwice(a: nat, m: nat, j: nat, n: nat)
    requires j <= n
    ensures Low(XorBits(Low(XorBits(a, m, n), j), m, n), j) == Low(a, j)
  {
    if j > 0 {
      XorLowTwice(a / 2, m / 2, j - 1, n - 1);
      XorLowStep(a, m, j, n);
    }
  }

  lemma XorLowStep(a: nat, m: nat, j: nat, n: nat)
    requires 0 < j <= n
    requires Low(XorBits(Low(XorBits(a / 2, m / 2, n - 1), j - 1), m / 2, n - 1), j - 1) == Low(a / 2, j - 1)
    ensures Low(XorBits(Low(XorBits(a, m, n), j), m, n), j) == Low(a, j)
  {
    hide XorBits, Low, Pow;
    var once := XorBits(a, m, n);
    var cut := Low(once, j);
    var twice := XorBits(cut, m, n);
    XorHalves(a, m, n);
    LowHalves(once, j);
    XorHalves(cut, m, n);
    LowHalves(twice, j);
    LowHalves(a, j);
    BitBack(a % 2, m % 2);
  }

  lemma BitBack(a: nat, m: nat)
    requires a < 2 && m < 2
    ensures ((a + m) % 2 + m) % 2 == a
  {
  }

  lemma {:induction false} LowIsWhole(a: nat, n: nat)
    requires a < Pow(2, n)
    ensures Low(a, n) == a
  {
    if n > 0 {
      LowIsWhole(a / 2, n - 1);
    }
  }

  lemma XorTwice(a: byte, b: byte)
    ensures Xor(Xor(a, b), b) == a
  {
    EightBits();
    XorLowTwice(a, b, 8, 8);
    LowIsWhole(a, 8);
    LowIsWhole(XorBits(a, b, 8), 8);
    LowIsWhole(Xor(Xor(a, b), b), 8);
  }

  // ---- numbers as bytes ------------------------------------------------------------------

  function FromBe(s: seq<byte>): nat {
    if s == [] then 0 else FromBe(s[..|s| - 1]) * 256 + s[|s| - 1]
  }

  /** The shortest form: one byte for zero, no leading zero otherwise. */
  function MinimalBe(x: nat): (r: seq<byte>)
    ensures |r| > 0
  {
    if x < 256 then [x] else MinimalBe(x / 256) + [x % 256]
  }

  function Zeros(len: nat): (r: seq<byte>)
    ensures |r| == len && forall i :: 0 <= i < len ==> r[i] == 0
  {
    seq(len, _ => 0)
  }

  /** At least `len` bytes, zeros in front. */
  function ToFixed(x: nat, len: nat): seq<byte> {
    var b := MinimalBe(x);
    Zeros(if len <= |b| then 0 else len - |b|) + b
  }

  lemma {:induction false} FromBeLess(s: seq<byte>)
    ensures FromBe(s) < Pow(256, |s|)
  {
    if s != [] {
      FromBeLess(s[..|s| - 1]);
    }
  }

  lemma {:induction false} FromBeInjective(s: seq<byte>, t: seq<byte>)
    requires |s| == |t| && FromBe(s) == FromBe(t)
    ensures s == t
  {
    if s != [] {
      var n := |s| - 1;
      FromBeInjective(s[..n], t[..n]);
      assert s == s[..n] + [s[n]] && t == t[..n] + [t[n]];
    }
  }

  lemma {:induction false} LeadingZeros(n: nat, s: seq<byte>)
    ensures FromBe(Zeros(n) + s) == FromBe(s)
  {
    var w := Zeros(n) + s;
    if |w| == 0 {
    } else if s == [] {
      assert w[..|w| - 1] == Zeros(n - 1) + [];
      LeadingZeros(n - 1, []);
    } else {
      assert w[..|w| - 1] == Zeros(n) + s[..|s| - 1];
      LeadingZeros(n, s[..|s| - 1]);
    }
  }

  lemma {:induction false} MinimalBeValue(x: nat)
    ensures FromBe(MinimalBe(x)) == x
  {
    if x < 256 {
      var b: seq<byte> := [x];
      assert b[..0] == [];
    } else {
      MinimalBeValue(x / 256);
      var b: seq<byte> := MinimalBe(x / 256) + [x % 256];
      assert b[..|b| - 1] == MinimalBe(x / 256);
    }
  }

  lemma {:induction false} MinimalBeLength(x: nat, len: nat)
    requires len > 0 && x < Pow(256, len)
    ensures |MinimalBe(x)| <= len
  {
    if x >= 256 {
      assert Pow(256, len) == 256 * Pow(256, len - 1);
      MinimalBeLength(x / 256, len - 1);
    }
  }

  /** A number that fits is written in exactly `len` bytes and read back unchanged. */
  lemma ToFixedRoundTrip(x: nat, len: nat)
    requires len > 0 && x < Pow(256, len)
    ensures |ToFixed(x, len)| == len && FromBe(ToFixed(x, len)) == x
  {
    MinimalBeValue(x);
    MinimalBeLength(x, len);
    LeadingZeros(len - |MinimalBe(x)|, MinimalBe(x));
  }

  /** The bytes of a fixed-length number come back as they were. */
  lemma FromBeRoundTrip(s: seq<byte>)
    requires |s| > 0
    ensures ToFixed(FromBe(s), |s|) == s
  {
    FromBeLess(s);
    ToFixedRoundTrip(FromBe(s), |s|);
    FromBeInjective(ToFixed(FromBe(s), |s|), s);
  }

  lemma {:induction false} TopByte(s: seq<byte>)
    requires |s| > 0 && s[0] < 128
    ensures FromBe(s) < 128 * Pow(256, |s| - 1)
  {
    if |s| == 1 {
      assert s[..0] == [];
    } else {
      TopByte(s[..|s| - 1]);
    }
  }
}
