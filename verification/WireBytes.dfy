/** Bytes, masking and big-endian numbers. */
module WireBytes {
  newtype byte = x: int | 0 <= x < 256

  /** What a Go byte slice can hold: its length is a non-negative 64-bit int. */
  const MAX_LEN: int := 0x8000_0000_0000_0000
  type Payload = s: seq<byte> | |s| < MAX_LEN

  type Mask = m: seq<byte> | |m| == 4 witness [0, 0, 0, 0]

  function Pow2(n: nat): nat {
    if n == 0 then 1 else 2 * Pow2(n - 1)
  }

  /** Exclusive or of two numbers of `n` bits, bit by bit. */
  function XorBits(a: nat, b: nat, n: nat): (r: nat)
    requires a < Pow2(n) && b < Pow2(n)
    ensures r < Pow2(n)
  {
    if n == 0 then 0 else 2 * XorBits(a / 2, b / 2, n - 1) + if a % 2 == b % 2 then 0 else 1
  }

  lemma {:induction false} XorBitsTwice(a: nat, b: nat, n: nat)
    requires a < Pow2(n) && b < Pow2(n)
    ensures XorBits(XorBits(a, b, n), b, n) == a
  {
    if n > 0 {
      XorBitsTwice(a / 2, b / 2, n - 1);
      var r := XorBits(a, b, n);
      assert r / 2 == XorBits(a / 2, b / 2, n - 1) && r % 2 == if a % 2 == b % 2 then 0 else 1;
    }
  }

  lemma {:induction false} XorBitsNothing(a: nat, n: nat)
    requires a < Pow2(n)
    ensures 0 < Pow2(n) && XorBits(a, 0, n) == a
  {
    if n > 0 { XorBitsNothing(a / 2, n - 1); }
  }

  lemma EightBits()
    ensures Pow2(8) == 256
  {
    assert Pow2(4) == 16;
  }

  function Xor(a: byte, b: byte): byte {
    EightBits();
    XorBits(a as nat, b as nat, 8) as byte
  }

  lemma XorTwice(a: byte, b: byte)
    ensures Xor(Xor(a, b), b) == a
  {
    EightBits();
    XorBitsTwice(a as nat, b as nat, 8);
  }

  lemma XorNothing(a: byte)
    ensures Xor(a, 0) == a
  {
    EightBits();
    XorBitsNothing(a as nat, 8);
  }

  predicate BitAt(x: nat, k: nat) {
    if k == 0 then x % 2 == 1 else BitAt(x / 2, k - 1)
  }

  lemma {:induction false} XorBitAt(a: nat, b: nat, n: nat, k: nat)
    requires a < Pow2(n) && b < Pow2(n) && k < n
    ensures BitAt(XorBits(a, b, n), k) <==> BitAt(a, k) != BitAt(b, k)
  {
    var r := XorBits(a, b, n);
    assert r / 2 == XorBits(a / 2, b / 2, n - 1) && r % 2 == if a % 2 == b % 2 then 0 else 1;
    if k > 0 { XorBitAt(a / 2, b / 2, n - 1, k - 1); }
  }

  /** A bit of a byte, by its weight. */
  predicate Bit(x: byte, weight: int)
    requires weight > 0
  {
    x as int / weight % 2 == 1
  }

  lemma LowBits(x: nat)
    ensures BitAt(x, 0) <==> x % 2 == 1
    ensures BitAt(x, 1) <==> x / 2 % 2 == 1
    ensures BitAt(x, 2) <==> x / 4 % 2 == 1
    ensures BitAt(x, 3) <==> x / 8 % 2 == 1
  {
    assert x / 2 / 2 == x / 4 && x / 4 / 2 == x / 8;
    assert BitAt(x, 1) == BitAt(x / 2, 0) && BitAt(x, 2) == BitAt(x / 2, 1) == BitAt(x / 4, 0);
    assert BitAt(x, 3) == BitAt(x / 2, 2) == BitAt(x / 4, 1) == BitAt(x / 8, 0);
  }

  lemma HighBits(x: nat, k: nat)
    ensures BitAt(x, k + 4) <==> BitAt(x / 16, k)
  {
    assert x / 2 / 2 == x / 4 && x / 4 / 2 == x / 8 && x / 8 / 2 == x / 16;
    assert BitAt(x, k + 4) == BitAt(x / 2, k + 3) == BitAt(x / 4, k + 2) == BitAt(x / 8, k + 1) == BitAt(x / 16, k);
  }

  lemma BitsByWeight(x: byte)
    ensures Bit(x, 1) == BitAt(x as nat, 0) && Bit(x, 2) == BitAt(x as nat, 1)
    ensures Bit(x, 4) == BitAt(x as nat, 2) && Bit(x, 8) == BitAt(x as nat, 3)
    ensures Bit(x, 16) == BitAt(x as nat, 4) && Bit(x, 32) == BitAt(x as nat, 5)
    ensures Bit(x, 64) == BitAt(x as nat, 6) && Bit(x, 128) == BitAt(x as nat, 7)
  {
    var n := x as nat;
    LowBits(n);
    LowBits(n / 16);
    HighBits(n, 0);
    HighBits(n, 1);
    HighBits(n, 2);
    HighBits(n, 3);
    assert n / 16 / 2 == n / 32 && n / 16 / 4 == n / 64 && n / 16 / 8 == n / 128;
  }

  lemma XorBit(a: byte, b: byte, k: nat)
    requires k < 8
    ensures BitAt(Xor(a, b) as nat, k) <==> BitAt(a as nat, k) != BitAt(b as nat, k)
  {
    EightBits();
    XorBitAt(a as nat, b as nat, 8, k);
  }

  /** Each of the eight bits is set exactly if one of the two has it. */
  lemma XorIsExclusiveOr(a: byte, b: byte)
    ensures forall weight | weight in {1, 2, 4, 8, 16, 32, 64, 128} ::
              Bit(Xor(a, b), weight) <==> Bit(a, weight) != Bit(b, weight)
  {
    BitsByWeight(a);
    BitsByWeight(b);
    BitsByWeight(Xor(a, b));
    XorBit(a, b, 0);
    XorBit(a, b, 1);
    XorBit(a, b, 2);
    XorBit(a, b, 3);
    XorBit(a, b, 4);
    XorBit(a, b, 5);
    XorBit(a, b, 6);
    XorBit(a, b, 7);
  }

  /** `b ^ mask[i&3]` at every position: masking and unmasking are the same operation. */
  function Masked(mask: Mask, s: seq<byte>): (r: seq<byte>)
    ensures |r| == |s|
  {
    seq(|s|, i requires 0 <= i < |s| => Xor(s[i], mask[i % 4]))
  }

  /** Every masked byte differs from the payload's in the bits of the mask byte whose turn it is. */
  lemma MaskedBits(mask: Mask, s: seq<byte>, j: nat)
    requires j < |s|
    ensures forall weight | weight in {1, 2, 4, 8, 16, 32, 64, 128} ::
              Bit(Masked(mask, s)[j], weight) <==> Bit(s[j], weight) != Bit(mask[j % 4], weight)
  {
    XorIsExclusiveOr(s[j], mask[j % 4]);
  }

  lemma MaskedTwice(mask: Mask, s: seq<byte>)
    ensures Masked(mask, Masked(mask, s)) == s
  {
    forall i | 0 <= i < |s| ensures Masked(mask, Masked(mask, s))[i] == s[i] {
      XorTwice(s[i], mask[i % 4]);
    }
  }

  lemma Assoc(a: seq<byte>, b: seq<byte>, c: seq<byte>)
    ensures a + (b + c) == a + b + c
  {}

  /** The low `width` bytes of `n`, most significant first. */
  function BigEndian(n: nat, width: nat): (r: seq<byte>)
    ensures |r| == width
  {
    if width == 0 then [] else BigEndian(n / 256, width - 1) + [(n % 256) as byte]
  }

  function Value(s: seq<byte>): nat {
    if s == [] then 0 else Value(s[..|s| - 1]) * 256 + s[|s| - 1] as int
  }

  function Pow256(n: nat): nat {
    if n == 0 then 1 else 256 * Pow256(n - 1)
  }

  lemma {:induction false} ValueBound(s: seq<byte>)
    ensures Value(s) < Pow256(|s|)
  {
    if s != [] { ValueBound(s[..|s| - 1]); }
  }

  lemma {:induction false} ValueOfBigEndian(n: nat, width: nat)
    requires n < Pow256(width)
    ensures Value(BigEndian(n, width)) == n
  {
    if width > 0 {
      ValueOfBigEndian(n / 256, width - 1);
      assert BigEndian(n, width)[..width - 1] == BigEndian(n / 256, width - 1);
    }
  }

  lemma {:induction false} BigEndianOfValue(s: seq<byte>)
    ensures BigEndian(Value(s), |s|) == s
  {
    if s != [] {
      BigEndianOfValue(s[..|s| - 1]);
      assert Value(s) / 256 == Value(s[..|s| - 1]);
      assert s == s[..|s| - 1] + [s[|s| - 1]];
    }
  }

  /** The first byte is the most significant. */
  lemma {:induction false} ValueFromFront(a: byte, s: seq<byte>)
    ensures Value([a] + s) == a as int * Pow256(|s|) + Value(s)
  {
    if s == [] {
      assert [a] + s == [a] && [a][..0] == [];
      assert Value([a]) == Value([]) * 256 + a as int;
    } else {
      var n := |s| - 1;
      assert ([a] + s)[..n + 1] == [a] + s[..n] && ([a] + s)[n + 1] == s[n];
      ValueFromFront(a, s[..n]);
    }
  }

  /** The top bit of the first byte is the top bit of the number. */
  lemma {:induction false} TopBit(s: seq<byte>)
    requires s != []
    ensures s[0] >= 128 <==> Value(s) >= 128 * Pow256(|s| - 1)
  {
    if |s| > 1 { TopBit(s[..|s| - 1]); }
  }
}
