/**
 * Bit strings as the TON cell substrate writes them: big-endian unsigned and
 * two's-complement fields, and bytes laid out eight bits at a time.
 */
module Bits {

  type byte = x: int | 0 <= x < 256

  function Pow2(n: nat): (r: nat)
    ensures r >= 1
  {
    if n == 0 then 1 else 2 * Pow2(n - 1)
  }

  lemma {:induction false} Pow2Add(a: nat, b: nat)
    ensures Pow2(a + b) == Pow2(a) * Pow2(b)
  {
    if b > 0 {
      Pow2Add(a, b - 1);
      calc {
        Pow2(a + b);
        2 * Pow2(a + b - 1);
        2 * (Pow2(a) * Pow2(b - 1));
        Pow2(a) * (2 * Pow2(b - 1));
        Pow2(a) * Pow2(b);
      }
    }
  }

  lemma {:induction false} Pow2Monotone(a: nat, b: nat)
    requires a <= b
    ensures Pow2(a) <= Pow2(b)
  {
    if a < b {
      Pow2Monotone(a, b - 1);
    }
  }

  /** Pow2 is strictly increasing, read backwards: a smaller power has a smaller exponent. */
  lemma Pow2Below(a: nat, b: nat)
    requires Pow2(a) < Pow2(b)
    ensures a < b
  {
    if b <= a {
      Pow2Monotone(b, a);
      assert false;
    }
  }

  lemma Pow2Small()
    ensures Pow2(1) == 2 && Pow2(2) == 4 && Pow2(3) == 8 && Pow2(4) == 16
  {
  }

  lemma Pow2Byte()
    ensures Pow2(4) == 16 && Pow2(7) == 128 && Pow2(8) == 256
  {
    Pow2Small();
    Pow2Add(4, 3);
    Pow2Add(4, 4);
  }

  lemma Pow2Uint32()
    ensures Pow2(32) == 0x1_0000_0000
  {
    Pow2Byte();
    Pow2Add(8, 8);
    Pow2Add(16, 16);
  }

  /** The widths the core uses, written out. */
  lemma Pow2Values()
    ensures Pow2(4) == 16 && Pow2(7) == 128 && Pow2(8) == 256
    ensures Pow2(32) == 0x1_0000_0000 && Pow2(64) == 0x1_0000_0000_0000_0000
    ensures Pow2(120) == 0x100_0000_0000_0000_0000_0000_0000_0000
    ensures Pow2(160) == 0x1_0000_0000_0000_0000_0000_0000_0000_0000_0000_0000
  {
    Pow2Byte();
    Pow2Add(8, 8);
    assert Pow2(16) == 0x1_0000;
    Pow2Add(16, 16);
    assert Pow2(32) == 0x1_0000_0000;
    Pow2Add(32, 32);
    assert Pow2(64) == 0x1_0000_0000_0000_0000;
    Pow2Add(64, 32);
    assert Pow2(96) == 0x1_0000_0000_0000_0000_0000_0000;
    Pow2Add(96, 16);
    assert Pow2(112) == 0x1_0000_0000_0000_0000_0000_0000_0000;
    Pow2Add(112, 8);
    Pow2Add(64, 64);
    assert Pow2(128) == 0x1_0000_0000_0000_0000_0000_0000_0000_0000;
    Pow2Add(128, 32);
  }

  /** Regrouping a concatenation of three bit strings. */
  lemma AppendAssoc(a: seq<bool>, b: seq<bool>, c: seq<bool>)
    ensures a + b + c == a + (b + c)
  {
  }

  /** Regrouping a concatenation of four bit strings from the right, as a cell of four fields is read. */
  lemma AppendAssoc4(a: seq<bool>, b: seq<bool>, c: seq<bool>, d: seq<bool>)
    ensures a + b + c + d == a + (b + (c + d))
  {
    AppendAssoc(a + b, c, d);
    AppendAssoc(a, b, c + d);
  }

  /** Bit k of v, counting from the least significant bit. */
  function Bit(v: nat, k: nat): bool
    decreases k
  {
    if k == 0 then v % 2 == 1 else Bit(v / 2, k - 1)
  }

  /** Every bit of zero is clear. */
  lemma {:induction false} BitZero(k: nat)
    ensures !Bit(0, k)
    decreases k
  {
    if k > 0 {
      BitZero(k - 1);
    }
  }

  /** storeUint(v, n): the low n bits of v, most significant first. */
  function UintBits(v: nat, n: nat): (r: seq<bool>)
    ensures |r| == n
  {
    seq(n, i requires 0 <= i < n => Bit(v, n - 1 - i))
  }

  /** loadUint: the unsigned number a bit string denotes, most significant bit first. */
  function BitsToNat(b: seq<bool>): (r: nat)
    ensures r < Pow2(|b|)
  {
    if b == [] then 0
    else 2 * BitsToNat(b[..|b| - 1]) + (if b[|b| - 1] then 1 else 0)
  }

  /** Dropping the last bit of an encoding leaves the encoding of v / 2; the last bit is v's parity. */
  lemma UintBitsInit(v: nat, n: nat)
    requires n > 0
    ensures UintBits(v, n)[..n - 1] == UintBits(v / 2, n - 1)
    ensures UintBits(v, n)[n - 1] == (v % 2 == 1)
  {
    var r := UintBits(v, n);
    var h := UintBits(v / 2, n - 1);
    forall i | 0 <= i < n - 1
      ensures r[..n - 1][i] == h[i]
    {
      assert r[i] == Bit(v, n - 1 - i);
      assert h[i] == Bit(v / 2, n - 2 - i);
    }
    assert r[n - 1] == Bit(v, 0);
  }

  lemma {:induction false} UintBitsDecode(v: nat, n: nat)
    requires v < Pow2(n)
    ensures BitsToNat(UintBits(v, n)) == v
    decreases n
  {
    if n > 0 {
      UintBitsInit(v, n);
      UintBitsDecode(v / 2, n - 1);
    } else {
      assert UintBits(v, n) == [];
    }
  }

  lemma {:induction false} UintBitsEncode(b: seq<bool>)
    ensures UintBits(BitsToNat(b), |b|) == b
  {
    if b != [] {
      var n := |b|;
      var init := b[..n - 1];
      var v := BitsToNat(b);
      UintBitsEncode(init);
      UintBitsInit(v, n);
      assert v / 2 == BitsToNat(init);
      var r := UintBits(v, n);
      assert r == r[..n - 1] + [r[n - 1]];
      assert b == init + [b[n - 1]];
    } else {
      assert UintBits(BitsToNat(b), |b|) == [];
    }
  }

  /** Two fixed-width encodings of the same width are equal only for equal values. */
  lemma UintBitsInjective(v: nat, w: nat, n: nat)
    requires v < Pow2(n) && w < Pow2(n)
    requires UintBits(v, n) == UintBits(w, n)
    ensures v == w
  {
    UintBitsDecode(v, n);
    UintBitsDecode(w, n);
  }

  /** storeInt(v, n): two's complement in n bits. */
  function IntBits(v: int, n: nat): (r: seq<bool>)
    requires n >= 1 && -(Pow2(n - 1) as int) <= v < Pow2(n - 1)
    ensures |r| == n
  {
    assert Pow2(n) == 2 * Pow2(n - 1);
    UintBits(if v < 0 then v + Pow2(n) else v, n)
  }

  /** loadInt: the signed number a non-empty bit string denotes in two's complement. */
  function BitsToInt(b: seq<bool>): int
    requires |b| >= 1
  {
    var u := BitsToNat(b);
    if u >= Pow2(|b| - 1) then u - Pow2(|b|) else u
  }

  lemma IntBitsDecode(v: int, n: nat)
    requires n >= 1 && -(Pow2(n - 1) as int) <= v < Pow2(n - 1)
    ensures BitsToInt(IntBits(v, n)) == v
  {
    assert Pow2(n) == 2 * Pow2(n - 1);
    UintBitsDecode(if v < 0 then v + Pow2(n) else v, n);
  }

  lemma IntBitsInjective(v: int, w: int, n: nat)
    requires n >= 1 && -(Pow2(n - 1) as int) <= v < Pow2(n - 1) && -(Pow2(n - 1) as int) <= w < Pow2(n - 1)
    requires IntBits(v, n) == IntBits(w, n)
    ensures v == w
  {
    IntBitsDecode(v, n);
    IntBitsDecode(w, n);
  }

  /** storeBuffer: each byte as eight bits, in order. */
  function BytesBits(s: seq<byte>): (r: seq<bool>)
    ensures |r| == 8 * |s|
  {
    Pow2Byte();
    if s == [] then [] else UintBits(s[0], 8) + BytesBits(s[1..])
  }

  /** loadBuffer: the bytes a bit string of whole bytes holds. */
  function BitsToBytes(b: seq<bool>): (r: seq<byte>)
    requires |b| % 8 == 0
    ensures |r| == |b| / 8
  {
    Pow2Byte();
    if b == [] then [] else [BitsToNat(b[..8]) as byte] + BitsToBytes(b[8..])
  }

  lemma {:induction false} BytesBitsAppend(a: seq<byte>, b: seq<byte>)
    ensures BytesBits(a + b) == BytesBits(a) + BytesBits(b)
  {
    if a != [] {
      assert (a + b)[0] == a[0];
      assert (a + b)[1..] == a[1..] + b;
      BytesBitsAppend(a[1..], b);
      calc {
        BytesBits(a + b);
        UintBits(a[0], 8) + BytesBits(a[1..] + b);
        UintBits(a[0], 8) + (BytesBits(a[1..]) + BytesBits(b));
        (UintBits(a[0], 8) + BytesBits(a[1..])) + BytesBits(b);
        BytesBits(a) + BytesBits(b);
      }
    } else {
      assert a + b == b;
    }
  }

  lemma {:induction false} BytesBitsDecode(s: seq<byte>)
    ensures BitsToBytes(BytesBits(s)) == s
  {
    Pow2Byte();
    if s != [] {
      var b := BytesBits(s);
      assert b[..8] == UintBits(s[0], 8);
      assert b[8..] == BytesBits(s[1..]);
      UintBitsDecode(s[0], 8);
      BytesBitsDecode(s[1..]);
    }
  }
}
