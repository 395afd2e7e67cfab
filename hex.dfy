/**
 * Hex text as the scenarios handle it: a bigint's `toString(16)` writes no
 * leading zeros, a buffer's `toString('hex')` writes two digits per byte,
 * and `Buffer.from(s, 'hex')` decodes whole pairs of digits from the front,
 * dropping an odd last digit. Digits are kept as their values 0..15.
 */
module Hex {
  import opened Bits

  type nibble = x: int | 0 <= x < 16

  /** `v.toString(16)`: the digits of v, most significant first, without leading zeros ("0" for zero). */
  function HexDigits(v: nat): (r: seq<nibble>)
    ensures |r| >= 1
    decreases v
  {
    if v < 16 then [v] else HexDigits(v / 16) + [v % 16]
  }

  /** The low n digits of v, leading zeros included: `toString('hex')` of an n/2-byte buffer holding v. */
  function PaddedHexDigits(v: nat, n: nat): (r: seq<nibble>)
    ensures |r| == n
  {
    if n == 0 then [] else PaddedHexDigits(v / 16, n - 1) + [v % 16]
  }

  /** The number a string of hex digits denotes. */
  function DigitsValue(ds: seq<nibble>): nat {
    if ds == [] then 0 else DigitsValue(ds[..|ds| - 1]) * 16 + ds[|ds| - 1]
  }

  /** The byte two hex digits write, the high digit first. */
  function PairByte(hi: nibble, lo: nibble): byte {
    hi as int * 16 + lo as int
  }

  /** `Buffer.from(s, 'hex')`: one byte per pair of digits from the front; an odd last digit is dropped. */
  function HexToBytes(ds: seq<nibble>): (r: seq<byte>)
    ensures |r| == |ds| / 2
  {
    if |ds| < 2 then [] else [PairByte(ds[0], ds[1])] + HexToBytes(ds[2..])
  }

  /** The big-endian number a byte string denotes, as ton-core reads a 32-byte address hash. */
  function BytesValue(bs: seq<byte>): nat {
    if bs == [] then 0 else BytesValue(bs[..|bs| - 1]) * 256 + bs[|bs| - 1]
  }

  /** `toString(16)` denotes the number it was written from. */
  lemma {:induction false} HexDigitsValue(v: nat)
    ensures DigitsValue(HexDigits(v)) == v
    decreases v
  {
    if v >= 16 {
      var init := HexDigits(v / 16);
      HexDigitsValue(v / 16);
      assert (init + [v % 16])[..|init|] == init;
    }
  }

  /** A number written in k digits without leading zeros lies in [16^(k-1), 16^k), the lower bound for k > 1. */
  lemma {:induction false} HexDigitsLength(v: nat)
    ensures v < Pow2(4 * |HexDigits(v)|)
    ensures |HexDigits(v)| > 1 ==> Pow2(4 * (|HexDigits(v)| - 1)) <= v
    decreases v
  {
    Pow2Byte();
    if v >= 16 {
      var k := |HexDigits(v / 16)|;
      HexDigitsLength(v / 16);
      assert |HexDigits(v)| == k + 1;
      assert v == 16 * (v / 16) + v % 16;
      Pow2Add(4, 4 * k);
      assert 4 * (k + 1) == 4 + 4 * k;
      if k > 1 {
        Pow2Add(4, 4 * (k - 1));
        assert 4 * k == 4 + 4 * (k - 1);
      }
    }
  }

  /** Without leading zeros, the digits of v are its padded digits at their own length. */
  lemma {:induction false} HexDigitsPadded(v: nat)
    ensures HexDigits(v) == PaddedHexDigits(v, |HexDigits(v)|)
    decreases v
  {
    if v >= 16 {
      HexDigitsPadded(v / 16);
    } else {
      assert PaddedHexDigits(v, 1) == PaddedHexDigits(v / 16, 0) + [v % 16];
    }
  }

  /** Decoding an even number of digits pairwise: the last pair becomes the last byte. */
  lemma {:induction false} HexToBytesLast(ds: seq<nibble>)
    requires |ds| >= 2 && |ds| % 2 == 0
    ensures HexToBytes(ds) == HexToBytes(ds[..|ds| - 2]) + [PairByte(ds[|ds| - 2], ds[|ds| - 1])]
    decreases |ds|
  {
    var n := |ds|;
    if n == 2 {
      assert ds[..0] == [];
    } else {
      var tail := ds[2..];
      HexToBytesLast(tail);
      assert tail[..|tail| - 2] == ds[..n - 2][2..];
      assert ds[..n - 2][0] == ds[0] && ds[..n - 2][1] == ds[1];
    }
  }

  /** Decoding an even number of digits keeps the number they denote. */
  lemma {:induction false} HexToBytesValue(ds: seq<nibble>)
    requires |ds| % 2 == 0
    ensures BytesValue(HexToBytes(ds)) == DigitsValue(ds)
    decreases |ds|
  {
    var n := |ds|;
    if n > 0 {
      var init := ds[..n - 2];
      HexToBytesLast(ds);
      HexToBytesValue(init);
      var bs := HexToBytes(init);
      var b := PairByte(ds[n - 2], ds[n - 1]);
      assert (bs + [b])[..|bs|] == bs;
      assert ds[..n - 1][..n - 2] == init;
    }
  }

  /**
   * A 256-bit number written by `toString(16)` and decoded by `Buffer.from`
   * gives 32 bytes exactly when it has no leading zero digit, that is, when
   * it is at least 2^252; those 32 bytes denote the number.
   */
  lemma HexHashBytes(h: nat)
    requires h < Pow2(256)
    ensures |HexToBytes(HexDigits(h))| == 32 <==> Pow2(252) <= h
    ensures Pow2(252) <= h ==> BytesValue(HexToBytes(HexDigits(h))) == h
  {
    var k := |HexDigits(h)|;
    HexDigitsLength(h);
    if k > 1 {
      Pow2Below(4 * (k - 1), 256);
    }
    if Pow2(252) <= h {
      Pow2Below(252, 4 * k);
      assert k == 64;
      HexToBytesValue(HexDigits(h));
      HexDigitsValue(h);
    } else if k > 1 {
      Pow2Below(4 * (k - 1), 252);
    }
  }

  /**
   * The unpadded digits of a 256-bit number equal its 64 padded digits
   * exactly when it has no leading zero digit.
   */
  lemma HexDigitsMatchPadded(h: nat)
    requires h < Pow2(256)
    ensures HexDigits(h) == PaddedHexDigits(h, 64) <==> Pow2(252) <= h
  {
    var k := |HexDigits(h)|;
    HexDigitsLength(h);
    HexDigitsPadded(h);
    if k > 1 {
      Pow2Below(4 * (k - 1), 256);
    }
    if Pow2(252) <= h {
      Pow2Below(252, 4 * k);
    } else if k > 1 {
      Pow2Below(4 * (k - 1), 252);
    }
  }
}
