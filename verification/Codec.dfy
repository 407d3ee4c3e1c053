/** The integer codecs of the patch formats: the signed 8-byte offsets of bsdiff
    (applypatch/bsdiff.c, applypatch/bspatch.c) and the little-endian words of imgdiff
    (applypatch/utils.c). */
module Codec {
  import opened Bytes

  function Pow256(k: nat): (r: nat)
    ensures r > 0
  {
    if k == 0 then 1 else 256 * Pow256(k - 1)
  }

  /** The k lowest base-256 digits of y, least significant first. */
  function Digits(y: nat, k: nat): (s: seq<byte>)
    ensures |s| == k
    decreases k
  {
    if k == 0 then [] else [y % 256] + Digits(y / 256, k - 1)
  }

  function FromDigits(s: seq<byte>): nat
  {
    if s == [] then 0 else s[0] + 256 * FromDigits(s[1..])
  }

  lemma {:induction false} DigitsInverse(y: nat, k: nat)
    requires y < Pow256(k)
    ensures FromDigits(Digits(y, k)) == y
    decreases k
  {
    if k > 0 {
      assert Digits(y, k)[1..] == Digits(y / 256, k - 1);
      DigitsInverse(y / 256, k - 1);
    }
  }

  const TWO_TO_63: int := 0x8000_0000_0000_0000
  const TWO_TO_31: int := 0x8000_0000

  lemma SizesFitOffsets()
    ensures 0 < TWO_TO_31 && 4 * TWO_TO_31 < TWO_TO_63
  {}

  lemma Powers()
    ensures Pow256(4) == 2 * TWO_TO_31 && Pow256(7) * 128 == TWO_TO_63 && Pow256(8) == 2 * TWO_TO_63
  {
    assert Pow256(2) == 0x1_0000;
    assert Pow256(4) == 0x1_0000_0000;
    assert Pow256(6) == 0x1_0000_0000_0000;
    assert Pow256(7) == 0x100_0000_0000_0000;
  }

  lemma {:induction false} TopDigit(y: nat, k: nat)
    requires y < 128 * Pow256(k)
    ensures Digits(y, k + 1)[k] < 128
    decreases k
  {
    if k > 0 {
      TopDigit(y / 256, k - 1);
    }
  }

  /** offtout: the magnitude in base 256, with the sign in the top bit of the last byte. */
  function OffToBytes(x: int): (b: seq<byte>)
    requires -TWO_TO_63 < x < TWO_TO_63
    ensures |b| == 8
  {
    if x < 0 then
      var d := Digits(0 - x, 8);
      d[7 := d[7] % 128 + 128]
    else Digits(x, 8)
  }

  /** offtin. */
  function BytesToOff(b: seq<byte>): int
    requires |b| == 8
  {
    var y: int := FromDigits(b[..7] + [b[7] % 128]);
    if b[7] >= 128 then -y else y
  }

  /** What four bytes, and eight, stand for, the lowest first. */
  function Four(b: seq<byte>): nat
    requires |b| >= 4
  {
    (b[0] as int) + 0x100 * (b[1] as int) + 0x1_0000 * (b[2] as int) + 0x100_0000 * (b[3] as int)
  }

  function Eight(b: seq<byte>): nat
    requires |b| >= 8
  {
    Four(b) + 0x1_0000_0000 * (b[4] as int) + 0x100_0000_0000 * (b[5] as int) +
    0x1_0000_0000_0000 * (b[6] as int) + 0x100_0000_0000_0000 * (b[7] as int)
  }

  lemma FromFour(b: seq<byte>)
    requires |b| == 4
    ensures FromDigits(b) == Four(b)
  {
    assert b[1..][1..] == b[2..] && b[2..][1..] == b[3..] && b[3..][1..] == [];
    assert FromDigits(b[3..]) == b[3] && FromDigits(b[2..]) == (b[2] as int) + 0x100 * (b[3] as int);
  }

  lemma {:induction false} FromDigitsJoined(a: seq<byte>, b: seq<byte>)
    ensures FromDigits(a + b) == FromDigits(a) + Pow256(|a|) * FromDigits(b)
  {
    if a == [] {
      assert a + b == b;
    } else {
      assert (a + b)[1..] == a[1..] + b;
      FromDigitsJoined(a[1..], b);
    }
  }

  lemma FromEight(b: seq<byte>)
    requires |b| == 8
    ensures FromDigits(b) == Eight(b)
  {
    hide FromDigits;
    assert b == b[..4] + b[4..];
    FromDigitsJoined(b[..4], b[4..]);
    FromFour(b[..4]);
    FromFour(b[4..]);
    Powers();
  }

  /** Eight bytes as an offset: the top bit of the last one is the sign, the rest is the magnitude. */
  lemma OffIs(b: seq<byte>)
    requires |b| == 8
    ensures b[7] < 128 ==> BytesToOff(b) == Eight(b)
    ensures b[7] >= 128 ==> BytesToOff(b) == TWO_TO_63 - Eight(b)
  {
    hide FromDigits;
    FromEight(b[..7] + [b[7] % 128]);
  }

  /** Four and eight bytes as two's complement. */
  lemma WordsAre(b: seq<byte>)
    ensures |b| == 4 ==> ReadWord4(b) == Four(b) - if b[3] < 128 then 0 else 2 * TWO_TO_31
    ensures |b| == 8 ==> ReadWord8(b) == Eight(b) - if b[7] < 128 then 0 else 2 * TWO_TO_63
  {
    hide FromDigits;
    if |b| == 4 {
      FromFour(b);
    } else if |b| == 8 {
      FromEight(b);
    }
  }

  /** No other bytes are read as these numbers, but for a zero with a sign. */
  lemma Word4Determined(b: seq<byte>)
    requires |b| == 4
    ensures -TWO_TO_31 <= ReadWord4(b) < TWO_TO_31 && Word4(ReadWord4(b)) == b
  {
    hide FromDigits, Digits;
    DigitsBack(b);
    Powers();
  }

  lemma Word8Determined(b: seq<byte>)
    requires |b| == 8
    ensures -TWO_TO_63 <= ReadWord8(b) < TWO_TO_63 && Word8(ReadWord8(b)) == b
  {
    hide FromDigits, Digits;
    DigitsBack(b);
    Powers();
  }

  lemma OffDetermined(b: seq<byte>)
    requires |b| == 8 && b != [0, 0, 0, 0, 0, 0, 0, 128]
    ensures -TWO_TO_63 < BytesToOff(b) < TWO_TO_63 && OffToBytes(BytesToOff(b)) == b
  {
    hide FromDigits, Digits;
    var m := b[..7] + [b[7] % 128];
    DigitsBack(m);
    FromEight(m);
    assert Digits(FromDigits(m), 8) == m;
    assert m == [0, 0, 0, 0, 0, 0, 0, 0] ==> b == [0, 0, 0, 0, 0, 0, 0, b[7]];
  }

  lemma {:induction false} DigitsBack(b: seq<byte>)
    ensures FromDigits(b) < Pow256(|b|) && Digits(FromDigits(b), |b|) == b
  {
    if b != [] {
      DigitsBack(b[1..]);
      assert FromDigits(b) % 256 == b[0] && FromDigits(b) / 256 == FromDigits(b[1..]);
    }
  }

  /** Every offset survives offtout and offtin. */
  lemma OffRoundTrip(x: int)
    requires -TWO_TO_63 < x < TWO_TO_63
    ensures BytesToOff(OffToBytes(x)) == x
  {
    hide Digits, FromDigits, Pow256;
    var y := if x < 0 then -x else x;
    var d := Digits(y, 8);
    Powers();
    TopDigit(y, 7);
    DigitsInverse(y, 8);
    var b := OffToBytes(x);
    assert b[..7] + [b[7] % 128] == d;
  }

  /** Write4: an int in 32-bit two's complement, little-endian. */
  function Word4(v: int): (b: seq<byte>)
    requires -TWO_TO_31 <= v < TWO_TO_31
    ensures |b| == 4
  {
    Digits(if v < 0 then v + 2 * TWO_TO_31 else v, 4)
  }

  /** Read4. */
  function ReadWord4(b: seq<byte>): int
    requires |b| == 4
  {
    var y := FromDigits(b);
    if y >= TWO_TO_31 then y - 2 * TWO_TO_31 else y
  }

  lemma Word4RoundTrip(v: int)
    requires -TWO_TO_31 <= v < TWO_TO_31
    ensures ReadWord4(Word4(v)) == v
  {
    Powers();
    DigitsInverse(if v < 0 then v + 2 * TWO_TO_31 else v, 4);
  }

  /** Write8: a long long in 64-bit two's complement, little-endian. */
  function Word8(v: int): (b: seq<byte>)
    requires -TWO_TO_63 <= v < TWO_TO_63
    ensures |b| == 8
  {
    Digits(if v < 0 then v + 2 * TWO_TO_63 else v, 8)
  }

  /** Read8. */
  function ReadWord8(b: seq<byte>): int
    requires |b| == 8
  {
    var y := FromDigits(b);
    if y >= TWO_TO_63 then y - 2 * TWO_TO_63 else y
  }

  lemma Word8RoundTrip(v: int)
    requires -TWO_TO_63 <= v < TWO_TO_63
    ensures ReadWord8(Word8(v)) == v
  {
    Powers();
    DigitsInverse(if v < 0 then v + 2 * TWO_TO_63 else v, 8);
  }
}
