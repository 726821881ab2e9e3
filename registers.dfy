/**
 * The device's register map and the typed accessors' encodings: signed little-endian
 * 16-bit values, and the text GetVersion makes of the 12-byte version block.
 */
module Registers {
  import opened Types

  // register addresses in device memory
  const AddrMode := 0x28
  const AddrTrajectory := 0x29
  const AddrTargetPosition := 0x2A
  const AddrCurrentPosition := 0x2C
  const AddrVelocity := 0x30
  const AddrTorque := 0x3C
  const AddrVersion := 0xA2
  const VersionSize := 12

  // servo modes
  const RunNormal: byte := 0
  const RunFree: byte := 2
  const RunHold: byte := 3

  // control modes
  const ControlPosition: byte := 0
  const ControlVelocity: byte := 4
  const ControlTorque: byte := 8
  const ControlFForword: byte := 12

  // trajectory kinds
  const TrajectoryNormal: byte := 0
  const TrajectoryEven: byte := 1
  const TrajectoryThirdPoly: byte := 3
  const TrajectoryFourthPoly: byte := 4
  const TrajectoryFifthPoly: byte := 5

  // ---------------------------------------------------------------------------
  // int16 arithmetic as Go performs it

  function Pow2(k: nat): (p: nat)
    ensures p >= 1
  {
    if k == 0 then 1 else 2 * Pow2(k - 1)
  }

  lemma Pow2Facts()
    ensures Pow2(8) == 256 && Pow2(16) == 0x10000
  {
    assert Pow2(2) == 4;
    assert Pow2(4) == 16 by { assert Pow2(3) == 8; }
    assert Pow2(8) == 256 by { assert Pow2(5) == 32 && Pow2(6) == 64 && Pow2(7) == 128; }
    assert Pow2(12) == 4096 by { assert Pow2(9) == 512 && Pow2(10) == 1024 && Pow2(11) == 2048; }
    assert Pow2(13) == 8192 && Pow2(14) == 16384 && Pow2(15) == 32768;
  }

  /** Euclidean division by 256 is determined by quotient and remainder. */
  lemma DivMod256(v: int, q: int, r: int)
    requires v == 256 * q + r && 0 <= r < 256
    ensures v / 256 == q && v % 256 == r
  {
  }

  lemma DivMod0x10000(v: int, q: int, r: int)
    requires v == 0x10000 * q + r && 0 <= r < 0x10000
    ensures v % 0x10000 == r
  {
  }

  /** The two's-complement bits of an int16, read as an unsigned number. */
  function Bits16(v: int16): (w: nat)
    ensures w < 0x10000
  {
    v % 0x10000
  }

  /** The int16 whose two's-complement bits are `w`. */
  function Signed16(w: nat): int16
    requires w < 0x10000
  {
    if w < 0x8000 then w else w - 0x10000
  }

  /** Bitwise OR of two unsigned numbers. */
  function BitOr(a: nat, b: nat): nat
    decreases a + b
  {
    if a == 0 then b
    else if b == 0 then a
    else 2 * BitOr(a / 2, b / 2) + (if a % 2 == 1 || b % 2 == 1 then 1 else 0)
  }

  lemma {:induction false} BitOrBelow(a: nat, b: nat, k: nat)
    requires a < Pow2(k) && b < Pow2(k)
    ensures BitOr(a, b) < Pow2(k)
    decreases a + b
  {
    if a != 0 && b != 0 {
      BitOrBelow(a / 2, b / 2, k - 1);
    }
  }

  /** OR of a number below 2^k with a multiple of 2^k adds them: their bits do not overlap. */
  lemma {:induction false} BitOrDisjoint(a: nat, m: nat, k: nat)
    requires a < Pow2(k)
    ensures BitOr(a, Pow2(k) * m) == a + Pow2(k) * m
  {
    if k > 0 && a != 0 && m != 0 {
      var p := Pow2(k - 1);
      assert Pow2(k) * m == 2 * (p * m);
      assert (2 * (p * m)) / 2 == p * m && (2 * (p * m)) % 2 == 0;
      BitOrDisjoint(a / 2, m, k - 1);
    }
  }

  /** Go's `a | b` on int16 values. */
  function Or16(a: int16, b: int16): int16
  {
    Pow2Facts();
    BitOrBelow(Bits16(a), Bits16(b), 16);
    Signed16(BitOr(Bits16(a), Bits16(b)))
  }

  /** Go's `v << 8` on an int16: the high bits shifted out are lost. */
  function Shl8(v: int16): int16
  {
    Signed16((Bits16(v) * 256) % 0x10000)
  }

  /** `byte(v)`: the low byte of an int16. */
  function LowByte(v: int16): byte
  {
    ToByte(v)
  }

  /** `byte(v >> 8)`: `>>` on a signed integer is an arithmetic shift, i.e. floor division by 256. */
  function HighByte(v: int16): byte
  {
    ToByte(v / 256)
  }

  /** The payload SetPosition, SetVelocity and SetTorque write: low byte first. */
  function Int16Bytes(v: int16): seq<byte>
  {
    [LowByte(v), HighByte(v)]
  }

  /** GetCurrentPosition's `int16(lo) | (int16(hi) << 8)`. */
  function Int16From(lo: byte, hi: byte): int16
  {
    Or16(lo, Shl8(hi))
  }

  /** The value Int16From decodes is the 16-bit word hi:lo read as a signed number. */
  lemma Int16FromIsWord(lo: byte, hi: byte)
    ensures Int16From(lo, hi) == Signed16(lo as int + 256 * hi)
  {
    Pow2Facts();
    var w: int := 256 * hi;
    assert Bits16(hi) == hi;
    assert (Bits16(hi) * 256) % 0x10000 == w;
    var shifted := Shl8(hi);
    assert shifted == Signed16(w);
    assert Bits16(shifted) == w by {
      if w >= 0x8000 {
        DivMod0x10000(w - 0x10000, -1, w);
      }
    }
    assert Bits16(lo) == lo;
    BitOrDisjoint(lo, hi, 8);
    assert BitOr(Bits16(lo), Bits16(shifted)) == lo + w;
  }

  /** Decoding the two bytes written for an int16 gives the int16 back. */
  lemma Int16RoundTrip(v: int16)
    ensures Int16From(LowByte(v), HighByte(v)) == v
  {
    var lo: int, hi: int := LowByte(v), HighByte(v);
    Int16FromIsWord(lo, hi);
    var q := v / 256;
    assert v == 256 * q + lo;
    assert -128 <= q < 128;
    if q < 0 {
      DivMod256(q, -1, q + 256);
      assert lo + 256 * hi == v + 0x10000;
    } else {
      DivMod256(q, 0, q);
    }
  }

  /** Every byte pair is the encoding of the int16 it decodes to. */
  lemma Int16BytesRoundTrip(lo: byte, hi: byte)
    ensures Int16Bytes(Int16From(lo, hi)) == [lo, hi]
  {
    Int16FromIsWord(lo, hi);
    var v: int := Int16From(lo, hi);
    if hi < 128 {
      assert v == 256 * hi + lo;
      DivMod256(v, hi, lo);
      DivMod256(hi, 0, hi);
    } else {
      assert v == 256 * (hi - 256) + lo;
      DivMod256(v, hi - 256, lo);
      DivMod256(hi - 256, -1, hi);
    }
  }

  // ---------------------------------------------------------------------------
  // the version block as text

  predicate IsDigits(s: string)
  {
    forall k :: 0 <= k < |s| ==> '0' <= s[k] <= '9'
  }

  function Digit(d: nat): char
    requires d < 10
  {
    ('0' as int + d) as char
  }

  function DigitValue(c: char): nat
  {
    if '0' <= c <= '9' then c as int - '0' as int else 0
  }

  /** The number a string of decimal digits denotes. */
  function DigitsValue(s: string): nat
  {
    if s == [] then 0 else 10 * DigitsValue(s[..|s| - 1]) + DigitValue(s[|s| - 1])
  }

  /** `%v` of an unsigned integer: its decimal digits, without leading zeros. */
  function Decimal(n: nat): (s: string)
    ensures s != [] && IsDigits(s)
    ensures DigitsValue(s) == n
    ensures (s[0] == '0') == (n == 0)
    ensures n < 10 ==> |s| == 1
    ensures n < 100 ==> |s| <= 2
    ensures n < 1000 ==> |s| <= 3
  {
    if n < 10 then [Digit(n)]
    else
      var q, d := n / 10, n % 10;
      assert n == 10 * q + d && 1 <= q;
      assert n < 100 ==> q < 10;
      assert n < 1000 ==> q < 100;
      var front := Decimal(q);
      var s := front + [Digit(d)];
      assert s[..|s| - 1] == front && s[|s| - 1] == Digit(d) && s[0] == front[0];
      assert DigitValue(Digit(d)) == d;
      DigitsConcat(front, [Digit(d)]);
      s
  }

  lemma DigitsConcat(a: string, b: string)
    requires IsDigits(a) && IsDigits(b)
    ensures IsDigits(a + b)
  {
    forall k | 0 <= k < |a + b|
      ensures '0' <= (a + b)[k] <= '9'
    {
      if k < |a| {
        assert (a + b)[k] == a[k];
      } else {
        assert (a + b)[k] == b[k - |a|];
      }
    }
  }

  /** The model text around the digits `d`: "B3M-" %c %c "-" d "-" %c of bytes 7, 6 and 0. */
  function ModelText(b: seq<byte>, d: string): string
    requires |b| >= 8
  {
    ['B', '3', 'M', '-', b[7] as char, b[6] as char, '-'] + d + ['-', b[0] as char]
  }

  /** Where the fixed characters, the three bytes and the digits sit in the model text. */
  lemma ModelTextLayout(b: seq<byte>, d: string)
    requires |b| >= 8 && 3 <= |d| <= 9 && IsDigits(d)
    ensures var s := ModelText(b, d);
      12 <= |s| <= 18 &&
      s[..4] == "B3M-" && s[4] == b[7] as char && s[5] == b[6] as char && s[6] == '-' &&
      s[7..|s| - 2] == d && IsDigits(s[7..|s| - 2]) &&
      s[|s| - 2] == '-' && s[|s| - 1] == b[0] as char
  {
    var prefix := ['B', '3', 'M', '-', b[7] as char, b[6] as char, '-'];
    var s := ModelText(b, d);
    ThreeParts(prefix, d, ['-', b[0] as char]);
    assert s[..4] == prefix[..4] == "B3M-";
  }

  /** The model text GetVersion makes: "B3M-" %c %c "-" %v %v %v "-" %c of bytes 7, 6, 3, 2, 1, 0. */
  function FormatModel(b: seq<byte>): (s: string)
    requires |b| >= 8
    ensures 12 <= |s| <= 18
    ensures s[..4] == "B3M-" && s[4] == b[7] as char && s[5] == b[6] as char && s[6] == '-'
    ensures s[7..|s| - 2] == Decimal(b[3]) + Decimal(b[2]) + Decimal(b[1])
    ensures IsDigits(s[7..|s| - 2])
    ensures s[|s| - 2] == '-' && s[|s| - 1] == b[0] as char
  {
    var digits := Decimal(b[3]) + Decimal(b[2]) + Decimal(b[1]);
    ModelDigits(b[3], b[2], b[1]);
    ModelTextLayout(b, digits);
    ModelText(b, digits)
  }

  /** The middle part of the model text: three to nine decimal digits. */
  lemma ModelDigits(b3: byte, b2: byte, b1: byte)
    ensures var d := Decimal(b3) + Decimal(b2) + Decimal(b1);
      3 <= |d| <= 9 && IsDigits(d)
  {
    DigitsConcat(Decimal(b3), Decimal(b2));
    DigitsConcat(Decimal(b3) + Decimal(b2), Decimal(b1));
  }

  /** Where each part of a concatenation of three sits. */
  lemma ThreeParts(p: string, d: string, x: string)
    ensures var s := p + d + x;
      s[..|p|] == p && s[|p|..|s| - |x|] == d && s[|s| - |x|..] == x
  {
  }

  /** The pieces of `fields` with `sep` between each two neighbours. */
  function Join(fields: seq<string>, sep: char): string
    requires fields != []
  {
    if |fields| == 1 then fields[0] else fields[0] + [sep] + Join(fields[1..], sep)
  }

  /** The version text GetVersion makes: bytes 11, 10, 9 and 8 in decimal, joined by dots. */
  function FormatVersion(b: seq<byte>): string
    requires |b| >= 12
  {
    Join([Decimal(b[11]), Decimal(b[10]), Decimal(b[9]), Decimal(b[8])], '.')
  }

  /** The pieces of `s` between the occurrences of `sep`. */
  function Split(s: string, sep: char): (r: seq<string>)
    ensures |r| >= 1
  {
    if s == [] then [[]]
    else
      var tail := Split(s[1..], sep);
      if s[0] == sep then [[]] + tail else [[s[0]] + tail[0]] + tail[1..]
  }

  /** Reads dot-separated decimal numbers: the inverse of FormatVersion. */
  function ParseVersion(s: string): seq<nat>
  {
    var fields := Split(s, '.');
    seq(|fields|, k requires 0 <= k < |fields| => DigitsValue(fields[k]))
  }

  lemma {:induction false} SplitPlain(x: string, sep: char)
    requires sep !in x
    ensures Split(x, sep) == [x]
  {
    if x != [] {
      SplitPlain(x[1..], sep);
      assert [x[0]] + x[1..] == x;
    }
  }

  lemma {:induction false} SplitAtFirst(x: string, y: string, sep: char)
    requires sep !in x
    ensures Split(x + [sep] + y, sep) == [x] + Split(y, sep)
  {
    var s := x + [sep] + y;
    if x == [] {
      assert s[1..] == y;
    } else {
      assert s[1..] == x[1..] + [sep] + y;
      SplitAtFirst(x[1..], y, sep);
      assert [x[0]] + x[1..] == x;
    }
  }

  /** Splitting joined pieces that do not contain the separator gives the pieces back. */
  lemma {:induction false} SplitJoin(fields: seq<string>, sep: char)
    requires fields != []
    requires forall k :: 0 <= k < |fields| ==> sep !in fields[k]
    ensures Split(Join(fields, sep), sep) == fields
  {
    if |fields| == 1 {
      SplitPlain(fields[0], sep);
    } else {
      SplitAtFirst(fields[0], Join(fields[1..], sep), sep);
      SplitJoin(fields[1..], sep);
      assert [fields[0]] + fields[1..] == fields;
    }
  }

  lemma DigitsHaveNoDot(n: nat)
    ensures '.' !in Decimal(n)
  {
  }

  /** Parsing the version text gives back bytes 11, 10, 9 and 8 of the block. */
  lemma VersionRoundTrip(b: seq<byte>)
    requires |b| >= 12
    ensures ParseVersion(FormatVersion(b)) == [b[11], b[10], b[9], b[8]]
  {
    var fields := [Decimal(b[11]), Decimal(b[10]), Decimal(b[9]), Decimal(b[8])];
    DigitsHaveNoDot(b[11]);
    DigitsHaveNoDot(b[10]);
    DigitsHaveNoDot(b[9]);
    DigitsHaveNoDot(b[8]);
    SplitJoin(fields, '.');
  }

  /** `%v` of the bytes the example block uses. */
  lemma SmallDecimals()
    ensures Decimal(1) == "1" && Decimal(2) == "2" && Decimal(3) == "3"
    ensures Decimal(8) == "8" && Decimal(9) == "9"
    ensures Decimal(10) == "10" && Decimal(11) == "11"
  {
    assert Decimal(1) == "1" && Decimal(0) == "0";
    assert Decimal(10) == Decimal(1) + "0";
    assert Decimal(11) == Decimal(1) + "1";
  }

  /** The example block 0, 1, ..., 11 as GetVersion reads it. */
  function ExampleBlock(): (b: seq<byte>)
    ensures |b| == 12 && forall k :: 0 <= k < 12 ==> b[k] == k
  {
    [0, 1, 2, 3, 4, 5, 6, 7, 8, 9, 10, 11]
  }

  lemma ExampleVersionText()
    ensures FormatVersion(ExampleBlock()) == "11.10.9.8"
  {
    SmallDecimals();
    assert Join(["8"], '.') == "8";
    assert Join(["9", "8"], '.') == "9.8";
    assert Join(["10", "9", "8"], '.') == "10.9.8";
    assert Join(["11", "10", "9", "8"], '.') == "11.10.9.8";
    assert FormatVersion(ExampleBlock()) == Join(["11", "10", "9", "8"], '.');
  }

  lemma ExampleModelText()
    ensures FormatModel(ExampleBlock()) == "B3M-" + [7 as char, 6 as char] + "-321-" + [0 as char]
  {
    SmallDecimals();
    var b := ExampleBlock();
    assert Decimal(b[3]) + Decimal(b[2]) + Decimal(b[1]) == "321";
  }

  /** The version block 0, 1, ..., 11 reads as model "B3M-\x07\x06-321-\x00" and version "11.10.9.8". */
  lemma VersionExample()
    ensures var b: seq<byte> := [0, 1, 2, 3, 4, 5, 6, 7, 8, 9, 10, 11];
      FormatVersion(b) == "11.10.9.8" &&
      FormatModel(b) == "B3M-" + [7 as char, 6 as char] + "-321-" + [0 as char]
  {
    ExampleVersionText();
    ExampleModelText();
  }
}
