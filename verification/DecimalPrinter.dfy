/**
 * Printing a 32-bit number two digits at a time without a division: the number
 * is multiplied by 2^57 / 100M, rounded up, and the pairs of digits drop out of
 * the top bits as the rest is multiplied by 100 again and again. The rounding
 * error grows with each round and must stay below one unit.
 */
module DecimalPrinter {
  import opened Division
  import opened Numerals

  const TWO_57: nat := 0x200_0000_0000_0000
  const TWO_64: nat := 0x1_0000_0000_0000_0000
  const RECIPROCAL: nat := 1441151881
  /** What rounding up adds: 100M * RECIPROCAL exceeds 2^57 by this much. */
  const EXCESS: nat := 24144128

  function Wrap(n: nat): nat { n % TWO_64 }

  /** The table of digit pairs: first digit in the low byte, second in the high byte. */
  function Bcd(q: nat): nat
    requires q < 100
  {
    match q
    case 0 => 0x3030
    case 1 => 0x3130
    case 2 => 0x3230
    case 3 => 0x3330
    case 4 => 0x3430
    case 5 => 0x3530
    case 6 => 0x3630
    case 7 => 0x3730
    case 8 => 0x3830
    case 9 => 0x3930
    case 10 => 0x3031
    case 11 => 0x3131
    case 12 => 0x3231
    case 13 => 0x3331
    case 14 => 0x3431
    case 15 => 0x3531
    case 16 => 0x3631
    case 17 => 0x3731
    case 18 => 0x3831
    case 19 => 0x3931
    case 20 => 0x3032
    case 21 => 0x3132
    case 22 => 0x3232
    case 23 => 0x3332
    case 24 => 0x3432
    case 25 => 0x3532
    case 26 => 0x3632
    case 27 => 0x3732
    case 28 => 0x3832
    case 29 => 0x3932
    case 30 => 0x3033
    case 31 => 0x3133
    case 32 => 0x3233
    case 33 => 0x3333
    case 34 => 0x3433
    case 35 => 0x3533
    case 36 => 0x3633
    case 37 => 0x3733
    case 38 => 0x3833
    case 39 => 0x3933
    case 40 => 0x3034
    case 41 => 0x3134
    case 42 => 0x3234
    case 43 => 0x3334
    case 44 => 0x3434
    case 45 => 0x3534
    case 46 => 0x3634
    case 47 => 0x3734
    case 48 => 0x3834
    case 49 => 0x3934
    case 50 => 0x3035
    case 51 => 0x3135
    case 52 => 0x3235
    case 53 => 0x3335
    case 54 => 0x3435
    case 55 => 0x3535
    case 56 => 0x3635
    case 57 => 0x3735
    case 58 => 0x3835
    case 59 => 0x3935
    case 60 => 0x3036
    case 61 => 0x3136
    case 62 => 0x3236
    case 63 => 0x3336
    case 64 => 0x3436
    case 65 => 0x3536
    case 66 => 0x3636
    case 67 => 0x3736
    case 68 => 0x3836
    case 69 => 0x3936
    case 70 => 0x3037
    case 71 => 0x3137
    case 72 => 0x3237
    case 73 => 0x3337
    case 74 => 0x3437
    case 75 => 0x3537
    case 76 => 0x3637
    case 77 => 0x3737
    case 78 => 0x3837
    case 79 => 0x3937
    case 80 => 0x3038
    case 81 => 0x3138
    case 82 => 0x3238
    case 83 => 0x3338
    case 84 => 0x3438
    case 85 => 0x3538
    case 86 => 0x3638
    case 87 => 0x3738
    case 88 => 0x3838
    case 89 => 0x3938
    case 90 => 0x3039
    case 91 => 0x3139
    case 92 => 0x3239
    case 93 => 0x3339
    case 94 => 0x3439
    case 95 => 0x3539
    case 96 => 0x3639
    case 97 => 0x3739
    case 98 => 0x3839
    case _ => 0x3939
  }

  function LowByte(n: nat): char { (n % 256) as char }

  function HighByte(n: nat): char
    requires n < 0x1_0000
  {
    (n / 256) as char
  }

  lemma BcdRange(q: nat)
    requires q < 100
    ensures Bcd(q) == 0x3030 + q / 10 + 256 * (q % 10)
  {
    if q < 50 {
      if q < 25 {
      }
    } else if q < 75 {
    }
  }

  function Pair(q: nat): (s: string)
    requires q < 100
    ensures |s| == 2
  {
    [DigitChar(q / 10), DigitChar(q % 10)]
  }

  lemma BcdDigits(q: nat)
    requires q < 100
    ensures Bcd(q) < 0x1_0000
    ensures [LowByte(Bcd(q)), HighByte(Bcd(q))] == Pair(q)
  {
    hide Bcd;
    BcdRange(q);
    var a, b := q / 10, q % 10;
    assert (0x3030 + a + 256 * b) % 256 == 0x30 + a && (0x3030 + a + 256 * b) / 256 == 0x30 + b;
    assert (0x30 + a) as char == '0' + a as char;
    assert (0x30 + b) as char == '0' + b as char;
  }

  // ----- the arithmetic

  function Pow100(k: nat): (p: nat)
    ensures p >= 1
  {
    if k == 0 then 1 else 100 * Pow100(k - 1)
  }

  /**
   * y stands for what is left of x after the leading pairs, in units of
   * 2^57 / 100^pos, plus the rounding error.
   */
  predicate Holds(x: nat, y: nat, pos: nat) {
    y * Pow100(pos) == TWO_57 * (x % Pow100(pos + 1)) + x * EXCESS
  }

  lemma PowValues()
    ensures Pow100(0) == 1 && Pow100(1) == 100 && Pow100(2) == 10000 && Pow100(3) == 1000000
    ensures Pow100(4) == 100000000 && Pow100(5) == 10000000000
  {
    assert Pow100(1) == 100 * Pow100(0);
    assert Pow100(2) == 100 * Pow100(1);
    assert Pow100(3) == 100 * Pow100(2);
    assert Pow100(4) == 100 * Pow100(3);
    assert Pow100(5) == 100 * Pow100(4);
  }

  /** The top bits are the true quotient, and the error carries over unchanged. */
  lemma {:induction false} TopBits(y: nat, b: nat, err: nat, pow: nat)
    requires pow >= 1 && y * pow == TWO_57 * b + err && err < TWO_57
    ensures y / TWO_57 == b / pow
    ensures (y % TWO_57) * pow == TWO_57 * (b % pow) + err
  {
    var q, r := b / pow, b % pow;
    assert b == q * pow + r;
    var rest := y - TWO_57 * q;
    assert rest * pow == y * pow - TWO_57 * (q * pow) == TWO_57 * r + err;
    Bracket(rest, pow, r, err);
    assert y == TWO_57 * q + rest;
  }

  lemma Bracket(rest: int, pow: nat, r: nat, err: nat)
    requires pow >= 1 && r < pow && err < TWO_57 && rest * pow == TWO_57 * r + err
    ensures 0 <= rest < TWO_57
  {
    if rest < 0 {
      MulMonotone(rest, -1, pow);
    } else if rest >= TWO_57 {
      MulMonotone(TWO_57, rest, pow);
      MulMonotone(r + 1, pow, TWO_57);
    }
  }

  lemma {:induction false} FirstHolds(x: nat)
    requires x < 0x1_0000_0000
    ensures Holds(x, x * RECIPROCAL, 4) && x * RECIPROCAL < TWO_64 && x * EXCESS < TWO_57
  {
    PowValues();
    assert x % Pow100(5) == x;
    assert RECIPROCAL * 100000000 == TWO_57 + EXCESS;
  }

  /** One round: the pair that comes out, the room it needs, and what is left for the next round. */
  lemma {:induction false} Round(x: nat, y: nat, pos: nat)
    requires x < 0x1_0000_0000 && Holds(x, y, pos)
    ensures y / TWO_57 == x / Pow100(pos) % 100 < 100
    ensures pos >= 1 ==> Holds(x, (y % TWO_57) * 100, pos - 1)
    ensures x / Pow100(pos) == 100 * (x / Pow100(pos + 1)) + y / TWO_57
  {
    FirstHolds(x);
    TwoStage(x, Pow100(pos), 100);
    TopBits(y, x % Pow100(pos + 1), x * EXCESS, Pow100(pos));
    if pos >= 1 {
      Shifted(y % TWO_57, Pow100(pos - 1));
    }
  }

  lemma Shifted(z: nat, p: nat)
    ensures z * (100 * p) == (z * 100) * p
  {
  }

  lemma WrapSmall(n: nat)
    requires n < TWO_64
    ensures Wrap(n) == n
  {
  }

  /** Multiplying by 100 with shifts and adds. */
  lemma TimesHundred(y: nat)
    requires y < TWO_57
    ensures var a := Wrap(y + Wrap(4 * y)); var b := Wrap(a + Wrap(4 * a)); Wrap(4 * b) == 100 * y
  {
    hide Wrap;
    WrapSmall(4 * y);
    WrapSmall(5 * y);
    WrapSmall(20 * y);
    WrapSmall(25 * y);
    WrapSmall(100 * y);
  }

  // ----- the text

  function ZeroPad(s: string, width: nat): (r: string)
    ensures |r| == if |s| < width then width else |s|
  {
    if |s| < width then Repeat('0', width - |s|) + s else s
  }

  lemma {:induction false} DecimalOfPair(v: nat, q: nat)
    requires q < 100
    ensures v > 0 ==> Decimal(100 * v + q) == Decimal(v) + Pair(q)
    ensures q > 9 ==> Decimal(q) == Pair(q)
    ensures q <= 9 ==> Decimal(q) == [Pair(q)[1]]
  {
    assert Decimal(q / 10) == [DigitChar(q / 10)];
    if v > 0 {
      var n := 100 * v + q;
      assert n / 10 == 10 * v + q / 10 && n % 10 == q % 10;
      assert (n / 10) / 10 == v && (n / 10) % 10 == q / 10;
      assert Decimal(n / 10) == Decimal(v) + [DigitChar(q / 10)];
    }
  }

  /** What is written once the pairs that make up v are done, j of them asked for whatever their value. */
  function Written(v: nat, j: nat): string {
    if v == 0 then Repeat('0', 2 * j) else ZeroPad(Decimal(v), 2 * j)
  }

  lemma ZerosOf(s: string, n: nat)
    requires AllZeros(s) && |s| == n
    ensures s == Repeat('0', n)
  {
  }

  predicate AllZeros(s: string) { forall i :: 0 <= i < |s| ==> s[i] == '0' }

  lemma {:induction false} PadPair(v: nat, q: nat, j: nat)
    requires q < 100 && v > 0
    ensures Written(v, j) + Pair(q) == ZeroPad(Decimal(100 * v + q), 2 * (j + 1))
  {
    DecimalOfPair(v, q);
    var d, k := Decimal(v), 2 * j;
    if |d| < k {
      assert Repeat('0', k - |d|) + d + Pair(q) == Repeat('0', k - |d|) + (d + Pair(q));
    }
  }

  /** A whole pair: asked for, or after other digits, or with two digits of its own. */
  lemma {:induction false} WholePair(v: nat, q: nat, j: nat, asked: bool)
    requires q < 100 && (asked || v > 0 || (q > 9 && j == 0)) && (!asked ==> j == 0)
    ensures Written(v, j) + Pair(q) == Written(100 * v + q, if asked then j + 1 else j)
  {
    DecimalOfPair(v, q);
    if v > 0 {
      PadPair(v, q, j);
    } else if q == 0 {
      ZerosOf(Repeat('0', 2 * j) + Pair(0), 2 * j + 2);
    } else if q <= 9 {
      assert Pair(q)[0] == '0';
      ZerosOf(Repeat('0', 2 * j) + ['0'], 2 * j + 1);
      assert Repeat('0', 2 * j) + Pair(q) == Repeat('0', 2 * j) + ['0'] + [Pair(q)[1]];
    }
  }

  function PairsAsked(minPairs: int): (k: nat)
    ensures k <= 5
  {
    if minPairs < 0 then 0 else if minPairs > 5 then 5 else minPairs
  }

  /** How many of the pairs above position pos are asked for. */
  function AskedAbove(minPairs: int, pos: int): nat {
    if PairsAsked(minPairs) > pos + 1 then PairsAsked(minPairs) - (pos + 1) else 0
  }

  lemma WrittenLength(v: nat, j: nat)
    ensures Written(v, j) == "" <==> v == 0 && j == 0
  {
  }

  /** The last pair is shown even if nothing has been. */
  function Progress(v: nat, j: nat, last: bool): string {
    if last && v == 0 && j == 0 then "0" else Written(v, j)
  }

  lemma {:induction false} ProgressEnds(x: nat, j: nat)
    ensures Progress(x, j, true) == ZeroPad(Decimal(x), 2 * j)
  {
    if x == 0 && j > 0 {
      ZerosOf(Repeat('0', 2 * j - 1) + ['0'], 2 * j);
      assert Decimal(0) == "0";
    }
  }

  /** The digits of one pair: both, one, or none. */
  method EmitPair(out: array<char>, p: nat, q: nat, pos: nat, minPairs: int, ghost v: nat) returns (p': nat)
    requires q < 100 && pos <= 4 && p <= 2 * (4 - pos) && out.Length >= 11
    requires out[..p] == Written(v, AskedAbove(minPairs, pos))
    modifies out
    ensures p <= p' <= p + 2
    ensures out[..p'] == Progress(100 * v + q, AskedAbove(minPairs, pos - 1), pos == 0)
    ensures forall i :: p' <= i < out.Length ==> out[i] == old(out[i])
  {
    hide Bcd, Written, Decimal, ZeroPad;
    ghost var j := AskedAbove(minPairs, pos);
    ghost var before := out[..p];
    WrittenLength(v, j);
    WrittenLength(100 * v + q, AskedAbove(minPairs, pos - 1));
    BcdDigits(q);
    if p != 0 || q > 9 || pos < minPairs {
      WholePair(v, q, j, pos < minPairs);
      out[p] := LowByte(Bcd(q));
      out[p + 1] := HighByte(Bcd(q));
      p' := p + 2;
      assert out[..p'] == before + Pair(q);
    } else if q != 0 || pos == 0 {
      DecimalOfPair(0, q);
      OneDigit(q);
      out[p] := HighByte(Bcd(q));
      p' := p + 1;
      assert out[..p'] == [Pair(q)[1]];
    } else {
      p' := p;
    }
  }

  lemma OneDigit(q: nat)
    requires q <= 9
    ensures Progress(q, 0, q == 0) == Decimal(q)
  {
  }

  /**
   * The numeral of x, left-padded with zeros to 2 * min_pairs digits (10 at
   * most), and a terminator after it; p is where the terminator is.
   */
  method Ultoad2(x: nat, out: array<char>, minPairs: int) returns (p: nat)
    requires x < 0x1_0000_0000 && out.Length >= 11
    modifies out
    ensures p < out.Length && out[p] == 0 as char
    ensures out[..p] == ZeroPad(Decimal(x), 2 * PairsAsked(minPairs))
    ensures forall i :: p < i < out.Length ==> out[i] == old(out[i])
  {
    hide Holds, Bcd, Written, Decimal, ZeroPad, Wrap, Pow100;
    p := 0;
    var pos: int := 4;
    FirstHolds(x);
    WrapSmall(x * RECIPROCAL);
    PowValues();
    WrittenLength(0, 0);
    var y: nat := Wrap(x * RECIPROCAL);
    while true
      invariant 0 <= pos <= 4 && Holds(x, y, pos)
      invariant p <= 2 * (4 - pos) && out[..p] == Written(x / Pow100(pos + 1), AskedAbove(minPairs, pos))
      invariant forall i :: p <= i < out.Length ==> out[i] == old(out[i])
      decreases pos
    {
      Round(x, y, pos);
      var q := y / TWO_57;
      p := EmitPair(out, p, q, pos, minPairs, x / Pow100(pos + 1));
      pos := pos - 1;
      if pos < 0 {
        break;
      }
      y := y % TWO_57;
      TimesHundred(y);
      y := Wrap(y + Wrap(4 * y));
      y := Wrap(y + Wrap(4 * y));
      y := Wrap(4 * y);
    }
    ProgressEnds(x, PairsAsked(minPairs));
    ghost var text := out[..p];
    out[p] := 0 as char;
    assert out[..p] == text;
  }

  /** Reading the text back gives the number. */
  lemma {:induction false} PaddedValue(x: nat, width: nat)
    ensures AllDigits(ZeroPad(Decimal(x), width)) && Value(ZeroPad(Decimal(x), width)) == x
  {
    var d := Decimal(x);
    ValueOfDecimal(x);
    if |d| < width {
      LeadingZeros(width - |d|, d);
    }
  }

  lemma {:induction false} LeadingZeros(n: nat, d: string)
    requires AllDigits(d)
    ensures AllDigits(Repeat('0', n) + d) && Value(Repeat('0', n) + d) == Value(d)
  {
    var s := Repeat('0', n) + d;
    if d != [] {
      assert s[..|s| - 1] == Repeat('0', n) + d[..|d| - 1];
      LeadingZeros(n, d[..|d| - 1]);
    } else if n > 0 {
      assert s == Repeat('0', n) && s[..|s| - 1] == Repeat('0', n - 1) == Repeat('0', n - 1) + d;
      LeadingZeros(n - 1, d);
    }
  }

  /**
   * The text digit by digit: from the right, digit k is x / 10^k modulo 10, the
   * zeros in front included; it has 2 * min_pairs digits, 0 to 10, or as many as
   * the number needs, and then no zero in front.
   */
  lemma {:induction false} TextDigits(x: nat, minPairs: int, k: nat)
    requires k < |ZeroPad(Decimal(x), 2 * PairsAsked(minPairs))|
    ensures var s := ZeroPad(Decimal(x), 2 * PairsAsked(minPairs));
      && s[|s| - 1 - k] == '0' + (x / Pow10(k) % 10) as char
      && (0 <= minPairs <= 5 ==> |s| >= 2 * minPairs) && (minPairs > 5 ==> |s| >= 10)
      && (|s| > 1 && !(minPairs > 0 && |s| == 2 * minPairs) && !(minPairs > 5 && |s| == 10) ==> s[0] != '0')
  {
    hide Decimal, Pow10;
    var d, width := Decimal(x), 2 * PairsAsked(minPairs);
    PaddedAt(d, width, k);
    NoZeroInFront(x);
    if k < |d| {
      DigitAt(x, k);
    } else {
      DecimalLength(x, k);
      DivUnique(x, Pow10(k), 0, x);
    }
  }

  lemma PaddedAt(d: string, width: nat, k: nat)
    requires k < |ZeroPad(d, width)|
    ensures var s := ZeroPad(d, width); s[|s| - 1 - k] == if k < |d| then d[|d| - 1 - k] else '0'
    ensures |d| >= width ==> ZeroPad(d, width) == d
  {
  }

  lemma NoZeroInFront(x: nat)
    ensures |Decimal(x)| > 1 ==> Decimal(x)[0] != '0'
  {
  }
}
