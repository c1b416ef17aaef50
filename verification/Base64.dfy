/**
 * Base64 as section 4.3.2.4 of RFC 1421 and section 5 of RFC 4648 have it: with
 * padding in the first alphabet, without in the second. The tables are written
 * as the ranges they hold; in the second, '=' decodes like '_'.
 */
module Base64 {
  const NUL: char := 0 as char
  const PAD: int := 64

  type Byte = x: int | 0 <= x < 256

  function Letter(v: int, url: bool): char
    requires 0 <= v < 64
  {
    if v < 26 then 'A' + v as char
    else if v < 52 then 'a' + (v - 26) as char
    else if v < 62 then '0' + (v - 52) as char
    else if v == 62 then (if url then '-' else '+')
    else if url then '_' else '/'
  }

  /** -1 for a character outside the alphabet. */
  function ValueOf(c: char, url: bool): (v: int)
    ensures -1 <= v <= PAD && (url ==> v < PAD)
  {
    if 'A' <= c <= 'Z' then (c - 'A') as int
    else if 'a' <= c <= 'z' then (c - 'a') as int + 26
    else if '0' <= c <= '9' then (c - '0') as int + 52
    else if c == (if url then '-' else '+') then 62
    else if c == (if url then '_' else '/') then 63
    else if c == '=' then (if url then 63 else PAD)
    else -1
  }

  const UPPER: string := "ABCDEFGHIJKLMNOPQRSTUVWXYZ"
  const LOWER: string := "abcdefghijklmnopqrstuvwxyz"
  const DIGITS: string := "0123456789"

  function Alphabet(url: bool): (s: string)
    ensures |s| == 64
  {
    UPPER + LOWER + DIGITS + if url then "-_" else "+/"
  }

  lemma LettersInOrder(i: int)
    requires 0 <= i < 26
    ensures UPPER[i] == 'A' + i as char && LOWER[i] == 'a' + i as char && (i < 10 ==> DIGITS[i] == '0' + i as char)
  {
    match i
    case 0 => case 1 => case 2 => case 3 => case 4 => case 5 => case 6 => case 7 => case 8 => case 9 => case 10 =>
    case 11 => case 12 => case 13 => case 14 => case 15 => case 16 => case 17 => case 18 => case 19 => case 20 =>
    case 21 => case 22 => case 23 => case 24 => case 25 =>
  }

  /** The letters are those of the alphabet, in its order. */
  lemma {:induction false} LetterIs(v: int, url: bool)
    requires 0 <= v < 64
    ensures Letter(v, url) == Alphabet(url)[v]
  {
    var last := if url then "-_" else "+/";
    InParts(UPPER, LOWER, DIGITS, last, v);
    hide Alphabet;
    if v < 26 {
      LettersInOrder(v);
    } else if v < 52 {
      LettersInOrder(v - 26);
    } else if v < 62 {
      LettersInOrder(v - 52);
    }
  }

  lemma InParts(a: string, b: string, c: string, d: string, v: int)
    requires |a| == |b| == 26 && |c| == 10 && |d| == 2 && 0 <= v < 64
    ensures (a + b + c + d)[v] ==
      if v < 26 then a[v] else if v < 52 then b[v - 26] else if v < 62 then c[v - 52] else d[v - 62]
  {
  }

  /** A character has the value of its place in the alphabet; '=' pads or, in the second, reads like '_'. */
  lemma {:induction false} ValueIs(c: char, url: bool)
    ensures forall v :: 0 <= v < 64 && !(url && c == '=') ==> (ValueOf(c, url) == v <==> c == Alphabet(url)[v])
    ensures c == '=' ==> ValueOf(c, url) == if url then 63 else PAD
    ensures ValueOf(c, url) == -1 <==> c != '=' && c !in Alphabet(url)
  {
    forall v | 0 <= v < 64 ensures Alphabet(url)[v] == Letter(v, url) {
      LetterIs(v, url);
    }
    hide Alphabet;
    forall v | 0 <= v < 64 && !(url && c == '=') ensures ValueOf(c, url) == v <==> c == Alphabet(url)[v] {
      LetterRead(v, url);
    }
    var v := ValueOf(c, url);
    if c in Alphabet(url) {
      var i :| 0 <= i < 64 && Alphabet(url)[i] == c;
      LetterRead(i, url);
    }
    if 0 <= v < 64 && c != '=' {
      assert Letter(v, url) == c;
      assert Alphabet(url)[v] == c;
    }
  }

  lemma LetterRead(v: int, url: bool)
    requires 0 <= v < 64
    ensures ValueOf(Letter(v, url), url) == v
  {
  }

  // ----- encoding

  function Letters(a: Byte, b: Byte, c: Byte, url: bool): (s: string)
    ensures |s| == 4
  {
    [Letter(a / 4, url), Letter(a % 4 * 16 + b / 16, url), Letter(b % 16 * 4 + c / 64, url), Letter(c % 64, url)]
  }

  function Encode(b: seq<Byte>, url: bool): (s: string)
    ensures |s| == if url then (4 * |b| + 2) / 3 else (|b| + 2) / 3 * 4
  {
    if b == [] then ""
    else if |b| == 1 then Letters(b[0], 0, 0, url)[..2] + (if url then "" else "==")
    else if |b| == 2 then Letters(b[0], b[1], 0, url)[..3] + (if url then "" else "=")
    else Letters(b[0], b[1], b[2], url) + Encode(b[3..], url)
  }

  lemma EncodeStep(b: seq<Byte>, at: nat, url: bool)
    requires at + 3 <= |b|
    ensures Encode(b[at..], url) == Letters(b[at], b[at + 1], b[at + 2], url) + Encode(b[at + 3..], url)
  {
    assert b[at..][3..] == b[at + 3..];
  }

  /** One or two bytes at the end. */
  lemma TailIs(b: seq<Byte>, at: nat, url: bool, tail: string)
    requires at <= |b| < at + 3 && (at == |b| ==> tail == "")
    requires at + 1 == |b| ==> tail == [Letter(b[at] / 4, url), Letter(b[at] % 4 * 16, url)] + if url then "" else "=="
    requires at + 2 == |b| ==>
      tail == [Letter(b[at] / 4, url), Letter(b[at] % 4 * 16 + b[at + 1] / 16, url), Letter(b[at + 1] % 16 * 4, url)]
              + if url then "" else "="
    ensures tail == Encode(b[at..], url) && |tail| <= if at == |b| then 0 else 4
  {
    hide Letter;
  }

  method PutText(out: array<char>, o: nat, s: string)
    requires o + |s| <= out.Length
    modifies out
    ensures out[..o + |s|] == old(out[..o]) + s && forall i :: o + |s| <= i < out.Length ==> out[i] == old(out[i])
  {
    forall j | 0 <= j < |s| {
      out[o + j] := s[j];
    }
  }

  /** The room is asked for padding and terminator even where there is no padding. */
  method A2Base64(input: seq<Byte>, out: array<char>, olen: nat, url: bool) returns (n: int)
    requires olen <= out.Length
    modifies out
    ensures n == -1 <==> (|input| + 2) / 3 * 4 >= olen
    ensures n != -1 ==> 0 <= n == |Encode(input, url)| < olen && out[..n] == Encode(input, url) && out[n] == NUL
    ensures forall i :: olen <= i < out.Length ==> out[i] == old(out[i])
  {
    hide Letter, Encode, Letters;
    if (|input| + 2) / 3 * 4 >= olen {
      return -1;
    }
    var at, o := 0, 0;
    assert input[0..] == input;
    ghost var k := 0;
    while |input| - at >= 3
      invariant at == 3 * k <= |input| && o == 4 * k <= olen
      invariant out[..o] + Encode(input[at..], url) == Encode(input, url)
      invariant forall i :: olen <= i < out.Length ==> out[i] == old(out[i])
      decreases |input| - at
    {
      EncodeStep(input, at, url);
      RoomLeft(|input|, k);
      PutText(out, o, Letters(input[at], input[at + 1], input[at + 2], url));
      at, o := at + 3, o + 4;
      k := k + 1;
    }
    RoomLeft(|input|, k);
    var tail := "";
    if |input| - at == 1 {
      tail := [Letter(input[at] / 4, url), Letter(input[at] % 4 * 16, url)];
      if !url {
        tail := tail + "==";
      }
    } else if |input| - at == 2 {
      tail := [Letter(input[at] / 4, url), Letter(input[at] % 4 * 16 + input[at + 1] / 16, url),
               Letter(input[at + 1] % 16 * 4, url)];
      if !url {
        tail := tail + "=";
      }
    }
    TailIs(input, at, url, tail);
    n := PutEnd(out, o, tail, olen);
  }

  method PutEnd(out: array<char>, o: nat, tail: string, olen: nat) returns (n: nat)
    requires o + |tail| < olen <= out.Length
    modifies out
    ensures n == o + |tail| && out[..n] == old(out[..o]) + tail && out[n] == NUL
    ensures forall i :: olen <= i < out.Length ==> out[i] == old(out[i])
  {
    PutText(out, o, tail);
    n := o + |tail|;
    ghost var text := out[..n];
    out[n] := NUL;
    assert out[..n] == text;
  }

  lemma RoomLeft(n: nat, k: nat)
    requires 3 * k <= n
    ensures 4 * k + (if 3 * k == n then 0 else 4) <= (n + 2) / 3 * 4
  {
  }

  // ----- decoding

  datatype Decoded = Ok(bytes: seq<Byte>) | Bad

  function Bytes(t: seq<int>): (r: seq<Byte>)
    requires |t| == 4 && forall i :: 0 <= i < 4 ==> 0 <= t[i] <= PAD
    ensures |r| == 3
  {
    [(t[0] * 4 + t[1] / 16) % 256, (t[1] * 16 + t[2] / 4) % 256, (t[2] * 64 + t[3]) % 256]
  }

  predicate Values(t: seq<int>) { |t| <= 3 && forall i :: 0 <= i < |t| ==> 0 <= t[i] <= PAD }

  function Pads(t: seq<int>): (n: nat)
    ensures n <= |t|
  {
    if t == [] then 0 else Pads(t[..|t| - 1]) + if t[|t| - 1] == PAD then 1 else 0
  }

  /** The padded decoder, from the values of a group begun and the bytes so far. */
  function Run(s: string, t: seq<int>, acc: seq<Byte>): Decoded
    requires Values(t)
    decreases |s|
  {
    if s == "" then Ok(acc)
    else
      var b, pad := ValueOf(s[0], false), Pads(t);
      if b < 0 || (pad > 0 && b != PAD) || (pad > 0 && |t| < 2) then Bad
      else if |t| < 3 then Run(s[1..], t + [b], acc)
      else Run(s[1..], [], acc + Bytes(t + [b])[..if Pads(t + [b]) <= 3 then 3 - Pads(t + [b]) else 0])
  }

  function Decode(s: string): Decoded { if |s| % 4 != 0 then Bad else Run(s, [], []) }

  /** The unpadded decoder: missing characters of the last group count as padding. */
  function RunUrl(s: string, t: seq<int>, acc: seq<Byte>): Decoded
    requires Values(t)
    decreases |s|
  {
    if s == "" then
      if |t| == 2 then Ok(acc + Bytes(t + [PAD, PAD])[..1]) else if |t| == 3 then Ok(acc + Bytes(t + [PAD])[..2])
        else Ok(acc)
    else
      var b := ValueOf(s[0], true);
      if b < 0 then Bad
      else if |t| < 3 then RunUrl(s[1..], t + [b], acc)
      else RunUrl(s[1..], [], acc + Bytes(t + [b]))
  }

  function DecodeUrl(s: string): Decoded { if |s| % 4 == 1 then Bad else RunUrl(s, [], []) }

  // ----- round trips

  lemma RegroupThree(a: Byte, b: Byte, c: Byte)
    ensures Bytes([a / 4, a % 4 * 16 + b / 16, b % 16 * 4 + c / 64, c % 64]) == [a, b, c]
  {
    assert (a % 4 * 16 + b / 16) / 16 == a % 4;
    assert (b % 16 * 4 + c / 64) / 4 == b % 16;
    assert (a % 4 * 16 + b / 16) * 16 % 256 == b / 16 * 16;
    assert (b % 16 * 4 + c / 64) * 64 % 256 == c / 64 * 64;
  }

  lemma RegroupTwo(a: Byte, b: Byte)
    ensures Bytes([a / 4, a % 4 * 16 + b / 16, b % 16 * 4, PAD])[..2] == [a, b]
  {
    assert (a % 4 * 16 + b / 16) / 16 == a % 4;
    assert (a % 4 * 16 + b / 16) * 16 % 256 == b / 16 * 16;
  }

  lemma RegroupOne(a: Byte)
    ensures Bytes([a / 4, a % 4 * 16, PAD, PAD])[..1] == [a]
  {
  }

  lemma {:induction false} RunOne(c: char, s: string, t: seq<int>, acc: seq<Byte>)
    requires Values(t) && |t| < 3 && 0 <= ValueOf(c, false) && (Pads(t) > 0 ==> ValueOf(c, false) == PAD && |t| >= 2)
    ensures Run([c] + s, t, acc) == Run(s, t + [ValueOf(c, false)], acc)
  {
    assert ([c] + s)[1..] == s;
  }

  lemma {:induction false} RunFourth(c: char, s: string, t: seq<int>, acc: seq<Byte>)
    requires Values(t) && |t| == 3 && 0 <= ValueOf(c, false) && (Pads(t) > 0 ==> ValueOf(c, false) == PAD)
    requires Pads(t + [ValueOf(c, false)]) <= 3
    ensures Run([c] + s, t, acc) ==
      Run(s, [], acc + Bytes(t + [ValueOf(c, false)])[..3 - Pads(t + [ValueOf(c, false)])])
  {
    assert ([c] + s)[1..] == s;
  }

  /** A group of four characters. */
  lemma {:induction false} RunGroup(q: string, s: string, acc: seq<Byte>, v: seq<int>, pads: nat)
    requires |q| == 4 == |v| && pads <= 3 && forall i :: 0 <= i < 4 ==> v[i] == ValueOf(q[i], false)
    requires forall i :: 0 <= i < 4 ==> (if i < 4 - pads then 0 <= v[i] < PAD else v[i] == PAD)
    ensures Run(q + s, [], acc) == Run(s, [], acc + Bytes(v)[..3 - pads])
  {
    hide Run, Bytes;
    var s1, s2, s3 := q[1..] + s, q[2..] + s, q[3..] + s;
    assert q + s == [q[0]] + s1 && s1 == [q[1]] + s2 && s2 == [q[2]] + s3 && s3 == [q[3]] + s;
    PadsOf(v, pads);
    RunOne(q[0], s1, [], acc);
    assert [] + [v[0]] == v[..1];
    RunOne(q[1], s2, v[..1], acc);
    assert v[..1] + [v[1]] == v[..2];
    RunOne(q[2], s3, v[..2], acc);
    assert v[..2] + [v[2]] == v[..3];
    assert v[..3] + [v[3]] == v;
    RunFourth(q[3], s, v[..3], acc);
  }

  lemma PadsOf(v: seq<int>, pads: nat)
    requires |v| == 4 && pads <= 3 && forall i :: 0 <= i < 4 ==> (v[i] == PAD <==> i >= 4 - pads)
    ensures Pads([]) == 0 && Pads(v[..1]) == 0 && Pads(v[..2]) == (if pads == 3 then 1 else 0)
    ensures Pads(v[..3]) == (if pads == 0 then 0 else pads - 1) && Pads(v) == pads
  {
    assert v[..1][..0] == [] && v[..2][..1] == v[..1] && v[..3][..2] == v[..2] && v[..4] == v && v[..3] == v[..|v| - 1];
    assert Pads(v[..1]) == 0;
    assert Pads(v[..2]) == if v[1] == PAD then 1 else 0;
    assert Pads(v[..3]) == Pads(v[..2]) + if v[2] == PAD then 1 else 0;
  }

  lemma {:induction false} RunTail(b: seq<Byte>, acc: seq<Byte>)
    requires 1 <= |b| <= 2
    ensures Run(Encode(b, false), [], acc) == Ok(acc + b)
  {
    hide Run, Letter, ValueOf, Bytes;
    var x, y := b[0], if |b| == 2 then b[1] else 0;
    var q := Encode(b, false);
    GroupValues(x, y, 0);
    PadValue();
    Ends(acc + b);
    assert q + "" == q;
    if |b| == 1 {
      RegroupOne(x);
      RunGroup(q, "", acc, [x / 4, x % 4 * 16, PAD, PAD], 2);
      assert [x] == b;
    } else {
      RegroupTwo(x, y);
      RunGroup(q, "", acc, [x / 4, x % 4 * 16 + y / 16, y % 16 * 4, PAD], 1);
      assert [x, y] == b;
    }
  }

  lemma {:induction false} RunEncoded(b: seq<Byte>, acc: seq<Byte>)
    ensures Run(Encode(b, false), [], acc) == Ok(acc + b)
    decreases |b|
  {
    hide Run, Letter, ValueOf, Bytes;
    if b == [] {
      Ends(acc);
      assert acc + b == acc;
    } else if |b| <= 2 {
      RunTail(b, acc);
    } else {
      var v := [b[0] / 4, b[0] % 4 * 16 + b[1] / 16, b[1] % 16 * 4 + b[2] / 64, b[2] % 64];
      GroupValues(b[0], b[1], b[2]);
      RegroupThree(b[0], b[1], b[2]);
      RunGroup(Letters(b[0], b[1], b[2], false), Encode(b[3..], false), acc, v, 0);
      RunEncoded(b[3..], acc + b[..3]);
      assert [b[0], b[1], b[2]] == b[..3] && Bytes(v)[..3] == Bytes(v);
      assert acc + b[..3] + b[3..] == acc + b;
    }
  }

  lemma GroupValues(a: Byte, b: Byte, c: Byte)
    ensures var q := Letters(a, b, c, false);
      && ValueOf(q[0], false) == a / 4 && ValueOf(q[1], false) == a % 4 * 16 + b / 16
      && ValueOf(q[2], false) == b % 16 * 4 + c / 64 && ValueOf(q[3], false) == c % 64
  {
    LetterRead(a / 4, false);
    LetterRead(a % 4 * 16 + b / 16, false);
    LetterRead(b % 16 * 4 + c / 64, false);
    LetterRead(c % 64, false);
  }

  lemma PadValue()
    ensures ValueOf('=', false) == PAD
  {
  }

  lemma Ends(acc: seq<Byte>)
    ensures Run("", [], acc) == Ok(acc)
  {
  }

  /** Decoding undoes encoding. */
  lemma {:induction false} RoundTrip(b: seq<Byte>)
    ensures Decode(Encode(b, false)) == Ok(b)
  {
    hide Run, Encode;
    RunEncoded(b, []);
    assert [] + b == b;
  }

  lemma {:induction false} UrlGroup(a: Byte, b: Byte, c: Byte, s: string, acc: seq<Byte>, n: nat)
    requires 2 <= n <= 4 && (n < 4 ==> s == "")
    ensures var v := [a / 4, a % 4 * 16 + b / 16, b % 16 * 4 + c / 64, c % 64];
      RunUrl(Letters(a, b, c, true)[..n] + s, [], acc) ==
      if n == 4 then RunUrl(s, [], acc + Bytes(v)) else RunUrl("", v[..n], acc)
  {
    hide Letter, ValueOf, Bytes;
    var q := Letters(a, b, c, true);
    var v := [a / 4, a % 4 * 16 + b / 16, b % 16 * 4 + c / 64, c % 64];
    UrlValues(a, b, c);
    var t := q[..n] + s;
    assert t[0] == q[0] && t[1] == q[1] && [] + [v[0]] == v[..1] && v[..1] + [v[1]] == v[..2];
    assert RunUrl(t, [], acc) == RunUrl(t[1..], v[..1], acc);
    assert RunUrl(t[1..], v[..1], acc) == RunUrl(t[2..], v[..2], acc) by { assert t[1..][1..] == t[2..]; }
    if n >= 3 {
      assert v[..2] + [v[2]] == v[..3] && t[2..][1..] == t[3..] && t[2] == q[2];
      assert RunUrl(t[2..], v[..2], acc) == RunUrl(t[3..], v[..3], acc);
    } else {
      assert t[2..] == "";
    }
    if n == 4 {
      assert v[..3] + [v[3]] == v && t[3..][1..] == s && t[3] == q[3];
    } else if n == 3 {
      assert t[3..] == "";
    }
  }

  lemma UrlValues(a: Byte, b: Byte, c: Byte)
    ensures var q := Letters(a, b, c, true);
      && ValueOf(q[0], true) == a / 4 && ValueOf(q[1], true) == a % 4 * 16 + b / 16
      && ValueOf(q[2], true) == b % 16 * 4 + c / 64 && ValueOf(q[3], true) == c % 64
  {
    LetterRead(a / 4, true);
    LetterRead(a % 4 * 16 + b / 16, true);
    LetterRead(b % 16 * 4 + c / 64, true);
    LetterRead(c % 64, true);
  }

  lemma {:induction false} UrlTail(b: seq<Byte>, acc: seq<Byte>)
    requires 1 <= |b| <= 2
    ensures RunUrl(Encode(b, true), [], acc) == Ok(acc + b)
  {
    hide Letter, ValueOf, Bytes;
    var x, y := b[0], if |b| == 2 then b[1] else 0;
    var v := [x / 4, x % 4 * 16 + y / 16, y % 16 * 4 + 0 / 64, 0 % 64];
    UrlGroup(x, y, 0, "", acc, |b| + 1);
    assert Encode(b, true) == Letters(x, y, 0, true)[..|b| + 1] + "";
    UrlEnd(v, |b| + 1, acc);
    if |b| == 1 {
      RegroupOne(x);
      assert v[..2] + [PAD, PAD] == [x / 4, x % 4 * 16, PAD, PAD] && [x] == b;
    } else {
      RegroupTwo(x, y);
      assert v[..3] + [PAD] == [x / 4, x % 4 * 16 + y / 16, y % 16 * 4, PAD] && [x, y] == b;
    }
  }

  lemma UrlEnd(v: seq<int>, n: nat, acc: seq<Byte>)
    requires |v| == 4 && (n == 2 || n == 3) && forall i :: 0 <= i < 4 ==> 0 <= v[i] <= PAD
    ensures n == 2 ==> RunUrl("", v[..n], acc) == Ok(acc + Bytes(v[..2] + [PAD, PAD])[..1])
    ensures n == 3 ==> RunUrl("", v[..n], acc) == Ok(acc + Bytes(v[..3] + [PAD])[..2])
  {
  }

  lemma {:induction false} RunUrlEncoded(b: seq<Byte>, acc: seq<Byte>)
    ensures RunUrl(Encode(b, true), [], acc) == Ok(acc + b)
    decreases |b|
  {
    hide RunUrl, Letter, ValueOf, Bytes;
    if b == [] {
      UrlEnds(acc);
      assert acc + b == acc;
    } else if |b| <= 2 {
      UrlTail(b, acc);
    } else {
      UrlGroup(b[0], b[1], b[2], Encode(b[3..], true), acc, 4);
      RegroupThree(b[0], b[1], b[2]);
      assert Letters(b[0], b[1], b[2], true)[..4] == Letters(b[0], b[1], b[2], true);
      RunUrlEncoded(b[3..], acc + b[..3]);
      assert [b[0], b[1], b[2]] == b[..3];
      assert acc + b[..3] + b[3..] == acc + b;
    }
  }

  lemma UrlEnds(acc: seq<Byte>)
    ensures RunUrl("", [], acc) == Ok(acc)
  {
  }

  /** Decoding undoes encoding in the second alphabet too. */
  lemma {:induction false} UrlRoundTrip(b: seq<Byte>)
    ensures DecodeUrl(Encode(b, true)) == Ok(b)
  {
    hide RunUrl, Encode;
    RunUrlEncoded(b, []);
    assert [] + b == b;
  }

  // ----- the decoder as a loop

  /** What the output must hold: three bytes a group, less the padding at the very end. */
  function Room(s: string): int
    requires |s| >= 2
  {
    |s| / 4 * 3 - (if s[|s| - 1] == '=' then 1 else 0) - (if s[|s| - 2] == '=' then 1 else 0)
  }

  /** Three bytes at most, and none at or past olen. */
  method PutGroup(out: array<Byte>, at: nat, olen: nat, r: seq<Byte>, ghost n: nat)
    requires olen <= out.Length && |r| == 3 && n <= 3 && at + n <= olen
    modifies out
    ensures out[..at + n] == old(out[..at]) + r[..n]
    ensures forall i :: olen <= i < out.Length ==> out[i] == old(out[i])
  {
    if at < olen {
      out[at] := r[0];
    }
    if at + 1 < olen {
      out[at + 1] := r[1];
    }
    if at + 2 < olen {
      out[at + 2] := r[2];
    }
  }

  /** The fourth character: three bytes less the padding. */
  method CloseGroup(out: array<Byte>, conv: nat, olen: nat, t: seq<int>, b: int, ghost s: string, ghost k: nat)
      returns (conv': nat)
    requires |s| % 4 == 0 && 4 * k + 3 < |s| && conv <= 3 * k && |t| == 3 && t[0] != PAD && Values(t) && 0 <= b <= PAD
    requires Tracks(t[2], s[4 * k + 2]) && Tracks(b, s[4 * k + 3])
    requires Room(s) <= olen <= out.Length && conv <= olen && Pads(t + [b]) <= 3
    modifies out
    ensures conv' <= 3 * (k + 1) && conv' <= olen
    ensures out[..conv'] == old(out[..conv]) + Bytes(t + [b])[..3 - Pads(t + [b])]
    ensures forall i :: olen <= i < out.Length ==> out[i] == old(out[i])
  {
    hide Bytes, Pads, Room;
    GroupEnd(k);
    LastGroup(t, b, s, 4 * k + 3, conv);
    PutGroup(out, conv, olen, Bytes(t + [b]), 3 - Pads(t + [b]));
    conv' := conv + 3 - Pads(t + [b]);
  }

  lemma GroupEnd(k: nat)
    ensures (4 * k + 3) % 4 == 3 && (4 * k + 3) / 4 == k && (4 * k + 4) / 4 == k + 1
  {
  }

  method Base64Dec(input: string, out: array<Byte>, olen: nat) returns (n: int)
    requires input != "" && olen <= out.Length
    modifies out
    ensures |input| % 4 != 0 ==> n == -1
    ensures |input| % 4 == 0 && olen < Room(input) ==> n == -2
    ensures |input| % 4 == 0 && olen >= Room(input) && Decode(input).Bad? ==> n == -1
    ensures |input| % 4 == 0 && olen >= Room(input) && Decode(input).Ok? ==>
      0 <= n == |Decode(input).bytes| <= olen && out[..n] == Decode(input).bytes
    ensures forall i :: olen <= i < out.Length ==> out[i] == old(out[i])
  {
    hide Run, Bytes, ValueOf, Pads, Room;
    if |input| % 4 != 0 {
      return -1;
    }
    if olen < Room(input) {
      return -2;
    }
    var at: nat, conv: nat, t: seq<int> := 0, 0, [];
    ghost var k: nat := 0;
    assert input[0..] == input && out[..0] == [];
    while at < |input|
      invariant at == 4 * k + |t| <= |input| && Values(t) && conv <= 3 * k && conv <= olen
      invariant Run(input[at..], t, out[..conv]) == Decode(input)
      invariant (|t| == 3 ==> Tracks(t[2], input[at - 1])) && (|t| >= 2 ==> t[0] != PAD)
      invariant forall i :: olen <= i < out.Length ==> out[i] == old(out[i])
      decreases |input| - at
    {
      var b, pad := ValueOf(input[at], false), Pads(t);
      assert input[at..][0] == input[at] && input[at..][1..] == input[at + 1..];
      RunStep(input[at..], t, out[..conv]);
      if b < 0 || (pad > 0 && b != PAD) || (pad > 0 && |t| < 2) {
        return -1;
      }
      TracksOf(input[at]);
      if |t| < 3 {
        if |t| == 1 {
          PadsLast([], t[0]);
          assert [] + [t[0]] == t;
        }
        t := t + [b];
      } else {
        NotAllPads(t, b);
        conv := CloseGroup(out, conv, olen, t, b, input, k);
        t, k := [], k + 1;
      }
      at := at + 1;
    }
    AllTaken(|input|, k, |t|);
    Ends(out[..conv]);
    n := conv;
  }

  lemma AllTaken(n: nat, k: nat, r: nat)
    requires n % 4 == 0 && n == 4 * k + r && r <= 3
    ensures r == 0
  {
  }

  predicate Tracks(v: int, c: char) { c == '=' ==> v == PAD }

  lemma TracksOf(c: char)
    ensures Tracks(ValueOf(c, false), c)
  {
  }

  lemma RunStep(s: string, t: seq<int>, acc: seq<Byte>)
    requires s != "" && Values(t)
    ensures var b, pad := ValueOf(s[0], false), Pads(t);
      && (b < 0 || (pad > 0 && b != PAD) || (pad > 0 && |t| < 2) ==> Run(s, t, acc) == Bad)
      && (!(b < 0 || (pad > 0 && b != PAD) || (pad > 0 && |t| < 2)) && |t| < 3 ==>
        Run(s, t, acc) == Run(s[1..], t + [b], acc))
      && (!(b < 0 || (pad > 0 && b != PAD) || (pad > 0 && |t| < 2)) && |t| == 3 && Pads(t + [b]) <= 3 ==>
            Run(s, t, acc) == Run(s[1..], [], acc + Bytes(t + [b])[..3 - Pads(t + [b])]))
  {
  }

  lemma PadsLast(t: seq<int>, b: int)
    ensures Pads(t + [b]) == Pads(t) + if b == PAD then 1 else 0
  {
    assert (t + [b])[..|t|] == t;
  }

  lemma {:induction false} NotAllPads(t: seq<int>, b: int)
    requires |t| == 3 && t[0] != PAD
    ensures Pads(t + [b]) <= 3
    ensures Pads(t + [b]) >= (if t[2] == PAD then 1 else 0) + (if b == PAD then 1 else 0)
  {
    PadsLast(t, b);
    PadsLast(t[..2], t[2]);
    assert t[..2] + [t[2]] == t;
    PadsLast(t[..1], t[1]);
    assert t[..1] + [t[1]] == t[..2];
    PadsLast([], t[0]);
    assert [] + [t[0]] == t[..1];
  }

  /** What a group adds still fits the room asked for at the start. */
  lemma {:induction false} LastGroup(t: seq<int>, b: int, s: string, at: nat, conv: nat)
    requires |s| % 4 == 0 && at < |s| && at % 4 == 3 && conv <= at / 4 * 3 && |t| == 3 && t[0] != PAD
    requires Tracks(t[2], s[at - 1]) && Tracks(b, s[at])
    ensures conv + 3 - Pads(t + [b]) <= Room(s)
  {
    NotAllPads(t, b);
    if at + 1 < |s| {
      assert at / 4 + 2 <= |s| / 4;
    } else {
      assert at / 4 + 1 == |s| / 4;
    }
  }

  // ----- the unpadded decoder as a loop

  /** How many characters the last group lacks. */
  function Lacks(s: string): (n: nat)
    requires |s| % 4 != 1
    ensures n <= 2 && (|s| + n) % 4 == 0
  {
    if |s| % 4 == 2 then 2 else if |s| % 4 == 3 then 1 else 0
  }

  lemma UrlStep(s: string, t: seq<int>, acc: seq<Byte>)
    requires s != "" && Values(t)
    ensures var b := ValueOf(s[0], true);
      RunUrl(s, t, acc) ==
      if b < 0 then Bad else if |t| < 3 then RunUrl(s[1..], t + [b], acc) else RunUrl(s[1..], [], acc + Bytes(t + [b]))
  {
  }

  /** A last group filled up with padding stands for what it begins with. */
  lemma UrlFilled(t: seq<int>, lacks: nat, acc: seq<Byte>)
    requires |t| == 4 && 1 <= lacks <= 2 && forall i :: 0 <= i < 4 ==> 0 <= t[i] <= PAD
    requires forall i :: 4 - lacks <= i < 4 ==> t[i] == PAD
    ensures RunUrl("", t[..4 - lacks], acc) == Ok(acc + Bytes(t)[..3 - lacks])
  {
    hide Bytes;
    if lacks == 2 {
      assert t[..2] + [PAD, PAD] == t;
    } else {
      assert t[..3] + [PAD] == t;
    }
  }

  /** The values read so far: the group begun is t less the padding used, or everything is done. */
  ghost predicate UrlState(s: string, at: nat, used: nat, t: seq<int>, acc: seq<Byte>)
    requires |s| % 4 != 1 && at <= |s| && used <= |t|
  {
    && Values(t)
    && (used > 0 ==> at == |s|)
    && (forall i :: |t| - used <= i < |t| ==> t[i] == PAD)
    && RunUrl(s[at..], t[..|t| - used], acc) == DecodeUrl(s)
  }

  lemma {:induction false} UrlTakes(s: string, at: nat, t: seq<int>, acc: seq<Byte>)
    requires |s| % 4 != 1 && at < |s| && UrlState(s, at, 0, t, acc)
    ensures var b := ValueOf(s[at], true);
      && (b < 0 ==> DecodeUrl(s) == Bad)
      && (b >= 0 && |t| < 3 ==> UrlState(s, at + 1, 0, t + [b], acc))
      && (b >= 0 && |t| == 3 ==> UrlState(s, at + 1, 0, [], acc + Bytes(t + [b])))
  {
    hide RunUrl, Bytes, ValueOf, DecodeUrl;
    assert s[at..][0] == s[at] && s[at..][1..] == s[at + 1..] && t[..|t|] == t;
    UrlStep(s[at..], t, acc);
    var t' := t + [ValueOf(s[at], true)];
    assert t'[..|t'|] == t';
  }

  lemma {:induction false} UrlPads(s: string, used: nat, t: seq<int>, acc: seq<Byte>)
    requires |s| % 4 != 1 && used <= |t| && used < Lacks(s) && UrlState(s, |s|, used, t, acc)
    requires |t| - used == 4 - Lacks(s)
    ensures |t| < 3 ==> UrlState(s, |s|, used + 1, t + [PAD], acc)
    ensures |t| == 3 ==> DecodeUrl(s) == Ok(acc + Bytes(t + [PAD])[..3 - Lacks(s)])
  {
    hide RunUrl, Bytes, DecodeUrl, Lacks;
    var t' := t + [PAD];
    assert t'[..|t'| - (used + 1)] == t[..|t| - used];
    if |t| == 3 {
      UrlFilled(t', Lacks(s), acc);
      assert s[|s|..] == "";
    }
  }

  method PutFour(out: array<Byte>, at: nat, olen: nat, t: seq<int>, ghost n: nat)
    requires olen <= out.Length && n <= 3 && at + n <= olen && |t| == 4 && forall i :: 0 <= i < 4 ==> 0 <= t[i] <= PAD
    modifies out
    ensures out[..at + n] == old(out[..at]) + Bytes(t)[..n]
    ensures n == 3 ==> out[..at + n] == old(out[..at]) + Bytes(t)
    ensures forall i :: olen <= i < out.Length ==> out[i] == old(out[i])
  {
    hide Bytes;
    PutGroup(out, at, olen, Bytes(t), n);
    assert Bytes(t)[..3] == Bytes(t);
  }

  method Base64UrlDec(input: string, out: array<Byte>, olen: nat) returns (n: int)
    requires olen <= out.Length
    modifies out
    ensures |input| % 4 == 1 ==> n == -1
    ensures |input| % 4 != 1 && olen < (|input| + Lacks(input)) / 4 * 3 - Lacks(input) ==> n == -2
    ensures |input| % 4 != 1 && olen >= (|input| + Lacks(input)) / 4 * 3 - Lacks(input) && DecodeUrl(input).Bad? ==>
      n == -1
    ensures |input| % 4 != 1 && olen >= (|input| + Lacks(input)) / 4 * 3 - Lacks(input) && DecodeUrl(input).Ok? ==>
      0 <= n == |DecodeUrl(input).bytes| <= olen && out[..n] == DecodeUrl(input).bytes
    ensures forall i :: olen <= i < out.Length ==> out[i] == old(out[i])
  {
    hide RunUrl, Bytes, ValueOf, UrlState, DecodeUrl, Lacks;
    if |input| % 4 == 1 {
      return -1;
    }
    var padlen := Lacks(input);
    var pad := padlen;
    if olen < (|input| + pad) / 4 * 3 - pad {
      return -2;
    }
    var at: nat, conv: nat, t: seq<int> := 0, 0, [];
    ghost var k, groups := 0, (|input| + padlen) / 4;
    assert |input| + padlen == 4 * groups && olen >= 3 * groups - padlen;
    UrlBegins(input);
    assert out[..0] == [];
    while |input| - at + pad > 0
      invariant at <= |input| && 0 <= pad <= padlen && (pad < padlen ==> at == |input|)
      invariant at + padlen - pad == 4 * k + |t| && conv == 3 * k && |t| <= 3
      invariant at < |input| || pad > 0 || padlen == 0 ==>
        conv <= olen && padlen - pad <= |t| && UrlState(input, at, padlen - pad, t, out[..conv])
      invariant !(at < |input| || pad > 0 || padlen == 0) ==>
        padlen <= conv <= olen + padlen && DecodeUrl(input) == Ok(out[..conv - padlen])
      invariant forall i :: olen <= i < out.Length ==> out[i] == old(out[i])
      decreases |input| - at + pad
    {
      StateValues(input, at, padlen - pad, t, out[..conv]);
      var b;
      if at < |input| {
        b := ValueOf(input[at], true);
        UrlTakes(input, at, t, out[..conv]);
        if b < 0 {
          return -1;
        }
        at := at + 1;
      } else {
        b := PAD;
        UrlPads(input, padlen - pad, t, out[..conv]);
        pad := pad - 1;
      }
      t := t + [b];
      if |t| == 4 {
        PutFour(out, conv, olen, t, if pad < padlen then 3 - padlen else 3);
        conv := conv + 3;
        t := [];
        k := k + 1;
      }
    }
    if padlen == 0 {
      UrlDone(input, t, out[..conv]);
    }
    n := conv - padlen;
  }

  lemma UrlBegins(s: string)
    requires |s| % 4 != 1
    ensures UrlState(s, 0, 0, [], [])
  {
    assert s[0..] == s;
  }

  lemma StateValues(s: string, at: nat, used: nat, t: seq<int>, acc: seq<Byte>)
    requires |s| % 4 != 1 && at <= |s| && used <= |t| && UrlState(s, at, used, t, acc)
    ensures Values(t)
  {
  }

  lemma UrlDone(s: string, t: seq<int>, acc: seq<Byte>)
    requires |s| % 4 != 1 && t == [] && UrlState(s, |s|, 0, t, acc)
    ensures DecodeUrl(s) == Ok(acc)
  {
    assert s[|s|..] == "" && t[..0] == [];
    UrlEnds(acc);
  }

  // ----- five characters for thirty bits

  /** The digit i of base 64, most significant first. */
  function Digit30(x: int, i: nat): (d: int)
    requires i < 5
    ensures 0 <= d < 64
  {
    x / (if i == 0 then 16777216 else if i == 1 then 262144 else if i == 2 then 4096 else if i == 3 then 64 else 1) % 64
  }

  function S30(x: int): (s: string)
    ensures |s| == 5
  {
    seq(5, i requires 0 <= i < 5 => Letter(Digit30(x, i), false))
  }

  /** The shifting loop takes the digits from the top. */
  method S30ToB64(x: int) returns (s: string)
    ensures s == S30(x)
  {
    hide Letter;
    s := "";
    var v, i := x, 0;
    ghost var shift := 1;
    while i < 5
      invariant i <= 5 && |s| == i && shift == Shift(i) && v == x * shift
      invariant forall k :: 0 <= k < i ==> s[k] == Letter(Digit30(x, k), false)
    {
      TopDigit(x, i);
      s := s + [Letter(v / 16777216 % 64, false)];
      v := v * 64;
      shift := shift * 64;
      i := i + 1;
    }
  }

  function Shift(i: nat): int { if i == 0 then 1 else Shift(i - 1) * 64 }

  lemma TopDigit(x: int, i: nat)
    requires i < 5
    ensures x * Shift(i) / 16777216 % 64 == Digit30(x, i)
  {
    assert Shift(0) == 1 && Shift(1) == 64 && Shift(2) == 4096 && Shift(3) == 262144 && Shift(4) == 16777216;
  }

  /** -1 for a character outside the alphabet, or padding. */
  method B64ToS30(s: string) returns (v: int)
    requires |s| >= 5
    ensures v == Read30(s, 5)
  {
    v := 0;
    var i := 0;
    while i < 5
      invariant i <= 5 && v == Read30(s, i) && v >= 0
    {
      var b := ValueOf(s[i], false);
      if b < 0 || b == PAD {
        StaysBad(s, i + 1, 5);
        return -1;
      }
      v := v * 64 + b;
      i := i + 1;
    }
  }

  function Read30(s: string, n: nat): (v: int)
    requires n <= |s|
    ensures v >= -1
  {
    if n == 0 then 0
    else
      var hi, b := Read30(s, n - 1), ValueOf(s[n - 1], false);
      if hi < 0 || b < 0 || b == PAD then -1 else hi * 64 + b
  }

  lemma {:induction false} StaysBad(s: string, i: nat, n: nat)
    requires i <= n <= |s| && Read30(s, i) < 0
    ensures Read30(s, n) == -1
  {
    if i < n {
      StaysBad(s, i, n - 1);
    }
  }

  /** Reading back gives the lower thirty bits. */
  lemma {:induction false} S30RoundTrip(x: int)
    ensures Read30(S30(x), 5) == x % 1073741824
  {
    var s := S30(x);
    forall i | 0 <= i < 5 ensures ValueOf(s[i], false) == Digit30(x, i) {
      LetterRead(Digit30(x, i), false);
    }
    hide Letter, ValueOf, S30, Digit30;
    ReadStep(s, 1, Digit30(x, 0));
    ReadStep(s, 2, Digit30(x, 1));
    ReadStep(s, 3, Digit30(x, 2));
    ReadStep(s, 4, Digit30(x, 3));
    ReadStep(s, 5, Digit30(x, 4));
    Horner(x);
  }

  lemma ReadStep(s: string, n: nat, d: int)
    requires 1 <= n <= |s| && Read30(s, n - 1) >= 0 && ValueOf(s[n - 1], false) == d && 0 <= d < 64
    ensures Read30(s, n) == Read30(s, n - 1) * 64 + d
  {
  }

  lemma Horner(x: int)
    ensures (((Digit30(x, 0) * 64 + Digit30(x, 1)) * 64 + Digit30(x, 2)) * 64 + Digit30(x, 3)) * 64 + Digit30(x,
      4) == x % 1073741824
  {
    var x1, x2, x3, x4 := x / 64, x / 4096, x / 262144, x / 16777216;
    assert x2 == x1 / 64 && x3 == x2 / 64 && x4 == x3 / 64;
    var x5 := x4 / 64;
    assert x == 64 * x1 + Digit30(x, 4);
    assert x1 == 64 * x2 + Digit30(x, 3);
    assert x2 == 64 * x3 + Digit30(x, 2);
    assert x3 == 64 * x4 + Digit30(x, 1);
    assert x4 == 64 * x5 + Digit30(x, 0);
  }

  // ----- what the characters stand for

  /** Four letters of six bits are three bytes of eight, most significant first. */
  lemma LettersMean(a: Byte, b: Byte, c: Byte, url: bool)
    ensures var s := Letters(a, b, c, url);
      && (forall i :: 0 <= i < 4 ==> 0 <= ValueOf(s[i], url) < 64)
      && 262144 * ValueOf(s[0], url) + 4096 * ValueOf(s[1], url) + 64 * ValueOf(s[2], url) + ValueOf(s[3], url)
         == 65536 * a + 256 * b + c
  {
    hide Letter, ValueOf;
    LetterRead(a / 4, url);
    LetterRead(a % 4 * 16 + b / 16, url);
    LetterRead(b % 16 * 4 + c / 64, url);
    LetterRead(c % 64, url);
  }

  /** Every full group of an encoding holds its three bytes. */
  lemma {:induction false} EncodeGroup(b: seq<Byte>, url: bool, k: nat)
    requires 3 * k + 3 <= |b|
    ensures var s := Encode(b, url);
      4 * k + 4 <= |s| && s[4 * k..4 * k + 4] == Letters(b[3 * k], b[3 * k + 1], b[3 * k + 2], url)
    decreases k
  {
    hide Letter, Letters;
    var s := Encode(b, url);
    if k == 0 {
      if |b| > 3 {
        assert s[..4] == Letters(b[0], b[1], b[2], url);
      } else {
        assert b[3..] == [];
      }
    } else {
      EncodeGroup(b[3..], url, k - 1);
      var t := Encode(b[3..], url);
      assert s == Letters(b[0], b[1], b[2], url) + t;
      assert b[3..][3 * (k - 1)] == b[3 * k] && b[3..][3 * (k - 1) + 1] == b[3 * k + 1];
      assert b[3..][3 * (k - 1) + 2] == b[3 * k + 2];
      assert 4 * (k - 1) + 4 <= |t| && |s| == 4 + |t|;
      assert s[4 * k..4 * k + 4] == t[4 * k - 4..4 * k];
    }
  }

  /** One or two bytes left over become two or three letters, and padding in the first alphabet. */
  lemma {:induction false} EncodeTail(b: seq<Byte>, url: bool, k: nat, n: nat)
    requires |b| == 3 * k + n && 1 <= n <= 2
    ensures var s, b2 := Encode(b, url), if n == 2 then b[3 * k + 1] else 0;
      && |s| >= 4 * k
      && s[4 * k..] == Letters(b[3 * k], b2, 0, url)[..n + 1] + if url then "" else if n == 1 then "==" else "="
    decreases k
  {
    hide Letter, Letters;
    if k > 0 {
      var s, t := Encode(b, url), Encode(b[3..], url);
      assert s == Letters(b[0], b[1], b[2], url) + t;
      hide Encode;
      EncodeTail(b[3..], url, k - 1, n);
      assert b[3..][3 * (k - 1)] == b[3 * k] && (n == 2 ==> b[3..][3 * (k - 1) + 1] == b[3 * k + 1]);
      assert s[4 * k..] == t[4 * (k - 1)..];
    }
  }

  /** And back: three bytes hold the twenty-four bits of four values. */
  lemma BytesMean(t: seq<int>)
    requires |t| == 4 && forall i :: 0 <= i < 4 ==> 0 <= t[i] < 64
    ensures var r := Bytes(t);
      65536 * r[0] as int + 256 * r[1] as int + r[2] as int == 262144 * t[0] + 4096 * t[1] + 64 * t[2] + t[3]
  {
    var a, b, c, d := t[0], t[1], t[2], t[3];
    assert a * 4 + b / 16 < 256 && c % 4 * 64 + d < 256 && b % 16 * 16 + c / 4 < 256;
    TopBits(b * 16 + c / 4, b, c / 4);
    LowBits(c, d);
  }

  lemma TopBits(x: int, b: int, hi: int)
    requires 0 <= b < 64 && 0 <= hi < 16 && x == b * 16 + hi
    ensures x % 256 == b % 16 * 16 + hi
  {
    assert x == b / 16 * 256 + (b % 16 * 16 + hi);
  }

  lemma LowBits(c: int, d: int)
    requires 0 <= c < 64 && 0 <= d < 64
    ensures (c * 64 + d) % 256 == c % 4 * 64 + d
  {
    assert c * 64 + d == c / 4 * 256 + (c % 4 * 64 + d);
  }

  /** The five characters are the digits of the number to the base 64, most significant first. */
  lemma {:induction false} S30Means(x: int)
    ensures var s := S30(x);
      16777216 * ValueOf(s[0], false) + 262144 * ValueOf(s[1], false) + 4096 * ValueOf(s[2], false)
      + 64 * ValueOf(s[3], false) + ValueOf(s[4], false) == x % 1073741824
  {
    var s := S30(x);
    forall i | 0 <= i < 5 ensures ValueOf(s[i], false) == Digit30(x, i) {
      LetterRead(Digit30(x, i), false);
    }
    hide Letter, ValueOf, S30, Digit30;
    Horner(x);
  }

  // ----- which texts are decoded

  /** Four characters of the alphabet, or padding from the second on to the end. */
  predicate GroupOk(q: string) {
    && |q| == 4 && (forall i :: 0 <= i < 4 ==> 0 <= ValueOf(q[i], false))
    && q[0] != '=' && (q[1] == '=' ==> q[2] == '=') && (q[2] == '=' ==> q[3] == '=')
  }

  lemma RunStops(c: char, s: string, t: seq<int>, acc: seq<Byte>)
    requires Values(t)
    requires ValueOf(c, false) < 0 || (Pads(t) > 0 && (ValueOf(c, false) != PAD || |t| < 2))
    ensures Run([c] + s, t, acc) == Bad
  {
  }

  lemma PadIs(c: char)
    ensures ValueOf(c, false) == PAD <==> c == '='
  {
  }

  /** Any other group ends the decoding. */
  lemma {:induction false} GroupBad(q: string, s: string, acc: seq<Byte>)
    requires |q| == 4 && !GroupOk(q)
    ensures Run(q + s, [], acc) == Bad
  {
    hide Run, Bytes, ValueOf, Pads;
    var s1, s2, s3 := q[1..] + s, q[2..] + s, q[3..] + s;
    assert q + s == [q[0]] + s1 && s1 == [q[1]] + s2 && s2 == [q[2]] + s3 && s3 == [q[3]] + s;
    var a, b, c := ValueOf(q[0], false), ValueOf(q[1], false), ValueOf(q[2], false);
    PadIs(q[0]);
    PadIs(q[1]);
    PadIs(q[2]);
    PadIs(q[3]);
    PadsBegun(a, b, c);
    if a < 0 {
      RunStops(q[0], s1, [], acc);
    } else {
      RunOne(q[0], s1, [], acc);
      assert [] + [a] == [a];
      if b < 0 || a == PAD {
        RunStops(q[1], s2, [a], acc);
      } else {
        RunOne(q[1], s2, [a], acc);
        assert [a] + [b] == [a, b];
        if c < 0 || (b == PAD && c != PAD) {
          RunStops(q[2], s3, [a, b], acc);
        } else {
          RunOne(q[2], s3, [a, b], acc);
          assert [a, b] + [c] == [a, b, c];
          RunStops(q[3], s, [a, b, c], acc);
        }
      }
    }
  }

  lemma PadsBegun(a: int, b: int, c: int)
    ensures Pads([]) == 0 && (Pads([a]) > 0 <==> a == PAD) && (Pads([a, b]) > 0 <==> a == PAD || b == PAD)
    ensures Pads([a, b, c]) > 0 <==> a == PAD || b == PAD || c == PAD
  {
    assert [a][..0] == [] && [a, b][..1] == [a] && [a, b, c][..2] == [a, b];
  }

  lemma {:induction false} GroupGood(q: string, s: string, acc: seq<Byte>) returns (acc': seq<Byte>)
    requires GroupOk(q)
    ensures Run(q + s, [], acc) == Run(s, [], acc')
  {
    hide Run, Bytes, ValueOf;
    var v := seq(4, i requires 0 <= i < 4 => ValueOf(q[i], false));
    forall i | 0 <= i < 4 ensures v[i] == PAD <==> q[i] == '=' { PadIs(q[i]); }
    var pads := if q[1] == '=' then 3 else if q[2] == '=' then 2 else if q[3] == '=' then 1 else 0;
    RunGroup(q, s, acc, v, pads);
    acc' := acc + Bytes(v)[..3 - pads];
  }

  function GroupAt(s: string, k: nat): (q: string)
    requires 4 * k + 4 <= |s|
  {
    s[4 * k..4 * k + 4]
  }

  /** The padded decoder takes exactly the texts of whole groups that are right; padding may stand inside. */
  lemma {:induction false} DecodesIff(s: string, m: nat, acc: seq<Byte>)
    requires |s| == 4 * m
    ensures Run(s, [], acc).Ok? <==> forall k :: 0 <= k < m ==> GroupOk(GroupAt(s, k))
    decreases m
  {
    hide GroupOk, ValueOf, Bytes;
    if m > 0 {
      var q, rest := s[..4], s[4..];
      assert s == q + rest && GroupAt(s, 0) == q;
      assert forall k :: 0 <= k < m - 1 ==> GroupAt(rest, k) == GroupAt(s, k + 1);
      assert forall k :: 0 < k < m ==> GroupAt(s, k) == GroupAt(rest, k - 1);
      hide Run;
      if GroupOk(q) {
        var acc' := GroupGood(q, rest, acc);
        DecodesIff(rest, m - 1, acc');
      } else {
        GroupBad(q, rest, acc);
      }
    }
  }

  /** The unpadded one takes every text of its characters whose length it accepts. */
  lemma {:induction false} UrlDecodesIff(s: string, t: seq<int>, acc: seq<Byte>)
    requires Values(t)
    ensures RunUrl(s, t, acc).Ok? <==> forall i :: 0 <= i < |s| ==> 0 <= ValueOf(s[i], true)
    decreases |s|
  {
    hide ValueOf, Bytes;
    if s != "" {
      var b := ValueOf(s[0], true);
      assert forall i :: 0 < i < |s| ==> s[i] == s[1..][i - 1];
      assert forall i :: 0 <= i < |s| - 1 ==> s[1..][i] == s[i + 1];
      if b >= 0 {
        if |t| < 3 {
          UrlDecodesIff(s[1..], t + [b], acc);
        } else {
          UrlDecodesIff(s[1..], [], acc + Bytes(t + [b]));
        }
      }
    }
  }

  /** The groups that the decoder is said to take: four letters, or three or two and padding. */
  predicate Promised(q: string) {
    && |q| == 4 && (forall i :: 0 <= i < 2 ==> 0 <= ValueOf(q[i], false) < PAD)
    && (q[2..] == "==" || (0 <= ValueOf(q[2], false) < PAD && (q[3] == '=' || 0 <= ValueOf(q[3], false) < PAD)))
  }

  /** It takes exactly these, and a letter with three paddings besides. */
  lemma PromisedIff(q: string)
    requires |q| == 4
    ensures q[1] != '=' ==> (GroupOk(q) <==> Promised(q))
    ensures q[1] == '=' ==> !Promised(q) && (GroupOk(q) <==> 0 <= ValueOf(q[0], false) < PAD && q[1..] == "===")
  {
    hide ValueOf;
    forall i | 0 <= i < 4 ensures ValueOf(q[i], false) == PAD <==> q[i] == '=' { PadIs(q[i]); }
    forall i | 0 <= i < 4 ensures ValueOf(q[i], false) <= PAD { ValueBound(q[i]); }
    assert q[2..] == [q[2], q[3]] && q[1..] == [q[1], q[2], q[3]];
  }

  lemma ValueBound(c: char)
    ensures ValueOf(c, false) <= PAD
  {
  }

  /** Such a group, which decodes to nothing. */
  lemma ThreePads()
    ensures Decode("A===") == Ok([]) && !Promised("A===")
  {
    var v := [0, PAD, PAD, PAD];
    assert ValueOf('A', false) == 0 && ValueOf('=', false) == PAD;
    assert "A===" + "" == "A===" && [] + Bytes(v)[..0] == [];
    hide Run, Bytes;
    RunGroup("A===", "", [], v, 3);
    Ends([]);
    PromisedIff("A===");
  }
}
