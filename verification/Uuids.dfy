/**
  128-bit identifiers in the two forms the handlers use as one key: the 36-character
  lower-case string (section 4 of RFC 9562) and the big-endian 128-bit integer.
 */
module Uuids {
  import opened Wrappers
  import opened Numbers

  type Byte = b: int | 0 <= b < 256

  /** A UUID is its sixteen octets. */
  type Uuid = bs: seq<Byte> | |bs| == 16 witness [0, 0, 0, 0, 0, 0, 0, 0, 0, 0, 0, 0, 0, 0, 0, 0]

  // The 128-bit form

  function Power256(n: nat): (p: nat)
    ensures p > 0
  {
    if n == 0 then 1 else 256 * Power256(n - 1)
  }

  function BigEndian(bs: seq<Byte>): (v: nat)
    ensures v < Power256(|bs|)
  {
    if bs == [] then 0 else 256 * BigEndian(bs[..|bs| - 1]) + bs[|bs| - 1]
  }

  lemma SixteenBytes()
    ensures Power256(16) == TWO_128
  {
    assert Power256(4) == 0x1_0000_0000;
    assert Power256(8) == 0x1_0000_0000_0000_0000;
    assert Power256(12) == 0x1_0000_0000_0000_0000_0000_0000;
  }

  /** `Uuid::as_u128`. */
  function AsU128(u: Uuid): u128 {
    SixteenBytes();
    BigEndian(u)
  }

  lemma {:induction false} BigEndianInjective(a: seq<Byte>, b: seq<Byte>)
    requires |a| == |b| && BigEndian(a) == BigEndian(b)
    ensures a == b
  {
    if a != [] {
      BigEndianInjective(a[..|a| - 1], b[..|b| - 1]);
      assert a == a[..|a| - 1] + [a[|a| - 1]];
      assert b == b[..|b| - 1] + [b[|b| - 1]];
    }
  }

  lemma LastOctet(bs: seq<Byte>, b: Byte)
    ensures BigEndian(bs + [b]) == 256 * BigEndian(bs) + b
    ensures Power256(|bs| + 1) == 256 * Power256(|bs|)
  {
    assert (bs + [b])[..|bs|] == bs;
  }

  lemma Rearranged(x: nat, p: nat, y: nat)
    ensures 256 * (x * p + y) == x * (256 * p) + 256 * y
  {
  }

  lemma {:induction false} BigEndianConcat(a: seq<Byte>, b: seq<Byte>)
    ensures BigEndian(a + b) == BigEndian(a) * Power256(|b|) + BigEndian(b)
  {
    if b == [] {
      assert a + b == a && Power256(0) == 1 && BigEndian([]) == 0;
    } else {
      var n := |b| - 1;
      var front, last := b[..n], b[n];
      assert a + b == a + front + [last] && b == front + [last];
      hide BigEndian, Power256;
      BigEndianConcat(a, front);
      LastOctet(a + front, last);
      LastOctet(front, last);
      Rearranged(BigEndian(a), Power256(n), BigEndian(front));
    }
  }

  lemma SplitAt(bs: seq<Byte>, i: nat)
    requires i < |bs|
    ensures BigEndian(bs) == (256 * BigEndian(bs[..i]) + bs[i]) * Power256(|bs| - 1 - i) + BigEndian(bs[i + 1..])
  {
    hide BigEndian, Power256;
    assert bs == (bs[..i] + [bs[i]]) + bs[i + 1..];
    BigEndianConcat(bs[..i] + [bs[i]], bs[i + 1..]);
    LastOctet(bs[..i], bs[i]);
  }

  /** Octet i weighs 256^(15 - i), and those after it together weigh less than that. */
  lemma OctetWeight(u: Uuid, i: nat)
    requires i < 16
    ensures AsU128(u) == (256 * BigEndian(u[..i]) + u[i]) * Power256(15 - i) + BigEndian(u[i + 1..])
    ensures BigEndian(u[i + 1..]) < Power256(15 - i)
  {
    hide BigEndian, Power256;
    SplitAt(u, i);
    assert |u[i + 1..]| == 15 - i;
  }

  // The string form

  function Digit(n: nat): char
    requires n < 16
  {
    if n < 10 then '0' + n as char else 'a' + (n - 10) as char
  }

  function DigitValue(c: char): (v: Option<nat>)
    ensures v.Some? ==> v.value < 16 && Digit(v.value) == c
  {
    if '0' <= c <= '9' then Some(c as int - '0' as int)
    else if 'a' <= c <= 'f' then Some(c as int - 'a' as int + 10)
    else None
  }

  lemma DigitRoundTrip(n: nat)
    requires n < 16
    ensures DigitValue(Digit(n)) == Some(n)
  {
  }

  function Hex(bs: seq<Byte>): (s: string)
    ensures |s| == 2 * |bs|
  {
    if bs == [] then "" else [Digit(bs[0] / 16), Digit(bs[0] % 16)] + Hex(bs[1..])
  }

  lemma HexPair(h: nat, l: nat, rest: seq<Byte>)
    requires h < 16 && l < 16
    ensures Hex([16 * h + l] + rest) == [Digit(h), Digit(l)] + Hex(rest)
  {
    var bs: seq<Byte> := [16 * h + l] + rest;
    assert bs[1..] == rest && bs[0] / 16 == h && bs[0] % 16 == l;
  }

  function UnHex(s: string): (r: Option<seq<Byte>>)
    ensures r.Some? ==> Hex(r.value) == s
  {
    if |s| == 0 then Some([])
    else if |s| == 1 then None
    else
      match (DigitValue(s[0]), DigitValue(s[1]), UnHex(s[2..]))
      case (Some(h), Some(l), Some(rest)) =>
        var bs: seq<Byte> := [16 * h + l] + rest;
        assert Hex(bs) == s by { HexPair(h, l, rest); assert s == [s[0], s[1]] + s[2..]; }
        Some(bs)
      case _ => None
  }

  lemma {:induction false} HexRoundTrip(bs: seq<Byte>)
    ensures UnHex(Hex(bs)) == Some(bs)
  {
    if bs != [] {
      var h, l := bs[0] / 16, bs[0] % 16;
      HexRoundTrip(bs[1..]);
      DigitRoundTrip(h);
      DigitRoundTrip(l);
      var s := Hex(bs);
      assert s[0] == Digit(h) && s[1] == Digit(l) && s[2..] == Hex(bs[1..]);
      assert UnHex(s) == Some([16 * h + l] + bs[1..]);
      assert bs == [bs[0]] + bs[1..];
    }
  }

  /** Puts the four hyphens of the 8-4-4-4-12 layout into 32 digits. */
  function Hyphenate(h: string): (s: string)
    requires |h| == 32
    ensures |s| == 36
  {
    h[..8] + "-" + h[8..12] + "-" + h[12..16] + "-" + h[16..20] + "-" + h[20..]
  }

  /** `Uuid::to_string`. */
  function ToString(u: Uuid): string {
    Hyphenate(Hex(u))
  }

  lemma HyphensBack(s: string, h: string)
    requires |s| == 36 && s[8] == '-' && s[13] == '-' && s[18] == '-' && s[23] == '-'
    requires h == s[..8] + s[9..13] + s[14..18] + s[19..23] + s[24..]
    ensures Hyphenate(h) == s
  {
    assert h[..8] == s[..8] && h[8..12] == s[9..13] && h[12..16] == s[14..18];
    assert h[16..20] == s[19..23] && h[20..] == s[24..];
  }

  /** The cast `::UUID` on the strings the program writes; None where the cast raises. */
  function Parse(s: string): (r: Option<Uuid>)
    ensures r.Some? ==> ToString(r.value) == s
  {
    if |s| == 36 && s[8] == '-' && s[13] == '-' && s[18] == '-' && s[23] == '-' then
      var h := s[..8] + s[9..13] + s[14..18] + s[19..23] + s[24..];
      assert Hyphenate(h) == s by { HyphensBack(s, h); }
      match UnHex(h)
      case Some(bs) => Some(bs)
      case None => None
    else None
  }

  lemma ParseRoundTrip(u: Uuid)
    ensures Parse(ToString(u)) == Some(u)
  {
    var h, s := Hex(u), ToString(u);
    assert s[..8] == h[..8] && s[9..13] == h[8..12] && s[14..18] == h[12..16];
    assert s[19..23] == h[16..20] && s[24..] == h[20..];
    assert s[..8] + s[9..13] + s[14..18] + s[19..23] + s[24..] == h;
    HexRoundTrip(u);
  }

  const LOWER_HEX := "0123456789abcdef"

  /** Where the two digits of octet i stand: behind the hyphens at 8, 13, 18 and 23 as far as they come before it. */
  function Place(i: nat): (p: nat)
    requires i < 16
    ensures p < 35
  {
    2 * i + (if i >= 4 then 1 else 0) + (if i >= 6 then 1 else 0) + (if i >= 8 then 1 else 0) + if i >= 10 then 1 else 0
  }

  lemma {:induction false} HexAt(bs: seq<Byte>, i: nat)
    requires i < |bs|
    ensures Hex(bs)[2 * i] == Digit(bs[i] / 16) && Hex(bs)[2 * i + 1] == Digit(bs[i] % 16)
  {
    if i > 0 {
      HexAt(bs[1..], i - 1);
    }
  }

  lemma LowerDigit(n: nat)
    requires n < 16
    ensures Digit(n) == LOWER_HEX[n]
  {
  }

  /**
    The string form, character by character: hyphens at 8, 13, 18 and 23, and each octet as two
    lower-case digits in its place.
   */
  lemma StringForm(u: Uuid, i: nat)
    requires i < 16
    ensures var s := ToString(u);
            && |s| == 36
            && s[8] == '-' && s[13] == '-' && s[18] == '-' && s[23] == '-'
            && s[Place(i)] == LOWER_HEX[u[i] / 16] && s[Place(i) + 1] == LOWER_HEX[u[i] % 16]
  {
    HexAt(u, i);
    LowerDigit(u[i] / 16);
    LowerDigit(u[i] % 16);
    hide Hex, Digit;
  }

  /** Neither form of a key confuses two keys: equal strings, equal integers and equal UUIDs coincide. */
  lemma KeyFormsInjective(a: Uuid, b: Uuid)
    ensures ToString(a) == ToString(b) <==> a == b
    ensures AsU128(a) == AsU128(b) <==> a == b
  {
    ParseRoundTrip(a);
    ParseRoundTrip(b);
    if AsU128(a) == AsU128(b) {
      BigEndianInjective(a, b);
    }
  }
}
