/** NMEA 0183 sentences as lago_v1_2 reads them: the XOR checksum of section 5.2.3, the message
    types, the comma-separated fields, and the loop that waits for one position (GGA) and one
    course (RMC) sentence. A sentence is a sequence of bytes without the final zero. */
module Nmea {
  import opened Words
  import opened TextNumbers

  const DOLLAR: u8 := 36
  const STAR: u8 := 42

  type Line = seq<u8>

  // ----- Checksum

  /** Exclusive or of the n lowest bits. */
  function XorBits(a: nat, b: nat, n: nat): (x: nat)
    ensures x < Pow2(n)
  {
    if n == 0 then 0 else 2 * XorBits(a / 2, b / 2, n - 1) + (a + b) % 2
  }

  function Xor(a: u8, b: u8): (x: u8) {
    Pow2Of8();
    XorBits(a, b, 8)
  }

  lemma Pow2Of8()
    ensures Pow2(8) == 256
  {
    assert Pow2(4) == 16;
    assert Pow2(6) == 4 * Pow2(4);
  }

  /** Exclusive or with one number keeps different numbers apart, on either side. */
  lemma {:induction false} XorBitsInjective(x: nat, a: nat, b: nat, n: nat)
    requires a < Pow2(n) && b < Pow2(n) && a != b
    ensures XorBits(x, a, n) != XorBits(x, b, n) && XorBits(a, x, n) != XorBits(b, x, n)
  {
    if n > 0 {
      if a / 2 != b / 2 {
        XorBitsInjective(x / 2, a / 2, b / 2, n - 1);
      } else {
        LastBits(x, a, b);
      }
    }
  }

  lemma LastBits(x: nat, a: nat, b: nat)
    requires a / 2 == b / 2 && a != b
    ensures (x + a) % 2 != (x + b) % 2 && (a + x) % 2 != (b + x) % 2
  {
    assert b == a + 1 || a == b + 1;
  }

  lemma XorInjective(x: u8, a: u8, b: u8)
    requires a != b
    ensures Xor(x, a) != Xor(x, b) && Xor(a, x) != Xor(b, x)
  {
    Pow2Of8();
    XorBitsInjective(x, a, b, 8);
  }

  function XorAll(s: seq<u8>): u8 {
    if s == [] then 0 else Xor(XorAll(s[..|s| - 1]), s[|s| - 1])
  }

  // ----- What the exclusive or is

  /** Bit i of a number. */
  function Bit(x: nat, i: nat): nat {
    if i == 0 then x % 2 else Bit(x / 2, i - 1)
  }

  lemma {:induction false} XorBit(a: nat, b: nat, n: nat, i: nat)
    requires i < n
    ensures Bit(XorBits(a, b, n), i) == (Bit(a, i) + Bit(b, i)) % 2
  {
    XorSplit(a, b, n);
    if i == 0 {
      ParityOfSum(a, b);
    } else {
      XorBit(a / 2, b / 2, n - 1, i - 1);
    }
  }

  lemma XorSplit(a: nat, b: nat, n: nat)
    requires n > 0
    ensures XorBits(a, b, n) % 2 == (a + b) % 2 && XorBits(a, b, n) / 2 == XorBits(a / 2, b / 2, n - 1)
  {
    Unpack(XorBits(a / 2, b / 2, n - 1), 2, (a + b) % 2);
  }

  lemma ParityOfSum(a: nat, b: nat)
    ensures (a + b) % 2 == (a % 2 + b % 2) % 2
  {
  }

  /** How many of the bytes have bit i set. */
  function OnesAt(s: seq<u8>, i: nat): nat {
    if s == [] then 0 else OnesAt(s[..|s| - 1], i) + Bit(s[|s| - 1], i)
  }

  lemma {:induction false} BitOfZero(i: nat)
    ensures Bit(0, i) == 0
  {
    if i > 0 {
      BitOfZero(i - 1);
    }
  }

  /** Bit i of the checksum says whether an odd number of the bytes have bit i set. */
  lemma {:induction false} ChecksumIsParity(s: seq<u8>, i: nat)
    requires i < 8
    ensures Bit(XorAll(s), i) == OnesAt(s, i) % 2
  {
    if s == [] {
      BitOfZero(i);
    } else {
      ChecksumIsParity(s[..|s| - 1], i);
      XorOneBit(XorAll(s[..|s| - 1]), s[|s| - 1], i);
    }
  }

  lemma XorOneBit(a: u8, b: u8, i: nat)
    requires i < 8
    ensures Bit(Xor(a, b), i) == (Bit(a, i) + Bit(b, i)) % 2
  {
    XorBit(a, b, 8, i);
  }

  /** The position of the first star from i on; every sentence handed over has one. */
  function StarFrom(line: Line, i: nat): (p: nat)
    requires i <= |line| && STAR in line[i..]
    ensures i <= p < |line| && line[p] == STAR && STAR !in line[i..p]
    decreases |line| - i
  {
    if line[i] == STAR then i else StarFrom(line, i + 1)
  }

  /** What the parser demands of a line: a star after its first character. */
  predicate HasStar(line: Line) {
    line != [] && STAR in line[1..]
  }

  lemma StarAnywhere(line: Line)
    requires HasStar(line)
    ensures STAR in line[0..]
  {
    var k :| 0 <= k < |line[1..]| && line[1..][k] == STAR;
    assert line[0..][k + 1] == STAR;
  }

  /** The value of a hexadecimal digit; 16 for any other character. */
  function HexValue(c: u8): (v: nat)
    ensures v <= 16
  {
    if 48 <= c <= 57 then c - 48
    else if 65 <= c <= 70 then c - 55
    else if 97 <= c <= 102 then c - 87
    else 16
  }

  function HexDigits(s: seq<u8>, v: nat): nat
    decreases |s|
  {
    if s == [] || HexValue(s[0]) == 16 then v else HexDigits(s[1..], v * 16 + HexValue(s[0]))
  }

  function SkipPrefix(s: seq<u8>): seq<u8> {
    if |s| >= 3 && s[0] == 48 && (s[1] == 120 || s[1] == 88) && HexValue(s[2]) < 16 then s[2..] else s
  }

  /** strtol in base 16: spaces, a sign, an optional 0x, digits up to the first other character;
      too large numbers saturate. */
  function Strtol16(s: seq<u8>): int {
    var t := SkipSpace(s);
    var n := HexDigits(SkipPrefix(AfterSign(t)), 0);
    if Negative(t) then -Min(n, LONG_MAX + 1) else Min(n, LONG_MAX)
  }

  /** The checksum is accepted when the XOR of the characters between the first one and the star
      is the number after the star, modulo 256. */
  predicate Accepted(line: Line)
    requires HasStar(line)
  {
    StarAnywhere(line);
    XorAll(line[1..StarFrom(line, 1)]) == Strtol16(line[StarFrom(line, 0) + 1..]) % 256
  }

  method ValidChecksum(line: Line) returns (ok: bool)
    requires HasStar(line)
    ensures ok == Accepted(line)
  {
    StarAnywhere(line);
    var checksum := Strtol16(line[StarFrom(line, 0) + 1..]) % 256;
    var sum: u8 := 0;
    var i := 1;
    while line[i] != STAR
      invariant 1 <= i <= StarFrom(line, 1) && StarFrom(line, 1) == StarFrom(line, i)
      invariant sum == XorAll(line[1..i])
      decreases |line| - i
    {
      assert line[1..i + 1][..i - 1] == line[1..i];
      sum := Xor(sum, line[i]);
      i := i + 1;
    }
    ok := sum == checksum;
  }

  // ----- Sentences with a checksum appended

  const HEX: seq<u8> := [48, 49, 50, 51, 52, 53, 54, 55, 56, 57, 65, 66, 67, 68, 69, 70]

  function HexChar(v: nat): (c: u8)
    requires v < 16
  {
    HEX[v]
  }

  lemma HexCharValue(v: nat)
    requires v < 16
    ensures HexValue(HexChar(v)) == v
    ensures !IsSpace(HexChar(v)) && HexChar(v) != MINUS && HexChar(v) != PLUS
    ensures HexChar(v) != 120 && HexChar(v) != 88 && HexChar(v) != COMMA && HexChar(v) != DOLLAR
  {
    if v < 8 {
    } else {
    }
  }

  function HexOf(x: u8): (h: seq<u8>)
    ensures |h| == 2
  {
    [HexChar(x / 16), HexChar(x % 16)]
  }

  /** A start character, the body, a star, two hexadecimal digits, and what follows. */
  function Sentence(start: u8, body: seq<u8>, tail: seq<u8>): Line {
    [start] + body + [STAR] + (HexOf(XorAll(body)) + tail)
  }

  lemma StarIsFirst(line: Line, i: nat, p: nat)
    requires i <= p < |line| && line[p] == STAR && STAR !in line[i..p]
    ensures STAR in line[i..] && StarFrom(line, i) == p
  {
    assert line[i..][p - i] == STAR;
    NoneIn(line, i, p);
    NoneIn(line, i, StarFrom(line, i));
  }

  lemma NoneIn(line: Line, i: nat, p: nat)
    requires i <= p <= |line| && STAR !in line[i..p]
    ensures forall k :: i <= k < p ==> line[k] != STAR
  {
    forall k | i <= k < p
      ensures line[k] != STAR
    {
      assert line[i..p][k - i] == line[k];
    }
  }

  lemma HexDigitsTwo(a: u8, b: u8, tail: seq<u8>)
    requires HexValue(a) < 16 && HexValue(b) < 16 && (tail == [] || HexValue(tail[0]) == 16)
    ensures HexDigits([a, b] + tail, 0) == HexValue(a) * 16 + HexValue(b)
  {
    var s := [a, b] + tail;
    assert s[1..] == [b] + tail;
    assert s[1..][1..] == tail;
    assert HexDigits(s[1..], HexValue(a)) == HexDigits(tail, HexValue(a) * 16 + HexValue(b));
  }

  lemma TwoDigits(x: u8, tail: seq<u8>)
    requires tail == [] || HexValue(tail[0]) == 16
    ensures Strtol16(HexOf(x) + tail) == x
  {
    HexCharValue(x / 16);
    HexCharValue(x % 16);
    PlainHex(HexOf(x) + tail);
    HexDigitsTwo(HexChar(x / 16), HexChar(x % 16), tail);
  }

  lemma PlainHex(s: seq<u8>)
    requires |s| >= 2 && !IsSpace(s[0]) && s[0] != MINUS && s[0] != PLUS && s[1] != 120 && s[1] != 88
    ensures Strtol16(s) == Min(HexDigits(s, 0), LONG_MAX)
  {
  }

  /** The sixteen digits in either case, and their values. */
  lemma HexValues(v: nat)
    requires v < 16
    ensures v < 10 ==> HexValue('0' as int + v) == v
    ensures v >= 10 ==> HexValue('A' as int + v - 10) == v && HexValue('a' as int + v - 10) == v
    ensures HexChar(v) == if v < 10 then '0' as int + v else 'A' as int + v - 10
  {
    assert HEX[0] == 48 && HEX[1] == 49 && HEX[2] == 50 && HEX[3] == 51 && HEX[4] == 52 && HEX[5] == 53;
    assert HEX[6] == 54 && HEX[7] == 55 && HEX[8] == 56 && HEX[9] == 57 && HEX[10] == 65 && HEX[11] == 66;
  }

  /** Two hexadecimal digits in either case, with or without spaces and 0x before them, are the
      number they are read as. */
  lemma TwoDigitsRead(a: u8, b: u8, tail: seq<u8>)
    requires HexValue(a) < 16 && HexValue(b) < 16 && (tail == [] || HexValue(tail[0]) == 16)
    ensures Strtol16([a, b] + tail) == HexValue(a) * 16 + HexValue(b)
    ensures Strtol16([48, 120] + ([a, b] + tail)) == HexValue(a) * 16 + HexValue(b)
    ensures Strtol16([32] + ([a, b] + tail)) == HexValue(a) * 16 + HexValue(b)
  {
    var s := [a, b] + tail;
    HexDigitsTwo(a, b, tail);
    PlainHex(s);
    var t := [48, 120] + s;
    assert t[0] == 48 && t[1] == 120 && t[2] == a && t[2..] == s;
    assert SkipSpace(t) == t && AfterSign(t) == t;
    assert ([32] + s)[1..] == s;
  }

  lemma AcceptedIf(line: Line, p: nat)
    requires 1 <= p < |line| && line[p] == STAR && line[0] != STAR && STAR !in line[1..p]
    requires Strtol16(line[p + 1..]) == XorAll(line[1..p])
    ensures HasStar(line) && Accepted(line)
  {
    StarIsFirst(line, 1, p);
    assert line[0..p] == [line[0]] + line[1..p];
    StarIsFirst(line, 0, p);
  }

  /** Appending the checksum makes any body without a star acceptable. */
  lemma AppendedAccepted(start: u8, body: seq<u8>, tail: seq<u8>)
    requires start != STAR && STAR !in body && (tail == [] || HexValue(tail[0]) == 16)
    ensures HasStar(Sentence(start, body, tail)) && Accepted(Sentence(start, body, tail))
  {
    TwoDigits(XorAll(body), tail);
    SentenceParts(start, body, HexOf(XorAll(body)) + tail);
    AcceptedIf(Sentence(start, body, tail), |body| + 1);
  }

  lemma SentenceParts(start: u8, body: seq<u8>, hex: seq<u8>)
    ensures var line, p := [start] + body + [STAR] + hex, |body| + 1;
      line[0] == start && line[p] == STAR && line[1..p] == body && line[p + 1..] == hex
  {
  }

  lemma {:induction false} XorUpdate(s: seq<u8>, i: nat, c: u8)
    requires i < |s| && c != s[i]
    ensures XorAll(s[i := c]) != XorAll(s)
  {
    var n := |s| - 1;
    if i == n {
      assert s[i := c][..n] == s[..n];
      XorInjective(XorAll(s[..n]), s[n], c);
    } else {
      XorUpdate(s[..n], i, c);
      assert s[i := c][..n] == s[..n][i := c];
      XorInjective(s[n], XorAll(s[..n]), XorAll(s[..n][i := c]));
    }
  }

  /** Changing one character of the body, not to a star, makes an accepted sentence rejected. */
  lemma ChangeRejected(line: Line, i: nat, c: u8)
    requires HasStar(line) && line[0] != STAR && Accepted(line)
    requires 1 <= i < StarFrom(line, 1) && c != line[i] && c != STAR
    ensures HasStar(line[i := c]) && !Accepted(line[i := c])
  {
    var p, changed := StarFrom(line, 1), line[i := c];
    ChangedParts(line, p, i, c);
    SameStar(line);
    StarIsFirst(changed, 1, p);
    SameStar(changed);
    XorUpdate(line[1..p], i - 1, c);
  }

  lemma ChangedParts(line: Line, p: nat, i: nat, c: u8)
    requires 1 <= i < p < |line|
    ensures line[i := c][1..p] == line[1..p][i - 1 := c] && line[i := c][p + 1..] == line[p + 1..]
  {
  }

  lemma SameStar(line: Line)
    requires HasStar(line) && line[0] != STAR
    ensures STAR in line[0..] && StarFrom(line, 0) == StarFrom(line, 1)
  {
    var p := StarFrom(line, 1);
    assert line[0..p] == [line[0]] + line[1..p];
    StarIsFirst(line, 0, p);
  }

  // ----- Message types

  const GPGGA: seq<u8> := [36, 71, 80, 71, 71, 65]
  const GPRMC: seq<u8> := [36, 71, 80, 82, 77, 67]

  datatype Kind = Gga | Rmc | Unknown | ChecksumError

  predicate OccursAt(pattern: seq<u8>, line: Line, i: nat) {
    i + |pattern| <= |line| && line[i..i + |pattern|] == pattern
  }

  predicate Occurs(pattern: seq<u8>, line: Line) {
    exists i :: 0 <= i <= |line| && OccursAt(pattern, line, i)
  }

  function MessageType(line: Line): Kind
    requires HasStar(line)
  {
    if !Accepted(line) then ChecksumError
    else if Occurs(GPGGA, line) then Gga
    else if Occurs(GPRMC, line) then Rmc
    else Unknown
  }
}
