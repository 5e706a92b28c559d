/**
 Nix's base32: the bytes read as one number, little end first, and written in
 base 32 from the most significant digit. The encoder never forms that number; it
 cuts five bits at a time out of neighbouring bytes with 8-bit shifts.
 */
module Base32 {
  import opened Basics

  const ALPHABET: string := "0123456789abcdfghijklmnpqrsvwxyz"

  /** The digits are those of decimal, then the letters in order but for e, o, t and u. */
  lemma AlphabetIsNix(d: nat)
    requires d < 32
    ensures |ALPHABET| == 32
    ensures ALPHABET[d] ==
            if d < 10 then '0' + d as char
            else if d < 14 then 'a' + (d - 10) as char
            else if d < 23 then 'f' + (d - 14) as char
            else if d < 27 then 'p' + (d - 23) as char
            else 'v' + (d - 27) as char
  {
    assert forall k :: 10 <= k < 14 ==> ALPHABET[k] == "abcd"[k - 10];
    assert forall k :: 14 <= k < 23 ==> ALPHABET[k] == "fghijklmn"[k - 14];
    assert forall k :: 23 <= k < 27 ==> ALPHABET[k] == "pqrs"[k - 23];
  }

  // ------------------------------------------------------------ 8-bit operations

  function Or(a: nat, b: nat): nat {
    if a == 0 && b == 0 then 0
    else 2 * Or(a / 2, b / 2) + (if a % 2 == 1 || b % 2 == 1 then 1 else 0)
  }

  function And(a: nat, b: nat): nat {
    if a == 0 || b == 0 then 0
    else 2 * And(a / 2, b / 2) + (if a % 2 == 1 && b % 2 == 1 then 1 else 0)
  }

  function ShiftRight(a: byte, k: nat): (r: nat)
    ensures r < 256
  {
    Shrink(a as nat, Pow2(k));
    a as nat / Pow2(k)
  }

  /** Bits shifted past the eighth are lost. */
  function ShiftLeft(a: byte, k: nat): nat {
    a as nat * Pow2(k) % 256
  }

  lemma NoSmallMultiple(k: int, m: nat)
    ensures k >= 1 ==> k * m >= m
    ensures k <= -1 ==> k * m + m <= 0
  {
    if k >= 1 {
      assert k * m == m + (k - 1) * m;
    } else if k <= -1 {
      assert k * m + m == (k + 1) * m;
    }
  }

  lemma Shrink(n: nat, d: nat)
    requires d >= 1
    ensures 0 <= n / d <= n
  {
    DivMod(n, d);
    NoSmallMultiple(d, n / d);
  }

  // ------------------------------------------------------------ encoding

  function Length(bytes: nat): nat {
    if bytes == 0 then 0 else (bytes * 8 - 1) / 5 + 1
  }

  /** Five bits from bit `j` of a byte up, into the next byte if there is one; none are missing if `j` is 0. */
  function Group(b0: byte, next: Option<byte>, j: nat): nat
    requires j < 8
  {
    var lo := ShiftRight(b0, j);
    var hi := if j == 0 || next.None? then 0 else ShiftLeft(next.value, 8 - j);
    And(Or(lo, hi), 0x1f)
  }

  /** The five bits from position `b` up. */
  function FiveBits(bytes: seq<byte>, b: nat): nat
    requires b / 8 < |bytes|
  {
    var i := b / 8;
    Group(bytes[i], if i + 1 < |bytes| then Some(bytes[i + 1]) else None, b % 8)
  }

  function Encode(bytes: seq<byte>): string {
    seq(Length(|bytes|), m requires 0 <= m < Length(|bytes|) =>
      var n := Length(|bytes|) - 1 - m;
      LengthFits(|bytes|, n);
      FiveBitsFit(bytes, n * 5);
      ALPHABET[FiveBits(bytes, n * 5)])
  }

  /** Exactly as many digits as the bits need. */
  lemma LengthIsCeiling(bytes: nat)
    ensures 5 * Length(bytes) >= 8 * bytes
    ensures bytes > 0 ==> 5 * (Length(bytes) - 1) < 8 * bytes
    ensures Length(bytes) == (8 * bytes + 4) / 5
  {
  }

  lemma LengthFits(bytes: nat, n: nat)
    requires n < Length(bytes)
    ensures n * 5 / 8 < bytes
  {
  }

  lemma FiveBitsFit(bytes: seq<byte>, b: nat)
    requires b / 8 < |bytes|
    ensures FiveBits(bytes, b) < 32 == |ALPHABET|
  {
    var i := b / 8;
    GroupFits(bytes[i], if i + 1 < |bytes| then Some(bytes[i + 1]) else None, b % 8);
  }

  lemma GroupFits(b0: byte, next: Option<byte>, j: nat)
    requires j < 8
    ensures Group(b0, next, j) < 32 == |ALPHABET|
  {
    var lo := ShiftRight(b0, j);
    var hi := if j == 0 || next.None? then 0 else ShiftLeft(next.value, 8 - j);
    LowFive(Or(lo, hi));
  }

  // ------------------------------------------------------------ the number the bytes are

  function Number(bytes: seq<byte>): nat {
    if bytes == [] then 0 else bytes[0] as nat + 256 * Number(bytes[1..])
  }

  lemma {:induction false} OrDisjoint(a: nat, c: nat, k: nat)
    requires a < Pow2(k)
    ensures Or(a, c * Pow2(k)) == a + c * Pow2(k)
  {
    if k == 0 {
      OrZero(c);
    } else {
      var half := c * Pow2(k - 1);
      assert c * Pow2(k) == 2 * half;
      OrDisjoint(a / 2, c, k - 1);
      assert c * Pow2(k) / 2 == half && c * Pow2(k) % 2 == 0;
    }
  }

  lemma {:induction false} OrZero(c: nat)
    ensures Or(0, c) == c
  {
    if c > 0 {
      OrZero(c / 2);
    }
  }

  lemma {:induction false} MaskIsRemainder(a: nat, k: nat)
    ensures And(a, Pow2(k) - 1) == a % Pow2(k)
  {
    if k == 0 {
      assert a % 1 == 0;
    } else if a == 0 {
      assert 0 % Pow2(k) == 0;
    } else {
      var m := Pow2(k - 1);
      MaskIsRemainder(a / 2, k - 1);
      MaskHalves(a, m);
      HalfRemainder(a, m);
      assert Pow2(k) == 2 * m;
    }
  }

  lemma MaskHalves(a: nat, m: nat)
    requires a > 0 && m >= 1
    ensures And(a, 2 * m - 1) == 2 * And(a / 2, m - 1) + a % 2
  {
    assert (2 * m - 1) / 2 == m - 1 && (2 * m - 1) % 2 == 1;
  }

  lemma HalfRemainder(a: nat, m: nat)
    requires m >= 1
    ensures a % (2 * m) == 2 * (a / 2 % m) + a % 2
  {
    var q, r := a / 2 / m, a / 2 % m;
    assert a / 2 == q * m + r;
    assert a == q * (2 * m) + (2 * r + a % 2);
    UniqueRemainder(a, 2 * m, q, 2 * r + a % 2);
  }

  lemma UniqueRemainder(a: nat, m: nat, q: nat, r: nat)
    requires m >= 1 && a == q * m + r && r < m
    ensures a % m == r && a / m == q
  {
    DivMod(a, m);
    var p := a / m;
    assert (p - q) * m == p * m - q * m;
    NoSmallMultiple(p - q, m);
  }

  /** `n` without its `b` lowest bits. */
  function Halved(n: nat, b: nat): nat {
    if b == 0 then n else Halved(n / 2, b - 1)
  }

  /** `n` without its `k` lowest digits in base 32. */
  function Shorn(n: nat, k: nat): nat {
    if k == 0 then n else Shorn(n / 32, k - 1)
  }

  lemma {:induction false} HalvedIsShorn(n: nat, k: nat)
    ensures Halved(n, 5 * k) == Shorn(n, k)
  {
    if k > 0 {
      HalvedIsShorn(n / 32, k - 1);
      var b := 5 * (k - 1);
      assert Halved(n, b + 5) == Halved(n / 2, b + 4) == Halved(n / 2 / 2, b + 3)
          == Halved(n / 2 / 2 / 2, b + 2) == Halved(n / 2 / 2 / 2 / 2, b + 1) == Halved(n / 2 / 2 / 2 / 2 / 2, b);
      assert n / 2 / 2 / 2 / 2 / 2 == n / 32;
    }
  }

  lemma HalvedByte(n: nat, b: nat)
    requires b >= 8
    ensures Halved(n, b) == Halved(n / 256, b - 8)
  {
    var c := b - 8;
    assert Halved(n, c + 8) == Halved(n / 2, c + 7) == Halved(n / 2 / 2, c + 6) == Halved(n / 2 / 2 / 2, c + 5)
        == Halved(n / 2 / 2 / 2 / 2, c + 4);
    var m := n / 2 / 2 / 2 / 2;
    assert Halved(m, c + 4) == Halved(m / 2, c + 3) == Halved(m / 2 / 2, c + 2) == Halved(m / 2 / 2 / 2, c + 1)
        == Halved(m / 2 / 2 / 2 / 2, c);
    assert m == n / 16 && m / 2 / 2 / 2 / 2 == m / 16 && n / 16 / 16 == n / 256;
  }

  lemma {:induction false} HalvedIsDivided(n: nat, j: nat)
    ensures Halved(n, j) == n / Pow2(j)
  {
    if j > 0 {
      HalvedIsDivided(n / 2, j - 1);
      HalfThenRest(n, Pow2(j - 1));
    }
  }

  lemma HalfThenRest(n: nat, m: nat)
    requires m >= 1
    ensures n / 2 / m == n / (2 * m)
  {
    DivMod(n / 2, m);
    var q, r := n / 2 / m, n / 2 % m;
    assert n == q * (2 * m) + (2 * r + n % 2);
    UniqueRemainder(n, 2 * m, q, 2 * r + n % 2);
  }

  /** The two halves of a group, as a power of two `p` and its complement `q` cut them. */
  predicate Cuts(p: nat, q: nat) {
    || (p == 1 && q == 256) || (p == 2 && q == 128) || (p == 4 && q == 64) || (p == 8 && q == 32)
    || (p == 16 && q == 16) || (p == 32 && q == 8) || (p == 64 && q == 4) || (p == 128 && q == 2)
  }

  lemma PowersCut(j: nat)
    requires j < 8
    ensures Cuts(Pow2(j), Pow2(8 - j))
  {
    assert Pow2(1) == 2 && Pow2(2) == 4 && Pow2(3) == 8 && Pow2(4) == 16;
    assert Pow2(5) == 32 && Pow2(6) == 64 && Pow2(7) == 128 && Pow2(8) == 256;
  }

  /** Dividing by `p` leaves `b / p` below and the higher bytes above. */
  lemma CutLow(b: nat, m: nat, p: nat, q: nat) returns (x: nat, z: nat)
    requires Cuts(p, q) && b < 256
    ensures x == b / p && z == m * q && (b + 256 * m) / p == x + z
  {
    x, z := b / p, m * q;
    if p == 1 {} else if p == 2 {} else if p == 4 {} else if p == 8 {}
    else if p == 16 {} else if p == 32 {} else if p == 64 {} else {}
  }

  lemma Spread(b: nat, p: nat, q: nat, t: nat, u: nat, r: nat)
    requires p * q == 256 && b == t * p + u
    ensures (b + 256 * r) * q == u * q + 256 * t + 256 * (r * q)
  {
    assert (t * p + u + 256 * r) * q == t * p * q + u * q + 256 * r * q;
    assert t * p * q == t * (p * q);
  }

  lemma CutTruncates(b: nat, p: nat, q: nat)
    requires Cuts(p, q) && b < 256
    ensures b * q % 256 == b % p * q && b / p < q
  {
    var t, u := b / p, b % p;
    DivMod(b, p);
    CutFits(b, p, q, t, u);
    UniqueRemainder(b * q, 256, t, u * q);
  }

  lemma CutFits(b: nat, p: nat, q: nat, t: nat, u: nat)
    requires p * q == 256 && q >= 1 && b == t * p + u && u < p && b < 256
    ensures b * q == t * 256 + u * q && u * q < 256 && t < q
  {
    Spread(b, p, q, t, u, 0);
    NoSmallMultiple(p - u, q);
    assert (p - u) * q == p * q - u * q;
    NoSmallMultiple(q - t, p);
    assert (q - t) * p == p * q - t * p > 0;
  }

  /** Of the higher bytes only `b % p` is left below 32. */
  lemma CutHigh(b: nat, r: nat, p: nat, q: nat) returns (y: nat, k: nat)
    requires Cuts(p, q)
    ensures y == b % p * q && (b + 256 * r) * q == y + 32 * k
  {
    DivMod(b, p);
    Spread(b, p, q, b / p, b % p, r);
    y, k := b % p * q, 8 * (b / p) + 8 * (r * q);
  }

  lemma CutJoins(b0: nat, b1: nat, r: nat, p: nat, q: nat)
    requires Cuts(p, q) && b0 < 256
    ensures (b0 / p + b1 % p * q) % 32 == (b0 + 256 * (b1 + 256 * r)) / p % 32
  {
    var x, z := CutLow(b0, b1 + 256 * r, p, q);
    var y, k := CutHigh(b1, r, p, q);
    SameRemainder(x + z, x, y, z, k);
  }

  lemma SameRemainder(n: nat, x: nat, y: nat, z: nat, k: nat)
    requires n == x + z && z == y + 32 * k
    ensures (x + y) % 32 == n % 32
  {
  }

  /** Five bits cut out of two bytes: the shifts lose nothing that matters, and the halves do not overlap. */
  lemma TwoBytes(b0: byte, b1: byte, j: nat)
    requires j < 8
    ensures And(Or(ShiftRight(b0, j), ShiftLeft(b1, 8 - j)), 0x1f)
         == (b0 as nat / Pow2(j) + b1 as nat % Pow2(j) * Pow2(8 - j)) % 32
  {
    var p, q := Pow2(j), Pow2(8 - j);
    PowersCut(j);
    CutTruncates(b0 as nat, p, q);
    CutTruncates(b1 as nat, p, q);
    var lo, hi := ShiftRight(b0, j), ShiftLeft(b1, 8 - j);
    OrDisjoint(lo, b1 as nat % p, 8 - j);
    LowFive(Or(lo, hi));
  }

  /** Five bits from position `j` of two bytes, and of the number they begin. */
  lemma TwoBytesOf(b0: byte, b1: byte, r: nat, j: nat, n: nat)
    requires j < 8 && n == b0 as nat + 256 * (b1 as nat + 256 * r)
    ensures And(Or(ShiftRight(b0, j), ShiftLeft(b1, 8 - j)), 0x1f) == n / Pow2(j) % 32
  {
    TwoBytes(b0, b1, j);
    PowersCut(j);
    CutJoins(b0 as nat, b1 as nat, r, Pow2(j), Pow2(8 - j));
  }

  lemma OneByteOf(b0: byte, b1: byte, r: nat, j: nat, n: nat)
    requires j < 8 && (j == 0 || b1 == 0) && n == b0 as nat + 256 * (b1 as nat + 256 * r)
    ensures And(Or(ShiftRight(b0, j), 0), 0x1f) == n / Pow2(j) % 32
  {
    OneByte(b0, b1, j);
    var p, q := Pow2(j), Pow2(8 - j);
    PowersCut(j);
    CutJoins(b0 as nat, b1 as nat, r, p, q);
  }

  lemma LowFive(n: nat)
    ensures And(n, 0x1f) == n % 32
  {
    assert Pow2(0) == 1 && Pow2(1) == 2 && Pow2(2) == 4 && Pow2(3) == 8 && Pow2(4) == 16 && Pow2(5) == 32;
    MaskIsRemainder(n, 5);
  }

  /** A group with nothing to take from a second byte is as if that byte were zero. */
  lemma OneByte(b0: byte, b1: byte, j: nat)
    requires j < 8 && (j == 0 || b1 == 0)
    ensures And(Or(ShiftRight(b0, j), 0), 0x1f)
         == (b0 as nat / Pow2(j) + b1 as nat % Pow2(j) * Pow2(8 - j)) % 32
  {
    assert b1 as nat % Pow2(j) * Pow2(8 - j) == 0;
    var lo := ShiftRight(b0, j);
    OrNothing(lo);
    LowFive(lo);
  }

  lemma {:induction false} OrNothing(a: nat)
    ensures Or(a, 0) == a
  {
    if a > 0 {
      OrNothing(a / 2);
    }
  }

  /** A group is cut out of any number that begins with its bytes. */
  lemma GroupOf(b0: byte, next: Option<byte>, r: nat, j: nat, n: nat)
    requires j < 8 && n == b0 as nat + 256 * ((if next.Some? then next.value as nat else 0) + 256 * r)
    ensures Group(b0, next, j) == n / Pow2(j) % 32
  {
    if j == 0 || next.None? {
      OneByteOf(b0, if next.Some? then next.value else 0, r, j, n);
    } else {
      TwoBytesOf(b0, next.value, r, j, n);
    }
  }

  /** The five bits from a position in the first byte. */
  lemma LowBitsOfNumber(bytes: seq<byte>, b: nat)
    requires bytes != [] && b < 8
    ensures FiveBits(bytes, b) == Number(bytes) / Pow2(b) % 32
  {
    var tail := bytes[1..];
    assert b / 8 == 0 && b % 8 == b;
    if |bytes| > 1 {
      assert Number(tail) == bytes[1] as nat + 256 * Number(tail[1..]);
      GroupOf(bytes[0], Some(bytes[1]), Number(tail[1..]), b, Number(bytes));
    } else {
      assert Number(tail) == 0;
      GroupOf(bytes[0], None, 0, b, Number(bytes));
    }
  }

  /** The five bits at any position are the number's. */
  lemma {:induction false} FiveBitsOfNumber(bytes: seq<byte>, b: nat)
    requires b / 8 < |bytes|
    ensures FiveBits(bytes, b) == Halved(Number(bytes), b) % 32
    decreases |bytes|
  {
    if b < 8 {
      LowBitsOfNumber(bytes, b);
      HalvedIsDivided(Number(bytes), b);
    } else {
      var tail := bytes[1..];
      FiveBitsOfNumber(tail, b - 8);
      HalvedByte(Number(bytes), b);
      assert Number(bytes) / 256 == Number(tail);
      assert b / 8 == (b - 8) / 8 + 1 && b % 8 == (b - 8) % 8;
    }
  }

  /** Digit `n` of the encoding is digit `n` of the number in base 32. */
  lemma DigitsAreBase32(bytes: seq<byte>, n: nat)
    requires n < Length(|bytes|)
    ensures |Encode(bytes)| == Length(|bytes|)
    ensures Encode(bytes)[Length(|bytes|) - 1 - n] == ALPHABET[Shorn(Number(bytes), n) % 32]
  {
    LengthFits(|bytes|, n);
    FiveBitsOfNumber(bytes, 5 * n);
    HalvedIsShorn(Number(bytes), n);
  }

  // ------------------------------------------------------------ decoding

  function Rank(c: char, from: nat): nat
    requires from <= |ALPHABET|
    decreases |ALPHABET| - from
  {
    if from == |ALPHABET| || ALPHABET[from] == c then from else Rank(c, from + 1)
  }

  /** The number a base-32 text spells, most significant digit first. */
  function Spelled(s: string): nat {
    if s == [] then 0 else 32 * Spelled(s[..|s| - 1]) + Rank(s[|s| - 1], 0)
  }

  /** A number as so many bytes, little end first. */
  function Bytes(n: nat, count: nat): seq<byte> {
    if count == 0 then [] else [(n % 256) as byte] + Bytes(n / 256, count - 1)
  }

  function Decode(s: string, count: nat): seq<byte> {
    Bytes(Spelled(s), count)
  }

  lemma AlphabetRises(i: nat, j: nat)
    requires i < j < |ALPHABET|
    ensures ALPHABET[i] < ALPHABET[j]
  {
    if i + 1 < j {
      AlphabetRises(i, j - 1);
    }
  }

  lemma {:induction false} RankFinds(d: nat, from: nat)
    requires from <= d < |ALPHABET|
    ensures Rank(ALPHABET[d], from) == d
    decreases d - from
  {
    if from < d {
      AlphabetRises(from, d);
      RankFinds(d, from + 1);
    }
  }

  lemma {:induction false} NumberBound(bytes: seq<byte>, k: nat)
    requires 8 * |bytes| <= k
    ensures Halved(Number(bytes), k) == 0
    decreases |bytes|
  {
    if bytes == [] {
      HalvedZero(k);
    } else {
      HalvedByte(Number(bytes), k);
      NumberBound(bytes[1..], k - 8);
    }
  }

  lemma {:induction false} HalvedZero(k: nat)
    ensures Halved(0, k) == 0
  {
    if k > 0 {
      HalvedZero(k - 1);
    }
  }

  lemma {:induction false} ShornOnce(n: nat, k: nat)
    ensures Shorn(n, k + 1) == Shorn(n, k) / 32
  {
    if k > 0 {
      ShornOnce(n / 32, k - 1);
    }
  }

  /** The first `m` digits spell the number without its other digits. */
  lemma {:induction false} SpelledSoFar(bytes: seq<byte>, m: nat)
    requires m <= Length(|bytes|)
    ensures |Encode(bytes)| == Length(|bytes|)
    ensures Spelled(Encode(bytes)[..m]) == Shorn(Number(bytes), Length(|bytes|) - m)
  {
    var n, s := Number(bytes), Encode(bytes);
    var left := Length(|bytes|) - m;
    if m == 0 {
      LengthIsCeiling(|bytes|);
      NumberBound(bytes, 5 * left);
      HalvedIsShorn(n, left);
    } else {
      SpelledSoFar(bytes, m - 1);
      DigitsAreBase32(bytes, left);
      assert s[..m][..m - 1] == s[..m - 1];
      RankFinds(Shorn(n, left) % 32, 0);
      ShornOnce(n, left);
    }
  }

  lemma {:induction false} BytesOfNumber(bytes: seq<byte>)
    ensures Bytes(Number(bytes), |bytes|) == bytes
  {
    if bytes != [] {
      BytesOfNumber(bytes[1..]);
      assert Number(bytes) / 256 == Number(bytes[1..]);
    }
  }

  /** A decoder inverts the encoding. */
  lemma RoundTrip(bytes: seq<byte>)
    ensures |Encode(bytes)| == (8 * |bytes| + 4) / 5
    ensures Spelled(Encode(bytes)) == Number(bytes) && Decode(Encode(bytes), |bytes|) == bytes
  {
    var s := Encode(bytes);
    SpelledSoFar(bytes, Length(|bytes|));
    LengthIsCeiling(|bytes|);
    assert s[..Length(|bytes|)] == s;
    BytesOfNumber(bytes);
  }

  /** No two byte strings, of whatever lengths, have the same encoding. */
  lemma EncodeIsInjective(a: seq<byte>, b: seq<byte>)
    requires Encode(a) == Encode(b)
    ensures a == b
  {
    RoundTrip(a);
    RoundTrip(b);
  }
}
