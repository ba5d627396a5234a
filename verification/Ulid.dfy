/** ULID text: two separately written encoders of one 16-byte value. */
module Ulid {

  const ALPHABET := "0123456789ABCDEFGHJKMNPQRSTVWXYZ"

  type Byte = b: int | 0 <= b < 256

  predicate Crockford(c: char) {
    '0' <= c <= '9' || 'A' <= c <= 'H' || 'J' <= c <= 'K' || 'M' <= c <= 'N' || 'P' <= c <= 'T' || 'V' <= c <= 'Z'
  }

  /** The identity syntax every store operation checks. */
  predicate IsUlid(s: string) {
    && |s| == 26
    && '0' <= s[0] <= '7'
    && forall i | 0 <= i < |s| :: Crockford(s[i])
  }

  // ---------------------------------------------------------------- digit strings

  ghost predicate Digits(base: nat, s: seq<nat>) {
    forall i | 0 <= i < |s| :: s[i] < base
  }

  /** The value of a big-endian digit string. */
  ghost function Num(base: nat, s: seq<nat>): nat {
    if s == [] then 0 else Num(base, s[..|s| - 1]) * base + s[|s| - 1]
  }

  ghost predicate LexLess(s: seq<nat>, t: seq<nat>) {
    exists k :: 0 <= k < |s| && k < |t| && s[..k] == t[..k] && s[k] < t[k]
  }

  lemma LexSnoc(s: seq<nat>, t: seq<nat>)
    requires |s| == |t| > 0
    ensures LexLess(s, t) <==>
            LexLess(s[..|s| - 1], t[..|t| - 1])
            || (s[..|s| - 1] == t[..|t| - 1] && s[|s| - 1] < t[|t| - 1])
  {
    var n := |s| - 1;
    if LexLess(s, t) {
      var k :| 0 <= k < |s| && s[..k] == t[..k] && s[k] < t[k];
      if k < n {
        assert s[..n][..k] == t[..n][..k] by {
          assert s[..n][..k] == s[..k] && t[..n][..k] == t[..k];
        }
        assert s[..n][k] < t[..n][k];
      }
    }
    if LexLess(s[..n], t[..n]) {
      var k :| 0 <= k < n && s[..n][..k] == t[..n][..k] && s[..n][k] < t[..n][k];
      assert s[..k] == s[..n][..k] && t[..k] == t[..n][..k];
      assert s[k] < t[k];
    }
  }

  /** Equal-length digit strings compare lexicographically as their values do. */
  lemma {:induction false} LexIsNumeric(base: nat, s: seq<nat>, t: seq<nat>)
    requires |s| == |t| && Digits(base, s) && Digits(base, t)
    ensures LexLess(s, t) <==> Num(base, s) < Num(base, t)
    ensures s == t <==> Num(base, s) == Num(base, t)
  {
    if s != [] {
      var n := |s| - 1;
      LexIsNumeric(base, s[..n], t[..n]);
      LexSnoc(s, t);
      SnocOrder(Num(base, s[..n]), Num(base, t[..n]), s[n], t[n], base);
      assert s == s[..n] + [s[n]] && t == t[..n] + [t[n]];
    }
  }

  lemma SnocOrder(a: nat, b: nat, x: nat, y: nat, base: nat)
    requires x < base && y < base
    ensures a * base + x < b * base + y <==> a < b || (a == b && x < y)
    ensures a * base + x == b * base + y <==> a == b && x == y
  {
    if a < b {
      MulBelow(a, b, base);
    } else if b < a {
      MulBelow(b, a, base);
    }
  }

  lemma MulBelow(a: nat, b: nat, base: nat)
    requires a < b
    ensures a * base + base <= b * base
  {
    assert b * base == (b - a - 1) * base + a * base + base;
  }

  // ---------------------------------------------------------------- bits and characters

  function Shr(b: nat, n: nat): nat {
    if n == 0 then b else Shr(b, n - 1) / 2
  }

  /** Bit k of a byte, most significant first. */
  function Bit(b: Byte, k: nat): nat
    requires k < 8
  {
    Shr(b, 7 - k) % 2
  }

  /** Bit i of the padded value: two zero bits, then the 128 bits of the 16 bytes. */
  function Padded(raw: seq<Byte>, i: nat): nat
    requires |raw| == 16
  {
    if 2 <= i < 130 then Bit(raw[(i - 2) / 8], (i - 2) % 8) else 0
  }

  /** The value of the first n bits of character c. */
  function GroupPrefix(raw: seq<Byte>, c: nat, n: nat): nat
    requires |raw| == 16
  {
    if n == 0 then 0 else 2 * GroupPrefix(raw, c, n - 1) + Padded(raw, 5 * c + n - 1)
  }

  function Group(raw: seq<Byte>, c: nat): nat
    requires |raw| == 16
  {
    GroupPrefix(raw, c, 5)
  }

  ghost function Groups(raw: seq<Byte>): (g: seq<nat>)
    requires |raw| == 16
    ensures |g| == 26 && forall c | 0 <= c < 26 :: g[c] == Group(raw, c)
  {
    seq(26, c requires 0 <= c < 26 => Group(raw, c))
  }

  ghost function Bytes(raw: seq<Byte>): (s: seq<nat>)
    ensures |s| == |raw| && forall i | 0 <= i < |raw| :: s[i] == raw[i]
    ensures Digits(256, s)
  {
    seq(|raw|, i requires 0 <= i < |raw| => raw[i])
  }

  ghost function Bits(raw: seq<Byte>): (s: seq<nat>)
    requires |raw| == 16
    ensures |s| == 130 && forall i | 0 <= i < 130 :: s[i] == Padded(raw, i)
  {
    seq(130, i requires 0 <= i < 130 => Padded(raw, i))
  }

  /** The value of n bits from index start on. */
  ghost function Read(bits: seq<nat>, start: nat, n: nat): nat
    requires start + n <= |bits|
  {
    if n == 0 then 0 else 2 * Read(bits, start, n - 1) + bits[start + n - 1]
  }

  function Pow2(n: nat): nat {
    if n == 0 then 1 else 2 * Pow2(n - 1)
  }

  lemma Doubled(p: nat, a: nat)
    ensures 2 * (p * a) == (2 * p) * a
  {
  }

  lemma {:induction false} ReadSplits(bits: seq<nat>, start: nat, n: nat)
    requires start + n <= |bits|
    ensures Read(bits, 0, start + n) == Pow2(n) * Read(bits, 0, start) + Read(bits, start, n)
  {
    if n > 0 {
      ReadSplits(bits, start, n - 1);
      Doubled(Pow2(n - 1), Read(bits, 0, start));
    }
  }

  lemma ReadSplitsConstants(bits: seq<nat>, start: nat)
    requires start + 5 <= |bits|
    ensures Read(bits, 0, start + 5) == 32 * Read(bits, 0, start) + Read(bits, start, 5)
    ensures start + 8 <= |bits| ==> Read(bits, 0, start + 8) == 256 * Read(bits, 0, start) + Read(bits, start, 8)
  {
    assert Pow2(3) == 8;
    assert Pow2(5) == 32;
    assert Pow2(8) == 256;
    ReadSplits(bits, start, 5);
    if start + 8 <= |bits| {
      ReadSplits(bits, start, 8);
    }
  }

  lemma {:induction false} GroupPrefixBound(raw: seq<Byte>, c: nat)
    requires |raw| == 16
    ensures Group(raw, c) < 32
  {
    assert GroupPrefix(raw, c, 1) < 2;
    assert GroupPrefix(raw, c, 2) < 4;
    assert GroupPrefix(raw, c, 3) < 8;
    assert GroupPrefix(raw, c, 4) < 16;
  }

  lemma PaddedByteBit(raw: seq<Byte>, k: nat, j: nat)
    requires |raw| == 16 && k < 16 && j < 8
    ensures Padded(raw, 2 + 8 * k + j) == Bit(raw[k], j)
  {
  }

  /** Reading j bits of byte k leaves its low bits unread. */
  lemma {:induction false} ReadByte(raw: seq<Byte>, k: nat, j: nat)
    requires |raw| == 16 && k < 16 && j <= 8
    ensures Read(Bits(raw), 2 + 8 * k, j) == Shr(raw[k], 8 - j)
  {
    if j == 0 {
      ShrByte(raw[k]);
    } else {
      ReadByte(raw, k, j - 1);
      PaddedByteBit(raw, k, j - 1);
      assert Shr(raw[k], 8 - j + 1) == Shr(raw[k], 8 - j) / 2;
    }
  }

  lemma {:induction false} ReadGroup(raw: seq<Byte>, c: nat, n: nat)
    requires |raw| == 16 && 5 * c + n <= 130
    ensures Read(Bits(raw), 5 * c, n) == GroupPrefix(raw, c, n)
  {
    if n > 0 {
      ReadGroup(raw, c, n - 1);
    }
  }

  lemma ShrByte(b: Byte)
    ensures Shr(b, 8) == 0
  {
    assert Shr(b, 1) < 128;
    assert Shr(b, 2) < 64;
    assert Shr(b, 3) < 32;
    assert Shr(b, 4) < 16;
    assert Shr(b, 5) < 8;
    assert Shr(b, 6) < 4;
    assert Shr(b, 7) < 2;
  }

  /** Eight bits per byte, after the padding. */
  lemma {:induction false} BytesAreBits(bits: seq<nat>, s: seq<nat>)
    requires 2 + 8 * |s| <= |bits| && Read(bits, 0, 2) == 0
    requires forall i | 0 <= i < |s| :: s[i] == Read(bits, 2 + 8 * i, 8)
    ensures Num(256, s) == Read(bits, 0, 2 + 8 * |s|)
  {
    if s != [] {
      var n := |s| - 1;
      BytesAreBits(bits, s[..n]);
      ReadSplitsConstants(bits, 2 + 8 * n);
    }
  }

  /** Five bits per character. */
  lemma {:induction false} GroupsAreBits(bits: seq<nat>, g: seq<nat>)
    requires 5 * |g| <= |bits|
    requires forall i | 0 <= i < |g| :: g[i] == Read(bits, 5 * i, 5)
    ensures Num(32, g) == Read(bits, 0, 5 * |g|)
  {
    if g != [] {
      var n := |g| - 1;
      GroupsAreBits(bits, g[..n]);
      ReadSplitsConstants(bits, 5 * n);
    }
  }

  lemma BytesReadBack(raw: seq<Byte>)
    requires |raw| == 16
    ensures forall i | 0 <= i < 16 :: Bytes(raw)[i] == Read(Bits(raw), 2 + 8 * i, 8)
    ensures Read(Bits(raw), 0, 2) == 0
  {
    forall i | 0 <= i < 16
      ensures Bytes(raw)[i] == Read(Bits(raw), 2 + 8 * i, 8)
    {
      ReadByte(raw, i, 8);
    }
    assert Read(Bits(raw), 0, 1) == 0;
  }

  lemma GroupsReadBack(raw: seq<Byte>)
    requires |raw| == 16
    ensures forall c | 0 <= c < 26 :: Groups(raw)[c] == Read(Bits(raw), 5 * c, 5)
    ensures Digits(32, Groups(raw))
  {
    forall c | 0 <= c < 26
      ensures Groups(raw)[c] == Read(Bits(raw), 5 * c, 5) && Group(raw, c) < 32
    {
      ReadGroup(raw, c, 5);
      GroupPrefixBound(raw, c);
    }
  }

  /** The 26 characters spell the 128-bit value in base 32. */
  lemma EncodingKeepsValue(raw: seq<Byte>)
    requires |raw| == 16
    ensures Num(32, Groups(raw)) == Num(256, Bytes(raw))
    ensures Digits(32, Groups(raw))
  {
    BytesReadBack(raw);
    GroupsReadBack(raw);
    SameBitsSameValue(Bits(raw), Bytes(raw), Groups(raw));
  }

  lemma SameBitsSameValue(bits: seq<nat>, s: seq<nat>, g: seq<nat>)
    requires |bits| == 2 + 8 * |s| == 5 * |g| && Read(bits, 0, 2) == 0
    requires forall i | 0 <= i < |s| :: s[i] == Read(bits, 2 + 8 * i, 8)
    requires forall i | 0 <= i < |g| :: g[i] == Read(bits, 5 * i, 5)
    ensures Num(32, g) == Num(256, s)
  {
    BytesAreBits(bits, s);
    GroupsAreBits(bits, g);
  }

  // ---------------------------------------------------------------- the encoded text

  ghost predicate Encodes(text: string, raw: seq<Byte>)
    requires |raw| == 16
  {
    |text| == 26 && forall c | 0 <= c < 26 :: Group(raw, c) < 32 && text[c] == ALPHABET[Group(raw, c)]
  }

  lemma AlphabetAscends(i: nat, j: nat)
    requires i < 32 && j < 32
    ensures ALPHABET[i] < ALPHABET[j] <==> i < j
    ensures ALPHABET[i] == ALPHABET[j] <==> i == j
  {
    assert forall a, b | 0 <= a < b < 32 :: ALPHABET[a] < ALPHABET[b];
  }

  ghost predicate TextLess(s: string, t: string) {
    exists k :: 0 <= k < |s| && k < |t| && s[..k] == t[..k] && s[k] < t[k]
  }

  lemma TextOrderIsDigitOrder(s: string, t: string, r: seq<Byte>, q: seq<Byte>)
    requires |r| == |q| == 16 && Encodes(s, r) && Encodes(t, q)
    ensures TextLess(s, t) <==> LexLess(Groups(r), Groups(q))
    ensures s == t <==> Groups(r) == Groups(q)
  {
    var g, h := Groups(r), Groups(q);
    forall c | 0 <= c < 26
      ensures s[c] < t[c] <==> g[c] < h[c]
      ensures s[c] == t[c] <==> g[c] == h[c]
    {
      AlphabetAscends(Group(r, c), Group(q, c));
    }
    SameOrder(s, t, g, h);
  }

  lemma SameOrder(s: string, t: string, g: seq<nat>, h: seq<nat>)
    requires |s| == |t| == |g| == |h|
    requires forall c | 0 <= c < |s| :: (s[c] < t[c] <==> g[c] < h[c]) && (s[c] == t[c] <==> g[c] == h[c])
    ensures TextLess(s, t) <==> LexLess(g, h)
    ensures s == t <==> g == h
  {
    if TextLess(s, t) {
      var k :| 0 <= k < |s| && s[..k] == t[..k] && s[k] < t[k];
      assert forall c | 0 <= c < k :: s[..k][c] == s[c] && t[..k][c] == t[c];
      assert g[..k] == h[..k] && g[k] < h[k];
    }
    if LexLess(g, h) {
      var k :| 0 <= k < |g| && g[..k] == h[..k] && g[k] < h[k];
      assert forall c | 0 <= c < k :: g[..k][c] == g[c] && h[..k][c] == h[c];
      assert s[..k] == t[..k] && s[k] < t[k];
    }
  }

  /** Comparing two ids as strings compares their 16-byte values: the encoding is
      injective and strictly order-preserving, and its text is a valid id. */
  lemma EncodingIsOrderEmbedding(s: string, t: string, r: seq<Byte>, q: seq<Byte>)
    requires |r| == |q| == 16 && Encodes(s, r) && Encodes(t, q)
    ensures TextLess(s, t) <==> LexLess(Bytes(r), Bytes(q))
    ensures TextLess(s, t) <==> Num(256, Bytes(r)) < Num(256, Bytes(q))
    ensures s == t <==> r == q
  {
    TextOrderIsDigitOrder(s, t, r, q);
    EncodingKeepsValue(r);
    EncodingKeepsValue(q);
    LexIsNumeric(32, Groups(r), Groups(q));
    LexIsNumeric(256, Bytes(r), Bytes(q));
    assert r == q <==> Bytes(r) == Bytes(q) by {
      if Bytes(r) == Bytes(q) {
        forall i | 0 <= i < 16
          ensures r[i] == q[i]
        {
          assert Bytes(r)[i] == Bytes(q)[i];
        }
      }
    }
  }

  lemma EncodingIsUlid(s: string, r: seq<Byte>)
    requires |r| == 16 && Encodes(s, r)
    ensures IsUlid(s)
  {
    assert GroupPrefix(r, 0, 1) == 0;
    assert GroupPrefix(r, 0, 2) == 0;
    assert GroupPrefix(r, 0, 3) < 2;
    assert GroupPrefix(r, 0, 4) < 4;
    AlphabetAscends(Group(r, 0), 7);
    AlphabetAscends(0, Group(r, 0));
    forall i | 0 <= i < 26
      ensures Crockford(s[i])
    {
      AlphabetIsCrockford(Group(r, i));
    }
  }

  lemma AlphabetIsCrockford(i: nat)
    requires i < 32
    ensures Crockford(ALPHABET[i])
  {
    assert forall a | 0 <= a < 32 :: Crockford(ALPHABET[a]);
  }

  // ---------------------------------------------------------------- the two encoders

  /** The dependency writer: a bit index that starts two bits early. */
  method EncodeWithOffset(raw: seq<Byte>) returns (text: string)
    requires |raw| == 16
    ensures Encodes(text, raw)
    ensures IsUlid(text)
  {
    text := [];
    for index := 0 to 26
      invariant |text| == index
      invariant forall c | 0 <= c < index :: Group(raw, c) < 32 && text[c] == ALPHABET[Group(raw, c)]
    {
      var character := 0;
      for bit := 0 to 5
        invariant character == GroupPrefix(raw, index, bit)
      {
        var bitIndex := index * 5 + bit - 2;
        character := 2 * character;
        if 0 <= bitIndex < |raw| * 8 {
          character := character + Bit(raw[bitIndex / 8], bitIndex % 8);
        }
      }
      GroupPrefixBound(raw, index);
      text := text + [ALPHABET[character]];
    }
    EncodingIsUlid(text, raw);
  }

  /** The lab encoder: the first character from the top three bits, then a bit
      position that only moves forward. */
  method EncodeFromThirdBit(raw: seq<Byte>) returns (text: string)
    requires |raw| == 16
    ensures Encodes(text, raw)
    ensures IsUlid(text)
  {
    FirstGroup(raw);
    text := [ALPHABET[raw[0] / 32]];
    var position := 3;
    for c := 1 to 26
      invariant |text| == c && position == 5 * c - 2
      invariant forall j | 0 <= j < c :: Group(raw, j) < 32 && text[j] == ALPHABET[Group(raw, j)]
    {
      var value := 0;
      for bit := 0 to 5
        invariant position == 5 * c - 2 + bit
        invariant value == GroupPrefix(raw, c, bit)
      {
        value := 2 * value + Bit(raw[position / 8], position % 8);
        position := position + 1;
      }
      GroupPrefixBound(raw, c);
      text := text + [ALPHABET[value]];
    }
    EncodingIsUlid(text, raw);
  }

  lemma FirstGroup(raw: seq<Byte>)
    requires |raw| == 16
    ensures Group(raw, 0) == raw[0] / 32 && raw[0] / 32 < 8
  {
    assert GroupPrefix(raw, 0, 1) == 0;
    assert GroupPrefix(raw, 0, 2) == 0;
    assert GroupPrefix(raw, 0, 3) == Bit(raw[0], 0);
    assert GroupPrefix(raw, 0, 4) == 2 * Bit(raw[0], 0) + Bit(raw[0], 1);
    assert GroupPrefix(raw, 0, 5) == 4 * Bit(raw[0], 0) + 2 * Bit(raw[0], 1) + Bit(raw[0], 2);
    ShrByte(raw[0]);
    ThreeTopBits(raw[0]);
  }

  lemma ThreeTopBits(b: Byte)
    ensures 4 * Bit(b, 0) + 2 * Bit(b, 1) + Bit(b, 2) == b / 32
  {
    assert Shr(b, 5) == b / 32 by {
      assert Shr(b, 1) == b / 2;
      assert Shr(b, 3) == b / 8;
    }
    assert Shr(b, 7) < 2 by {
      ShrByte(b);
    }
  }

  /** Whatever text either encoder returns, the other returns the same. */
  lemma EncodersAgree(s: string, t: string, raw: seq<Byte>)
    requires |raw| == 16 && Encodes(s, raw) && Encodes(t, raw)
    ensures s == t
  {
    assert forall c | 0 <= c < 26 :: s[c] == t[c];
  }
}
