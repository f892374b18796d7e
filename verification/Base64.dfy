/** Base 64 as the monitor computes it, against the bit-level definition of section 4 of RFC 4648.
    Models base64 of amdgpu_mtop/render.h. */
module Base64 {
  import opened Words

  const PAD: Byte := 61 // '='

  // ---- Bits ------------------------------------------------------------------------------------

  function Pow2(k: nat): (p: nat)
    ensures p > 0
  {
    if k == 0 then 1 else 2 * Pow2(k - 1)
  }

  /** The low bits of a number, the most significant first. */
  function BitsOf(n: nat, width: nat): (r: seq<bool>)
    ensures |r| == width
  {
    if width == 0 then [] else BitsOf(n / 2, width - 1) + [n % 2 == 1]
  }

  function ValueOf(bits: seq<bool>): nat
    decreases |bits|
  {
    if bits == [] then 0 else 2 * ValueOf(bits[..|bits| - 1]) + if bits[|bits| - 1] then 1 else 0
  }

  lemma {:induction false} ValueOfBits(n: nat, width: nat)
    requires n < Pow2(width)
    ensures ValueOf(BitsOf(n, width)) == n
  {
    if width > 0 {
      ValueOfBits(n / 2, width - 1);
      var r := BitsOf(n, width);
      assert r[..width - 1] == BitsOf(n / 2, width - 1);
    }
  }

  lemma Twice(v: nat, p: nat)
    ensures v * (2 * p) == 2 * (v * p)
  {
  }

  lemma {:induction false} ValueAppend(x: seq<bool>, y: seq<bool>)
    ensures ValueOf(x + y) == ValueOf(x) * Pow2(|y|) + ValueOf(y)
    decreases |y|
  {
    if y == [] {
      assert x + y == x;
    } else {
      var z := y[..|y| - 1];
      assert (x + y)[..|x + y| - 1] == x + z;
      ValueAppend(x, z);
      Twice(ValueOf(x), Pow2(|z|));
      assert (x + y)[|x + y| - 1] == y[|y| - 1];
    }
  }

  function Div(n: nat, d: nat): nat
    requires d > 0
  {
    n / d
  }

  function Mod(n: nat, d: nat): nat
    requires d > 0
  {
    n % d
  }

  lemma Halves(n: nat, p: nat)
    requires p > 0
    ensures Div(n, 2 * p) == Div(n / 2, p) && Mod(n, 2 * p) / 2 == Mod(n / 2, p) && Mod(n, 2 * p) % 2 == n % 2
  {
    var h := n / 2;
    var q, r := h / p, h % p;
    assert n == 2 * h + n % 2 && h == q * p + r;
    assert n == q * (2 * p) + (2 * r + n % 2) by {
      assert 2 * (q * p) == q * (2 * p);
    }
    DivModUnique(n, 2 * p, q, 2 * r + n % 2);
  }

  /** High and low parts of a number are the front and the back of its bits. */
  lemma {:induction false} BitsSplit(n: nat, high: nat, low: nat)
    ensures BitsOf(n, high + low) == BitsOf(Div(n, Pow2(low)), high) + BitsOf(Mod(n, Pow2(low)), low)
    decreases low
  {
    if low == 0 {
      assert Div(n, 1) == n;
    } else {
      var p := Pow2(low - 1);
      BitsSplit(n / 2, high, low - 1);
      Halves(n, p);
    }
  }

  // ---- The definition --------------------------------------------------------------------------

  /** The input as one string of bits. */
  function Bits(bytes: seq<Byte>): (r: seq<bool>)
    ensures |r| == 8 * |bytes|
    decreases |bytes|
  {
    if bytes == [] then [] else BitsOf(bytes[0], 8) + Bits(bytes[1..])
  }

  /** The value of each group of six bits, the last one filled up with zeros. */
  function Sextets(bits: seq<bool>): (r: seq<nat>)
    ensures |r| == (|bits| + 5) / 6
    decreases |bits|
  {
    if bits == [] then []
    else if |bits| < 6 then [ValueOf(bits + seq(6 - |bits|, _ => false))]
    else [ValueOf(bits[..6])] + Sextets(bits[6..])
  }

  /** The alphabet: table 1 of the RFC. */
  function Letter(v: nat): Byte
    requires v < 64
  {
    if v < 26 then 65 + v // A to Z
    else if v < 52 then 71 + v // a to z
    else if v < 62 then v - 4 // 0 to 9
    else if v == 62 then 43 else 47 // '+', '/'
  }

  function Character(v: nat): Byte {
    if v < 64 then Letter(v) else PAD
  }

  function Characters(s: seq<nat>): seq<Byte> {
    seq(|s|, k requires 0 <= k < |s| => Character(s[k]))
  }

  /** Section 4: one character for six bits, and padding to a multiple of four characters. */
  function Encoding(bytes: seq<Byte>): seq<Byte> {
    Characters(Sextets(Bits(bytes))) + seq((3 - |bytes| % 3) % 3, _ => PAD)
  }

  lemma EncodingIsPrintable(bytes: seq<Byte>)
    ensures forall i :: 0 <= i < |Encoding(bytes)| ==> 43 <= Encoding(bytes)[i] <= 122
  {
    hide Sextets, Bits;
  }

  // ---- One group -------------------------------------------------------------------------------

  /** The sextets of a group of three bytes. */
  function Parts(a: nat, b: nat, c: nat): (r: seq<nat>)
    ensures |r| == 4
  {
    [a / 4, a % 4 * 16 + b / 16, b % 16 * 4 + c / 64, c % 64]
  }

  lemma PartsFit(a: nat, b: nat, c: nat)
    requires a < 256 && b < 256 && c < 256
    ensures forall k :: 0 <= k < 4 ==> Parts(a, b, c)[k] < 64
  {
  }

  /** The bits that make up the four sextets: parts of one byte, or of two neighbours. */
  function SextetBits(a: nat, b: nat, c: nat): (r: seq<seq<bool>>)
    ensures |r| == 4 && forall k :: 0 <= k < 4 ==> |r[k]| == 6
  {
    [BitsOf(a / 4, 6), BitsOf(a % 4, 2) + BitsOf(b / 16, 4), BitsOf(b % 16, 4) + BitsOf(c / 64, 2), BitsOf(c % 64, 6)]
  }

  lemma SextetValues(a: nat, b: nat, c: nat)
    requires a < 256 && b < 256 && c < 256
    ensures var s := SextetBits(a, b, c); Parts(a, b, c) == [ValueOf(s[0]), ValueOf(s[1]), ValueOf(s[2]), ValueOf(s[3])]
  {
    hide BitsOf, ValueOf;
    assert Pow2(2) == 4 && Pow2(4) == 16 && Pow2(6) == 64;
    ValueAppend(BitsOf(a % 4, 2), BitsOf(b / 16, 4));
    ValueAppend(BitsOf(b % 16, 4), BitsOf(c / 64, 2));
    ValueOfBits(a / 4, 6);
    ValueOfBits(a % 4, 2);
    ValueOfBits(b / 16, 4);
    ValueOfBits(b % 16, 4);
    ValueOfBits(c / 64, 2);
    ValueOfBits(c % 64, 6);
  }

  /** The bytes of a group, with zeros for the missing ones. */
  function ByteAt(bytes: seq<Byte>, k: nat): (r: nat)
    ensures r < 256
  {
    if k < |bytes| then bytes[k] else 0
  }

  /** A byte's bits, cut where the sextets meet. */
  lemma ByteParts(a: nat, b: nat, c: nat)
    ensures BitsOf(a, 8) == BitsOf(a / 4, 6) + BitsOf(a % 4, 2)
    ensures BitsOf(b, 8) == BitsOf(b / 16, 4) + BitsOf(b % 16, 4)
    ensures BitsOf(c, 8) == BitsOf(c / 64, 2) + BitsOf(c % 64, 6)
  {
    hide BitsOf;
    assert Pow2(2) == 4 && Pow2(4) == 16 && Pow2(6) == 64;
    BitsSplit(a, 6, 2);
    BitsSplit(b, 4, 4);
    BitsSplit(c, 2, 6);
  }

  lemma BitsOfOne(bytes: seq<Byte>)
    requires |bytes| == 1
    ensures Bits(bytes) == BitsOf(bytes[0], 8)
  {
    hide BitsOf;
    assert bytes[1..] == [];
    assert BitsOf(bytes[0], 8) + [] == BitsOf(bytes[0], 8);
  }

  lemma RegroupTwo(p: seq<bool>, q: seq<bool>, r: seq<bool>, t: seq<bool>)
    ensures (p + q) + (r + t) == p + ((q + r) + t)
  {
  }

  lemma RegroupThree(p: seq<bool>, q: seq<bool>, r: seq<bool>, t: seq<bool>, u: seq<bool>, v: seq<bool>)
    ensures (p + q) + ((r + t) + (u + v)) == p + ((q + r) + ((t + u) + v))
  {
    var w := r + t + (u + v);
    assert w == r + ((t + u) + v);
    assert (p + q) + w == p + (q + w);
    assert q + (r + ((t + u) + v)) == (q + r) + ((t + u) + v);
  }

  lemma {:induction false} BitsAppend(x: seq<Byte>, y: seq<Byte>)
    ensures Bits(x + y) == Bits(x) + Bits(y)
    decreases |x|
  {
    if x == [] {
      assert x + y == y;
    } else {
      assert (x + y)[0] == x[0] && (x + y)[1..] == x[1..] + y;
      BitsAppend(x[1..], y);
    }
  }

  /** The same bits, byte by byte and sextet by sextet. */
  lemma GroupBits(bytes: seq<Byte>)
    requires 1 <= |bytes| <= 3
    ensures var a, b := ByteAt(bytes, 0), ByteAt(bytes, 1);
            var s := SextetBits(a, b, ByteAt(bytes, 2));
            Bits(bytes) == if |bytes| == 1 then s[0] + BitsOf(a % 4, 2)
                           else if |bytes| == 2 then s[0] + (s[1] + BitsOf(b % 16, 4))
                           else s[0] + (s[1] + (s[2] + s[3]))
  {
    hide BitsOf, Bits;
    var a, b, c := ByteAt(bytes, 0), ByteAt(bytes, 1), ByteAt(bytes, 2);
    ByteParts(a, b, c);
    if |bytes| == 1 {
      BitsOfOne(bytes);
    } else if |bytes| == 2 {
      BitsAppend(bytes[..1], bytes[1..]);
      assert bytes == bytes[..1] + bytes[1..];
      BitsOfOne(bytes[..1]);
      BitsOfOne(bytes[1..]);
      RegroupTwo(BitsOf(a / 4, 6), BitsOf(a % 4, 2), BitsOf(b / 16, 4), BitsOf(b % 16, 4));
    } else {
      BitsAppend(bytes[..1], bytes[1..]);
      BitsAppend(bytes[1..2], bytes[2..]);
      assert bytes == bytes[..1] + bytes[1..] && bytes[1..] == bytes[1..2] + bytes[2..];
      BitsOfOne(bytes[..1]);
      BitsOfOne(bytes[1..2]);
      BitsOfOne(bytes[2..]);
      RegroupThree(BitsOf(a / 4, 6), BitsOf(a % 4, 2), BitsOf(b / 16, 4), BitsOf(b % 16, 4), BitsOf(c / 64, 2), BitsOf(c % 64, 6));
    }
  }

  lemma OneSextet(s: seq<bool>, zeros: seq<bool>)
    requires 0 < |s| && |s| + |zeros| == 6 && zeros != [] && forall k :: 0 <= k < |zeros| ==> !zeros[k]
    ensures Sextets(s) == [ValueOf(s + zeros)]
  {
    assert zeros == seq(6 - |s|, _ => false);
  }

  lemma ZeroBits()
    ensures BitsOf(0, 2) == [false, false] && BitsOf(0, 4) == [false, false, false, false]
  {
  }

  lemma AbsentIsZero(bytes: seq<Byte>)
    ensures forall k: nat :: k >= |bytes| ==> ByteAt(bytes, k) == 0
  {
  }

  lemma WholeSextet(s: seq<bool>)
    requires |s| == 6
    ensures Sextets(s) == [ValueOf(s)]
  {
    hide ValueOf;
    assert s[..6] == s && s[6..] == [];
  }

  lemma LastOfOne(a: nat, b: nat, c: nat)
    ensures b == 0 ==> Sextets(BitsOf(a % 4, 2)) == [ValueOf(SextetBits(a, b, c)[1])]
  {
    hide BitsOf, ValueOf;
    ZeroBits();
    OneSextet(BitsOf(a % 4, 2), [false, false, false, false]);
  }

  lemma LastOfTwo(a: nat, b: nat, c: nat)
    ensures c == 0 ==> Sextets(BitsOf(b % 16, 4)) == [ValueOf(SextetBits(a, b, c)[2])]
  {
    hide BitsOf, ValueOf;
    ZeroBits();
    OneSextet(BitsOf(b % 16, 4), [false, false]);
  }

  lemma {:induction false} SextetsAppend(x: seq<bool>, y: seq<bool>, groups: nat)
    requires |x| == 6 * groups
    ensures Sextets(x + y) == Sextets(x) + Sextets(y)
    decreases groups
  {
    hide ValueOf;
    if groups == 0 {
      assert x + y == y;
    } else {
      assert (x + y)[..6] == x[..6] && (x + y)[6..] == x[6..] + y;
      SextetsAppend(x[6..], y, groups - 1);
    }
  }

  lemma GroupEncoding(bytes: seq<Byte>)
    requires 1 <= |bytes| <= 3
    ensures Sextets(Bits(bytes)) == Parts(ByteAt(bytes, 0), ByteAt(bytes, 1), ByteAt(bytes, 2))[..|bytes| + 1]
  {
    hide BitsOf, ValueOf, Sextets, Parts, Bits, SextetBits, ByteAt;
    var a, b, c := ByteAt(bytes, 0), ByteAt(bytes, 1), ByteAt(bytes, 2);
    var s := SextetBits(a, b, c);
    GroupBits(bytes);
    SextetValues(a, b, c);
    WholeSextet(s[0]);
    WholeSextet(s[1]);
    if |bytes| == 1 {
      LastOfOne(a, b, c);
      AbsentIsZero(bytes);
      SextetsAppend(s[0], BitsOf(a % 4, 2), 1);
    } else if |bytes| == 2 {
      LastOfTwo(a, b, c);
      AbsentIsZero(bytes);
      SextetsAppend(s[0], s[1] + BitsOf(b % 16, 4), 1);
      SextetsAppend(s[1], BitsOf(b % 16, 4), 1);
    } else {
      SextetsAppend(s[0], s[1] + (s[2] + s[3]), 1);
      SextetsAppend(s[1], s[2] + s[3], 1);
      SextetsAppend(s[2], s[3], 1);
      WholeSextet(s[2]);
      WholeSextet(s[3]);
    }
  }

  lemma CharactersAppend(x: seq<nat>, y: seq<nat>)
    ensures Characters(x + y) == Characters(x) + Characters(y)
  {
  }

  /** Whole groups can be split off the front. */
  lemma EncodingSplit(bytes: seq<Byte>)
    requires |bytes| >= 3
    ensures Encoding(bytes) == Encoding(bytes[..3]) + Encoding(bytes[3..]) && |Encoding(bytes[..3])| == 4
  {
    hide BitsOf, ValueOf, Sextets, Bits, Character;
    var front, back := bytes[..3], bytes[3..];
    BitsAppend(front, back);
    assert front + back == bytes;
    SextetsAppend(Bits(front), Bits(back), 4);
    CharactersAppend(Sextets(Bits(front)), Sextets(Bits(back)));
    var pad: seq<Byte> := seq((3 - |bytes| % 3) % 3, _ => PAD);
    assert |back| % 3 == |bytes| % 3;
    assert seq((3 - |front| % 3) % 3, _ => PAD) == [];
    var x, y := Characters(Sextets(Bits(front))), Characters(Sextets(Bits(back)));
    assert x + y + pad == x + (y + pad);
  }

  // ---- The loop --------------------------------------------------------------------------------

  /** Four characters, the absent ones replaced by padding. */
  function Letters(p0: nat, p1: nat, p2: nat, p3: nat, present: nat): (r: seq<Byte>)
    requires p0 < 64 && p1 < 64 && p2 < 64 && p3 < 64
    ensures |r| == 4
  {
    [Letter(p0), Letter(p1), if present > 1 then Letter(p2) else PAD, if present > 2 then Letter(p3) else PAD]
  }

  /** One round of the loop: shifts, masks and padding. */
  function Round(a: nat, b: nat, c: nat, present: nat): (r: seq<Byte>)
    requires a < 256 && b < 256 && c < 256
    ensures |r| == 4
  {
    var n := 0x1_0000 * a + 0x100 * b + c;
    Letters(n / 0x4_0000, n / 0x1000 % 64, n / 64 % 64, n % 64, present)
  }

  lemma WordParts(a: nat, b: nat, c: nat)
    requires a < 256 && b < 256 && c < 256
    ensures var n := 0x1_0000 * a + 0x100 * b + c;
            [n / 0x4_0000, n / 0x1000 % 64, n / 64 % 64, n % 64] == Parts(a, b, c)
  {
    var n := 0x1_0000 * a + 0x100 * b + c;
    DivModUnique(n, 0x4_0000, a / 4, a % 4 * 0x1_0000 + 0x100 * b + c);
    DivModUnique(n, 0x1000, 16 * a + b / 16, b % 16 * 0x100 + c);
    DivModUnique(16 * a + b / 16, 64, a / 4, a % 4 * 16 + b / 16);
    DivModUnique(n, 64, 0x400 * a + 4 * b + c / 64, c % 64);
    DivModUnique(0x400 * a + 4 * b + c / 64, 64, 16 * a + b / 16, b % 16 * 4 + c / 64);
  }

  lemma RoundLetters(a: nat, b: nat, c: nat, present: nat)
    requires a < 256 && b < 256 && c < 256
    ensures var p := Parts(a, b, c);
            && p[0] < 64 && p[1] < 64 && p[2] < 64 && p[3] < 64 && Round(a, b, c, present) == Letters(p[0], p[1], p[2], p[3], present)
  {
    hide Letters, Parts;
    WordParts(a, b, c);
    PartsFit(a, b, c);
    var n := 0x1_0000 * a + 0x100 * b + c;
    var p := Parts(a, b, c);
    assert p[0] == n / 0x4_0000 && p[1] == n / 0x1000 % 64 && p[2] == n / 64 % 64 && p[3] == n % 64;
  }

  lemma RoundCharacters(a: nat, b: nat, c: nat, present: nat)
    requires a < 256 && b < 256 && c < 256 && 1 <= present <= 3
    ensures Round(a, b, c, present) == Characters(Parts(a, b, c)[..present + 1]) + seq((3 - present % 3) % 3, _ => PAD)
  {
    hide Letter, Parts, Round;
    RoundLetters(a, b, c, present);
  }

  lemma RoundIsEncoding(bytes: seq<Byte>)
    requires 1 <= |bytes| <= 3
    ensures Round(ByteAt(bytes, 0), ByteAt(bytes, 1), ByteAt(bytes, 2), |bytes|) == Encoding(bytes)
  {
    hide Sextets, Bits, Parts, Letter;
    var a, b, c := ByteAt(bytes, 0), ByteAt(bytes, 1), ByteAt(bytes, 2);
    GroupEncoding(bytes);
    RoundCharacters(a, b, c, |bytes|);
  }

  lemma GroupBytes(bytes: seq<Byte>, i: nat, group: seq<Byte>)
    requires i < |bytes| && group == bytes[i..if i + 3 < |bytes| then i + 3 else |bytes|]
    ensures ByteAt(group, 0) == bytes[i]
    ensures ByteAt(group, 1) == (if i + 1 < |bytes| then bytes[i + 1] else 0)
    ensures ByteAt(group, 2) == (if i + 2 < |bytes| then bytes[i + 2] else 0)
  {
  }

  lemma NothingEncoded(bytes: seq<Byte>)
    ensures bytes == [] ==> Encoding(bytes) == []
  {
  }

  /** base64. */
  method Encode(bytes: seq<Byte>) returns (out: seq<Byte>)
    ensures out == Encoding(bytes)
  {
    hide Encoding, Round, ByteAt;
    out := [];
    var i: nat := 0;
    assert bytes[0..] == bytes;
    while i < |bytes|
      invariant i <= |bytes| || (i < |bytes| + 3 && Encoding(bytes) == out)
      invariant i <= |bytes| ==> Encoding(bytes) == out + Encoding(bytes[i..])
    {
      ghost var rest := bytes[i..];
      ghost var group := if |rest| < 3 then rest else rest[..3];
      var a: int := bytes[i];
      var b: int := if i + 1 < |bytes| then bytes[i + 1] else 0;
      var c: int := if i + 2 < |bytes| then bytes[i + 2] else 0;
      GroupBytes(bytes, i, group);
      RoundIsEncoding(group);
      ghost var was := out;
      out := out + Round(a, b, c, if |bytes| - i < 3 then |bytes| - i else 3);
      if |bytes| - i >= 3 {
        EncodingSplit(rest);
        assert bytes[i + 3..] == rest[3..];
        assert was + (Encoding(group) + Encoding(rest[3..])) == out + Encoding(rest[3..]);
      }
      i := i + 3;
    }
    if i == |bytes| {
      NothingEncoded(bytes[i..]);
    }
  }

  // ---- Decoding ----------------------------------------------------------------------------------

  function IndexOf(c: Byte): nat {
    if 65 <= c <= 90 then c - 65
    else if 97 <= c <= 122 then c - 71
    else if 48 <= c <= 57 then c + 4
    else if c == 43 then 62
    else 63
  }

  function Sextet(c: Byte): (v: nat)
    ensures v < 64
  {
    if IndexOf(c) < 64 then IndexOf(c) else 0
  }

  function DecodeGroup(g: seq<Byte>): seq<Byte>
    requires |g| == 4
  {
    var s0, s1, s2, s3 := Sextet(g[0]), Sextet(g[1]), Sextet(g[2]), Sextet(g[3]);
    [s0 * 4 + s1 / 16] + (if g[2] == PAD then [] else [s1 % 16 * 16 + s2 / 4])
    + (if g[3] == PAD then [] else [s2 % 4 * 64 + s3])
  }

  /** Decoding groups of four characters, the padding telling how many bytes the last one holds. */
  function Decode(text: seq<Byte>): Option<seq<Byte>>
    decreases |text|
  {
    if text == [] then Some([])
    else if |text| < 4 then None
    else
      var rest := Decode(text[4..]);
      if rest.None? then None else Some(DecodeGroup(text[..4]) + rest.value)
  }

  lemma LetterRoundTrip(v: nat)
    requires v < 64
    ensures Sextet(Letter(v)) == v && Letter(v) != PAD
  {
  }

  lemma DecodeLetters(p0: nat, p1: nat, p2: nat, p3: nat, present: nat)
    requires p0 < 64 && p1 < 64 && p2 < 64 && p3 < 64 && 1 <= present <= 3
    requires p0 * 4 + p1 / 16 < 256 && p1 % 16 * 16 + p2 / 4 < 256 && p2 % 4 * 64 + p3 < 256
    ensures DecodeGroup(Letters(p0, p1, p2, p3, present)) ==
            [p0 * 4 + p1 / 16, p1 % 16 * 16 + p2 / 4, p2 % 4 * 64 + p3][..present]
  {
    hide Letter, Sextet;
    LetterRoundTrip(p0);
    LetterRoundTrip(p1);
    LetterRoundTrip(p2);
    LetterRoundTrip(p3);
  }

  lemma Bytes(a: nat, b: nat, c: nat)
    requires a < 256 && b < 256 && c < 256
    ensures var p := Parts(a, b, c);
            p[0] * 4 + p[1] / 16 == a && p[1] % 16 * 16 + p[2] / 4 == b && p[2] % 4 * 64 + p[3] == c
  {
    assert b / 16 < 16 && c / 64 < 4;
    DivModUnique(a % 4 * 16 + b / 16, 16, a % 4, b / 16);
    DivModUnique(b % 16 * 4 + c / 64, 4, b % 16, c / 64);
  }

  /** One group decodes to its bytes. */
  lemma GroupRoundTrip(bytes: seq<Byte>)
    requires 1 <= |bytes| <= 3
    ensures |Encoding(bytes)| == 4 && DecodeGroup(Encoding(bytes)) == bytes
  {
    hide Encoding, Letter, Sextet, Round, Parts, DecodeGroup;
    var a, b, c := ByteAt(bytes, 0), ByteAt(bytes, 1), ByteAt(bytes, 2);
    RoundIsEncoding(bytes);
    PartsFit(a, b, c);
    var p := Parts(a, b, c);
    assert p[0] < 64 && p[1] < 64 && p[2] < 64 && p[3] < 64;
    RoundLetters(a, b, c, |bytes|);
    DecodeLetters(p[0], p[1], p[2], p[3], |bytes|);
    Bytes(a, b, c);
  }

  /** Decoding gives back every input. */
  lemma {:induction false} RoundTrip(bytes: seq<Byte>)
    ensures Decode(Encoding(bytes)) == Some(bytes) && |Encoding(bytes)| == (|bytes| + 2) / 3 * 4
    decreases |bytes|
  {
    hide Encoding, DecodeGroup;
    if bytes == [] {
      NothingEncoded(bytes);
    } else if |bytes| <= 3 {
      GroupRoundTrip(bytes);
      assert Encoding(bytes)[..4] == Encoding(bytes) && Encoding(bytes)[4..] == [];
      assert bytes + [] == bytes;
    } else {
      EncodingSplit(bytes);
      GroupRoundTrip(bytes[..3]);
      RoundTrip(bytes[3..]);
      assert Encoding(bytes)[..4] == Encoding(bytes[..3]) && Encoding(bytes)[4..] == Encoding(bytes[3..]);
      assert bytes[..3] + bytes[3..] == bytes;
    }
  }
}
