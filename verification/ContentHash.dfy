/** The content hash of instruction files: FNV-1a over 64 bits, printed as 16 hex digits. */
module ContentHash {

  type Byte = b: nat | b < 0x100

  const OFFSET_BASIS: nat := 0xcbf29ce484222325
  const PRIME: nat := 0x100000001b3
  const WORD: nat := 0x1_0000_0000_0000_0000

  /** The number of hexadecimal digits of a printed hash. */
  const TEXT_WIDTH: nat := 16

  /** The inverse of the prime modulo the word size. */
  const INVERSE: nat := 0xce965057aff6957b

  // ---------------------------------------------------------------------------
  // Exclusive or
  // ---------------------------------------------------------------------------

  /** Bitwise exclusive or. */
  function Xor(a: nat, b: nat): nat {
    if a == 0 && b == 0 then 0 else 2 * Xor(a / 2, b / 2) + (a + b) % 2
  }

  lemma XorHalves(a: nat, b: nat)
    ensures Xor(a, b) / 2 == Xor(a / 2, b / 2)
    ensures Xor(a, b) % 2 == (a + b) % 2
  {
  }

  lemma BitUndone(c: nat, a: nat, b: nat)
    requires c % 2 == (a + b) % 2
    ensures (c + b) % 2 == a % 2
  {
  }

  lemma {:induction false} XorUndone(a: nat, b: nat)
    ensures Xor(Xor(a, b), b) == a
  {
    if a != 0 || b != 0 {
      var c := Xor(a, b);
      XorHalves(a, b);
      XorUndone(a / 2, b / 2);
      XorHalves(c, b);
      BitUndone(c, a, b);
    }
  }

  lemma {:induction false} XorCommutes(a: nat, b: nat)
    ensures Xor(a, b) == Xor(b, a)
  {
    if a != 0 || b != 0 {
      XorCommutes(a / 2, b / 2);
    }
  }

  function Pow2(n: nat): nat {
    if n == 0 then 1 else 2 * Pow2(n - 1)
  }

  lemma {:induction false} XorStaysBelow(a: nat, b: nat, n: nat)
    requires a < Pow2(n) && b < Pow2(n)
    ensures Xor(a, b) < Pow2(n)
  {
    if n > 0 {
      XorStaysBelow(a / 2, b / 2, n - 1);
    }
  }

  lemma FourMore(n: nat)
    ensures Pow2(n + 4) == 16 * Pow2(n)
  {
    assert Pow2(n + 4) == 2 * Pow2(n + 3) == 4 * Pow2(n + 2) == 8 * Pow2(n + 1) == 16 * Pow2(n);
  }

  lemma EightMore(n: nat)
    ensures Pow2(n + 8) == 0x100 * Pow2(n)
  {
    FourMore(n + 4);
    FourMore(n);
  }

  lemma WordIsPower()
    ensures Pow2(64) == WORD
  {
    EightMore(0);
    EightMore(8);
    EightMore(16);
    EightMore(24);
    EightMore(32);
    EightMore(40);
    EightMore(48);
    EightMore(56);
  }

  lemma XorOfWord(h: nat, byte: Byte)
    requires h < WORD
    ensures Xor(h, byte) < WORD
  {
    WordIsPower();
    XorStaysBelow(h, byte, 64);
  }

  // ---------------------------------------------------------------------------
  // Hexadecimal text
  // ---------------------------------------------------------------------------

  function HexChar(d: nat): char
    requires d < 16
  {
    "0123456789abcdef"[d]
  }

  /** The low `n` hexadecimal digits of `h`, most significant first, padded with zeros. */
  function Hex(h: nat, n: nat): (s: string)
    ensures |s| == n
    decreases n
  {
    if n == 0 then "" else Hex(h / 16, n - 1) + [HexChar(h % 16)]
  }

  lemma {:induction false} HexDecides(h: nat, g: nat, n: nat)
    requires h < Pow2(4 * n) && g < Pow2(4 * n) && Hex(h, n) == Hex(g, n)
    ensures h == g
    decreases n
  {
    if n > 0 {
      var s, t := Hex(h, n), Hex(g, n);
      assert s[..n - 1] == Hex(h / 16, n - 1) && t[..n - 1] == Hex(g / 16, n - 1);
      assert s[n - 1] == HexChar(h % 16) && t[n - 1] == HexChar(g % 16);
      FourMore(4 * (n - 1));
      HexDecides(h / 16, g / 16, n - 1);
    }
  }

  predicate IsHexDigit(c: char) {
    '0' <= c <= '9' || 'a' <= c <= 'f'
  }

  function HexValue(c: char): nat
    requires IsHexDigit(c)
  {
    if c <= '9' then (c - '0') as nat else 10 + (c - 'a') as nat
  }

  /** The number a text of lower-case hexadecimal digits stands for. */
  function ReadHex(s: string): nat
    requires forall i | 0 <= i < |s| :: IsHexDigit(s[i])
  {
    if s == "" then 0 else 16 * ReadHex(s[..|s| - 1]) + HexValue(s[|s| - 1])
  }

  lemma HexCharReads(d: nat)
    requires d < 16
    ensures IsHexDigit(HexChar(d)) && HexValue(HexChar(d)) == d
  {
  }

  lemma {:induction false} HexReadsBack(h: nat, n: nat)
    requires h < Pow2(4 * n)
    ensures forall i | 0 <= i < n :: IsHexDigit(Hex(h, n)[i])
    ensures ReadHex(Hex(h, n)) == h
    decreases n
  {
    if n > 0 {
      FourMore(4 * (n - 1));
      HexReadsBack(h / 16, n - 1);
      HexCharReads(h % 16);
      var s := Hex(h, n);
      assert s[..n - 1] == Hex(h / 16, n - 1) && s[n - 1] == HexChar(h % 16);
    }
  }

  lemma HexTextDecides(h: nat, g: nat)
    requires h < WORD && g < WORD
    ensures Hex(h, TEXT_WIDTH) == Hex(g, TEXT_WIDTH) <==> h == g
  {
    WordIsPower();
    assert Pow2(4 * TEXT_WIDTH) == WORD;
    if Hex(h, TEXT_WIDTH) == Hex(g, TEXT_WIDTH) {
      HexDecides(h, g, TEXT_WIDTH);
    }
  }

  // ---------------------------------------------------------------------------
  // The hash
  // ---------------------------------------------------------------------------

  function Mixed(hash: nat, byte: Byte): (r: nat)
    ensures r < WORD
  {
    Xor(hash, byte) * PRIME % WORD
  }

  function HashFrom(hash: nat, content: seq<Byte>): nat
    decreases |content|
  {
    if content == [] then hash else HashFrom(Mixed(hash, content[0]), content[1..])
  }

  function HashText(content: seq<Byte>): string {
    Hex(HashFrom(OFFSET_BASIS, content), TEXT_WIDTH)
  }

  method StableContentHash(content: seq<Byte>) returns (text: string)
    ensures text == HashText(content)
  {
    var hash: nat := OFFSET_BASIS;
    for i := 0 to |content|
      invariant HashFrom(hash, content[i..]) == HashFrom(OFFSET_BASIS, content)
    {
      ghost var rest, next := content[i..], Mixed(hash, content[i]);
      assert rest[0] == content[i] && rest[1..] == content[i + 1..];
      hash := Xor(hash, content[i]);
      assert hash * PRIME % WORD == next;
      hash := hash * PRIME % WORD;
    }
    assert content[|content|..] == [];
    text := Hex(hash, TEXT_WIDTH);
  }

  lemma WordsDropOut(x: nat, j: int)
    requires x < WORD
    ensures (x + j * WORD) % WORD == x
  {
  }

  /** Multiplying by the inverse takes the wrapped product back. */
  lemma ProductUndone(x: nat)
    requires x < WORD
    ensures (x * PRIME % WORD) * INVERSE % WORD == x
  {
    var k := x * PRIME / WORD;
    var r := x * PRIME % WORD;
    assert r == x * PRIME - k * WORD;
    assert PRIME * INVERSE == 1 + 0xce9650590f * WORD;
    WordsDropOut(x, x * 0xce9650590f - k * INVERSE);
    assert r * INVERSE == x + (x * 0xce9650590f - k * INVERSE) * WORD;
  }

  /** One step maps the states, and the bytes, one to one. */
  lemma MixedOneToOne(h: nat, g: nat, a: Byte, b: Byte)
    requires h < WORD && g < WORD
    ensures Mixed(h, a) == Mixed(g, a) <==> h == g
    ensures Mixed(h, a) == Mixed(h, b) <==> a == b
  {
    XorOfWord(h, a);
    XorOfWord(g, a);
    XorOfWord(h, b);
    ProductUndone(Xor(h, a));
    ProductUndone(Xor(g, a));
    ProductUndone(Xor(h, b));
    XorUndone(h, a);
    XorUndone(g, a);
    XorCommutes(h, a);
    XorCommutes(h, b);
    XorUndone(a, h);
    XorUndone(b, h);
  }

  lemma {:induction false} HashFromSplits(h: nat, a: seq<Byte>, b: seq<Byte>)
    ensures HashFrom(h, a + b) == HashFrom(HashFrom(h, a), b)
    decreases |a|
  {
    if a == [] {
      assert a + b == b;
    } else {
      assert (a + b)[1..] == a[1..] + b;
      HashFromSplits(Mixed(h, a[0]), a[1..], b);
    }
  }

  lemma {:induction false} HashFromIsWord(h: nat, t: seq<Byte>)
    requires h < WORD
    ensures HashFrom(h, t) < WORD
    decreases |t|
  {
    if t != [] {
      HashFromIsWord(Mixed(h, t[0]), t[1..]);
    }
  }

  lemma {:induction false} HashFromOneToOne(h: nat, g: nat, t: seq<Byte>)
    requires h < WORD && g < WORD
    ensures HashFrom(h, t) == HashFrom(g, t) <==> h == g
    decreases |t|
  {
    if t != [] {
      HashFromOneToOne(Mixed(h, t[0]), Mixed(g, t[0]), t[1..]);
      MixedOneToOne(h, g, t[0], t[0]);
    }
  }

  /** The printed form decides the hash. */
  lemma TextDecides(a: seq<Byte>, b: seq<Byte>)
    ensures HashText(a) == HashText(b) <==> HashFrom(OFFSET_BASIS, a) == HashFrom(OFFSET_BASIS, b)
  {
    HashFromIsWord(OFFSET_BASIS, a);
    HashFromIsWord(OFFSET_BASIS, b);
    HexTextDecides(HashFrom(OFFSET_BASIS, a), HashFrom(OFFSET_BASIS, b));
  }

  /** What follows equally on two contents neither hides nor adds a difference. */
  lemma CommonEndingCancels(a: seq<Byte>, b: seq<Byte>, t: seq<Byte>)
    ensures HashText(a + t) == HashText(b + t) <==> HashText(a) == HashText(b)
  {
    HashFromSplits(OFFSET_BASIS, a, t);
    HashFromSplits(OFFSET_BASIS, b, t);
    HashFromIsWord(OFFSET_BASIS, a);
    HashFromIsWord(OFFSET_BASIS, b);
    HashFromOneToOne(HashFrom(OFFSET_BASIS, a), HashFrom(OFFSET_BASIS, b), t);
    TextDecides(a, b);
    TextDecides(a + t, b + t);
  }

  lemma LastByteDecides(front: seq<Byte>, a: Byte, b: Byte)
    ensures HashText(front + [a]) == HashText(front + [b]) <==> a == b
  {
    HashFromSplits(OFFSET_BASIS, front, [a]);
    HashFromSplits(OFFSET_BASIS, front, [b]);
    HashFromIsWord(OFFSET_BASIS, front);
    var h := HashFrom(OFFSET_BASIS, front);
    assert HashFrom(h, [a]) == Mixed(h, a) && HashFrom(h, [b]) == Mixed(h, b);
    MixedOneToOne(h, h, a, b);
    TextDecides(front + [a], front + [b]);
  }

  /** Two contents that differ in exactly one byte never share a hash string. */
  lemma SingleByteChangeDetected(a: seq<Byte>, b: seq<Byte>, i: nat)
    requires |a| == |b| && i < |a| && a[i] != b[i]
    requires forall j | 0 <= j < |a| && j != i :: a[j] == b[j]
    ensures HashText(a) != HashText(b)
  {
    var front, t := a[..i], a[i + 1..];
    assert a == front + [a[i]] + t && b == front + [b[i]] + t;
    LastByteDecides(front, a[i], b[i]);
    CommonEndingCancels(front + [a[i]], front + [b[i]], t);
  }

  /** The printed text, read as a hexadecimal number, is the hash. */
  lemma TextReadsBack(content: seq<Byte>)
    ensures |HashText(content)| == 16
    ensures forall i | 0 <= i < 16 :: IsHexDigit(HashText(content)[i])
    ensures ReadHex(HashText(content)) == HashFrom(OFFSET_BASIS, content)
  {
    HashFromIsWord(OFFSET_BASIS, content);
    WordIsPower();
    assert Pow2(4 * TEXT_WIDTH) == WORD;
    HexReadsBack(HashFrom(OFFSET_BASIS, content), TEXT_WIDTH);
  }

  // ---------------------------------------------------------------------------
  // Published values
  // ---------------------------------------------------------------------------

  lemma {:induction false} XorZero(a: nat)
    ensures Xor(a, 0) == a
  {
    if a != 0 {
      XorZero(a / 2);
    }
  }

  lemma XorBit(a: nat, b: nat, rest: nat)
    requires Xor(a / 2, b / 2) == rest
    ensures Xor(a, b) == 2 * rest + (a + b) % 2
  {
  }

  lemma BasisWithLetterA()
    ensures Xor(OFFSET_BASIS, 0x61) == 0xcbf29ce484222344
  {
    XorZero(0x197e539c9084446);
    XorBit(0x32fca739210888c, 0x1, 0x197e539c9084446);
    XorBit(0x65f94e724211119, 0x3, 0x32fca739210888d);
    XorBit(0xcbf29ce48422232, 0x6, 0x65f94e72421111a);
    XorBit(0x197e539c90844464, 0xc, 0xcbf29ce48422234);
    XorBit(0x32fca739210888c9, 0x18, 0x197e539c90844468);
    XorBit(0x65f94e7242111192, 0x30, 0x32fca739210888d1);
    XorBit(0xcbf29ce484222325, 0x61, 0x65f94e72421111a2);
  }

  lemma HashOfOne(h: nat, b: Byte, x: nat, y: nat)
    requires Xor(h, b) == x && x * PRIME % WORD == y
    ensures HashFrom(h, [b]) == y
  {
    assert [b][1..] == [];
    assert HashFrom(h, [b]) == HashFrom(Mixed(h, b), []);
  }

  lemma LetterAProduct(x: nat)
    requires x == 0xcbf29ce484222344
    ensures x * PRIME % WORD == 0xaf63dc4c8601ec8c
  {
    assert x * PRIME == 0xcbf29ce5de * WORD + 0xaf63dc4c8601ec8c;
  }

  /** The hash of no byte, and of the letter a, as published for FNV-1a. */
  lemma PublishedHashes()
    ensures HashFrom(OFFSET_BASIS, []) == 0xcbf29ce484222325
    ensures HashFrom(OFFSET_BASIS, [0x61]) == 0xaf63dc4c8601ec8c
  {
    BasisWithLetterA();
    LetterAProduct(0xcbf29ce484222344);
    HashOfOne(OFFSET_BASIS, 0x61, 0xcbf29ce484222344, 0xaf63dc4c8601ec8c);
  }
}
