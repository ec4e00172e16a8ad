/** The FNV-1a checksum of persisted state: 64-bit arithmetic on integers modulo 2^64. */
module Fnv {
  import opened Prelude

  const WORD: nat := 0x1_0000_0000_0000_0000
  const OFFSET: nat := 0xcbf29ce484222325
  const PRIME: nat := 0x100000001b3
  /** The multiplicative inverse of the odd prime modulo 2^64. */
  const INVERSE: nat := 0xce965057aff6957b

  /** Exclusive-or of the lowest `n` bits. */
  function Xor(a: nat, b: nat, n: nat): nat {
    if n == 0 then 0 else 2 * Xor(a / 2, b / 2, n - 1) + (a % 2 + b % 2) % 2
  }

  /** Multiplication by the prime, dropping what does not fit 64 bits. */
  function Mul(h: nat): nat {
    h * PRIME % WORD
  }

  function Absorb(h: nat, b: Byte): nat {
    Mul(Xor(h, b, 64))
  }

  function Hash(bytes: seq<Byte>): nat {
    if bytes == [] then OFFSET else Absorb(Hash(bytes[..|bytes| - 1]), bytes[|bytes| - 1])
  }

  // ---- every step can be undone ----

  lemma {:induction false} XorBounded(a: nat, b: nat, n: nat)
    ensures Xor(a, b, n) < Pow2(n)
  {
    if n > 0 {
      XorBounded(a / 2, b / 2, n - 1);
    }
  }

  lemma TopAndLowBit(r: nat, bit: nat)
    requires bit < 2
    ensures (2 * r + bit) / 2 == r && (2 * r + bit) % 2 == bit
  {
  }

  lemma {:induction false} XorZero(a: nat, n: nat)
    requires a < Pow2(n)
    ensures Xor(a, 0, n) == a
  {
    if n > 0 {
      XorZero(a / 2, n - 1);
    }
  }

  lemma XorOnce(a: nat, b: nat, n: nat, rest: nat)
    requires n > 0 && Xor(a / 2, b / 2, n - 1) == rest
    ensures Xor(a, b, n) == 2 * rest + (a % 2 + b % 2) % 2
  {
  }

  /** The letter a, the number 97, on the initial word: seven bits change places, the rest stays. */
  lemma FirstXor()
    ensures Xor(OFFSET, 97, 64) == 0xcbf29ce484222344
  {
    hide Xor;
    Pow2Of57();
    XorZero(0x197e539c9084446, 57);
    XorOnce(0x32fca739210888c, 1, 58, 0x197e539c9084446);
    XorOnce(0x65f94e724211119, 3, 59, 0x32fca739210888d);
    XorOnce(0xcbf29ce48422232, 6, 60, 0x65f94e72421111a);
    XorOnce(0x197e539c90844464, 12, 61, 0xcbf29ce48422234);
    XorOnce(0x32fca739210888c9, 24, 62, 0x197e539c90844468);
    XorOnce(0x65f94e7242111192, 48, 63, 0x32fca739210888d1);
    XorOnce(0xcbf29ce484222325, 97, 64, 0x65f94e72421111a2);
  }

  lemma Pow2Of57()
    ensures Pow2(57) == 0x200000000000000
  {
    WordIsPow2();
    Pow2Adds(57, 7);
    assert Pow2(7) == 128;
  }

  /** The published values for the empty text and for the letter a. */
  lemma KnownHashes()
    ensures Hash([]) == 0xcbf29ce484222325
    ensures Hash([97]) == 0xaf63dc4c8601ec8c
  {
    hide Xor;
    var bytes: seq<Byte> := [97];
    assert bytes[..0] == [];
    FirstXor();
    assert Hash(bytes) == Absorb(OFFSET, 97);
  }

  lemma {:induction false} XorUndoes(a: nat, b: nat, n: nat)
    requires a < Pow2(n)
    ensures Xor(Xor(a, b, n), b, n) == a
  {
    if n > 0 {
      var r, bit := Xor(a / 2, b / 2, n - 1), (a % 2 + b % 2) % 2;
      TopAndLowBit(r, bit);
      XorUndoes(a / 2, b / 2, n - 1);
      assert (bit + b % 2) % 2 == a % 2;
    }
  }

  lemma {:induction false} XorCommutes(a: nat, b: nat, n: nat)
    ensures Xor(a, b, n) == Xor(b, a, n)
  {
    if n > 0 {
      XorCommutes(a / 2, b / 2, n - 1);
    }
  }

  lemma WordIsPow2()
    ensures Pow2(64) == WORD && Pow2(8) == 256
  {
    assert Pow2(4) == 16;
    Pow2Adds(4, 4);
    Pow2Adds(8, 8);
    Pow2Adds(16, 16);
    Pow2Adds(32, 32);
  }

  lemma Regroup(h: int, p: int, i: int, k: int, w: int, q: int)
    requires p * i == 1 + k * w
    ensures (h * p - q * w) * i == h + (h * k - q * i) * w
  {
    calc {
      (h * p - q * w) * i;
      h * p * i - q * w * i;
      { assert h * p * i == h * (p * i); }
      h * (1 + k * w) - q * w * i;
      { assert h * (1 + k * w) == h + h * k * w; assert q * w * i == q * i * w; }
      h + h * k * w - q * i * w;
      { assert (h * k - q * i) * w == h * k * w - q * i * w; }
      h + (h * k - q * i) * w;
    }
  }

  lemma Remainder(x: nat, t: int)
    requires x < WORD
    ensures (x + t * WORD) % WORD == x
  {
  }

  /** Multiplying by the inverse takes the multiplication back. */
  lemma MulUndoes(h: nat)
    requires h < WORD
    ensures Mul(h) * INVERSE % WORD == h
  {
    var q := h * PRIME / WORD;
    var k := 887285111055;
    assert PRIME * INVERSE == 1 + k * WORD;
    Regroup(h, PRIME, INVERSE, k, WORD, q);
    Remainder(h, h * k - q * INVERSE);
    assert Mul(h) == h * PRIME - q * WORD;
  }

  /** No two words meet when the same byte is absorbed. */
  lemma AbsorbKeepsApart(g: nat, h: nat, b: Byte)
    requires g < WORD && h < WORD && g != h
    ensures Absorb(g, b) != Absorb(h, b)
  {
    WordIsPow2();
    XorUndoes(g, b, 64);
    XorUndoes(h, b, 64);
    XorBounded(g, b, 64);
    XorBounded(h, b, 64);
    MulUndoes(Xor(g, b, 64));
    MulUndoes(Xor(h, b, 64));
  }

  /** Different bytes lead one word to different words. */
  lemma AbsorbTellsBytes(h: nat, a: Byte, b: Byte)
    requires h < WORD && a != b
    ensures Absorb(h, a) != Absorb(h, b)
  {
    WordIsPow2();
    XorCommutes(h, a, 64);
    XorCommutes(h, b, 64);
    XorUndoes(a, h, 64);
    XorUndoes(b, h, 64);
    XorBounded(h, a, 64);
    XorBounded(h, b, 64);
    MulUndoes(Xor(h, a, 64));
    MulUndoes(Xor(h, b, 64));
  }

  lemma HashIsWord(bytes: seq<Byte>)
    ensures Hash(bytes) < WORD
  {
  }

  /** Two messages of equal length that differ in one byte have different hashes. */
  lemma {:induction false} OneByteChangesHash(a: seq<Byte>, b: seq<Byte>, i: nat)
    requires |a| == |b| && i < |a| && a[i] != b[i]
    requires forall k :: 0 <= k < |a| && k != i ==> a[k] == b[k]
    ensures Hash(a) != Hash(b)
  {
    var n := |a| - 1;
    HashIsWord(a[..n]);
    HashIsWord(b[..n]);
    if i == n {
      assert a[..n] == b[..n];
      AbsorbTellsBytes(Hash(a[..n]), a[n], b[n]);
    } else {
      OneByteChangesHash(a[..n], b[..n], i);
      AbsorbKeepsApart(Hash(a[..n]), Hash(b[..n]), a[n]);
    }
  }

  // ---- sixteen hexadecimal digits ----

  const DIGITS := "0123456789abcdef"

  function Hex(h: nat, n: nat): (s: string)
    ensures |s| == n
  {
    if n == 0 then "" else Hex(h / 16, n - 1) + [DIGITS[h % 16]]
  }

  function DigitValue(c: char): nat {
    if '0' <= c <= '9' then (c - '0') as nat
    else if 'a' <= c <= 'f' then 10 + (c - 'a') as nat
    else 0
  }

  function FromHex(s: string): nat {
    if s == "" then 0 else 16 * FromHex(s[..|s| - 1]) + DigitValue(s[|s| - 1])
  }

  lemma DigitRoundTrip(d: nat)
    requires d < 16
    ensures DigitValue(DIGITS[d]) == d
  {
  }

  lemma DropDigit(h: nat, n: nat)
    requires n > 0 && h < Pow2(4 * n)
    ensures h / 16 < Pow2(4 * (n - 1))
  {
    Pow2Adds(4, 4 * (n - 1));
    assert Pow2(4) == 16;
  }

  lemma NoDigits(h: nat)
    requires h < Pow2(0)
    ensures h == 0
  {
  }

  /** Reading the digits back gives the word. */
  lemma {:induction false} HexRoundTrip(h: nat, n: nat)
    requires h < Pow2(4 * n)
    ensures FromHex(Hex(h, n)) == h
  {
    hide Pow2, DigitValue;
    if n > 0 {
      DropDigit(h, n);
      HexRoundTrip(h / 16, n - 1);
      DigitRoundTrip(h % 16);
      assert Hex(h, n)[..n - 1] == Hex(h / 16, n - 1);
    } else {
      NoDigits(h);
    }
  }

  method Fnv1a64Hex(bytes: seq<Byte>) returns (s: string)
    ensures s == Hex(Hash(bytes), 16) && |s| == 16 && FromHex(s) == Hash(bytes)
  {
    var h := OFFSET;
    for i := 0 to |bytes|
      invariant h == Hash(bytes[..i])
    {
      assert bytes[..i + 1][..i] == bytes[..i];
      h := Xor(h, bytes[i], 64);
      h := h * PRIME % WORD;
    }
    assert bytes[..|bytes|] == bytes;
    HashIsWord(bytes);
    WordIsPow2();
    HexRoundTrip(h, 16);
    s := Hex(h, 16);
  }

  /** A change of one byte changes the checksum. */
  lemma OneByteChangesChecksum(a: seq<Byte>, b: seq<Byte>, i: nat)
    requires |a| == |b| && i < |a| && a[i] != b[i]
    requires forall k :: 0 <= k < |a| && k != i ==> a[k] == b[k]
    ensures Hex(Hash(a), 16) != Hex(Hash(b), 16)
  {
    OneByteChangesHash(a, b, i);
    HashIsWord(a);
    HashIsWord(b);
    WordIsPow2();
    HexRoundTrip(Hash(a), 16);
    HexRoundTrip(Hash(b), 16);
  }
}
