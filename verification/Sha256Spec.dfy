/** SHA-256 as FIPS 180-4 states it: functions on sequences, with no buffer and no state. */
module Sha256Spec {
  import opened Sha256Constants

  type byte = bv8
  type word = bv32

  /** A hash value H(i): eight words. */
  type HashValue = h: seq<word> | |h| == 8 witness [0, 0, 0, 0, 0, 0, 0, 0]

  /** A 512-bit message block, as bytes. */
  type Block = b: seq<byte> | |b| == 64 witness seq(64, _ => 0)

  /** The working variables of section 6.2.2. */
  datatype Working = Working(a: word, b: word, c: word, d: word, e: word, f: word, g: word, h: word)

  function Words(table: seq<word32>): (w: seq<word>)
    ensures |w| == |table|
  {
    seq(|table|, i requires 0 <= i < |table| => table[i] as word)
  }

  const K: seq<word> := Words(ROUND_CONSTANTS)
  const IV: HashValue := Words(INITIAL_WORDS)

  /** Addition modulo 2^32, section 3.2. */
  function Add(x: word, y: word): word {
    x + y
  }

  // ---- Section 4.1.2 ----

  function Ch(x: word, y: word, z: word): word {
    (x & y) ^ (!x & z)
  }

  function Maj(x: word, y: word, z: word): word {
    (x & y) ^ (x & z) ^ (y & z)
  }

  function BigSigma0(x: word): word {
    x.RotateRight(2) ^ x.RotateRight(13) ^ x.RotateRight(22)
  }

  function BigSigma1(x: word): word {
    x.RotateRight(6) ^ x.RotateRight(11) ^ x.RotateRight(25)
  }

  function SmallSigma0(x: word): word {
    x.RotateRight(7) ^ x.RotateRight(18) ^ (x >> 3)
  }

  function SmallSigma1(x: word): word {
    x.RotateRight(17) ^ x.RotateRight(19) ^ (x >> 10)
  }

  // ---- What these functions do to single bits ----

  /** Where x has a one Ch takes the bit of y, and where it has a zero that of z. */
  lemma ChChooses(x: word, y: word, z: word)
    ensures Ch(x, y, z) & x == y & x && Ch(x, y, z) & !x == z & !x
  {}

  /** Where x and y agree Maj takes their bit, and elsewhere that of z. */
  lemma MajDecides(x: word, y: word, z: word)
    ensures Maj(x, y, z) & !(x ^ y) == x & !(x ^ y) && Maj(x, y, z) & (x ^ y) == z & (x ^ y)
  {}

  /** To which places the sigmas take the highest bit and the lowest one; a shift loses the lowest. */
  lemma SigmasOfBits()
    ensures BigSigma0(0x8000_0000) == 0x2004_0200 && BigSigma0(1) == 0x4008_0400
    ensures BigSigma1(0x8000_0000) == 0x0210_0040 && BigSigma1(1) == 0x0420_0080
    ensures SmallSigma0(0x8000_0000) == 0x1100_2000 && SmallSigma0(1) == 0x0200_4000
    ensures SmallSigma1(0x8000_0000) == 0x0020_5000 && SmallSigma1(1) == 0x0000_a000
  {}

  // ---- Section 3.1: words and bytes, most significant byte first ----

  function WordOf(b: seq<byte>): word
    requires |b| == 4
  {
    (b[0] as word << 24) | (b[1] as word << 16) | (b[2] as word << 8) | b[3] as word
  }

  function BytesOf(w: word): (b: seq<byte>)
    ensures |b| == 4
  {
    [(w >> 24) as byte, ((w >> 16) & 0xff) as byte, ((w >> 8) & 0xff) as byte, (w & 0xff) as byte]
  }

  lemma WordRoundTrip(w: word, b: seq<byte>)
    requires |b| == 4
    ensures WordOf(BytesOf(w)) == w
    ensures BytesOf(WordOf(b)) == b
  {
  }

  function AllBytes(h: seq<word>): (b: seq<byte>)
    ensures |b| == 4 * |h|
  {
    if h == [] then [] else AllBytes(h[..|h| - 1]) + BytesOf(h[|h| - 1])
  }

  /** The low eight bits of n. */
  function Octet(n: nat): byte {
    (n % 256) as byte
  }

  const TWO_64: nat := 0x1_0000_0000_0000_0000

  /** A uint64_t. */
  function Wrap(n: nat): (r: nat)
    ensures r < TWO_64
  {
    n % TWO_64
  }

  lemma WrapAdd(a: nat, b: nat)
    ensures Wrap(Wrap(a) + b) == Wrap(a + b)
  {
    var q, r := a / TWO_64, a % TWO_64;
    assert a + b == q * TWO_64 + (r + b);
    assert (q * TWO_64 + (r + b)) % TWO_64 == (r + b) % TWO_64;
  }

  /** The low 64 bits of n, most significant byte first. */
  function Be64(n: nat): (b: seq<byte>)
    ensures |b| == 8
  {
    [Octet(n / 0x100_0000_0000_0000), Octet(n / 0x1_0000_0000_0000),
     Octet(n / 0x100_0000_0000), Octet(n / 0x1_0000_0000),
     Octet(n / 0x100_0000), Octet(n / 0x1_0000), Octet(n / 0x100), Octet(n)]
  }

  lemma MultiplesApart(q: int, p: int, a: int)
    requires a > 0 && q < p
    ensures q * a + a <= p * a
  {
    assert (p - q - 1) * a >= 0;
    assert (p - q - 1) * a == p * a - q * a - a;
  }

  lemma QuotientUnique(n: int, a: int, q: int, r: int)
    requires 0 <= r < a && n == q * a + r
    ensures n / a == q
  {
    var p := n / a;
    assert n == p * a + n % a;
    if q < p {
      MultiplesApart(q, p, a);
    } else if p < q {
      MultiplesApart(p, q, a);
    }
  }

  lemma DivPlusMultiple(x: nat, m: nat, a: nat)
    requires a > 0
    ensures (x * a + m) / a == x + m / a
  {
    var q, r := m / a, m % a;
    assert x * a + m == (x + q) * a + r by {
      assert m == q * a + r;
    }
    QuotientUnique(x * a + m, a, x + q, r);
  }

  lemma OctetOfLow64(n: nat, a: nat, b: nat)
    requires a > 0 && a * b * 256 == TWO_64
    ensures Octet(n / a) == Octet(n % TWO_64 / a)
  {
    var k, m := n / TWO_64, n % TWO_64;
    assert n == k * b * 256 * a + m;
    DivPlusMultiple(k * b * 256, m, a);
    assert (k * b * 256 + m / a) % 256 == m / a % 256;
  }

  /** Be64 looks at the low 64 bits only. */
  lemma Be64OfLow64(n: nat)
    ensures Be64(n) == Be64(Wrap(n))
  {
    hide Octet;
    OctetOfLow64(n, 0x100_0000_0000_0000, 1);
    OctetOfLow64(n, 0x1_0000_0000_0000, 0x100);
    OctetOfLow64(n, 0x100_0000_0000, 0x1_0000);
    OctetOfLow64(n, 0x1_0000_0000, 0x100_0000);
    OctetOfLow64(n, 0x100_0000, 0x1_0000_0000);
    OctetOfLow64(n, 0x1_0000, 0x100_0000_0000);
    OctetOfLow64(n, 0x100, 0x1_0000_0000_0000);
    OctetOfLow64(n, 1, 0x100_0000_0000_0000);
  }

  // ---- Section 6.2.2: one block ----

  function NextWord(w: seq<word>): word
    requires |w| >= 16
  {
    Add(Add(Add(SmallSigma1(w[|w| - 2]), w[|w| - 7]), SmallSigma0(w[|w| - 15])), w[|w| - 16])
  }

  /** Step 1: the message schedule, extended from its first words. */
  function Schedule(w: seq<word>): (r: seq<word>)
    requires 16 <= |w| <= 64
    ensures |r| == 64 && r[..|w|] == w
    decreases 64 - |w|
  {
    if |w| == 64 then w else Schedule(w + [NextWord(w)])
  }

  /** The recurrence of step 1, word by word. */
  lemma {:induction false} ScheduleRecurrence(w: seq<word>, t: nat)
    requires 16 <= |w| <= 64 && |w| <= t < 64
    ensures var r := Schedule(w);
            r[t] == Add(Add(Add(SmallSigma1(r[t - 2]), r[t - 7]), SmallSigma0(r[t - 15])), r[t - 16])
    decreases 64 - |w|
  {
    hide Add, SmallSigma0, SmallSigma1;
    var next := w + [NextWord(w)];
    if t == |w| {
      assert Schedule(next)[..|w| + 1] == next;
    } else {
      ScheduleRecurrence(next, t);
    }
  }

  function BlockWords(b: Block): (w: seq<word>)
    ensures |w| == 16
  {
    seq(16, i requires 0 <= i < 16 => WordOf(b[4 * i..4 * i + 4]))
  }

  function T1(v: Working, k: word, w: word): word {
    Add(Add(Add(Add(v.h, BigSigma1(v.e)), Ch(v.e, v.f, v.g)), k), w)
  }

  function T2(v: Working): word {
    Add(BigSigma0(v.a), Maj(v.a, v.b, v.c))
  }

  /** Step 3, for one value of t. */
  function Round(v: Working, k: word, w: word): Working {
    Working(Add(T1(v, k, w), T2(v)), v.a, v.b, v.c, Add(v.d, T1(v, k, w)), v.e, v.f, v.g)
  }

  function Rounds(v: Working, k: seq<word>, w: seq<word>): Working
    requires |k| == |w|
    decreases |k|
  {
    if k == [] then v else Rounds(Round(v, k[0], w[0]), k[1..], w[1..])
  }

  function ToWorking(h: HashValue): Working {
    Working(h[0], h[1], h[2], h[3], h[4], h[5], h[6], h[7])
  }

  /** Step 4: the intermediate hash value. */
  function AddWorking(h: HashValue, v: Working): HashValue {
    [Add(h[0], v.a), Add(h[1], v.b), Add(h[2], v.c), Add(h[3], v.d),
     Add(h[4], v.e), Add(h[5], v.f), Add(h[6], v.g), Add(h[7], v.h)]
  }

  function Compress(h: HashValue, b: Block): HashValue {
    AddWorking(h, Rounds(ToWorking(h), K, Schedule(BlockWords(b))))
  }

  // ---- Sections 5.1.1 and 6.2.2: a whole message ----

  function HashBlocks(h: HashValue, data: seq<byte>): HashValue
    requires |data| % 64 == 0
  {
    if data == [] then h
    else Compress(HashBlocks(h, data[..|data| - 64]), data[|data| - 64..])
  }

  /** The smallest k with n + 1 + k = 56 modulo 64. */
  function ZeroCount(n: nat): (k: nat)
    ensures k < 64 && (n + 1 + k) % 64 == 56
  {
    (119 - n % 64) % 64
  }

  function Zeros(n: nat): (z: seq<byte>)
    ensures |z| == n
  {
    seq(n, _ => 0)
  }

  lemma PaddedLength(n: nat)
    ensures (n + 1 + ZeroCount(n) + 8) % 64 == 0
  {
    hide ZeroCount;
  }

  /** The padded message. The standard defines it for messages below 2^64 bits; the length field wraps above. */
  function Pad(m: seq<byte>): (p: seq<byte>)
    ensures |p| % 64 == 0
  {
    hide Be64, ZeroCount, Zeros;
    PaddedLength(|m|);
    m + [0x80] + Zeros(ZeroCount(|m|)) + Be64(8 * |m|)
  }

  function Digest(m: seq<byte>): (d: seq<byte>)
    ensures |d| == 32
  {
    AllBytes(HashBlocks(IV, Pad(m)))
  }
}
