/** Published values: the digest of "abc" that goes with FIPS 180-4, and test case 2 of RFC 4231. */
module KnownAnswers {
  import opened Sha256Spec
  import opened Sha256Constants
  import opened Sha256Trace
  import opened Signing
  import Hmac
  import AbcTrace
  import InnerKeyTrace
  import InnerTextTrace
  import OuterKeyTrace
  import OuterHashTrace

  // ---- Blocks as words ----

  lemma {:induction false} AllBytesAt(h: seq<word>, i: nat)
    requires i < |h|
    ensures AllBytes(h)[4 * i..4 * i + 4] == BytesOf(h[i])
  {
    hide BytesOf;
    var front, last := h[..|h| - 1], h[|h| - 1];
    if i < |front| {
      AllBytesAt(front, i);
      assert AllBytes(h)[4 * i..4 * i + 4] == AllBytes(front)[4 * i..4 * i + 4];
    } else {
      assert AllBytes(h)[4 * i..4 * i + 4] == BytesOf(last);
    }
  }

  /** The words of a block are those of which it is made. */
  lemma {:induction false} WordsOfBlock(b: Block, w: seq<word>)
    requires |w| == 16 && b == AllBytes(w)
    ensures BlockWords(b) == w
  {
    hide AllBytes, WordOf, BytesOf;
    forall i | 0 <= i < 16
      ensures BlockWords(b)[i] == w[i]
    {
      AllBytesAt(w, i);
      WordRoundTrip(w[i], BytesOf(w[i]));
    }
  }

  lemma {:induction false} AllBytesAppend(a: seq<word>, b: seq<word>)
    ensures AllBytes(a + b) == AllBytes(a) + AllBytes(b)
  {
    hide BytesOf;
    if b == [] {
      assert a + b == a;
    } else {
      assert (a + b)[..|a + b| - 1] == a + b[..|b| - 1];
      AllBytesAppend(a, b[..|b| - 1]);
    }
  }

  /** A word of four equal bytes, over and over. */
  lemma {:induction false} AllBytesSame(n: nat, w: word, x: byte)
    requires BytesOf(w) == [x, x, x, x]
    ensures AllBytes(seq(n, _ => w)) == seq(4 * n, _ => x)
  {
    hide BytesOf;
    if n > 0 {
      assert seq(n, _ => w)[..n - 1] == seq(n - 1, _ => w);
      AllBytesSame(n - 1, w, x);
      assert seq(4 * n, _ => x) == seq(4 * (n - 1), _ => x) + [x, x, x, x];
    }
  }

  /** The last block of a message of n bits: what is left of it, in whole words, the one with the 0x80, zeros, n. */
  lemma LastBlock(front: seq<word>, zeros: nat, n: word, tail: seq<byte>)
    requires 4 * zeros + 8 + |tail| == 64 && tail == AllBytes(front)
    ensures AllBytes(front + seq(zeros, _ => 0) + [0, n]) == tail + Zeros(4 * zeros) + BytesOf(0) + BytesOf(n)
  {
    AllBytesSame(zeros, 0, 0);
    AllBytesAppend(front + seq(zeros, _ => 0), [0, n]);
    AllBytesAppend(front, seq(zeros, _ => 0));
    AllBytesOfTwo(0, n);
    hide AllBytes, BytesOf;
  }

  lemma AllBytesOfTwo(a: word, b: word)
    ensures AllBytes([a]) == BytesOf(a) && AllBytes([a, b]) == BytesOf(a) + BytesOf(b)
  {
    hide BytesOf;
    assert [a, b][..1] == [a] && [a][..0] == [];
  }

  lemma InitialWords()
    ensures IV == [0x6a09e667, 0xbb67ae85, 0x3c6ef372, 0xa54ff53a, 0x510e527f, 0x9b05688c, 0x1f83d9ab, 0x5be0cd19]
  {
    WordsByValue(INITIAL_WORDS,
                 [0x6a09e667, 0xbb67ae85, 0x3c6ef372, 0xa54ff53a, 0x510e527f, 0x9b05688c, 0x1f83d9ab, 0x5be0cd19]);
  }

  lemma HashOne(a: Block)
    ensures HashBlocks(IV, a) == Compress(IV, a)
  {
    hide Compress, IV;
    assert a[..0] == [] && a[0..] == a;
  }

  lemma HashTwo(a: Block, b: Block)
    ensures HashBlocks(IV, a + b) == Compress(Compress(IV, a), b)
  {
    HashOne(a);
    hide Compress, IV;
    assert (a + b)[..64] == a && (a + b)[64..] == b;
  }

  // ---- Printing ----

  lemma {:induction false} HexTextAppend(a: seq<byte>, b: seq<byte>)
    ensures HexText(a + b) == HexText(a) + HexText(b)
  {
    hide HexByte;
    if b == [] {
      assert a + b == a;
    } else {
      assert (a + b)[..|a + b| - 1] == a + b[..|b| - 1];
      HexTextAppend(a, b[..|b| - 1]);
    }
  }

  /** The words of a hash value, printed one by one. */
  lemma HexOfWord(w: word, rest: seq<word>)
    ensures HexText(AllBytes([w] + rest)) == HexText(BytesOf(w)) + HexText(AllBytes(rest))
  {
    AllBytesAppend([w], rest);
    AllBytesOfTwo(w, w);
    hide AllBytes, BytesOf, HexText;
    HexTextAppend(BytesOf(w), AllBytes(rest));
  }

  lemma HexOfBytes(b: seq<byte>)
    requires |b| == 4
    ensures HexText(b) == HexByte(b[0]) + HexByte(b[1]) + HexByte(b[2]) + HexByte(b[3])
  {
    hide HexByte, HexText;
    HexTextAppend([b[0]], [b[1]]);
    HexTextAppend([b[0]] + [b[1]], [b[2]]);
    HexTextAppend([b[0]] + [b[1]] + [b[2]], [b[3]]);
    assert [b[0]] + [b[1]] + [b[2]] + [b[3]] == b;
    HexOfByte(b[0]);
    HexOfByte(b[1]);
    HexOfByte(b[2]);
    HexOfByte(b[3]);
  }

  lemma HexOfByte(x: byte)
    ensures HexText([x]) == HexByte(x)
  {
    hide HexByte;
    assert [x][..0] == [] && HexText([]) == [];
  }

  function HexWord(w: word): string {
    HexText(BytesOf(w))
  }

  lemma HexOfFour(a: word, b: word, c: word, d: word, rest: seq<word>)
    ensures HexText(AllBytes([a, b, c, d] + rest))
         == HexWord(a) + HexWord(b) + HexWord(c) + HexWord(d) + HexText(AllBytes(rest))
  {
    hide AllBytes, BytesOf, HexText;
    HexOfWord(a, [b, c, d] + rest);
    HexOfWord(b, [c, d] + rest);
    HexOfWord(c, [d] + rest);
    HexOfWord(d, rest);
    assert [a] + ([b, c, d] + rest) == [a, b, c, d] + rest && [b] + ([c, d] + rest) == [b, c, d] + rest;
    assert [c] + ([d] + rest) == [c, d] + rest;
  }

  lemma HexOfHash(a: word, b: word, c: word, d: word, e: word, f: word, g: word, h: word)
    ensures HexText(AllBytes([a, b, c, d, e, f, g, h]))
         == HexWord(a) + HexWord(b) + HexWord(c) + HexWord(d) + HexWord(e) + HexWord(f) + HexWord(g) + HexWord(h)
  {
    NoHex();
    hide AllBytes, HexWord, HexText;
    HexOfFour(a, b, c, d, [e, f, g, h]);
    HexOfFour(e, f, g, h, []);
    assert [a, b, c, d] + [e, f, g, h] == [a, b, c, d, e, f, g, h] && [e, f, g, h] + [] == [e, f, g, h];
  }

  lemma NoHex()
    ensures HexText(AllBytes([])) == ""
  {}

  // ---- The message "abc" ----

  lemma AbcBytes()
    ensures Bytes("abc") + [0x80] == BytesOf(0x61626380)
  {
    assert Bytes("abc") == [0x61, 0x62, 0x63];
  }

  lemma AbcPadded()
    ensures Pad(Bytes("abc")) == AllBytes(AbcTrace.W0 + AbcTrace.W1)
  {
    var tail := Bytes("abc") + [0x80];
    Lengths();
    ZeroCounts(3);
    AbcBytes();
    AllBytesOfTwo(0x61626380, 0);
    hide AllBytes, BytesOf, Be64, Bytes, ZeroCount;
    LastBlock([0x61626380], 13, 0x18, tail);
    assert AbcTrace.W0 + AbcTrace.W1 == [0x61626380] + seq(13, _ => 0) + [0, 0x18];
  }

  lemma AbcHash()
    ensures Digest(Bytes("abc")) == AllBytes([0xba7816bf, 0x8f01cfea, 0x414140de, 0x5dae2223,
                                              0xb00361a3, 0x96177a9c, 0xb410ff61, 0xf20015ad])
  {
    hide Pad, AllBytes, Compress, HashBlocks, BlockWords, Bytes, Trace.Holds;
    var b := Pad(Bytes("abc"));
    AbcPadded();
    AbcTrace.TraceHolds();
    InitialWords();
    WordsOfBlock(b, AbcTrace.W0 + AbcTrace.W1);
    HashOne(b);
    Compressed(AbcTrace.TRACE, IV, b);
  }

  lemma AbcWords1()
    ensures HexWord(0xba7816bf) == "ba7816bf" && HexWord(0x8f01cfea) == "8f01cfea"
    ensures HexWord(0x414140de) == "414140de" && HexWord(0x5dae2223) == "5dae2223"
  {
    HexOfBytes(BytesOf(0xba7816bf));
    HexOfBytes(BytesOf(0x8f01cfea));
    HexOfBytes(BytesOf(0x414140de));
    HexOfBytes(BytesOf(0x5dae2223));
    hide HexText;
  }

  lemma AbcWords2()
    ensures HexWord(0xb00361a3) == "b00361a3" && HexWord(0x96177a9c) == "96177a9c"
    ensures HexWord(0xb410ff61) == "b410ff61" && HexWord(0xf20015ad) == "f20015ad"
  {
    HexOfBytes(BytesOf(0xb00361a3));
    HexOfBytes(BytesOf(0x96177a9c));
    HexOfBytes(BytesOf(0xb410ff61));
    HexOfBytes(BytesOf(0xf20015ad));
    hide HexText;
  }

  /** The digest of "abc". */
  lemma AbcDigest()
    ensures HexText(Digest(Bytes("abc"))) == "ba7816bf" + "8f01cfea" + "414140de" + "5dae2223"
                                             + "b00361a3" + "96177a9c" + "b410ff61" + "f20015ad"
  {
    AbcHash();
    AbcWords1();
    AbcWords2();
    hide HexWord, Digest, Bytes, AllBytes, HexText;
    HexOfHash(0xba7816bf, 0x8f01cfea, 0x414140de, 0x5dae2223, 0xb00361a3, 0x96177a9c, 0xb410ff61, 0xf20015ad);
  }

  // ---- Test case 2 of RFC 4231 ----

  const KEY: seq<byte> := Bytes("Jefe")
  const TEXT: seq<byte> := Bytes("what do ya want for nothing?")

  lemma KeyBytes()
    ensures KEY == [0x4a, 0x65, 0x66, 0x65]
  {}

  lemma MaskBytes()
    ensures BytesOf(0x7c535053) == Hmac.XorEach(KEY, 0x36) && BytesOf(0x36363636) == [0x36, 0x36, 0x36, 0x36]
    ensures BytesOf(0x16393a39) == Hmac.XorEach(KEY, 0x5c) && BytesOf(0x5c5c5c5c) == [0x5c, 0x5c, 0x5c, 0x5c]
  {
    KeyBytes();
    hide KEY;
  }

  lemma MaskedZeros(key: seq<byte>, n: nat, mask: byte)
    ensures Hmac.XorEach(key + Zeros(n), mask) == Hmac.XorEach(key, mask) + seq(n, _ => mask)
  {}

  /** A key of four bytes, padded and masked. */
  lemma MaskedKey(key: seq<byte>, mask: byte, first: word, w: word)
    requires |key| == 4 && BytesOf(first) == Hmac.XorEach(key, mask) && BytesOf(w) == [mask, mask, mask, mask]
    ensures Hmac.XorEach(Hmac.KeyBlock(key), mask) == AllBytes([first] + seq(15, _ => w))
  {
    AllBytesSame(15, w, mask);
    AllBytesAppend([first], seq(15, _ => w));
    AllBytesOfTwo(first, w);
    MaskedZeros(key, 60, mask);
    hide AllBytes, BytesOf, Hmac.XorEach, Zeros;
  }

  lemma InnerKey()
    ensures Hmac.XorEach(Hmac.KeyBlock(KEY), 0x36) == AllBytes(InnerKeyTrace.W0 + InnerKeyTrace.W1)
  {
    MaskBytes();
    KeyBytes();
    hide AllBytes, BytesOf, Hmac.XorEach, Hmac.KeyBlock, KEY;
    MaskedKey(KEY, 0x36, 0x7c535053, 0x36363636);
    assert InnerKeyTrace.W0 + InnerKeyTrace.W1 == [0x7c535053] + seq(15, _ => 0x36363636);
  }

  lemma OuterKey()
    ensures Hmac.XorEach(Hmac.KeyBlock(KEY), 0x5c) == AllBytes(OuterKeyTrace.W0 + OuterKeyTrace.W1)
  {
    MaskBytes();
    KeyBytes();
    hide AllBytes, BytesOf, Hmac.XorEach, Hmac.KeyBlock, KEY;
    MaskedKey(KEY, 0x5c, 0x16393a39, 0x5c5c5c5c);
    assert OuterKeyTrace.W0 + OuterKeyTrace.W1 == [0x16393a39] + seq(15, _ => 0x5c5c5c5c);
  }

  lemma BytesAppend(a: string, b: string)
    ensures Bytes(a + b) == Bytes(a) + Bytes(b)
  {}

  lemma ByteOfInt(b: byte)
    ensures b as int as byte == b
  {}

  lemma ByteBound(b: byte)
    ensures 0 <= b as int < 256
  {}

  lemma OctetIs(n: nat, b: byte)
    requires n % 256 == b as int
    ensures Octet(n) == b
  {
    ByteOfInt(b);
  }

  lemma CharIs(c: char, b: byte)
    requires c as int == b as int
    ensures ByteOf(c) == b
  {
    ByteBound(b);
    ByteOfInt(b);
    assert c as int % 256 == b as int;
  }

  lemma PieceIs(s: string, w: word)
    requires |s| == 4 && forall i :: 0 <= i < 4 ==> s[i] as int == BytesOf(w)[i] as int
    ensures Bytes(s) == BytesOf(w)
  {
    hide BytesOf, ByteOf;
    forall i | 0 <= i < 4
      ensures Bytes(s)[i] == BytesOf(w)[i]
    {
      CharIs(s[i], BytesOf(w)[i]);
    }
  }

  lemma TextPieces1()
    ensures Bytes("what") == BytesOf(0x77686174) && Bytes(" do ") == BytesOf(0x20646f20)
  {
    PieceIs("what", 0x77686174);
    PieceIs(" do ", 0x20646f20);
    hide Bytes;
  }

  lemma TextPieces2()
    ensures Bytes("ya w") == BytesOf(0x79612077) && Bytes("ant ") == BytesOf(0x616e7420)
  {
    PieceIs("ya w", 0x79612077);
    PieceIs("ant ", 0x616e7420);
    hide Bytes;
  }

  lemma TextPieces3()
    ensures Bytes("for ") == BytesOf(0x666f7220) && Bytes("noth") == BytesOf(0x6e6f7468)
  {
    PieceIs("for ", 0x666f7220);
    PieceIs("noth", 0x6e6f7468);
    hide Bytes;
  }

  lemma TextPieces4()
    ensures Bytes("ing?") == BytesOf(0x696e673f)
  {
    PieceIs("ing?", 0x696e673f);
    hide Bytes;
  }

  lemma MarkBytes()
    ensures BytesOf(0x80000000) == [0x80, 0, 0, 0]
  {}

  /** Four words from four pieces. */
  lemma FourWords(a: word, b: word, c: word, d: word)
    ensures AllBytes([a, b, c, d]) == BytesOf(a) + BytesOf(b) + BytesOf(c) + BytesOf(d)
  {
    AllBytesOfTwo(a, b);
    AllBytesOfTwo(c, d);
    AllBytesAppend([a, b], [c, d]);
    assert [a, b] + [c, d] == [a, b, c, d];
    hide AllBytes, BytesOf;
  }

  lemma TextFront()
    ensures Bytes("what do ya want ") == AllBytes([0x77686174, 0x20646f20, 0x79612077, 0x616e7420])
  {
    TextPieces1();
    TextPieces2();
    hide AllBytes, Bytes, BytesOf;
    BytesAppend("what", " do ");
    BytesAppend("what" + " do ", "ya w");
    BytesAppend("what" + " do " + "ya w", "ant ");
    assert "what do ya want " == "what" + " do " + "ya w" + "ant ";
    FourWords(0x77686174, 0x20646f20, 0x79612077, 0x616e7420);
  }

  lemma TextBack()
    ensures Bytes("for nothing?") + [0x80, 0, 0, 0] == AllBytes([0x666f7220, 0x6e6f7468, 0x696e673f, 0x80000000])
  {
    TextPieces3();
    TextPieces4();
    hide AllBytes, Bytes, BytesOf;
    BytesAppend("for ", "noth");
    BytesAppend("for " + "noth", "ing?");
    assert "for nothing?" == "for " + "noth" + "ing?";
    assert BytesOf(0x80000000) == [0x80, 0, 0, 0] by {
      MarkBytes();
    }
    FourWords(0x666f7220, 0x6e6f7468, 0x696e673f, 0x80000000);
  }

  lemma TextWords()
    ensures TEXT + [0x80, 0, 0, 0] == AllBytes(InnerTextTrace.W0)
  {
    TextFront();
    TextBack();
    assert "what do ya want for nothing?" == "what do ya want " + "for nothing?";
    BytesAppend("what do ya want ", "for nothing?");
    hide AllBytes, Bytes;
    AllBytesAppend([0x77686174, 0x20646f20, 0x79612077, 0x616e7420],
                   [0x666f7220, 0x6e6f7468, 0x696e673f, 0x80000000]);
    assert InnerTextTrace.W0 == [0x77686174, 0x20646f20, 0x79612077, 0x616e7420]
                                + [0x666f7220, 0x6e6f7468, 0x696e673f, 0x80000000];
  }

  /** The padding behind a masked key and a text of whole words is that of the text, but for the length. */
  lemma PaddedBehind(masked: Block, text: seq<byte>, zeros: nat)
    requires ZeroCount(|text|) == 3 + zeros
    ensures Pad(masked + text) == masked + (text + [0x80, 0, 0, 0] + Zeros(zeros) + Be64(8 * (64 + |text|)))
  {
    hide Be64;
    ZeroCounts(|text|);
    assert Zeros(3 + zeros) == [0, 0, 0] + Zeros(zeros);
    assert [0x80] + [0, 0, 0] == [0x80, 0, 0, 0];
    hide ZeroCount, Zeros;
    var length := Be64(8 * (64 + |text|));
    assert masked + text + [0x80] + ([0, 0, 0] + Zeros(zeros)) + length
        == masked + (text + ([0x80] + [0, 0, 0]) + Zeros(zeros) + length);
  }

  lemma ShortLength(n: nat)
    requires n < 0x1_0000
    ensures Be64(n) == [Octet(0), Octet(0), Octet(0), Octet(0), Octet(0), Octet(0), Octet(n / 0x100), Octet(n)]
  {
    hide Octet;
    assert n / 0x1_0000 == 0 && n / 0x100_0000 == 0 && n / 0x1_0000_0000 == 0 && n / 0x100_0000_0000 == 0;
    assert n / 0x1_0000_0000_0000 == 0 && n / 0x100_0000_0000_0000 == 0;
  }

  lemma LengthBytes()
    ensures Be64(24) == [0, 0, 0, 0, 0, 0, 0, 0x18]
    ensures Be64(736) == [0, 0, 0, 0, 0, 0, 2, 0xe0] && Be64(768) == [0, 0, 0, 0, 0, 0, 3, 0]
  {
    ShortLength(24);
    ShortLength(736);
    ShortLength(768);
    hide Be64, Octet;
    OctetIs(0, 0);
    OctetIs(24, 0x18);
    OctetIs(2, 2);
    OctetIs(736, 0xe0);
    OctetIs(3, 3);
    OctetIs(768, 0);
  }

  lemma LengthWords()
    ensures BytesOf(0) == [0, 0, 0, 0] && BytesOf(0x18) == [0, 0, 0, 0x18]
    ensures BytesOf(0x2e0) == [0, 0, 2, 0xe0] && BytesOf(0x300) == [0, 0, 3, 0]
  {}

  lemma Lengths()
    ensures Be64(24) == BytesOf(0) + BytesOf(0x18)
    ensures Be64(736) == BytesOf(0) + BytesOf(0x2e0) && Be64(768) == BytesOf(0) + BytesOf(0x300)
  {
    LengthWords();
    LengthBytes();
    hide Be64, BytesOf;
  }

  lemma ZeroCounts(n: nat)
    ensures ZeroCount(64 + n) == ZeroCount(n)
    ensures ZeroCount(3) == 52 && ZeroCount(28) == 27 && ZeroCount(32) == 23
  {}

  lemma TextLength()
    ensures |TEXT| == 28
  {
    assert |"what do ya want for nothing?"| == 28;
    hide Be64;
  }

  lemma TextPadded(masked: Block)
    ensures Pad(masked + TEXT) == masked + AllBytes(InnerTextTrace.W0 + InnerTextTrace.W1)
  {
    TextWords();
    Lengths();
    ZeroCounts(28);
    TextLength();
    hide AllBytes, BytesOf, Be64, TEXT, Pad, Bytes, Zeros, ZeroCount;
    LastBlock(InnerTextTrace.W0, 6, 0x2e0, TEXT + [0x80, 0, 0, 0]);
    assert InnerTextTrace.W0 + InnerTextTrace.W1 == InnerTextTrace.W0 + seq(6, _ => 0) + [0, 0x2e0];
    PaddedBehind(masked, TEXT, 24);
  }

  lemma HashPadded(masked: Block)
    ensures Pad(masked + AllBytes(OuterHashTrace.W0)) == masked + AllBytes(OuterHashTrace.W0 + OuterHashTrace.W1)
  {
    Lengths();
    ZeroCounts(32);
    MarkedHash(OuterHashTrace.W0);
    hide AllBytes, BytesOf, Be64, Pad, Zeros, ZeroCount;
    var hash, marked := OuterHashTrace.W0, OuterHashTrace.W0 + [0x80000000];
    LastBlock(marked, 5, 0x300, AllBytes(hash) + [0x80, 0, 0, 0]);
    assert hash + OuterHashTrace.W1 == marked + seq(5, _ => 0) + [0, 0x300];
    PaddedBehind(masked, AllBytes(hash), 20);
  }

  lemma MarkedHash(hash: seq<word>)
    ensures AllBytes(hash) + [0x80, 0, 0, 0] == AllBytes(hash + [0x80000000])
  {
    AllBytesOfTwo(0x80000000, 0);
    AllBytesAppend(hash, [0x80000000]);
    assert BytesOf(0x80000000) == [0x80, 0, 0, 0];
    hide AllBytes, BytesOf;
  }

  /** The inner hash. */
  lemma InnerHash()
    ensures Digest(Hmac.XorEach(Hmac.KeyBlock(KEY), 0x36) + TEXT) == AllBytes(OuterHashTrace.W0)
  {
    hide Pad, AllBytes, Compress, HashBlocks, BlockWords, Bytes, Trace.Holds, Hmac.XorEach, Hmac.KeyBlock, KEY, TEXT;
    var masked := Hmac.XorEach(Hmac.KeyBlock(KEY), 0x36);
    var block := AllBytes(InnerTextTrace.W0 + InnerTextTrace.W1);
    InnerKey();
    TextPadded(masked);
    InitialWords();
    InnerKeyTrace.TraceHolds();
    WordsOfBlock(masked, InnerKeyTrace.W0 + InnerKeyTrace.W1);
    Compressed(InnerKeyTrace.TRACE, IV, masked);
    InnerTextTrace.TraceHolds();
    WordsOfBlock(block, InnerTextTrace.W0 + InnerTextTrace.W1);
    Compressed(InnerTextTrace.TRACE, Compress(IV, masked), block);
    HashTwo(masked, block);
  }

  lemma OuterHash()
    ensures Hmac.HmacSha256(KEY, TEXT) == AllBytes([0x5bdcc146, 0xbf60754e, 0x6a042426, 0x089575c7,
                                                    0x5a003f08, 0x9d273983, 0x9dec58b9, 0x64ec3843])
  {
    hide Pad, AllBytes, Compress, HashBlocks, BlockWords, Bytes, Trace.Holds, Hmac.XorEach, Hmac.KeyBlock, KEY, TEXT;
    var masked := Hmac.XorEach(Hmac.KeyBlock(KEY), 0x5c);
    var block := AllBytes(OuterHashTrace.W0 + OuterHashTrace.W1);
    InnerHash();
    OuterKey();
    HashPadded(masked);
    InitialWords();
    OuterKeyTrace.TraceHolds();
    WordsOfBlock(masked, OuterKeyTrace.W0 + OuterKeyTrace.W1);
    Compressed(OuterKeyTrace.TRACE, IV, masked);
    OuterHashTrace.TraceHolds();
    WordsOfBlock(block, OuterHashTrace.W0 + OuterHashTrace.W1);
    Compressed(OuterHashTrace.TRACE, Compress(IV, masked), block);
    HashTwo(masked, block);
  }

  lemma MacWords1()
    ensures HexWord(0x5bdcc146) == "5bdcc146" && HexWord(0xbf60754e) == "bf60754e"
    ensures HexWord(0x6a042426) == "6a042426" && HexWord(0x089575c7) == "089575c7"
  {
    HexOfBytes(BytesOf(0x5bdcc146));
    HexOfBytes(BytesOf(0xbf60754e));
    HexOfBytes(BytesOf(0x6a042426));
    HexOfBytes(BytesOf(0x089575c7));
    hide HexText;
  }

  lemma MacWords2()
    ensures HexWord(0x5a003f08) == "5a003f08" && HexWord(0x9d273983) == "9d273983"
    ensures HexWord(0x9dec58b9) == "9dec58b9" && HexWord(0x64ec3843) == "64ec3843"
  {
    HexOfBytes(BytesOf(0x5a003f08));
    HexOfBytes(BytesOf(0x9d273983));
    HexOfBytes(BytesOf(0x9dec58b9));
    HexOfBytes(BytesOf(0x64ec3843));
    hide HexText;
  }

  /** The mac of the text "what do ya want for nothing?" under the key "Jefe". */
  lemma JefeMac()
    ensures HexText(Hmac.HmacSha256(Bytes("Jefe"), Bytes("what do ya want for nothing?")))
         == "5bdcc146" + "bf60754e" + "6a042426" + "089575c7"
            + "5a003f08" + "9d273983" + "9dec58b9" + "64ec3843"
  {
    OuterHash();
    MacWords1();
    MacWords2();
    hide HexWord, Hmac.HmacSha256, Bytes, AllBytes, HexText;
    HexOfHash(0x5bdcc146, 0xbf60754e, 0x6a042426, 0x089575c7,
              0x5a003f08, 0x9d273983, 0x9dec58b9, 0x64ec3843);
  }
}
