/** The streaming SHA-256 object: a 64-byte buffer, a chaining value and a bit counter. */
module Sha256 {
  import opened Sha256Spec

  // ---- The logical functions as the implementation writes them ----

  function ChSelect(x: word, y: word, z: word): (r: word)
    ensures r == Ch(x, y, z)
  {
    ChSelectIsCh(x, y, z);
    z ^ (x & (y ^ z))
  }

  function MajVote(x: word, y: word, z: word): (r: word)
    ensures r == Maj(x, y, z)
  {
    MajVoteIsMaj(x, y, z);
    ((x | y) & z) | (x & y)
  }

  lemma ChSelectIsCh(x: word, y: word, z: word)
    ensures z ^ (x & (y ^ z)) == Ch(x, y, z)
  {
  }

  lemma MajVoteIsMaj(x: word, y: word, z: word)
    ensures ((x | y) & z) | (x & y) == Maj(x, y, z)
  {
  }

  function Sigma0(x: word): (r: word)
    ensures r == BigSigma0(x)
  {
    ((x >> 2) | (x << 30)) ^ ((x >> 13) | (x << 19)) ^ ((x >> 22) | (x << 10))
  }

  function Sigma1(x: word): (r: word)
    ensures r == BigSigma1(x)
  {
    ((x >> 6) | (x << 26)) ^ ((x >> 11) | (x << 21)) ^ ((x >> 25) | (x << 7))
  }

  function Gamma0(x: word): (r: word)
    ensures r == SmallSigma0(x)
  {
    ((x >> 7) | (x << 25)) ^ ((x >> 18) | (x << 14)) ^ (x >> 3)
  }

  function Gamma1(x: word): (r: word)
    ensures r == SmallSigma1(x)
  {
    ((x >> 17) | (x << 15)) ^ ((x >> 19) | (x << 13)) ^ (x >> 10)
  }

  /** The first half of RND: its two temporaries. */
  method Temporaries(S: array<word>, k: word, w: word) returns (t0: word, t1: word)
    requires S.Length == 8
    ensures t0 == T1(ToWorking(S[..]), k, w) && t1 == T2(ToWorking(S[..]))
  {
    hide Add, BigSigma0, BigSigma1, Ch, Maj, Sigma0, Sigma1, ChSelect, MajVote;
    t0 := Add(Add(Add(Add(S[7], Sigma1(S[4])), ChSelect(S[4], S[5], S[6])), k), w);
    t1 := Add(Sigma0(S[0]), MajVote(S[0], S[1], S[2]));
  }

  /** The shift that follows RND: every word moves one place on, the last one to the front. */
  method Shift(S: array<word>)
    requires S.Length == 8
    modifies S
    ensures S[..] == old([S[7], S[0], S[1], S[2], S[3], S[4], S[5], S[6]])
  {
    var t := S[7];
    S[7] := S[6];
    S[6] := S[5];
    S[5] := S[4];
    S[4] := S[3];
    S[3] := S[2];
    S[2] := S[1];
    S[1] := S[0];
    S[0] := t;
  }

  /** RND and the shift: one round of section 6.2.2 step 3. */
  method OneRound(S: array<word>, k: word, w: word)
    requires S.Length == 8
    modifies S
    ensures ToWorking(S[..]) == Round(ToWorking(old(S[..])), k, w)
  {
    hide Add, T1, T2;
    var t0, t1 := Temporaries(S, k, w);
    S[3] := Add(S[3], t0);
    S[7] := Add(t0, t1);
    Shift(S);
  }

  lemma SliceOfSlice(s: seq<byte>, a: nat, b: nat, c: nat, d: nat)
    requires a <= b <= |s| && c <= d <= b - a
    ensures s[a..b][c..d] == s[a + c..a + d]
  {
    forall k | 0 <= k < d - c
      ensures s[a..b][c..d][k] == s[a + c..a + d][k]
    {
      assert s[a..b][c + k] == s[a + c + k];
    }
  }

  lemma ScheduleStep(w: seq<word>)
    requires 16 <= |w| < 64
    ensures Schedule(w) == Schedule(w + [NextWord(w)])
  {
    hide NextWord;
  }

  /** The message schedule W of the block at src[at..at + 64]. */
  method LoadSchedule(src: array<byte>, at: nat) returns (W: array<word>)
    requires at + 64 <= src.Length
    ensures fresh(W) && W[..] == Schedule(BlockWords(src[at..at + 64]))
  {
    hide Add, SmallSigma0, SmallSigma1, Gamma0, Gamma1, WordOf;
    ghost var block := src[at..at + 64];
    W := new word[64];
    for i := 0 to 16
      invariant W[..i] == BlockWords(block)[..i]
    {
      SliceOfSlice(src[..], at, at + 64, 4 * i, 4 * i + 4);
      W[i] := GetBe32(src, at + 4 * i);
    }
    assert W[..16] == BlockWords(block);
    for i := 16 to 64
      invariant Schedule(W[..i]) == Schedule(BlockWords(block))
    {
      ghost var before := W[..i];
      assert W[i - 2] == before[i - 2] && W[i - 7] == before[i - 7];
      assert W[i - 15] == before[i - 15] && W[i - 16] == before[i - 16];
      W[i] := Add(Add(Add(Gamma1(W[i - 2]), W[i - 7]), Gamma0(W[i - 15])), W[i - 16]);
      assert W[i] == NextWord(before);
      assert W[..i] == before;
      assert W[..i + 1] == W[..i] + [W[i]];
      ScheduleStep(before);
    }
    assert W[..64] == W[..];
  }

  /** WPA_GET_BE32. */
  method GetBe32(a: array<byte>, at: nat) returns (w: word)
    requires at + 4 <= a.Length
    ensures w == WordOf(a[at..at + 4])
  {
    w := (a[at] as word << 24) | (a[at + 1] as word << 16) | (a[at + 2] as word << 8) | a[at + 3] as word;
  }

  /** WPA_PUT_BE64. */
  method PutBe64(a: array<byte>, at: nat, val: nat)
    requires at + 8 <= a.Length && val < TWO_64
    modifies a
    ensures a[..] == old(a[..at]) + Be64(val) + old(a[at + 8..])
  {
    hide Octet;
    a[at] := Octet(val / 0x100_0000_0000_0000);
    a[at + 1] := Octet(val / 0x1_0000_0000_0000);
    a[at + 2] := Octet(val / 0x100_0000_0000);
    a[at + 3] := Octet(val / 0x1_0000_0000);
    a[at + 4] := Octet(val / 0x100_0000);
    a[at + 5] := Octet(val / 0x1_0000);
    a[at + 6] := Octet(val / 0x100);
    a[at + 7] := Octet(val);
  }

  /** WPA_PUT_BE32. */
  method PutBe32(a: array<byte>, at: nat, val: word)
    requires at + 4 <= a.Length
    modifies a
    ensures a[..] == old(a[..at]) + BytesOf(val) + old(a[at + 4..])
  {
    a[at] := (val >> 24) as byte;
    a[at + 1] := ((val >> 16) & 0xff) as byte;
    a[at + 2] := ((val >> 8) & 0xff) as byte;
    a[at + 3] := (val & 0xff) as byte;
  }

  /** The 64 rounds over a loaded schedule. */
  method AllRounds(S: array<word>, W: array<word>)
    requires S.Length == 8 && W.Length == 64 && S != W
    modifies S
    ensures ToWorking(S[..]) == Rounds(ToWorking(old(S[..])), K, W[..])
  {
    hide Round, ToWorking;
    ghost var v, w := ToWorking(S[..]), W[..];
    for i := 0 to 64
      invariant Rounds(ToWorking(S[..]), K[i..], w[i..]) == Rounds(v, K, w)
      invariant W[..] == w
    {
      OneRound(S, K[i], W[i]);
      assert K[i..][1..] == K[i + 1..] && w[i..][1..] == w[i + 1..];
    }
  }

  /** What the fields of a hash object say about the bytes m it has been given. */
  ghost predicate Represents(length: nat, h: HashValue, tail: seq<byte>, m: seq<byte>) {
    && |tail| == |m| % 64
    && m[|m| - |tail|..] == tail
    && h == HashBlocks(IV, m[..|m| - |tail|])
    && length == Wrap(8 * (|m| - |tail|))
  }

  lemma RepresentsNothing()
    ensures Represents(0, IV, [], [])
  {
    hide Compress;
  }

  lemma AppendBlock(h: HashValue, data: seq<byte>, b: Block)
    requires |data| % 64 == 0
    ensures HashBlocks(h, data + b) == Compress(HashBlocks(h, data), b)
  {
    hide Compress;
    assert (data + b)[..|data + b| - 64] == data && (data + b)[|data|..] == b;
  }

  lemma RepresentsBlock(length: nat, h: HashValue, tail: seq<byte>, m: seq<byte>, more: seq<byte>)
    requires Represents(length, h, tail, m) && |tail + more| == 64
    ensures Represents(Wrap(length + 512), Compress(h, tail + more), [], m + more)
  {
    hide Compress, Words, HashBlocks, Wrap;
    var whole := m[..|m| - |tail|];
    WrapAdd(8 * |whole|, 512);
    assert m + more == whole + (tail + more);
    AppendBlock(IV, whole, tail + more);
    assert (m + more)[..|m + more|] == m + more && (m + more)[|m + more|..] == [];
  }

  lemma RepresentsTail(length: nat, h: HashValue, tail: seq<byte>, m: seq<byte>, more: seq<byte>)
    requires Represents(length, h, tail, m) && |tail + more| < 64
    ensures Represents(length, h, tail + more, m + more)
  {
    hide HashBlocks, Words, Wrap;
    var whole := m[..|m| - |tail|];
    assert m + more == whole + (tail + more);
    assert |m + more| - |tail + more| == |whole|;
    assert (m + more)[..|whole|] == whole;
    assert (m + more)[|whole|..] == tail + more;
  }

  /** The block or blocks that padding adds behind the whole blocks of the message. */
  function LastBlocks(tail: seq<byte>, bits: nat): (b: seq<byte>)
    requires |tail| < 64
    ensures |b| == if |tail| < 56 then 64 else 128
  {
    tail + [0x80] + Zeros(if |tail| < 56 then 55 - |tail| else 119 - |tail|) + Be64(bits)
  }

  lemma PadIsLastBlocks(whole: seq<byte>, tail: seq<byte>)
    requires |whole| % 64 == 0 && |tail| < 64
    ensures Pad(whole + tail) == whole + LastBlocks(tail, 8 * |whole + tail|)
  {
    hide Be64;
    var z := ZeroCount(|whole + tail|);
    assert z == if |tail| < 56 then 55 - |tail| else 119 - |tail|;
    var rest := [0x80] + Zeros(z) + Be64(8 * |whole + tail|);
    assert LastBlocks(tail, 8 * |whole + tail|) == tail + rest;
    assert Pad(whole + tail) == whole + tail + rest;
  }

  lemma LastBlocksOfLow64(tail: seq<byte>, bits: nat)
    requires |tail| < 64
    ensures LastBlocks(tail, bits) == LastBlocks(tail, Wrap(bits))
  {
    hide Be64, Zeros, Wrap;
    Be64OfLow64(bits);
  }

  lemma PaddedTail(length: nat, h: HashValue, tail: seq<byte>, m: seq<byte>)
    requires Represents(length, h, tail, m) && |tail| < 64
    ensures |tail| <= |m|
    ensures var whole := m[..|m| - |tail|];
            var last := LastBlocks(tail, Wrap(length + 8 * |tail|));
            |whole| % 64 == 0 && h == HashBlocks(IV, whole) && Pad(m) == whole + last
  {
    hide HashBlocks, Words, LastBlocks, Pad, Wrap;
    var whole := m[..|m| - |tail|];
    WrapAdd(8 * |whole|, 8 * |tail|);
    assert m == whole + tail;
    PadIsLastBlocks(whole, tail);
    LastBlocksOfLow64(tail, 8 * |m|);
  }

  lemma LongTail(tail: seq<byte>, bits: nat)
    requires 56 <= |tail| < 64
    ensures LastBlocks(tail, bits) == (tail + [0x80] + Zeros(63 - |tail|)) + (Zeros(56) + Be64(bits))
  {
    hide Be64;
    assert Zeros(119 - |tail|) == Zeros(63 - |tail|) + Zeros(56);
  }

  /** Padding when the tail leaves no room for the length: two more blocks. */
  lemma PadLong(length: nat, h: HashValue, tail: seq<byte>, m: seq<byte>)
    requires Represents(length, h, tail, m) && 56 <= |tail| < 64
    ensures var h1 := Compress(h, tail + [0x80] + Zeros(63 - |tail|));
            HashBlocks(IV, Pad(m)) == Compress(h1, Zeros(56) + Be64(Wrap(length + 8 * |tail|)))
  {
    hide Compress, Words, Be64, Pad, Represents, HashBlocks, LastBlocks, Zeros, Wrap;
    PaddedTail(length, h, tail, m);
    var whole, bits := m[..|m| - |tail|], Wrap(length + 8 * |tail|);
    var b1, b2 := tail + [0x80] + Zeros(63 - |tail|), Zeros(56) + Be64(bits);
    LongTail(tail, bits);
    AppendBlock(IV, whole, b1);
    AppendBlock(IV, whole + b1, b2);
    assert whole + (b1 + b2) == whole + b1 + b2;
  }

  /** Padding when the length still fits behind the tail: one more block. */
  lemma PadShort(length: nat, h: HashValue, tail: seq<byte>, m: seq<byte>)
    requires Represents(length, h, tail, m) && |tail| < 56
    ensures HashBlocks(IV, Pad(m)) ==
            Compress(h, tail + [0x80] + Zeros(55 - |tail|) + Be64(Wrap(length + 8 * |tail|)))
  {
    hide Compress, Words, Be64, Pad, Represents, HashBlocks, Zeros, Wrap;
    PaddedTail(length, h, tail, m);
    AppendBlock(IV, m[..|m| - |tail|], LastBlocks(tail, Wrap(length + 8 * |tail|)));
  }

  class State {
    var length: nat         // bits compressed so far, modulo 2^64
    const state: array<word>
    var curlen: nat
    const buf: array<byte>
    ghost var absorbed: seq<byte>

    ghost predicate Shape() {
      state.Length == 8 && buf.Length == 64
    }

    ghost predicate Valid()
      reads this, state, buf
    {
      Shape() && curlen < 64 && Represents(length, state[..], buf[..curlen], absorbed)
    }

    /** sha256_init. */
    constructor ()
      ensures Valid() && absorbed == [] && fresh(state) && fresh(buf)
    {
      state := new word[8](i requires 0 <= i < 8 => IV[i]);
      buf := new byte[64];
      curlen, length := 0, 0;
      absorbed := [];
      new;
      hide Represents, Words;
      assert state[..] == IV && buf[..0] == [];
      RepresentsNothing();
    }

    /** sha256_compress, on the 64 bytes at src + at. */
    method CompressBlock(src: array<byte>, at: nat)
      requires Shape() && at + 64 <= src.Length
      modifies state
      ensures state[..] == Compress(old(state[..]), src[at..at + 64])
    {
      hide AddWorking, Rounds, ToWorking, Schedule, BlockWords;
      var S := new word[8](i requires 0 <= i < 8 reads state => state[i]);
      assert S[..] == state[..];
      var W := LoadSchedule(src, at);
      AllRounds(S, W);
      Feedback(S);
    }

    /** The last loop of sha256_compress. */
    method Feedback(S: array<word>)
      requires Shape() && S.Length == 8 && S != state
      modifies state
      ensures state[..] == AddWorking(old(state[..]), ToWorking(S[..]))
    {
      hide Add;
      ghost var h := state[..];
      for i := 0 to 8
        invariant state[i..] == h[i..]
        invariant forall j :: 0 <= j < i ==> state[j] == Add(h[j], S[j])
      {
        state[i] := Add(state[i], S[i]);
      }
    }

    /** sha256_process, on the first inlen bytes of input. */
    method Process(input: array<byte>, inlen: nat) returns (rc: int)
      requires Shape() && (curlen < 64 ==> Valid())
      requires inlen <= input.Length && input != buf
      modifies this, state, buf
      ensures old(curlen) >= 64 ==> rc == -1 && unchanged(this, state, buf)
      ensures old(curlen) < 64 ==> rc == 0 && Valid() && absorbed == old(absorbed) + input[..inlen]
    {
      hide Represents;
      if curlen >= 64 {
        return -1;
      }
      ghost var start := absorbed;
      var pos, left := 0, inlen;
      while left > 0
        invariant Valid() && pos + left == inlen
        invariant absorbed == start + input[..pos]
      {
        if curlen == 0 && left >= 64 {
          TakeBlock(input, pos);
          pos, left := pos + 64, left - 64;
        } else {
          var n := Fill(input, pos, left);
          pos, left := pos + n, left - n;
        }
      }
      return 0;
    }

    /** The fast path: a whole block straight from the input. */
    method TakeBlock(input: array<byte>, pos: nat)
      requires Valid() && curlen == 0 && pos + 64 <= input.Length && input != buf
      modifies this, state
      ensures Valid() && absorbed == old(absorbed) + input[pos..pos + 64]
    {
      hide Compress, Represents, Wrap;
      ghost var more := input[pos..pos + 64];
      assert buf[..0] + more == more;
      RepresentsBlock(length, state[..], [], absorbed, more);
      CompressBlock(input, pos);
      length := Wrap(length + 64 * 8);
      absorbed := absorbed + more;
    }

    /** The slow path: as much input as the buffer still takes. */
    method Fill(input: array<byte>, pos: nat, left: nat) returns (n: nat)
      requires Valid() && pos + left <= input.Length && input != buf && left > 0
      modifies this, state, buf
      ensures 0 < n <= left
      ensures Valid() && absorbed == old(absorbed) + input[pos..pos + n]
    {
      hide Compress, Represents, Wrap;
      n := if left < 64 - curlen then left else 64 - curlen;
      ghost var tail, more := buf[..curlen], input[pos..pos + n];
      Copy(buf, curlen, input, pos, n);
      curlen := curlen + n;
      assert buf[..curlen] == tail + more;
      if curlen == 64 {
        RepresentsBlock(length, state[..], tail, absorbed, more);
        assert buf[0..64] == buf[..64];
        CompressBlock(buf, 0);
        length := Wrap(length + 8 * 64);
        curlen := 0;
        assert buf[..0] == [];
      } else {
        RepresentsTail(length, state[..], tail, absorbed, more);
      }
      absorbed := absorbed + more;
    }

    /** A padding loop of sha256_done. */
    method ZeroFill(upTo: nat)
      requires Shape() && curlen <= upTo <= 64
      modifies this`curlen, buf
      ensures curlen == upTo
      ensures buf[..upTo] == old(buf[..curlen]) + Zeros(upTo - old(curlen))
    {
      ghost var start := curlen;
      while curlen < upTo
        invariant start <= curlen <= upTo
        invariant buf[..curlen] == old(buf[..curlen]) + Zeros(curlen - start)
      {
        buf[curlen] := 0;
        curlen := curlen + 1;
      }
    }

    /** The final loop of sha256_done. */
    method PutState(out: array<byte>)
      requires Shape() && out.Length >= 32
      modifies out
      ensures out[..] == AllBytes(state[..]) + old(out[32..])
    {
      hide BytesOf;
      for i := 0 to 8
        invariant out[..4 * i] == AllBytes(state[..i])
        invariant out[4 * i..] == old(out[4 * i..])
      {
        ghost var before := out[..4 * i];
        PutBe32(out, 4 * i, state[i]);
        assert state[..i + 1][..i] == state[..i];
        assert out[..4 * (i + 1)] == before + BytesOf(state[i]);
      }
      assert state[..8] == state[..];
    }

    /** The padding part of sha256_done. */
    method Finish()
      requires Valid()
      modifies this, state, buf
      ensures state[..] == HashBlocks(IV, Pad(old(absorbed)))
    {
      hide Compress, Represents, Pad, HashBlocks, Words, Zeros, Be64, Wrap;
      ghost var len0, h, tail := length, state[..], buf[..curlen];
      length := Wrap(length + curlen * 8);
      buf[curlen] := 0x80;
      curlen := curlen + 1;
      assert buf[..curlen] == tail + [0x80];
      if curlen > 56 {
        ZeroFill(64);
        PadLong(len0, h, tail, absorbed);
        assert buf[0..64] == buf[..64];
        CompressBlock(buf, 0);
        curlen := 0;
      } else {
        PadShort(len0, h, tail, absorbed);
      }
      ghost var start := buf[..curlen];
      assert start == [] ==> start + Zeros(56) == Zeros(56);
      ZeroFill(56);
      PutLength(start + Zeros(56 - |start|));
      CompressBlock(buf, 0);
    }

    /** The length field of the last block. */
    method PutLength(ghost front: seq<byte>)
      requires Shape() && buf[..56] == front && length < TWO_64
      modifies buf
      ensures buf[0..64] == front + Be64(length)
    {
      hide Be64;
      PutBe64(buf, 56, length);
    }

    /** sha256_done. */
    method Done(out: array<byte>) returns (rc: int)
      requires Shape() && (curlen < 64 ==> Valid())
      requires out.Length >= 32 && out != buf
      modifies this, state, buf, out
      ensures old(curlen) >= 64 ==> rc == -1 && unchanged(this, state, buf, out)
      ensures old(curlen) < 64 ==> rc == 0 && out[..] == Digest(old(absorbed)) + old(out[32..])
    {
      hide Represents, Pad, AllBytes, HashBlocks;
      if curlen >= 64 {
        return -1;
      }
      Finish();
      PutState(out);
      return 0;
    }
  }

  /** memcpy. */
  method Copy(dst: array<byte>, at: nat, src: array<byte>, from: nat, n: nat)
    requires dst != src && at + n <= dst.Length && from + n <= src.Length
    modifies dst
    ensures dst[..] == old(dst[..at]) + src[from..from + n] + old(dst[at + n..])
  {
    forall i | 0 <= i < n {
      dst[at + i] := src[from + i];
    }
  }
}
