/** Working SHA-256 out for a given block, from a trace of its words and states that can be checked in pieces. */
module Sha256Trace {
  import opened Sha256Spec
  import opened Sha256Constants

  // The round constants as words, in rows of eight.

  const K0: seq<word> :=
    [0x428a2f98, 0x71374491, 0xb5c0fbcf, 0xe9b5dba5, 0x3956c25b, 0x59f111f1, 0x923f82a4, 0xab1c5ed5]
  const K1: seq<word> :=
    [0xd807aa98, 0x12835b01, 0x243185be, 0x550c7dc3, 0x72be5d74, 0x80deb1fe, 0x9bdc06a7, 0xc19bf174]
  const K2: seq<word> :=
    [0xe49b69c1, 0xefbe4786, 0x0fc19dc6, 0x240ca1cc, 0x2de92c6f, 0x4a7484aa, 0x5cb0a9dc, 0x76f988da]
  const K3: seq<word> :=
    [0x983e5152, 0xa831c66d, 0xb00327c8, 0xbf597fc7, 0xc6e00bf3, 0xd5a79147, 0x06ca6351, 0x14292967]
  const K4: seq<word> :=
    [0x27b70a85, 0x2e1b2138, 0x4d2c6dfc, 0x53380d13, 0x650a7354, 0x766a0abb, 0x81c2c92e, 0x92722c85]
  const K5: seq<word> :=
    [0xa2bfe8a1, 0xa81a664b, 0xc24b8b70, 0xc76c51a3, 0xd192e819, 0xd6990624, 0xf40e3585, 0x106aa070]
  const K6: seq<word> :=
    [0x19a4c116, 0x1e376c08, 0x2748774c, 0x34b0bcb5, 0x391c0cb3, 0x4ed8aa4a, 0x5b9cca4f, 0x682e6ff3]
  const K7: seq<word> :=
    [0x748f82ee, 0x78a5636f, 0x84c87814, 0x8cc70208, 0x90befffa, 0xa4506ceb, 0xbef9a3f7, 0xc67178f2]

  function KRow(i: nat): seq<word>
    requires i < 8
    ensures |KRow(i)| == 8
  {
    if i == 0 then K0 else if i == 1 then K1 else if i == 2 then K2 else if i == 3 then K3
    else if i == 4 then K4 else if i == 5 then K5 else if i == 6 then K6 else K7
  }

  lemma WordOfValue(w: word)
    ensures w as int as word == w
  {}

  lemma WordsByValue(table: seq<word32>, w: seq<word>)
    requires |w| == |table| && forall i :: 0 <= i < |w| ==> w[i] as int == table[i]
    ensures Words(table) == w
  {
    forall i | 0 <= i < |w|
      ensures Words(table)[i] == w[i]
    {
      WordOfValue(w[i]);
    }
  }

  lemma Row0IsK()
    ensures Words(ROW0) == K0
  {
    WordsByValue(ROW0, K0);
  }

  lemma Row1IsK()
    ensures Words(ROW1) == K1
  {
    WordsByValue(ROW1, K1);
  }

  lemma Row2IsK()
    ensures Words(ROW2) == K2
  {
    WordsByValue(ROW2, K2);
  }

  lemma Row3IsK()
    ensures Words(ROW3) == K3
  {
    WordsByValue(ROW3, K3);
  }

  lemma Row4IsK()
    ensures Words(ROW4) == K4
  {
    WordsByValue(ROW4, K4);
  }

  lemma Row5IsK()
    ensures Words(ROW5) == K5
  {
    WordsByValue(ROW5, K5);
  }

  lemma Row6IsK()
    ensures Words(ROW6) == K6
  {
    WordsByValue(ROW6, K6);
  }

  lemma Row7IsK()
    ensures Words(ROW7) == K7
  {
    WordsByValue(ROW7, K7);
  }

  lemma RowLengths()
    ensures |ROW0| == |ROW1| == |ROW2| == |ROW3| == |ROW4| == |ROW5| == |ROW6| == |ROW7| == 8
  {}

  function TableRow(i: nat): seq<word32>
    requires i < 8
  {
    if i == 0 then ROW0 else if i == 1 then ROW1 else if i == 2 then ROW2 else if i == 3 then ROW3
    else if i == 4 then ROW4 else if i == 5 then ROW5 else if i == 6 then ROW6 else ROW7
  }

  lemma TableSlice(a: seq<word32>, b: seq<word32>, c: seq<word32>, d: seq<word32>,
                   e: seq<word32>, f: seq<word32>, g: seq<word32>, h: seq<word32>)
    requires |a| == |b| == |c| == |d| == |e| == |f| == |g| == |h| == 8
    ensures var t := a + b + c + d + e + f + g + h;
            && t[0..8] == a && t[8..16] == b && t[16..24] == c && t[24..32] == d
            && t[32..40] == e && t[40..48] == f && t[48..56] == g && t[56..64] == h
  {}

  lemma WordsSlice(table: seq<word32>, p: nat, q: nat)
    requires p <= q <= |table|
    ensures Words(table)[p..q] == Words(table[p..q])
  {}

  lemma ConstantsInRows(i: nat)
    requires i < 8
    ensures |TableRow(i)| == 8 && |K| == 64 && K[8 * i..8 * i + 8] == Words(TableRow(i))
  {
    RowLengths();
    hide ROW0, ROW1, ROW2, ROW3, ROW4, ROW5, ROW6, ROW7, Words;
    TableSlice(ROW0, ROW1, ROW2, ROW3, ROW4, ROW5, ROW6, ROW7);
    WordsSlice(ROUND_CONSTANTS, 8 * i, 8 * i + 8);
  }

  /** The rows are the round constants. */
  lemma {:induction false} RowsAreK(i: nat)
    requires i < 8
    ensures K[8 * i..8 * i + 8] == KRow(i)
  {
    hide K0, K1, K2, K3, K4, K5, K6, K7, Words;
    Row0IsK();
    Row1IsK();
    Row2IsK();
    Row3IsK();
    Row4IsK();
    Row5IsK();
    Row6IsK();
    Row7IsK();
    ConstantsInRows(i);
  }

  /** The eight words c are the next ones of the message schedule behind the sixteen of a and b. */
  predicate Follows(a: seq<word>, b: seq<word>, c: seq<word>)
    requires |a| == |b| == |c| == 8
  {
    && c[0] == Add(Add(Add(SmallSigma1(b[6]), b[1]), SmallSigma0(a[1])), a[0])
    && c[1] == Add(Add(Add(SmallSigma1(b[7]), b[2]), SmallSigma0(a[2])), a[1])
    && c[2] == Add(Add(Add(SmallSigma1(c[0]), b[3]), SmallSigma0(a[3])), a[2])
    && c[3] == Add(Add(Add(SmallSigma1(c[1]), b[4]), SmallSigma0(a[4])), a[3])
    && c[4] == Add(Add(Add(SmallSigma1(c[2]), b[5]), SmallSigma0(a[5])), a[4])
    && c[5] == Add(Add(Add(SmallSigma1(c[3]), b[6]), SmallSigma0(a[6])), a[5])
    && c[6] == Add(Add(Add(SmallSigma1(c[4]), b[7]), SmallSigma0(a[7])), a[6])
    && c[7] == Add(Add(Add(SmallSigma1(c[5]), c[0]), SmallSigma0(b[0])), a[7])
  }

  /** Eight rows of eight schedule words, and the states before, between and behind them. */
  datatype Trace = Trace(w0: seq<word>, w1: seq<word>, w2: seq<word>, w3: seq<word>,
                         w4: seq<word>, w5: seq<word>, w6: seq<word>, w7: seq<word>,
                         v0: Working, v1: Working, v2: Working, v3: Working, v4: Working,
                         v5: Working, v6: Working, v7: Working, v8: Working)
  {
    predicate Shaped() {
      |w0| == |w1| == |w2| == |w3| == |w4| == |w5| == |w6| == |w7| == 8
    }

    function Row(i: nat): (w: seq<word>)
      requires Shaped() && i < 8
      ensures |w| == 8
    {
      if i == 0 then w0 else if i == 1 then w1 else if i == 2 then w2 else if i == 3 then w3
      else if i == 4 then w4 else if i == 5 then w5 else if i == 6 then w6 else w7
    }

    function State(i: nat): Working
      requires i <= 8
    {
      if i == 0 then v0 else if i == 1 then v1 else if i == 2 then v2 else if i == 3 then v3 else if i == 4 then v4
      else if i == 5 then v5 else if i == 6 then v6 else if i == 7 then v7 else v8
    }

    ghost predicate Holds() {
      && Shaped()
      && Follows(w0, w1, w2) && Follows(w1, w2, w3) && Follows(w2, w3, w4)
      && Follows(w3, w4, w5) && Follows(w4, w5, w6) && Follows(w5, w6, w7)
      && Rounds(v0, K0, w0) == v1 && Rounds(v1, K1, w1) == v2 && Rounds(v2, K2, w2) == v3
      && Rounds(v3, K3, w3) == v4 && Rounds(v4, K4, w4) == v5 && Rounds(v5, K5, w5) == v6
      && Rounds(v6, K6, w6) == v7 && Rounds(v7, K7, w7) == v8
    }

    /** Eight rounds lead from each state to the next. */
    ghost predicate Chained()
      requires Shaped()
    {
      forall i :: 0 <= i < 8 ==> Rounds(State(i), KRow(i), Row(i)) == State(i + 1)
    }

    function Flat(): (w: seq<word>)
      requires Shaped()
      ensures |w| == 64
    {
      seq(64, t requires 0 <= t < 64 => Row(t / 8)[t % 8])
    }
  }

  // ---- What a trace shows ----

  lemma RowFollows(tr: Trace, i: nat)
    requires tr.Shaped() && tr.Holds() && i < 6
    ensures Follows(tr.Row(i), tr.Row(i + 1), tr.Row(i + 2))
  {
    hide Follows, Rounds;
  }

  lemma StateFollows(tr: Trace, i: nat)
    requires tr.Shaped() && tr.Holds() && i < 8
    ensures Rounds(tr.State(i), KRow(i), tr.Row(i)) == tr.State(i + 1)
  {
    hide Follows, Rounds, K0, K1, K2, K3, K4, K5, K6, K7;
  }

  lemma {:induction false} RoundsAppend(v: Working, k: seq<word>, w: seq<word>, k': seq<word>, w': seq<word>)
    requires |k| == |w| && |k'| == |w'|
    ensures Rounds(v, k + k', w + w') == Rounds(Rounds(v, k, w), k', w')
    decreases |k|
  {
    hide Round;
    if k == [] {
      assert k + k' == k' && w + w' == w';
    } else {
      assert (k + k')[1..] == k[1..] + k' && (w + w')[1..] == w[1..] + w';
      RoundsAppend(Round(v, k[0], w[0]), k[1..], w[1..], k', w');
    }
  }

  lemma KLength()
    ensures |K| == 64
  {
    RowLengths();
    hide ROW0, ROW1, ROW2, ROW3, ROW4, ROW5, ROW6, ROW7;
  }

  lemma StatesChained(tr: Trace)
    requires tr.Shaped() && tr.Holds()
    ensures tr.Chained()
  {
    hide Rounds, KRow, Trace.Row, Trace.State, Trace.Holds;
    forall i | 0 <= i < 8
      ensures Rounds(tr.State(i), KRow(i), tr.Row(i)) == tr.State(i + 1)
    {
      StateFollows(tr, i);
    }
  }

  /** From the i-th state on, the remaining rounds lead to the last one. */
  lemma {:induction false} StatesAreRounds(tr: Trace, i: nat)
    requires tr.Shaped() && tr.Chained() && i <= 8
    ensures |K| == 64 && Rounds(tr.State(i), K[8 * i..], tr.Flat()[8 * i..]) == tr.v8
    decreases 8 - i
  {
    KLength();
    LastState(tr);
    hide Rounds, KRow, Words, K, Trace.Row, Trace.State;
    var w := tr.Flat();
    if i == 8 {
      NoRounds(tr.v8, K[64..], w[64..]);
    } else {
      RowsAreK(i);
      RowAt(tr, i);
      assert K[8 * i..] == K[8 * i..8 * i + 8] + K[8 * (i + 1)..];
      assert w[8 * i..] == w[8 * i..8 * i + 8] + w[8 * (i + 1)..];
      RoundsAppend(tr.State(i), KRow(i), tr.Row(i), K[8 * (i + 1)..], w[8 * (i + 1)..]);
      StatesAreRounds(tr, i + 1);
    }
  }

  lemma LastState(tr: Trace)
    ensures tr.State(8) == tr.v8 && tr.State(0) == tr.v0
  {}

  lemma NoRounds(v: Working, k: seq<word>, w: seq<word>)
    requires k == [] && w == []
    ensures Rounds(v, k, w) == v
  {}

  lemma FollowsAt(a: seq<word>, b: seq<word>, c: seq<word>, j: nat)
    requires |a| == |b| == |c| == 8 && j < 8 && Follows(a, b, c)
    ensures var w := a + b + c;
            w[16 + j] == Add(Add(Add(SmallSigma1(w[14 + j]), w[9 + j]), SmallSigma0(w[1 + j])), w[j])
  {
    hide Add, SmallSigma0, SmallSigma1;
  }

  lemma RowAt(tr: Trace, i: nat)
    requires tr.Shaped() && i < 8
    ensures tr.Flat()[8 * i..8 * i + 8] == tr.Row(i)
  {}

  lemma ThreeRows(tr: Trace, i: nat)
    requires tr.Shaped() && i < 6
    ensures tr.Flat()[8 * i..8 * i + 24] == tr.Row(i) + tr.Row(i + 1) + tr.Row(i + 2)
  {
    hide Trace.Flat, Trace.Row;
    RowAt(tr, i);
    RowAt(tr, i + 1);
    RowAt(tr, i + 2);
    JoinedSlices(tr.Flat(), 8 * i, tr.Row(i), tr.Row(i + 1), tr.Row(i + 2));
  }

  lemma JoinedSlices(w: seq<word>, p: nat, a: seq<word>, b: seq<word>, c: seq<word>)
    requires p + 24 <= |w| && w[p..p + 8] == a && w[p + 8..p + 16] == b && w[p + 16..p + 24] == c
    ensures w[p..p + 24] == a + b + c
  {}

  /** The recurrence of section 6.2.2, step 1, at one place. */
  predicate RecursAt(w: seq<word>, t: nat)
    requires 16 <= t < |w|
  {
    w[t] == Add(Add(Add(SmallSigma1(w[t - 2]), w[t - 7]), SmallSigma0(w[t - 15])), w[t - 16])
  }

  lemma WordFollows(tr: Trace, t: nat)
    requires tr.Shaped() && tr.Holds() && 16 <= t < 64
    ensures RecursAt(tr.Flat(), t)
  {
    hide Add, SmallSigma0, SmallSigma1, Follows, Trace.Flat, Trace.Row, Trace.Holds;
    var i, j := t / 8 - 2, t % 8;
    var w := tr.Flat();
    RowFollows(tr, i);
    FollowsAt(tr.Row(i), tr.Row(i + 1), tr.Row(i + 2), j);
    ThreeRows(tr, i);
    var rows := w[8 * i..8 * i + 24];
    assert t == 8 * i + 16 + j && rows[16 + j] == w[t] && rows[14 + j] == w[t - 2] && rows[9 + j] == w[t - 7]
           && rows[1 + j] == w[t - 15] && rows[j] == w[t - 16];
  }

  /** Words that obey the recurrence are the message schedule of their first sixteen. */
  lemma {:induction false} WordsAreSchedule(w: seq<word>, t: nat)
    requires |w| == 64 && 16 <= t <= 64 && forall k :: 16 <= k < 64 ==> RecursAt(w, k)
    ensures Schedule(w[..t]) == w
    decreases 64 - t
  {
    hide Add, SmallSigma0, SmallSigma1;
    if t == 64 {
      assert w[..64] == w;
    } else {
      assert RecursAt(w, t);
      assert w[..t] + [w[t]] == w[..t + 1];
      WordsAreSchedule(w, t + 1);
    }
  }

  /** A trace that starts with the words of a block and a hash value ends with what compressing it gives. */
  lemma Compressed(tr: Trace, h: HashValue, b: Block)
    requires tr.Shaped() && tr.Holds() && BlockWords(b) == tr.w0 + tr.w1 && ToWorking(h) == tr.v0
    ensures Compress(h, b) == AddWorking(h, tr.v8)
  {
    hide Trace.Holds, Rounds, Words, AddWorking, Schedule, BlockWords, RecursAt, Trace.Chained;
    forall k | 16 <= k < 64
      ensures RecursAt(tr.Flat(), k)
    {
      WordFollows(tr, k);
    }
    WordsAreSchedule(tr.Flat(), 16);
    StatesChained(tr);
    StatesAreRounds(tr, 0);
    LastState(tr);
    assert tr.Flat()[..16] == tr.w0 + tr.w1;
    assert K[0..] == K && tr.Flat()[0..] == tr.Flat();
  }
}
