/** The one block of the message "abc". */
module AbcTrace {
  import opened Sha256Spec
  import opened Sha256Trace

  const W0: seq<word> :=
    [0x61626380, 0x00000000, 0x00000000, 0x00000000, 0x00000000, 0x00000000, 0x00000000, 0x00000000]
  const W1: seq<word> :=
    [0x00000000, 0x00000000, 0x00000000, 0x00000000, 0x00000000, 0x00000000, 0x00000000, 0x00000018]
  const W2: seq<word> :=
    [0x61626380, 0x000f0000, 0x7da86405, 0x600003c6, 0x3e9d7b78, 0x0183fc00, 0x12dcbfdb, 0xe2e2c38e]
  const W3: seq<word> :=
    [0xc8215c1a, 0xb73679a2, 0xe5bc3909, 0x32663c5b, 0x9d209d67, 0xec8726cb, 0x702138a4, 0xd3b7973b]
  const W4: seq<word> :=
    [0x93f5997f, 0x3b68ba73, 0xaff4ffc1, 0xf10a5c62, 0x0a8b3996, 0x72af830a, 0x9409e33e, 0x24641522]
  const W5: seq<word> :=
    [0x9f47bf94, 0xf0a64f5a, 0x3e246a79, 0x27333ba3, 0x0c4763f2, 0x840abf27, 0x7a290d5d, 0x065c43da]
  const W6: seq<word> :=
    [0xfb3e89cb, 0xcc7617db, 0xb9e66c34, 0xa9993667, 0x84badedd, 0xc21462bc, 0x1487472c, 0xb20f7a99]
  const W7: seq<word> :=
    [0xef57b9cd, 0xebe6b238, 0x9fe3095e, 0x78bc8d4b, 0xa43fcf15, 0x668b2ff8, 0xeeaba2cc, 0x12b1edeb]

  const V0 := Working(0x6a09e667, 0xbb67ae85, 0x3c6ef372, 0xa54ff53a, 0x510e527f, 0x9b05688c, 0x1f83d9ab, 0x5be0cd19)
  const V1 := Working(0x85a07b5f, 0xe5030380, 0x2b4209f5, 0x04409a6a, 0x0c657a79, 0x9b27a401, 0x714260ad, 0x43ada245)
  const V2 := Working(0xb0fa238e, 0xc0645fde, 0xd932eb16, 0x87912990, 0x07590dcd, 0x0b92f20c, 0x745a48de, 0x1e578218)
  const V3 := Working(0xc5d53d8d, 0xa7a3623f, 0xc2606d6d, 0x9dc68b63, 0xaa47c347, 0x49f5114a, 0xe1257970, 0x8ada8930)
  const V4 := Working(0x73b33bf5, 0xea992a22, 0xa0060b30, 0x363482c9, 0xba591112, 0x0109ab3a, 0xade79437, 0x6112a3b7)
  const V5 := Working(0x79ea687a, 0x6dc57a8a, 0x34df1604, 0x41a65cb1, 0x1efbc0a0, 0xf0781bc8, 0xa507a53d, 0x0772a26b)
  const V6 := Working(0x4172328d, 0xa14c14b0, 0x72ab4b91, 0x26628815, 0xfecf0bc6, 0xd57b94a9, 0xb7755da1, 0xa80f11f0)
  const V7 := Working(0x38cc9913, 0x3ec45cdb, 0xf5702fdb, 0x101fd28f, 0x54cb266b, 0xe50e1b4f, 0x9f4787c3, 0x529e7d00)
  const V8 := Working(0x506e3058, 0xd39a2165, 0x04d24d6c, 0xb85e2ce9, 0x5ef50f24, 0xfb121210, 0x948d25b6, 0x961f4894)

  const TRACE := Trace(W0, W1, W2, W3, W4, W5, W6, W7, V0, V1, V2, V3, V4, V5, V6, V7, V8)

  lemma Words2()
    ensures Follows(W0, W1, W2)
  {}

  lemma Words3()
    ensures Follows(W1, W2, W3)
  {}

  lemma Words4()
    ensures Follows(W2, W3, W4)
  {}

  lemma Words5()
    ensures Follows(W3, W4, W5)
  {}

  lemma Words6()
    ensures Follows(W4, W5, W6)
  {}

  lemma Words7()
    ensures Follows(W5, W6, W7)
  {}

  lemma State1()
    ensures Rounds(V0, K0, W0) == V1
  {}

  lemma State2()
    ensures Rounds(V1, K1, W1) == V2
  {}

  lemma State3()
    ensures Rounds(V2, K2, W2) == V3
  {}

  lemma State4()
    ensures Rounds(V3, K3, W3) == V4
  {}

  lemma State5()
    ensures Rounds(V4, K4, W4) == V5
  {}

  lemma State6()
    ensures Rounds(V5, K5, W5) == V6
  {}

  lemma State7()
    ensures Rounds(V6, K6, W6) == V7
  {}

  lemma State8()
    ensures Rounds(V7, K7, W7) == V8
  {}

  lemma TraceHolds()
    ensures TRACE.Shaped() && TRACE.Holds()
  {
    Shape();
    hide Follows, Rounds, K0, K1, K2, K3, K4, K5, K6, K7;
    hide W0, W1, W2, W3, W4, W5, W6, W7, V0, V1, V2, V3, V4, V5, V6, V7, V8;
    Words2();
    Words3();
    Words4();
    Words5();
    Words6();
    Words7();
    State1();
    State2();
    State3();
    State4();
    State5();
    State6();
    State7();
    State8();
  }

  lemma Shape()
    ensures |W0| == |W1| == |W2| == |W3| == |W4| == |W5| == |W6| == |W7| == 8
  {}
}
