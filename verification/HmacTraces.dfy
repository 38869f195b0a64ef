/** The masked key before the text. */
module InnerKeyTrace {
  import opened Sha256Spec
  import opened Sha256Trace

  const W0: seq<word> :=
    [0x7c535053, 0x36363636, 0x36363636, 0x36363636, 0x36363636, 0x36363636, 0x36363636, 0x36363636]
  const W1: seq<word> :=
    [0x36363636, 0x36363636, 0x36363636, 0x36363636, 0x36363636, 0x36363636, 0x36363636, 0x36363636]
  const W2: seq<word> :=
    [0x7780fe00, 0x3163e3e3, 0xb47168a2, 0xe11539f8, 0xecfba47f, 0x8f8ebd79, 0xfa1ec89e, 0x1e0e70f6]
  const W3: seq<word> :=
    [0x0c23673e, 0xc8311559, 0xddee66a1, 0xb28ed337, 0xac9fc9a9, 0xcb4db29d, 0x59369281, 0xe32830f3]
  const W4: seq<word> :=
    [0x136f5555, 0x377ff55a, 0x4aa3e0f1, 0x9d19ff47, 0x926e254f, 0x39c2254f, 0x2731f000, 0x2bd17abc]
  const W5: seq<word> :=
    [0xf96d6a27, 0x6686c278, 0x616aea0c, 0xb308442a, 0x5d1a34ff, 0xca7159c9, 0xd99ebf95, 0xe1a34c15]
  const W6: seq<word> :=
    [0x51dbd4be, 0x7c986d13, 0x71d1a48e, 0x39a42882, 0x53c21066, 0x1d686bfc, 0x7682d688, 0xc08ab048]
  const W7: seq<word> :=
    [0xf41238c8, 0x94e252cd, 0x485d2762, 0xe20b3ab9, 0x8e7ad67d, 0xda8d1cc5, 0xb0eeaf96, 0x8739d375]

  const V0 := Working(0x6a09e667, 0xbb67ae85, 0x3c6ef372, 0xa54ff53a, 0x510e527f, 0x9b05688c, 0x1f83d9ab, 0x5be0cd19)
  const V1 := Working(0x16fcd1de, 0x58778f6a, 0x34561afc, 0x53632755, 0x1f67d48a, 0xa6e3644b, 0x24389410, 0xd7477e59)
  const V2 := Working(0xd8a297b3, 0x32f91b02, 0x0aae579f, 0x07f487ee, 0x40743133, 0x22d64e87, 0x4b6881fa, 0x426da4d5)
  const V3 := Working(0xad9d4643, 0x17e2b319, 0x062e40f6, 0xc5318371, 0x27cec047, 0x513641df, 0x7e976b52, 0x6414d5ba)
  const V4 := Working(0xeaa1ecb4, 0x078f5fb6, 0xf09b0708, 0xedf2ce47, 0xc6426440, 0x905c490a, 0x67e97303, 0xf09bbf76)
  const V5 := Working(0xa79b91d0, 0x3b14694f, 0x67625ada, 0x1d8a1947, 0xfb81d2f6, 0x8b47cae7, 0xa5cf1142, 0x52c2fa60)
  const V6 := Working(0x750ed7b4, 0x6531bcdc, 0xb803f3e1, 0x5cd1d6ed, 0xe2cdce6a, 0xa1815b66, 0xa7e30631, 0x13126373)
  const V7 := Working(0xc5a25619, 0x80be9491, 0x3ac20327, 0xfc2f1aae, 0x4677efca, 0xc5fadb1d, 0x25c84e04, 0xa2ecbc67)
  const V8 := Working(0xfb53c193, 0x10db9cb2, 0x1dade259, 0x6142f8d4, 0x536bd154, 0xb1358bbd, 0xbc1e4137, 0x1ce682f3)

  const TRACE := Trace(W0, W1, W2, W3, W4, W5, W6, W7, V0, V1, V2, V3, V4, V5, V6, V7, V8)

  lemma Words2()
    ensures Follows(W0, W1, W2)
  {}

  lemma Words3()
    ensures Follows(W1, W2, W3)
  {}

  lemma Words4()
    ensures Follows(W2, W3, W4)
  {}

  lemma Words5()
    ensures Follows(W3, W4, W5)
  {}

  lemma Words6()
    ensures Follows(W4, W5, W6)
  {}

  lemma Words7()
    ensures Follows(W5, W6, W7)
  {}

  lemma State1()
    ensures Rounds(V0, K0, W0) == V1
  {}

  lemma State2()
    ensures Rounds(V1, K1, W1) == V2
  {}

  lemma State3()
    ensures Rounds(V2, K2, W2) == V3
  {}

  lemma State4()
    ensures Rounds(V3, K3, W3) == V4
  {}

  lemma State5()
    ensures Rounds(V4, K4, W4) == V5
  {}

  lemma State6()
    ensures Rounds(V5, K5, W5) == V6
  {}

  lemma State7()
    ensures Rounds(V6, K6, W6) == V7
  {}

  lemma State8()
    ensures Rounds(V7, K7, W7) == V8
  {}

  lemma TraceHolds()
    ensures TRACE.Shaped() && TRACE.Holds()
  {
    Shape();
    hide Follows, Rounds, K0, K1, K2, K3, K4, K5, K6, K7;
    hide W0, W1, W2, W3, W4, W5, W6, W7, V0, V1, V2, V3, V4, V5, V6, V7, V8;
    Words2();
    Words3();
    Words4();
    Words5();
    Words6();
    Words7();
    State1();
    State2();
    State3();
    State4();
    State5();
    State6();
    State7();
    State8();
  }

  lemma Shape()
    ensures |W0| == |W1| == |W2| == |W3| == |W4| == |W5| == |W6| == |W7| == 8
  {}
}

/** The text behind the masked key. */
module InnerTextTrace {
  import opened Sha256Spec
  import opened Sha256Trace

  const W0: seq<word> :=
    [0x77686174, 0x20646f20, 0x79612077, 0x616e7420, 0x666f7220, 0x6e6f7468, 0x696e673f, 0x80000000]
  const W1: seq<word> :=
    [0x00000000, 0x00000000, 0x00000000, 0x00000000, 0x00000000, 0x00000000, 0x00000000, 0x000002e0]
  const W2: seq<word> :=
    [0xd6ecae97, 0xcb53a736, 0x0df4d52e, 0x99470585, 0x56ac588f, 0xbaf46d24, 0x21b274b4, 0x120525d6]
  const W3: seq<word> :=
    [0x40189fa8, 0x444a1f39, 0xf57833ad, 0xa316f0ba, 0xda928743, 0xc8153509, 0xe63c58e9, 0x9b063401]
  const W4: seq<word> :=
    [0x5fb8701b, 0x06610ac3, 0xc09ff909, 0x1a6d0e91, 0x67b9d8fd, 0xb9251d58, 0x7b42c482, 0x1e4fcbae]
  const W5: seq<word> :=
    [0x7f18d3ae, 0x6b3e02aa, 0x60acd3cc, 0x09230471, 0xcf103ae0, 0xff3e7122, 0xbc028b24, 0x31f8a0a0]
  const W6: seq<word> :=
    [0xa4405ebd, 0xa126f06e, 0x5140b18d, 0x0f9727bc, 0x96dc649b, 0xa7105035, 0x1955553f, 0x4cbc81fd]
  const W7: seq<word> :=
    [0xf9992590, 0x2d78b115, 0x48b2660c, 0xc566eb38, 0xbc4719f4, 0xbd8f6578, 0xe71fceb9, 0x023dd359]

  const V0 := Working(0x655da7fa, 0xcc434b37, 0x5a1cd5cb, 0x0692ee0e, 0xa47a23d3, 0x4c3af449, 0xdba21ae2, 0x78c7500c)
  const V1 := Working(0x54c22a6c, 0xd609bdc3, 0x567dcdf7, 0xf5d4dabb, 0x648372d6, 0x740ccf53, 0xbf0823c8, 0x36f39d1a)
  const V2 := Working(0xbf4e7f46, 0xd0e32bb8, 0xf5842695, 0x09eca57c, 0xda0d8141, 0x0000f140, 0x053ab6db, 0xb6e243b9)
  const V3 := Working(0x5b9a284d, 0x79a0a5a9, 0xf06fcc32, 0xbf0b0bf2, 0x2f41410b, 0x47aee404, 0xb5b58232, 0x835ed8a5)
  const V4 := Working(0x3eebaf95, 0xa80d8d52, 0x578885a2, 0xfd6b63f2, 0x76edd9cf, 0x71d96c70, 0x9f3a120e, 0xb908e6ba)
  const V5 := Working(0x64336633, 0xc43e9334, 0x89b963f0, 0x44a5d2ff, 0x01eb08e5, 0x66ab4215, 0x04e91075, 0xdc9571de)
  const V6 := Working(0x18eae95d, 0xc30b4900, 0xb5486ab0, 0x9f6132f2, 0x68e92552, 0x2580f283, 0x521dd93c, 0xb871c7e5)
  const V7 := Working(0xe73f1bab, 0xf1b65c41, 0x71f4ebf0, 0x72ebf845, 0xdfe69826, 0x44832b00, 0xc7cca388, 0x7f423327)
  const V8 := Working(0x3d86dd8c, 0x70e4aea1, 0x0a8fb7b5, 0x1d9fb3df, 0xa3036879, 0x22f9a8cd, 0xf945ce35, 0x4d627acb)

  const TRACE := Trace(W0, W1, W2, W3, W4, W5, W6, W7, V0, V1, V2, V3, V4, V5, V6, V7, V8)

  lemma Words2()
    ensures Follows(W0, W1, W2)
  {}

  lemma Words3()
    ensures Follows(W1, W2, W3)
  {}

  lemma Words4()
    ensures Follows(W2, W3, W4)
  {}

  lemma Words5()
    ensures Follows(W3, W4, W5)
  {}

  lemma Words6()
    ensures Follows(W4, W5, W6)
  {}

  lemma Words7()
    ensures Follows(W5, W6, W7)
  {}

  lemma State1()
    ensures Rounds(V0, K0, W0) == V1
  {}

  lemma State2()
    ensures Rounds(V1, K1, W1) == V2
  {}

  lemma State3()
    ensures Rounds(V2, K2, W2) == V3
  {}

  lemma State4()
    ensures Rounds(V3, K3, W3) == V4
  {}

  lemma State5()
    ensures Rounds(V4, K4, W4) == V5
  {}

  lemma State6()
    ensures Rounds(V5, K5, W5) == V6
  {}

  lemma State7()
    ensures Rounds(V6, K6, W6) == V7
  {}

  lemma State8()
    ensures Rounds(V7, K7, W7) == V8
  {}

  lemma TraceHolds()
    ensures TRACE.Shaped() && TRACE.Holds()
  {
    Shape();
    hide Follows, Rounds, K0, K1, K2, K3, K4, K5, K6, K7;
    hide W0, W1, W2, W3, W4, W5, W6, W7, V0, V1, V2, V3, V4, V5, V6, V7, V8;
    Words2();
    Words3();
    Words4();
    Words5();
    Words6();
    Words7();
    State1();
    State2();
    State3();
    State4();
    State5();
    State6();
    State7();
    State8();
  }

  lemma Shape()
    ensures |W0| == |W1| == |W2| == |W3| == |W4| == |W5| == |W6| == |W7| == 8
  {}
}

/** The masked key before the inner hash. */
module OuterKeyTrace {
  import opened Sha256Spec
  import opened Sha256Trace

  const W0: seq<word> :=
    [0x16393a39, 0x5c5c5c5c, 0x5c5c5c5c, 0x5c5c5c5c, 0x5c5c5c5c, 0x5c5c5c5c, 0x5c5c5c5c, 0x5c5c5c5c]
  const W1: seq<word> :=
    [0x5c5c5c5c, 0x5c5c5c5c, 0x5c5c5c5c, 0x5c5c5c5c, 0x5c5c5c5c, 0x5c5c5c5c, 0x5c5c5c5c, 0x5c5c5c5c]
  const W2: seq<word> :=
    [0xbc6c6d6b, 0x028f8f8e, 0x18148f7c, 0x93133fd1, 0x33346707, 0x55131c00, 0x1c4c8fc1, 0xaa8252d7]
  const W3: seq<word> :=
    [0xd92fce9a, 0x7bb09081, 0xb23c3c92, 0x8e036611, 0xef8b1cd6, 0xfcb68659, 0x98cd1c4a, 0xa514d1ce]
  const W4: seq<word> :=
    [0x655e9871, 0x80b14e30, 0xc3f7e470, 0x235e01a7, 0x0b79c2d8, 0x51112a82, 0xc947e091, 0x9d17222d]
  const W5: seq<word> :=
    [0x8fead71a, 0xf1240136, 0xf2403484, 0x911ae6e0, 0x6b8481a7, 0xb6c12283, 0xc47d12e8, 0x32b8fe41]
  const W6: seq<word> :=
    [0xa4366b12, 0xd4bab7a3, 0x18198b37, 0x5dc30ab5, 0xfb56e209, 0xbc47b487, 0x298fa38f, 0xff6df23c]
  const W7: seq<word> :=
    [0xfded1548, 0x6b3181fd, 0xe2eea69e, 0xe11be15d, 0x08859856, 0xfacb39cf, 0xfeb10bf2, 0xd790cd34]

  const V0 := Working(0x6a09e667, 0xbb67ae85, 0x3c6ef372, 0xa54ff53a, 0x510e527f, 0x9b05688c, 0x1f83d9ab, 0x5be0cd19)
  const V1 := Working(0x69435709, 0xe54a3493, 0xb1133397, 0xcb1304a6, 0x4facc1d6, 0xf3639443, 0x0f707dff, 0x98dc9837)
  const V2 := Working(0xe7b8b56f, 0x5e3eeba7, 0xdf63a889, 0xa1a61c47, 0x85ada43a, 0x7a1a23a6, 0x1f4a0977, 0xc247b35e)
  const V3 := Working(0x897a142a, 0xb3d8e080, 0x93238532, 0x0b37ef52, 0xe78fa9c2, 0xfba08193, 0xdde54c39, 0x194d0d3a)
  const V4 := Working(0x223781a1, 0x466a3c05, 0x33c6b89d, 0x66159104, 0x28c05066, 0x34384529, 0xe1e1a8b5, 0xb7b33477)
  const V5 := Working(0x2085ac20, 0xe332a1f9, 0x297f2869, 0xfb686937, 0x5f583973, 0xaf7ba84f, 0x78316de1, 0x1931b9a7)
  const V6 := Working(0x835aa22a, 0xe65638ea, 0x5009f43b, 0x5b5a8b27, 0x354edc49, 0xee6c6342, 0x466cefd5, 0x0fb4d10f)
  const V7 := Working(0x8a8b3fbf, 0xd3a780aa, 0xd2dbf54f, 0xf2457593, 0xa4a85ec7, 0x1946da48, 0xd532b445, 0xa9c7bd40)
  const V8 := Working(0xa4a5fd6e, 0x57d97fe7, 0x2dfb3c79, 0x87e76592, 0x0096aac8, 0xd2ab2d5c, 0x043bc7df, 0xf71074bc)

  const TRACE := Trace(W0, W1, W2, W3, W4, W5, W6, W7, V0, V1, V2, V3, V4, V5, V6, V7, V8)

  lemma Words2()
    ensures Follows(W0, W1, W2)
  {}

  lemma Words3()
    ensures Follows(W1, W2, W3)
  {}

  lemma Words4()
    ensures Follows(W2, W3, W4)
  {}

  lemma Words5()
    ensures Follows(W3, W4, W5)
  {}

  lemma Words6()
    ensures Follows(W4, W5, W6)
  {}

  lemma Words7()
    ensures Follows(W5, W6, W7)
  {}

  lemma State1()
    ensures Rounds(V0, K0, W0) == V1
  {}

  lemma State2()
    ensures Rounds(V1, K1, W1) == V2
  {}

  lemma State3()
    ensures Rounds(V2, K2, W2) == V3
  {}

  lemma State4()
    ensures Rounds(V3, K3, W3) == V4
  {}

  lemma State5()
    ensures Rounds(V4, K4, W4) == V5
  {}

  lemma State6()
    ensures Rounds(V5, K5, W5) == V6
  {}

  lemma State7()
    ensures Rounds(V6, K6, W6) == V7
  {}

  lemma State8()
    ensures Rounds(V7, K7, W7) == V8
  {}

  lemma TraceHolds()
    ensures TRACE.Shaped() && TRACE.Holds()
  {
    Shape();
    hide Follows, Rounds, K0, K1, K2, K3, K4, K5, K6, K7;
    hide W0, W1, W2, W3, W4, W5, W6, W7, V0, V1, V2, V3, V4, V5, V6, V7, V8;
    Words2();
    Words3();
    Words4();
    Words5();
    Words6();
    Words7();
    State1();
    State2();
    State3();
    State4();
    State5();
    State6();
    State7();
    State8();
  }

  lemma Shape()
    ensures |W0| == |W1| == |W2| == |W3| == |W4| == |W5| == |W6| == |W7| == 8
  {}
}

/** The inner hash behind the masked key. */
module OuterHashTrace {
  import opened Sha256Spec
  import opened Sha256Trace

  const W0: seq<word> :=
    [0xa2e48586, 0x3d27f9d8, 0x64ac8d80, 0x2432a1ed, 0x477d8c4c, 0x6f349d16, 0xd4e7e917, 0xc629cad7]
  const W1: seq<word> :=
    [0x80000000, 0x00000000, 0x00000000, 0x00000000, 0x00000000, 0x00000000, 0x00000000, 0x00000300]
  const W2: seq<word> :=
    [0xec8d4507, 0x6e44cb58, 0xe57a2e78, 0x1481a913, 0xa0c51e3a, 0x20542d99, 0xc7d6bc99, 0x572ed109]
  const W3: seq<word> :=
    [0x7832fa16, 0x982a793e, 0x36d9a8b4, 0x1463b3c8, 0x01955976, 0x776eccea, 0x5f84771d, 0x7b31f508]
  const W4: seq<word> :=
    [0xc9f4aee0, 0xd055fb5c, 0x0b79d67f, 0x7fe06bb1, 0x27530bc7, 0x3cdd17eb, 0xd3a5276a, 0xe79ef353]
  const W5: seq<word> :=
    [0x70708e40, 0x503a442e, 0x8c04f280, 0x60a9ae13, 0x8edf61fe, 0x5a70bc6a, 0x06d8cf63, 0x2866cc9d]
  const W6: seq<word> :=
    [0x7608691a, 0xa7182225, 0x1dc70eca, 0x6c947dd1, 0x7c97dcae, 0x7b09005f, 0x19d1e2a0, 0xab60d9da]
  const W7: seq<word> :=
    [0xac37d412, 0x1236e096, 0x4a8a3d6d, 0xbe58c2f1, 0x53d27161, 0xe25a87a5, 0xb53d7e5f, 0x0828fce9]

  const V0 := Working(0x0eafe3d5, 0x13412e6c, 0x6a6a2feb, 0x2d375acc, 0x51a4fd47, 0x6db095e8, 0x23bfa18a, 0x52f141d5)
  const V1 := Working(0x5d1582d4, 0x12acdcbb, 0xcb506feb, 0x13e61c3b, 0xf26e1dc0, 0x6939e327, 0x4790de5c, 0x2c0283b8)
  const V2 := Working(0x524a1ef8, 0x8777eeed, 0x9af3cfc9, 0xb3f53c2a, 0x2e2fafb1, 0x6a605c43, 0x661ce7b3, 0xac6ca791)
  const V3 := Working(0xca1dd9eb, 0xe78abb5d, 0x513d0d3f, 0x28d0682e, 0xf34d277d, 0x8488c299, 0x9d044671, 0x4116203c)
  const V4 := Working(0xf5637c6b, 0x6a101e8a, 0x88ff9220, 0x804e3e18, 0x36193288, 0xad346d31, 0x90550f47, 0x2b124b23)
  const V5 := Working(0x0939a676, 0x0d153365, 0x2e42d717, 0x3a8a934f, 0x0015e35d, 0x8e8430d5, 0xd54ff5d9, 0x6e0359bc)
  const V6 := Working(0x5ab28db9, 0xa4d05bd3, 0x0795c206, 0x31c61bbf, 0x4504e9e3, 0xc04b2c11, 0xb061e903, 0x9b30b56e)
  const V7 := Working(0x13793033, 0x7e24f1f8, 0x7ffaa436, 0x1eb1f18c, 0xbf9e1c90, 0xfbf6b1b0, 0xee54ab78, 0xf954931b)
  const V8 := Working(0x4d2cdd71, 0xac1f46e2, 0xff99f43b, 0xdb5e1afb, 0x085b41c1, 0x2f76a39b, 0x7a2cb72f, 0x11faf66e)

  const TRACE := Trace(W0, W1, W2, W3, W4, W5, W6, W7, V0, V1, V2, V3, V4, V5, V6, V7, V8)

  lemma Words2()
    ensures Follows(W0, W1, W2)
  {}

  lemma Words3()
    ensures Follows(W1, W2, W3)
  {}

  lemma Words4()
    ensures Follows(W2, W3, W4)
  {}

  lemma Words5()
    ensures Follows(W3, W4, W5)
  {}

  lemma Words6()
    ensures Follows(W4, W5, W6)
  {}

  lemma Words7()
    ensures Follows(W5, W6, W7)
  {}

  lemma State1()
    ensures Rounds(V0, K0, W0) == V1
  {}

  lemma State2()
    ensures Rounds(V1, K1, W1) == V2
  {}

  lemma State3()
    ensures Rounds(V2, K2, W2) == V3
  {}

  lemma State4()
    ensures Rounds(V3, K3, W3) == V4
  {}

  lemma State5()
    ensures Rounds(V4, K4, W4) == V5
  {}

  lemma State6()
    ensures Rounds(V5, K5, W5) == V6
  {}

  lemma State7()
    ensures Rounds(V6, K6, W6) == V7
  {}

  lemma State8()
    ensures Rounds(V7, K7, W7) == V8
  {}

  lemma TraceHolds()
    ensures TRACE.Shaped() && TRACE.Holds()
  {
    Shape();
    hide Follows, Rounds, K0, K1, K2, K3, K4, K5, K6, K7;
    hide W0, W1, W2, W3, W4, W5, W6, W7, V0, V1, V2, V3, V4, V5, V6, V7, V8;
    Words2();
    Words3();
    Words4();
    Words5();
    Words6();
    Words7();
    State1();
    State2();
    State3();
    State4();
    State5();
    State6();
    State7();
    State8();
  }

  lemma Shape()
    ensures |W0| == |W1| == |W2| == |W3| == |W4| == |W5| == |W6| == |W7| == 8
  {}
}
