/** One-shot hashing, HMAC, and the chain of HMACs that makes a signing key. */
module Hmac {
  import opened Sha256Spec
  import Sha256

  /** A pointer and a length. */
  datatype Part = Part(data: array<byte>, len: nat)

  ghost predicate InBounds(parts: seq<Part>) {
    forall i :: 0 <= i < |parts| ==> parts[i].len <= parts[i].data.Length
  }

  ghost function Arrays(parts: seq<Part>): set<array<byte>> {
    set i | 0 <= i < |parts| :: parts[i].data
  }

  /** The concatenation of the fragments. */
  ghost function Text(parts: seq<Part>): seq<byte>
    requires InBounds(parts)
    reads Arrays(parts)
  {
    if parts == [] then []
    else
      assert Arrays(parts[..|parts| - 1]) <= Arrays(parts);
      assert parts[|parts| - 1].data in Arrays(parts);
      Text(parts[..|parts| - 1]) + parts[|parts| - 1].data[..parts[|parts| - 1].len]
  }

  lemma TextOfOne(p: Part)
    requires p.len <= p.data.Length
    ensures Text([p]) == p.data[..p.len]
  {
    assert [p][..0] == [];
  }

  lemma {:induction false} TextOfFirst(p: Part, parts: seq<Part>)
    requires p.len <= p.data.Length && InBounds(parts)
    ensures InBounds([p] + parts) && Text([p] + parts) == p.data[..p.len] + Text(parts)
  {
    if parts == [] {
      TextOfOne(p);
      assert [p] + parts == [p];
    } else {
      var front := parts[..|parts| - 1];
      TextOfFirst(p, front);
      assert ([p] + parts)[..|parts|] == [p] + front;
    }
  }

  /** sha256_vector. The output may be one of the inputs. */
  method HashVector(parts: seq<Part>, mac: array<byte>) returns (rc: int)
    requires InBounds(parts) && mac.Length >= 32
    modifies mac
    ensures rc == 0 && mac[..] == Digest(old(Text(parts))) + old(mac[32..])
  {
    hide Digest, Sha256.Represents;
    var ctx := new Sha256.State();
    for i := 0 to |parts|
      invariant ctx.Valid() && fresh(ctx) && fresh(ctx.state) && fresh(ctx.buf)
      invariant unchanged(mac) && forall j :: 0 <= j < |parts| ==> parts[j].data[..] == old(parts[j].data[..])
      invariant ctx.absorbed == old(Text(parts[..i]))
    {
      assert parts[..i + 1][..i] == parts[..i];
      var r := ctx.Process(parts[i].data, parts[i].len);
      if r != 0 {
        return -1;
      }
    }
    assert parts[..|parts|] == parts;
    var r := ctx.Done(mac);
    if r != 0 {
      return -1;
    }
    return 0;
  }

  // ---- RFC 2104, section 2, with B = 64 and L = 32 ----

  function KeyBlock(key: seq<byte>): (b: seq<byte>)
    ensures |b| == 64
  {
    if |key| > 64 then Digest(key) + Zeros(32) else key + Zeros(64 - |key|)
  }

  function XorEach(s: seq<byte>, v: byte): (r: seq<byte>)
    ensures |r| == |s|
  {
    seq(|s|, i requires 0 <= i < |s| => s[i] ^ v)
  }

  function HmacSha256(key: seq<byte>, text: seq<byte>): (mac: seq<byte>)
    ensures |mac| == 32
  {
    var k := KeyBlock(key);
    Digest(XorEach(k, 0x5c) + Digest(XorEach(k, 0x36) + text))
  }

  // ---- src/sha256.c ----

  method Hash(addr: array<byte>, len: nat, mac: array<byte>) returns (rc: int)
    requires len <= addr.Length && mac.Length >= 32
    modifies mac
    ensures rc == 0 && mac[..] == Digest(old(addr[..len])) + old(mac[32..])
  {
    hide Digest, Sha256.Represents;
    var ctx := new Sha256.State();
    rc := ctx.Process(addr, len);
    assert [] + addr[..len] == addr[..len];
    if rc != 0 {
      return -1;
    }
    rc := ctx.Done(mac);
    if rc != 0 {
      return -1;
    }
    return 0;
  }

  /** memset and memcpy. */
  method FillKey(pad: array<byte>, key: array<byte>, keyLen: nat)
    requires pad.Length == 64 && pad != key && keyLen <= key.Length && keyLen <= 64
    modifies pad
    ensures pad[..] == KeyBlock(key[..keyLen])
  {
    hide Digest;
    for i := 0 to 64
      invariant pad[..i] == Zeros(i)
    {
      pad[i] := 0;
      assert pad[..i + 1] == pad[..i] + [0];
    }
    assert pad[keyLen..] == Zeros(64 - keyLen);
    Sha256.Copy(pad, 0, key, 0, keyLen);
  }

  /** memset, memcpy and the XOR loop. */
  method FillPad(pad: array<byte>, key: array<byte>, keyLen: nat, v: byte)
    requires pad.Length == 64 && pad != key && keyLen <= key.Length && keyLen <= 64
    modifies pad
    ensures pad[..] == XorEach(KeyBlock(key[..keyLen]), v)
  {
    FillKey(pad, key, keyLen);
    ghost var block := KeyBlock(key[..keyLen]);
    hide Digest, KeyBlock;
    for i := 0 to 64
      invariant forall j :: 0 <= j < i ==> pad[j] == block[j] ^ v
      invariant forall j :: i <= j < 64 ==> pad[j] == block[j]
    {
      pad[i] := pad[i] ^ v;
    }
  }

  /**
   * The key from which the outer pad is made. It is read again after the inner hash has been
   * written to mac, so a key that lives in mac has lost its first 32 bytes.
   */
  ghost function KeyAfterInner(key: seq<byte>, inner: seq<byte>): (k: seq<byte>)
    requires |inner| == 32
    ensures |k| == |key|
  {
    if |key| <= 32 then inner[..|key|] else inner + key[32..]
  }

  lemma FrontOverwritten(before: seq<byte>, now: seq<byte>, n: nat)
    requires |before| == |now| >= 32 && now[32..] == before[32..] && n <= |now|
    ensures now[..n] == KeyAfterInner(before[..n], now[..32])
  {
    if n > 32 {
      assert now[..n] == now[..32] + now[32..][..n - 32];
      assert before[..n][32..] == before[32..][..n - 32];
    }
  }

  ghost function HmacWithOverwrittenKey(key: seq<byte>, text: seq<byte>): seq<byte> {
    var inner := Digest(XorEach(KeyBlock(key), 0x36) + text);
    Digest(XorEach(KeyBlock(KeyAfterInner(key, inner)), 0x5c) + inner)
  }

  /** hmac_sha256_vector. Only a short key that shares its array with mac breaks the result. */
  method HmacVector(key: array<byte>, keyLen: nat, parts: seq<Part>, mac: array<byte>) returns (rc: int)
    requires keyLen <= key.Length && InBounds(parts) && mac.Length >= 32
    modifies mac
    ensures |parts| > 5 ==> rc == -1 && unchanged(mac)
    ensures |parts| <= 5 ==> rc == 0 && mac[32..] == old(mac[32..])
    ensures |parts| <= 5 && (key != mac || keyLen > 64) ==>
              mac[..32] == HmacSha256(old(key[..keyLen]), old(Text(parts)))
    ensures |parts| <= 5 && key == mac && keyLen <= 64 ==>
              mac[..32] == HmacWithOverwrittenKey(old(key[..keyLen]), old(Text(parts)))
  {
    hide Digest, XorEach, Text, Zeros;
    if |parts| > 5 {
      return -1;
    }
    var kPad := new byte[64];
    var k, kLen := key, keyLen;
    if keyLen > 64 {
      k, kLen := HashKey(key, keyLen);
    }
    ghost var theKey := k[..kLen];
    assert KeyBlock(theKey) == KeyBlock(key[..keyLen]);
    rc := PadAndHash(kPad, k, kLen, 0x36, parts, mac);
    if rc < 0 {
      return -1;
    }
    if k == mac {
      FrontOverwritten(old(mac[..]), mac[..], kLen);
    }
    TextOfOne(Part(mac, 32));
    rc := PadAndHash(kPad, k, kLen, 0x5c, [Part(mac, 32)], mac);
  }

  /** One of the two halves: the key padded and masked, then the hash over it and the fragments. */
  method PadAndHash(pad: array<byte>, k: array<byte>, kLen: nat, v: byte, parts: seq<Part>, mac: array<byte>)
    returns (rc: int)
    requires pad.Length == 64 && pad != k && pad != mac && pad !in Arrays(parts)
    requires kLen <= k.Length && kLen <= 64 && InBounds(parts) && mac.Length >= 32
    modifies pad, mac
    ensures rc == 0 && mac[32..] == old(mac[32..])
    ensures mac[..32] == Digest(XorEach(KeyBlock(old(k[..kLen])), v) + old(Text(parts)))
  {
    hide Digest, XorEach, KeyBlock;
    FillPad(pad, k, kLen, v);
    TextOfFirst(Part(pad, 64), parts);
    assert pad[..64] == pad[..];
    assert Text(parts) == old(Text(parts));
    rc := HashVector([Part(pad, 64)] + parts, mac);
  }

  method HashKey(key: array<byte>, keyLen: nat) returns (k: array<byte>, kLen: nat)
    requires keyLen <= key.Length
    ensures fresh(k) && k.Length == kLen == 32 && k[..] == Digest(key[..keyLen])
  {
    hide Digest;
    k := new byte[32];
    TextOfOne(Part(key, keyLen));
    var rc := HashVector([Part(key, keyLen)], k);
    kLen := 32;
  }

  /** hmac_sha256. */
  method HmacBuffer(key: array<byte>, keyLen: nat, data: array<byte>, dataLen: nat, mac: array<byte>)
    returns (rc: int)
    requires keyLen <= key.Length && dataLen <= data.Length && mac.Length >= 32
    modifies mac
    ensures rc == 0 && mac[32..] == old(mac[32..])
    ensures key != mac || keyLen > 64 ==> mac[..32] == HmacSha256(old(key[..keyLen]), old(data[..dataLen]))
    ensures key == mac && keyLen <= 64 ==>
              mac[..32] == HmacWithOverwrittenKey(old(key[..keyLen]), old(data[..dataLen]))
  {
    hide HmacSha256, HmacWithOverwrittenKey;
    TextOfOne(Part(data, dataLen));
    rc := HmacVector(key, keyLen, [Part(data, dataLen)], mac);
  }
}
