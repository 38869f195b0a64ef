/** The signature of a request: printing hashes, the chain of keys, and what is signed. */
module Signing {
  import opened Sha256Spec
  import opened CText
  import Hmac

  const MAX_S3_SECRET_LENGTH: nat := 128
  const SECRET_SIZE: nat := 133
  const HEADER_SIZE: nat := 3072

  // ---- text as bytes, and bytes as text ----

  function ByteOf(c: char): byte {
    (c as int % 256) as byte
  }

  function Bytes(text: string): (r: seq<byte>)
    ensures |r| == |text|
  {
    seq(|text|, i requires 0 <= i < |text| => ByteOf(text[i]))
  }

  function LowerHexDigit(n: nat): (c: char)
    requires n < 16
    ensures c != '\0' && HexDigitValue(c) == n
  {
    "0123456789abcdef"[n]
  }

  function HexDigitValue(c: char): int {
    if '0' <= c <= '9' then c as int - '0' as int else c as int - 'a' as int + 10
  }

  /** printf("%.2x") */
  function HexByte(b: byte): (r: string)
    ensures |r| == 2
  {
    [LowerHexDigit(b as int / 16), LowerHexDigit(b as int % 16)]
  }

  function HexText(bytes: seq<byte>): (r: string)
    ensures |r| == 2 * |bytes|
  {
    if bytes == [] then [] else HexText(bytes[..|bytes| - 1]) + HexByte(bytes[|bytes| - 1])
  }

  function HexValueAt(text: string, i: nat): int
    requires 2 * i + 1 < |text|
  {
    16 * HexDigitValue(text[2 * i]) + HexDigitValue(text[2 * i + 1])
  }

  lemma {:induction false} HexTextAt(bytes: seq<byte>, i: nat)
    requires i < |bytes|
    ensures HexText(bytes)[2 * i..2 * i + 2] == HexByte(bytes[i])
  {
    if i < |bytes| - 1 {
      HexTextAt(bytes[..|bytes| - 1], i);
    }
  }

  /** A printed hash tells every byte. */
  lemma {:induction false} HexTextDecodes(bytes: seq<byte>, i: nat)
    requires i < |bytes|
    ensures HexValueAt(HexText(bytes), i) == bytes[i] as int
  {
    HexTextAt(bytes, i);
    var text := HexText(bytes);
    assert text[2 * i] == text[2 * i..2 * i + 2][0] && text[2 * i + 1] == text[2 * i..2 * i + 2][1];
  }

  lemma HexTextNoNul(bytes: seq<byte>)
    ensures NoNul(HexText(bytes))
  {
    if bytes != [] {
      HexTextNoNul(bytes[..|bytes| - 1]);
    }
  }

  /** Prints a hash, two digits for each byte, every pair over the terminating 0 of the one before. */
  method PrintHash(hash: array<byte>, out: array<char>)
    requires hash.Length == 32 && out.Length == 65
    modifies out
    ensures Holds(out[..], HexText(hash[..]))
  {
    hide HexByte, Cut;
    var hashPos := 0;
    out[0] := '\0';
    for i := 0 to 32
      invariant hashPos == 2 * i
      invariant Holds(out[..], HexText(hash[..i]))
    {
      ghost var before := HexText(hash[..i]);
      assert hash[..i + 1][..i] == hash[..i];
      assert out[..][..hashPos] == before;
      Snprintf(out, hashPos, 65 - hashPos, HexByte(hash[i]));
      assert out[..][..hashPos] == before;
      assert out[hashPos..] == out[..][hashPos..];
      HoldsAfter(out[..], before, HexByte(hash[i]));
      hashPos := hashPos + 2;
    }
    assert hash[..32] == hash[..];
  }

  // ---- Signature Version 4 ----

  function SigningKey(secret: string, date: string, region: string, service: string): (key: seq<byte>)
    ensures |key| == 32
  {
    var dateKey := Hmac.HmacSha256(Bytes("AWS4" + secret), Bytes(date));
    var regionKey := Hmac.HmacSha256(dateKey, Bytes(region));
    var serviceKey := Hmac.HmacSha256(regionKey, Bytes(service));
    Hmac.HmacSha256(serviceKey, Bytes("aws4_request"))
  }

  function StringToSign(timestamp: string, region: string, service: string, requestHash: string): string
    requires |timestamp| == 16
  {
    "AWS4-HMAC-SHA256\n" + timestamp + "\n"
    + timestamp[..8] + "/" + region + "/" + service + "/aws4_request\n" + requestHash
  }

  function FirstChars(s: string, n: nat): (r: string)
    ensures r <= s && |r| == if |s| <= n then |s| else n
  {
    if |s| <= n then s else s[..n]
  }

  /** A pointer to text, given to a function that takes bytes. */
  method AsBytes(text: string) returns (bytes: array<byte>)
    ensures fresh(bytes) && bytes[..] == Bytes(text)
  {
    bytes := new byte[|text|](i requires 0 <= i < |text| => ByteOf(text[i]));
  }

  /** hmac_sha256 over a text. */
  method HmacText(key: array<byte>, keyLen: nat, text: string, mac: array<byte>)
    requires keyLen <= key.Length && mac.Length == 32 && key != mac
    modifies mac
    ensures mac[..] == Hmac.HmacSha256(old(key[..keyLen]), Bytes(text))
  {
    hide Hmac.HmacSha256, Bytes;
    var data := AsBytes(text);
    assert data[..data.Length] == data[..];
    var rc := Hmac.HmacBuffer(key, keyLen, data, data.Length, mac);
    assert mac[..32] == mac[..];
  }

  /** The key chain of build_request_headers: two buffers take turns, so that no key is overwritten while in use. */
  method DeriveKey(secret: string, date: string, region: string, service: string,
                   hmacHash: array<byte>, hmacHash2: array<byte>)
    requires hmacHash.Length == hmacHash2.Length == 32 && hmacHash != hmacHash2
    requires NoNul(secret)
    modifies hmacHash, hmacHash2
    ensures hmacHash2[..] == SigningKey(FirstChars(secret, MAX_S3_SECRET_LENGTH), date, region, service)
  {
    hide Hmac.HmacSha256, Bytes, Holds, Cut;
    var secretHead := new char[SECRET_SIZE];
    ghost var text := "AWS4" + FirstChars(secret, MAX_S3_SECRET_LENGTH);
    Snprintf(secretHead, 0, SECRET_SIZE, "AWS4" + FirstChars(secret, MAX_S3_SECRET_LENGTH));
    TextIsHeld(secretHead, text);
    var length := StrLen(secretHead, 0, text);
    var head := AsBytes(secretHead[..length]);
    assert head[..length] == head[..];
    HmacText(head, length, date, hmacHash);
    assert hmacHash[..32] == hmacHash[..];
    HmacText(hmacHash, 32, region, hmacHash2);
    assert hmacHash2[..32] == hmacHash2[..];
    HmacText(hmacHash2, 32, service, hmacHash);
    assert hmacHash[..32] == hmacHash[..];
    HmacText(hmacHash, 32, "aws4_request", hmacHash2);
  }

  lemma TextIsHeld(buffer: array<char>, text: string)
    requires buffer.Length == SECRET_SIZE && Holds(buffer[0..], Cut(text, SECRET_SIZE)) && |text| < SECRET_SIZE
    ensures Holds(buffer[0..], text) && buffer[..|text|] == text
  {
    assert buffer[0..] == buffer[..];
  }

  const ALGORITHM_LINE := "AWS4-HMAC-SHA256\n"

  /** The text that is signed, written into the header buffer piece by piece. */
  method WriteStringToSign(timestamp: string, region: string, service: string, requestHash: string,
                           headerBuf: array<char>)
    requires |timestamp| == 16 && NoNul(timestamp) && headerBuf.Length == HEADER_SIZE
    modifies headerBuf
    ensures Holds(headerBuf[..], Cut(StringToSign(timestamp, region, service, requestHash), HEADER_SIZE))
  {
    var scope := timestamp[..8] + "/" + region + "/" + service + "/aws4_request\n" + requestHash;
    Snprintf(headerBuf, 0, HEADER_SIZE, ALGORITHM_LINE);
    assert headerBuf[0..] == headerBuf[..];
    var offset := StrLen(headerBuf, 0, ALGORITHM_LINE);
    Append(headerBuf, offset, timestamp + "\n", ALGORITHM_LINE);
    ghost var lines := ALGORITHM_LINE + (timestamp + "\n");
    assert headerBuf[0..] == headerBuf[..];
    offset := StrLen(headerBuf, 0, lines);
    Append(headerBuf, offset, scope, lines);
    assert lines + scope == StringToSign(timestamp, region, service, requestHash);
  }

  /** The end of build_request_headers: derive the key, sign, print. */
  method Sign(secret: string, timestamp: string, region: string, service: string, requestHash: string)
    returns (signature: string)
    requires NoNul(secret) && NoNul(timestamp) && NoNul(region) && NoNul(service) && NoNul(requestHash)
    requires |timestamp| == 16
    ensures signature == Signature(secret, timestamp, region, service, requestHash) && NoNul(signature)
  {
    hide SigningKey, StringToSign, Hmac.HmacSha256, Bytes, Holds, Cut;
    var hmacHash, hmacHash2 := new byte[32], new byte[32];
    DeriveKey(secret, timestamp[..8], region, service, hmacHash, hmacHash2);
    var headerBuf := new char[HEADER_SIZE];
    WriteStringToSign(timestamp, region, service, requestHash, headerBuf);
    ghost var text := Cut(StringToSign(timestamp, region, service, requestHash), HEADER_SIZE);
    SignedNoNul(timestamp, region, service, requestHash);
    var toSign := ReadText(headerBuf, text);
    assert hmacHash2[..32] == hmacHash2[..];
    HmacText(hmacHash2, 32, toSign, hmacHash);
    var printed := new char[65];
    PrintHash(hmacHash, printed);
    HexTextNoNul(hmacHash[..]);
    signature := ReadText(printed, HexText(hmacHash[..]));
  }

  /** The signature, with its text cut to the size of the header buffer. */
  function Signature(secret: string, timestamp: string, region: string, service: string, requestHash: string): string
    requires |timestamp| == 16
  {
    var key := SigningKey(FirstChars(secret, MAX_S3_SECRET_LENGTH), timestamp[..8], region, service);
    var text := Cut(StringToSign(timestamp, region, service, requestHash), HEADER_SIZE);
    HexText(Hmac.HmacSha256(key, Bytes(text)))
  }

  lemma SignedNoNul(timestamp: string, region: string, service: string, requestHash: string)
    requires NoNul(timestamp) && NoNul(region) && NoNul(service) && NoNul(requestHash) && |timestamp| == 16
    ensures NoNul(Cut(StringToSign(timestamp, region, service, requestHash), HEADER_SIZE))
  {}
}
