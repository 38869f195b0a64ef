/** Building the headers of a request: what is signed, the signature, and what follows it. */
module RequestHeaders {
  import opened Options
  import opened Errors
  import opened CText
  import opened PercentEncoding
  import opened RequestUri
  import opened Sha256Spec
  import opened Signing
  import opened CanonicalRequest

  datatype Credentials = Credentials(key: string, secret: string, region: string, token: Option<string>) {
    ghost predicate Valid() {
      NoNul(key) && NoNul(secret) && NoNul(region) && (token.Some? ==> NoNul(token.value))
    }
  }

  function HostOf(e: Endpoint): string {
    if e.protocolVersion == 2 then e.bucket + "." + e.Domain() else e.Domain()
  }

  function BucketInUri(e: Endpoint): Option<string> {
    if e.protocolVersion == 1 then Some(e.bucket) else None
  }

  function CutHeaders(headers: seq<string>): seq<string> {
    seq(|headers|, i requires 0 <= i < |headers| => Cut(headers[i], HEADER_SIZE))
  }

  lemma CutHeadersAppend(headers: seq<string>, header: string)
    ensures CutHeaders(headers + [header]) == CutHeaders(headers) + [Cut(header, HEADER_SIZE)]
  {}

  /** snprintf into the header buffer, and a copy of what it holds for the list. */
  method FormatHeader(text: string, headerBuf: array<char>) returns (header: string)
    requires headerBuf.Length == HEADER_SIZE && NoNul(text)
    modifies headerBuf
    ensures header == Cut(text, HEADER_SIZE) && NoNul(header)
  {
    Snprintf(headerBuf, 0, HEADER_SIZE, text);
    assert headerBuf[0..] == headerBuf[..];
    assert NoNul(Cut(text, HEADER_SIZE));
    header := ReadText(headerBuf, Cut(text, HEADER_SIZE));
  }

  lemma EscapeNoNul(s: string)
    requires CString(s)
    ensures NoNul(Escape(s))
  {
    EscapedCharacters(s);
    hide Escape;
    assert forall i :: 0 <= i < |Escape(s)| ==> Escape(s)[i] != '\0';
  }

  lemma SourceNoNul(s: Source)
    requires CString(s.bucket) && CString(s.key)
    ensures NoNul(SourceHeader(s))
  {
    EscapeNoNul(s.bucket);
    EscapeNoNul(s.key);
    hide Escape;
  }

  lemma PrefixesNoNul(host: string, hash: string, timestamp: string)
    requires NoNul(host) && NoNul(hash) && NoNul(timestamp)
    ensures NoNul(HostHeader(host)) && NoNul(HashHeader(hash)) && NoNul(DateHeader(timestamp))
  {}

  lemma TokenNoNul(token: string)
    requires NoNul(token)
    ensures NoNul(TokenHeader(token))
  {}

  /** The first half of build_request_headers: the list grows by one header at a time. */
  method BuildSignedHeaders(host: string, postHash: string, source: Option<Source>, timestamp: string,
                            token: Option<string>, headerBuf: array<char>)
    returns (headers: seq<string>)
    requires headerBuf.Length == HEADER_SIZE
    requires NoNul(host) && NoNul(postHash) && NoNul(timestamp) && (token.Some? ==> NoNul(token.value))
    requires source.Some? ==> CString(source.value.bucket) && CString(source.value.key)
    modifies headerBuf
    ensures headers == CutHeaders(Headers(host, postHash, source, timestamp, token)) && AllNoNul(headers)
    ensures headers != []
  {
    PrefixesNoNul(host, postHash, timestamp);
    hide HostHeader, HashHeader, SourceHeader, DateHeader, TokenHeader, NoNul;
    headers := [];
    NoHeadersCut();
    ghost var full: seq<string> := [];
    hide CutHeaders;
    headers, full := AppendHeader(headers, HostHeader(host), headerBuf, full);
    headers, full := AppendHeader(headers, HashHeader(postHash), headerBuf, full);
    if source.Some? {
      SourceNoNul(source.value);
      headers, full := AppendHeader(headers, SourceHeader(source.value), headerBuf, full);
    }
    headers, full := AppendHeader(headers, DateHeader(timestamp), headerBuf, full);
    if token.Some? {
      TokenNoNul(token.value);
      headers, full := AppendHeader(headers, TokenHeader(token.value), headerBuf, full);
    }
    assert full == Headers(host, postHash, source, timestamp, token);
  }

  lemma NoHeadersCut()
    ensures CutHeaders([]) == []
  {}

  /** snprintf and curl_slist_append */
  method AppendHeader(headers: seq<string>, text: string, headerBuf: array<char>, ghost full: seq<string>)
    returns (longer: seq<string>, ghost longerFull: seq<string>)
    requires headerBuf.Length == HEADER_SIZE && NoNul(text) && AllNoNul(headers) && headers == CutHeaders(full)
    modifies headerBuf
    ensures longerFull == full + [text]
    ensures longer == CutHeaders(longerFull) && longer != [] && AllNoNul(longer)
  {
    hide Cut, CutHeaders, NoNul;
    var header := FormatHeader(text, headerBuf);
    CutHeadersAppend(full, text);
    longer, longerFull := headers + [header], full + [text];
  }

  /** A header that had to be cut would not have left room for the rest. */
  lemma HeadersFit(verb: Verb, uri: string, query: string, headers: seq<string>)
    requires verb != Other && |CanonicalHead(verb, uri, query, headers)| <= SIGNING_SIZE
    ensures CutHeaders(headers) == headers
  {
    forall i | 0 <= i < |headers|
      ensures Cut(headers[i], HEADER_SIZE) == headers[i]
    {
      LinesGrow(headers, i + 1);
      LineStep(headers, i, []);
      assert [] + HeaderLines(headers[..i + 1]) == HeaderLines(headers[..i + 1]);
      hide HeaderLines, NamesText, Names;
    }
  }

  /** Everything that decides what a request is signed with. */
  datatype Request = Request(endpoint: Endpoint, credentials: Credentials, verb: Verb, path: string,
                             query: Option<string>, source: Option<Source>, timestamp: string)
  {
    ghost predicate Valid() {
      && endpoint.Valid() && credentials.Valid()
      && NoNul(path) && (query.Some? ==> NoNul(query.value))
      && (source.Some? ==> CString(source.value.bucket) && CString(source.value.key))
      && NoNul(timestamp) && |timestamp| == 16
    }

    function SignedHeaders(payload: seq<byte>): seq<string> {
      Headers(HostOf(endpoint), HexText(Digest(payload)), source, timestamp, credentials.token)
    }

    /** The canonical request, without the hash of the payload at its end. */
    function Canonical(payload: seq<byte>): string
      requires verb != Other
    {
      CanonicalHead(verb, CanonicalUri(BucketInUri(endpoint), path), CanonicalQuery(query), SignedHeaders(payload))
    }

    /** The length of the canonical request without the hash at its end, from the lengths of its parts. */
    function HeadLength(): nat
      requires verb != Other
    {
      |VerbLine(verb)| + |CanonicalUri(BucketInUri(endpoint), path)| + 1 + |CanonicalQuery(query)| + 1
      + (6 + |HostOf(endpoint)|) + 86 + SourceLength() + 28 + TokenLength()
      + |NamesLine(source.Some?, credentials.token.Some?)|
    }

    function SourceLength(): nat {
      if source.Some? then 21 + |Escape(source.value.bucket)| + |Escape(source.value.key)| else 0
    }

    function TokenLength(): nat {
      if credentials.token.Some? then 22 + |credentials.token.value| else 0
    }

    function SignatureOf(payload: seq<byte>): string
      requires verb != Other && |timestamp| == 16
    {
      Signature(credentials.secret, timestamp, credentials.region, "s3",
                RequestHash(Canonical(payload), HexText(Digest(payload))))
    }

    /** The canonical request fits its buffer, the hash and the terminating NUL included. */
    predicate CanonicalFits()
      requires verb != Other
    {
      HeadLength() + 64 < SIGNING_SIZE
    }

    /** Nothing that is signed or sent is cut. */
    predicate Uncut()
      requires verb != Other
    {
      && CanonicalFits() && |credentials.secret| <= MAX_S3_SECRET_LENGTH
      && AuthorizationLength() < HEADER_SIZE
    }

    function AuthorizationLength(): nat {
      161 + |credentials.key| + |credentials.region| + |ClaimedNames(source.Some?, credentials.token.Some?)|
    }

    /** The signature that Signature Version 4 prescribes for the request. */
    function StandardSignature(payload: seq<byte>): string
      requires verb != Other && |timestamp| == 16
    {
      var payloadHash := HexText(Digest(payload));
      var requestHash := HexText(Digest(Bytes(Canonical(payload) + payloadHash)));
      var key := SigningKey(credentials.secret, timestamp[..8], credentials.region, "s3");
      HexText(Hmac.HmacSha256(key, Bytes(StringToSign(timestamp, credentials.region, "s3", requestHash))))
    }

    function Authorization(signature: string): string
      requires |timestamp| == 16
    {
      AuthorizationText(credentials, timestamp[..8], ClaimedNames(source.Some?, credentials.token.Some?), signature)
    }
  }

  function AuthorizationText(c: Credentials, date: string, names: string, signature: string): string {
    "Authorization: AWS4-HMAC-SHA256 " + "Credential=" + c.key + "/" + date + "/" + c.region + "/s3/aws4_request, "
    + "SignedHeaders=" + names + ", Signature=" + signature
  }

  function Decimal(n: nat): string {
    if n < 10 then [DecimalDigit(n)] else Decimal(n / 10) + [DecimalDigit(n % 10)]
  }

  function DecimalDigit(n: nat): char
    requires n < 10
  {
    '0' + n as char
  }

  lemma {:induction false} DecimalNoNul(n: nat)
    ensures NoNul(Decimal(n))
  {
    if n >= 10 {
      DecimalNoNul(n / 10);
    }
  }

  lemma AuthorizationNoNul(c: Credentials, date: string, hasSource: bool, hasToken: bool, signature: string)
    requires c.Valid() && NoNul(date) && NoNul(signature)
    ensures NoNul(AuthorizationText(c, date, ClaimedNames(hasSource, hasToken), signature))
  {
    ClaimNoNul(hasSource, hasToken);
    hide ClaimedNames;
  }

  lemma ClaimNoNul(hasSource: bool, hasToken: bool)
    ensures NoNul(ClaimedNames(hasSource, hasToken))
  {
    assert NoNul(HOST) && NoNul(CONTENT_HASH) && NoNul(COPY_SOURCE) && NoNul(DATE) && NoNul(SECURITY_TOKEN);
  }

  lemma UriNoNul(r: Request)
    requires r.Valid()
    ensures NoNul(HostOf(r.endpoint))
    ensures NoNul(CanonicalUri(BucketInUri(r.endpoint), r.path)) && NoNul(CanonicalQuery(r.query))
  {}

  lemma LinesAppend(headers: seq<string>, header: string)
    ensures HeaderLines(headers + [header]) == HeaderLines(headers) + header + "\n"
  {
    assert (headers + [header])[..|headers|] == headers;
  }

  lemma HeaderLengths(host: string, hash: string, source: Source, timestamp: string, token: string)
    ensures |HostHeader(host)| == 5 + |host|
    ensures |HashHeader(hash)| == 21 + |hash|
    ensures |SourceHeader(source)| == 20 + |Escape(source.bucket)| + |Escape(source.key)|
    ensures |DateHeader(timestamp)| == 11 + |timestamp|
    ensures |TokenHeader(token)| == 21 + |token|
  {
    hide Escape;
  }

  lemma HeaderLinesLength(host: string, hash: string, source: Option<Source>, timestamp: string, token: Option<string>)
    ensures |HeaderLines(Headers(host, hash, source, timestamp, token))|
         == (6 + |host|) + (22 + |hash|)
            + (if source.Some? then 21 + |Escape(source.value.bucket)| + |Escape(source.value.key)| else 0)
            + (12 + |timestamp|) + (if token.Some? then 22 + |token.value| else 0)
  {
    HeaderLengths(host, hash, if source.Some? then source.value else Source([], []), timestamp,
                  if token.Some? then token.value else []);
    hide HostHeader, HashHeader, SourceHeader, DateHeader, TokenHeader, Escape, HeaderLines;
    var headers: seq<string> := [];
    NoLines();
    LinesAppend(headers, HostHeader(host));
    headers := headers + [HostHeader(host)];
    LinesAppend(headers, HashHeader(hash));
    headers := headers + [HashHeader(hash)];
    if source.Some? {
      LinesAppend(headers, SourceHeader(source.value));
      headers := headers + [SourceHeader(source.value)];
    }
    LinesAppend(headers, DateHeader(timestamp));
    headers := headers + [DateHeader(timestamp)];
    if token.Some? {
      LinesAppend(headers, TokenHeader(token.value));
      headers := headers + [TokenHeader(token.value)];
    }
    assert headers == Headers(host, hash, source, timestamp, token);
  }

  lemma NoLines()
    ensures HeaderLines([]) == []
  {}

  /** Whether a canonical request fits its buffer can be told from the lengths of what it is made of. */
  lemma CanonicalLength(r: Request, payload: seq<byte>)
    requires r.verb != Other && |r.timestamp| == 16
    ensures |r.Canonical(payload)| == r.HeadLength()
  {
    CanonicalNames(r, payload);
    NamesLineAgrees(r.source.Some?, r.credentials.token.Some?);
    var hash := HexText(Digest(payload));
    assert |hash| == 64;
    HeaderLinesLength(HostOf(r.endpoint), hash, r.source, r.timestamp, r.credentials.token);
    hide Digest, HexText, NamesLine, Headers, HeaderLines, Names, NamesText, VerbLine, NameList, HostOf, BucketInUri;
    hide CanonicalUri, CanonicalQuery, Escape;
  }

  lemma CanonicalNames(r: Request, payload: seq<byte>)
    ensures Names(r.SignedHeaders(payload)) == NameList(r.source.Some?, r.credentials.token.Some?)
  {
    NamesOfHeaders(HostOf(r.endpoint), HexText(Digest(payload)), r.source, r.timestamp, r.credentials.token);
    hide Names, NameList, Headers, HostOf;
  }

  /** What is written for the headers of a request is its canonical request. */
  lemma CanonicalIsAssembled(r: Request, payload: seq<byte>)
    requires r.verb != Other && |r.timestamp| == 16 && r.HeadLength() <= SIGNING_SIZE
    ensures |r.Canonical(payload)| <= SIGNING_SIZE
    ensures CutHeaders(r.SignedHeaders(payload)) == r.SignedHeaders(payload)
    ensures r.Canonical(payload)
         == Assembled(r.verb, CanonicalUri(BucketInUri(r.endpoint), r.path), CanonicalQuery(r.query),
                      r.SignedHeaders(payload), r.source.Some?, r.credentials.token.Some?)
  {
    CanonicalLength(r, payload);
    hide Digest, HexText, CanonicalHead, Assembled, Headers, NameList, CutHeaders, HostOf, Names, Request.HeadLength;
    var uri, query := CanonicalUri(BucketInUri(r.endpoint), r.path), CanonicalQuery(r.query);
    HeadersFit(r.verb, uri, query, r.SignedHeaders(payload));
    NamesOfHeaders(HostOf(r.endpoint), HexText(Digest(payload)), r.source, r.timestamp, r.credentials.token);
    AssembledIsCanonical(r.verb, uri, query, r.SignedHeaders(payload), r.source.Some?, r.credentials.token.Some?);
  }

  /** The hash at the end of the canonical request is signed uncut exactly when the buffer has room for it. */
  lemma CutIff(r: Request, payload: seq<byte>, hash: string)
    requires r.verb != Other && |r.timestamp| == 16 && |hash| == 64
    ensures Cut(r.Canonical(payload) + hash, SIGNING_SIZE) == r.Canonical(payload) + hash <==> r.CanonicalFits()
  {
    CanonicalLength(r, payload);
    hide Request.HeadLength, Request.Canonical;
  }

  /** Without any room for it, the hash makes no difference. */
  lemma HashIsLost(r: Request, payload: seq<byte>, hash: string, other: string)
    requires r.verb != Other && |r.timestamp| == 16 && r.HeadLength() >= SIGNING_SIZE - 1
    requires |hash| == 64 && |other| == 64
    ensures RequestHash(r.Canonical(payload), hash) == RequestHash(r.Canonical(payload), other)
  {
    CanonicalLength(r, payload);
    hide Request.HeadLength, Request.Canonical, HexText, Digest, Bytes;
    var head := r.Canonical(payload);
    assert (head + hash)[..SIGNING_SIZE - 1] == head[..SIGNING_SIZE - 1];
    assert (head + other)[..SIGNING_SIZE - 1] == head[..SIGNING_SIZE - 1];
  }

  const LOSING_REQUEST := Request(Endpoint(None, "b", false, 2),
                                  Credentials("k", "s", "r", Some(seq(2846, _ => 't'))), Get, "/", None, None,
                                  seq(16, _ => '0'))

  /** A session token of 2846 characters does that to a request whose URI is accepted. */
  lemma LosingRequest()
    ensures var r := LOSING_REQUEST;
            && r.Valid() && CountedLength(r.endpoint, r.path, r.query) < MAX_URI_LENGTH - 1
            && r.HeadLength() == SIGNING_SIZE && !r.CanonicalFits()
  {}

  /** A request with an accepted URI fits, if copy source and session token leave it the room. */
  lemma AcceptedFits(r: Request)
    requires r.verb != Other
    requires CountedLength(r.endpoint, r.path, r.query) < MAX_URI_LENGTH - 1
    requires r.SourceLength() + r.TokenLength() <= 1788
    ensures r.CanonicalFits()
  {
    hide Escape;
  }

  /** A session token may be too long, whatever the URI. */
  lemma LongTokenOverflows(r: Request)
    requires r.verb != Other && r.credentials.token.Some? && |r.credentials.token.value| >= SIGNING_SIZE - 64 - 207
    ensures !r.CanonicalFits()
  {
    hide Escape;
  }

  lemma StringToSignLength(timestamp: string, region: string, requestHash: string)
    requires |timestamp| == 16 && |requestHash| == 64
    ensures |StringToSign(timestamp, region, "s3", requestHash)| == 124 + |region|
  {}

  /** When nothing is cut, the signature is the prescribed one. */
  lemma SignatureIsStandard(r: Request, payload: seq<byte>)
    requires r.verb != Other && |r.timestamp| == 16 && r.Uncut()
    ensures r.SignatureOf(payload) == r.StandardSignature(payload)
  {
    hide Digest, HexText, Request.Canonical, SigningKey, Bytes, StringToSign, Request.HeadLength, ClaimedNames;
    hide Hmac.HmacSha256;
    var hash := HexText(Digest(payload));
    CutIff(r, payload, hash);
    StringToSignLength(r.timestamp, r.credentials.region, RequestHash(r.Canonical(payload), hash));
  }

  lemma {:induction false} DecimalLength(n: nat, digits: nat)
    requires digits > 0 && n < Power10(digits)
    ensures |Decimal(n)| <= digits
  {
    if n >= 10 {
      DecimalLength(n / 10, digits - 1);
    }
  }

  function Power10(n: nat): nat {
    if n == 0 then 1 else 10 * Power10(n - 1)
  }

  /** A length is a size_t. */
  const SIZE_LIMIT: nat := 0x1_0000_0000_0000_0000

  lemma LengthDigits(n: nat)
    requires n < SIZE_LIMIT
    ensures |Decimal(n)| <= 20
  {
    assert Power10(10) == 10000000000;
    assert Power10(20) == 100000000000000000000;
    DecimalLength(n, 20);
  }

  method HashPayload(postData: array<byte>, postLength: nat) returns (postHash: string)
    requires postLength <= postData.Length
    ensures postHash == HexText(Digest(postData[..postLength])) && NoNul(postHash)
  {
    hide Digest, Holds, HexText;
    var hash := HashBytes(postData, postLength);
    var printed := new char[65];
    PrintHash(hash, printed);
    HexTextNoNul(hash[..]);
    postHash := ReadText(printed, HexText(hash[..]));
  }

  /** Hash the payload, list the headers, hash the request, sign. */
  method SignRequest(r: Request, postData: array<byte>, postLength: nat, headerBuf: array<char>)
    returns (res: int, headers: seq<string>, signature: string)
    requires r.Valid() && postLength <= postData.Length && headerBuf.Length == HEADER_SIZE
    requires r.verb != Other ==> r.HeadLength() <= SIGNING_SIZE
    modifies headerBuf
    ensures res == if r.verb == Other then MS3_ERR_IMPOSSIBLE else MS3_ERR_NONE
    ensures r.verb != Other ==> headers == r.SignedHeaders(old(postData[..postLength]))
    ensures r.verb != Other ==> signature == r.SignatureOf(old(postData[..postLength])) && NoNul(signature)
  {
    hide Digest, Holds, Cut, HexText, Headers, CanonicalHead, Assembled, CutHeaders, Signature, HostOf, BucketInUri;
    hide Request.HeadLength;
    UriNoNul(r);
    ghost var payload := postData[..postLength];
    if r.verb != Other {
      CanonicalIsAssembled(r, payload);
    }
    var postHash := HashPayload(postData, postLength);
    var c := r.credentials;
    headers := BuildSignedHeaders(HostOf(r.endpoint), postHash, r.source, r.timestamp, c.token, headerBuf);
    var sha256Hash := new char[65];
    res := GenerateRequestHash(r.verb, r.path, BucketInUri(r.endpoint), r.query, postHash, headers,
                               r.source.Some?, c.token.Some?, sha256Hash);
    if res != MS3_ERR_NONE {
      return res, headers, [];
    }
    HexTextNoNul(Digest(Bytes(Cut(r.Canonical(payload) + postHash, SIGNING_SIZE))));
    var requestHash := ReadText(sha256Hash, RequestHash(r.Canonical(payload), postHash));
    signature := Sign(c.secret, r.timestamp, c.region, "s3", requestHash);
  }

  /** The headers that are not signed, before each is cut to the size of the header buffer. */
  function UnsignedHeaders(r: Request, length: nat, signature: string): seq<string>
    requires |r.timestamp| == 16
  {
    [r.Authorization(signature), "Transfer-Encoding:"]
    + if r.verb == Put && r.source == None then ["Content-Length:" + Decimal(length)] else []
  }

  lemma AuthorizationTextLength(r: Request, signature: string)
    requires |r.timestamp| == 16 && |signature| == 64
    ensures |r.Authorization(signature)| == r.AuthorizationLength()
  {
    hide ClaimedNames;
  }

  lemma ShortHeadersKept(headers: seq<string>)
    requires forall i :: 0 <= i < |headers| ==> |headers[i]| < HEADER_SIZE
    ensures CutHeaders(headers) == headers
  {}

  lemma UnsignedAreShort(r: Request, length: nat, signature: string)
    requires |r.timestamp| == 16 && |signature| == 64
    requires r.AuthorizationLength() < HEADER_SIZE && length < SIZE_LIMIT
    ensures CutHeaders(UnsignedHeaders(r, length, signature)) == UnsignedHeaders(r, length, signature)
  {
    AuthorizationTextLength(r, signature);
    LengthDigits(length);
    hide CutHeaders, Request.Authorization, Decimal, Request.AuthorizationLength;
    ShortHeadersKept(UnsignedHeaders(r, length, signature));
  }

  /** When nothing is cut, the signature is the prescribed one, and the headers are sent whole. */
  lemma NothingIsCut(r: Request, payload: seq<byte>)
    requires r.verb != Other && |r.timestamp| == 16 && r.Uncut() && |payload| < SIZE_LIMIT
    ensures r.SignatureOf(payload) == r.StandardSignature(payload)
    ensures var headers := UnsignedHeaders(r, |payload|, r.StandardSignature(payload));
            CutHeaders(headers) == headers
  {
    hide CutHeaders, UnsignedHeaders, Request.SignatureOf, Request.HeadLength, Request.AuthorizationLength;
    hide Digest, HexText, Request.Canonical, SigningKey, Bytes, StringToSign, Hmac.HmacSha256;
    SignatureIsStandard(r, payload);
    UnsignedAreShort(r, |payload|, r.StandardSignature(payload));
  }

  /** The second half of build_request_headers. */
  method BuildUnsignedHeaders(r: Request, length: nat, signature: string, headerBuf: array<char>)
    returns (headers: seq<string>)
    requires r.Valid() && NoNul(signature) && headerBuf.Length == HEADER_SIZE
    modifies headerBuf
    ensures headers == CutHeaders(UnsignedHeaders(r, length, signature))
  {
    hide Cut, AuthorizationText, ClaimedNames;
    var c := r.credentials;
    AuthorizationNoNul(c, r.timestamp[..8], r.source.Some?, c.token.Some?, signature);
    var header := FormatHeader(r.Authorization(signature), headerBuf);
    headers := [header];
    header := FormatHeader("Transfer-Encoding:", headerBuf);
    headers := headers + [header];
    if r.verb == Put && r.source == None {
      DecimalNoNul(length);
      header := FormatHeader("Content-Length:" + Decimal(length), headerBuf);
      headers := headers + [header];
    }
  }

  /** build_request_headers */
  method BuildRequestHeaders(r: Request, postData: array<byte>, postLength: nat)
    returns (res: int, headers: seq<string>)
    requires r.Valid() && postLength <= postData.Length
    requires r.verb != Other ==> r.HeadLength() <= SIGNING_SIZE
    ensures res == if r.verb == Other then MS3_ERR_IMPOSSIBLE else MS3_ERR_NONE
    ensures r.verb != Other ==>
              headers == r.SignedHeaders(postData[..postLength])
                         + CutHeaders(UnsignedHeaders(r, postLength, r.SignatureOf(postData[..postLength])))
    ensures r.verb != Other && r.Uncut() && postLength < SIZE_LIMIT ==>
              headers == r.SignedHeaders(postData[..postLength])
                         + UnsignedHeaders(r, postLength, r.StandardSignature(postData[..postLength]))
  {
    hide Request.HeadLength, Request.Uncut, Request.SignedHeaders, Request.SignatureOf, Request.StandardSignature;
    hide CutHeaders, UnsignedHeaders;
    if r.verb != Other && r.Uncut() && postLength < SIZE_LIMIT {
      NothingIsCut(r, postData[..postLength]);
    }
    var headerBuf := new char[HEADER_SIZE];
    var signature;
    res, headers, signature := SignRequest(r, postData, postLength, headerBuf);
    if res == MS3_ERR_NONE {
      var unsigned := BuildUnsignedHeaders(r, postLength, signature, headerBuf);
      headers := headers + unsigned;
    }
  }

  /** The Authorization header names the headers that were signed, but for a copy with a session token. */
  lemma ClaimIsTrue(r: Request, payload: seq<byte>)
    ensures ClaimedNames(r.source.Some?, r.credentials.token.Some?) == NamesText(Names(r.SignedHeaders(payload)))
            <==> !(r.source.Some? && r.credentials.token.Some?)
  {
    NamesOfHeaders(HostOf(r.endpoint), HexText(Digest(payload)), r.source, r.timestamp, r.credentials.token);
    ClaimAgrees(r.source.Some?, r.credentials.token.Some?);
    hide ClaimedNames, NamesText, Names, NameList, Headers;
  }
}
