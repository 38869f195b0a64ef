/** The headers of a request and the text that they are signed as. */
module CanonicalRequest {
  import opened Options
  import opened Errors
  import opened CText
  import opened PercentEncoding
  import opened RequestUri
  import opened Sha256Spec
  import opened Signing
  import Hmac

  const SIGNING_SIZE: nat := 3072

  const HOST := "host"
  const CONTENT_HASH := "x-amz-content-sha256"
  const COPY_SOURCE := "x-amz-copy-source"
  const DATE := "x-amz-date"
  const SECURITY_TOKEN := "x-amz-security-token"

  datatype Verb = Get | Head | Put | Delete | Other

  function VerbLine(verb: Verb): string
    requires verb != Other
  {
    match verb
    case Get => "GET\n"
    case Head => "HEAD\n"
    case Put => "PUT\n"
    case Delete => "DELETE\n"
  }

  // ---- the canonical request of Signature Version 4 ----

  function HeaderName(header: string): string {
    header[..IndexOf(header, ':')]
  }

  function Names(headers: seq<string>): seq<string> {
    seq(|headers|, i requires 0 <= i < |headers| => HeaderName(headers[i]))
  }

  function NamesText(names: seq<string>): string {
    if names == [] then []
    else if |names| == 1 then names[0]
    else NamesText(names[..|names| - 1]) + ";" + names[|names| - 1]
  }

  function HeaderLines(headers: seq<string>): string {
    if headers == [] then [] else HeaderLines(headers[..|headers| - 1]) + headers[|headers| - 1] + "\n"
  }

  function CanonicalUri(bucket: Option<string>, path: string): string {
    if bucket.Some? then "/" + bucket.value + path else path
  }

  function CanonicalQuery(query: Option<string>): string {
    if query.Some? then query.value else []
  }

  /** Everything but the hash of the payload; the signed names are those of the headers. */
  function CanonicalHead(verb: Verb, uri: string, query: string, headers: seq<string>): string
    requires verb != Other
  {
    VerbLine(verb) + uri + "\n" + query + "\n" + HeaderLines(headers) + "\n" + NamesText(Names(headers)) + "\n"
  }

  // ---- the headers ----

  datatype Source = Source(bucket: string, key: string)

  function HostHeader(host: string): string { "host:" + host }
  function HashHeader(hash: string): string { "x-amz-content-sha256:" + hash }
  function SourceHeader(s: Source): string { "x-amz-copy-source:/" + Escape(s.bucket) + "/" + Escape(s.key) }
  function DateHeader(timestamp: string): string { "x-amz-date:" + timestamp }
  function TokenHeader(token: string): string { "x-amz-security-token:" + token }

  function Headers(host: string, hash: string, source: Option<Source>, timestamp: string, token: Option<string>)
    : seq<string>
  {
    [HostHeader(host), HashHeader(hash)]
    + (if source.Some? then [SourceHeader(source.value)] else [])
    + [DateHeader(timestamp)]
    + (if token.Some? then [TokenHeader(token.value)] else [])
  }

  lemma NameBefore(name: string, value: string)
    requires ':' !in name
    ensures HeaderName(name + ":" + value) == name
  {
    var header := name + ":" + value;
    assert header == name + (":" + value);
    IndexAfter(name, ":" + value, ':');
    assert header[..|name|] == name;
  }

  lemma HeaderNames(host: string, hash: string, source: Source, timestamp: string, token: string)
    ensures HeaderName(HostHeader(host)) == "host"
    ensures HeaderName(HashHeader(hash)) == "x-amz-content-sha256"
    ensures HeaderName(SourceHeader(source)) == "x-amz-copy-source"
    ensures HeaderName(DateHeader(timestamp)) == "x-amz-date"
    ensures HeaderName(TokenHeader(token)) == "x-amz-security-token"
  {
    hide HeaderName, Escape;
    NameBefore("host", host);
    assert "host" + ":" + host == HostHeader(host);
    NameBefore("x-amz-content-sha256", hash);
    assert "x-amz-content-sha256" + ":" + hash == HashHeader(hash);
    var place := "/" + Escape(source.bucket) + "/" + Escape(source.key);
    NameBefore("x-amz-copy-source", place);
    assert "x-amz-copy-source" + ":" + place == SourceHeader(source);
    NameBefore("x-amz-date", timestamp);
    assert "x-amz-date" + ":" + timestamp == DateHeader(timestamp);
    NameBefore("x-amz-security-token", token);
    assert "x-amz-security-token" + ":" + token == TokenHeader(token);
  }

  /** The line of names as generate_request_hash writes it, the line break before it included. */
  function NamesLine(hasSource: bool, hasToken: bool): string {
    if hasSource && hasToken then
      "\n" + (HOST + ";" + CONTENT_HASH + ";" + COPY_SOURCE + ";" + DATE + ";" + SECURITY_TOKEN) + "\n"
    else if hasSource then
      "\n" + (HOST + ";" + CONTENT_HASH + ";" + COPY_SOURCE + ";" + DATE) + "\n"
    else if hasToken then
      "\n" + (HOST + ";" + CONTENT_HASH + ";" + DATE + ";" + SECURITY_TOKEN) + "\n"
    else
      "\n" + (HOST + ";" + CONTENT_HASH + ";" + DATE) + "\n"
  }

  /** The same list as build_request_headers writes it into the Authorization header. */
  function ClaimedNames(hasSource: bool, hasToken: bool): string {
    if hasSource && hasToken then
      HOST + ";" + CONTENT_HASH + ";" + COPY_SOURCE + ";" + DATE + ";" + SECURITY_TOKEN + ";" + COPY_SOURCE
    else if hasSource then
      HOST + ";" + CONTENT_HASH + ";" + COPY_SOURCE + ";" + DATE
    else if hasToken then
      HOST + ";" + CONTENT_HASH + ";" + DATE + ";" + SECURITY_TOKEN
    else
      HOST + ";" + CONTENT_HASH + ";" + DATE
  }

  /** The names of the headers that are signed. */
  function NameList(hasSource: bool, hasToken: bool): seq<string> {
    [HOST, CONTENT_HASH]
    + (if hasSource then [COPY_SOURCE] else [])
    + [DATE]
    + (if hasToken then [SECURITY_TOKEN] else [])
  }

  lemma NamesOfHeaders(host: string, hash: string, source: Option<Source>, timestamp: string, token: Option<string>)
    ensures Names(Headers(host, hash, source, timestamp, token)) == NameList(source.Some?, token.Some?)
  {
    HeaderNames(host, hash, if source.Some? then source.value else Source([], []), timestamp,
                if token.Some? then token.value else []);
    hide HeaderName, HostHeader, HashHeader, SourceHeader, DateHeader, TokenHeader;
  }

  lemma NamesTextAppend(names: seq<string>, name: string)
    requires names != []
    ensures NamesText(names + [name]) == NamesText(names) + ";" + name
  {
    assert (names + [name])[..|names|] == names;
  }

  lemma NamesTextOfList(hasSource: bool, hasToken: bool)
    ensures NamesText(NameList(hasSource, hasToken))
         == if hasSource && hasToken then
              HOST + ";" + CONTENT_HASH + ";" + COPY_SOURCE + ";" + DATE + ";" + SECURITY_TOKEN
            else if hasSource then HOST + ";" + CONTENT_HASH + ";" + COPY_SOURCE + ";" + DATE
            else if hasToken then HOST + ";" + CONTENT_HASH + ";" + DATE + ";" + SECURITY_TOKEN
            else HOST + ";" + CONTENT_HASH + ";" + DATE
  {
    var names := [HOST];
    NamesTextAppend(names, CONTENT_HASH);
    names := names + [CONTENT_HASH];
    hide NamesText;
    if hasSource {
      NamesTextAppend(names, COPY_SOURCE);
      names := names + [COPY_SOURCE];
    }
    NamesTextAppend(names, DATE);
    names := names + [DATE];
    if hasToken {
      NamesTextAppend(names, SECURITY_TOKEN);
      names := names + [SECURITY_TOKEN];
    }
    assert names == NameList(hasSource, hasToken);
  }

  /** The line that is written, whatever its kind, lists the names of the headers that are written above it. */
  lemma NamesLineAgrees(hasSource: bool, hasToken: bool)
    ensures NamesLine(hasSource, hasToken) == "\n" + NamesText(NameList(hasSource, hasToken)) + "\n"
  {
    NamesTextOfList(hasSource, hasToken);
    hide NamesText, NameList;
  }

  /** What the Authorization header claims is what was signed, but for a copy with a session token. */
  lemma ClaimAgrees(hasSource: bool, hasToken: bool)
    ensures ClaimedNames(hasSource, hasToken) == NamesText(NameList(hasSource, hasToken)) <==> !(hasSource && hasToken)
    ensures hasSource && hasToken ==>
              ClaimedNames(hasSource, hasToken) == NamesText(NameList(hasSource, hasToken)) + ";x-amz-copy-source"
  {
    NamesTextOfList(hasSource, hasToken);
    OneMore(NamesText(NameList(hasSource, hasToken)));
    hide NamesText, NameList, HOST, CONTENT_HASH, COPY_SOURCE, DATE, SECURITY_TOKEN;
  }

  lemma OneMore(names: string)
    ensures names + ";" + COPY_SOURCE == names + ";x-amz-copy-source"
    ensures names + ";" + COPY_SOURCE != names
  {
    assert ";" + COPY_SOURCE == ";x-amz-copy-source";
    assert names + ";" + COPY_SOURCE == names + (";" + COPY_SOURCE);
  }

  /** The order of character codes, one character at a time. */
  ghost predicate Precedes(a: string, b: string) {
    exists i :: 0 <= i < |b| && i <= |a| && a[..i] == b[..i] && (i == |a| || a[i] < b[i])
  }

  lemma PrecedesAt(a: string, b: string, i: nat)
    requires i < |a| && i < |b| && a[..i] == b[..i] && a[i] < b[i]
    ensures Precedes(a, b)
  {}

  /** Signature Version 4 wants the names in the order of their character codes. */
  lemma NamesAreSorted(hasSource: bool, hasToken: bool, i: nat)
    requires i + 1 < |NameList(hasSource, hasToken)|
    ensures Precedes(NameList(hasSource, hasToken)[i], NameList(hasSource, hasToken)[i + 1])
  {
    PrecedesAt(HOST, CONTENT_HASH, 0);
    PrecedesAt(CONTENT_HASH, COPY_SOURCE, 8);
    PrecedesAt(CONTENT_HASH, DATE, 6);
    PrecedesAt(COPY_SOURCE, DATE, 6);
    PrecedesAt(DATE, SECURITY_TOKEN, 6);
    hide Precedes;
  }

  // ---- generate_request_hash ----

  ghost predicate Written(buffer: seq<char>, pos: nat, text: string) {
    && |buffer| == SIGNING_SIZE
    && pos == |text| <= SIGNING_SIZE
    && Holds(buffer, Cut(text, SIGNING_SIZE))
  }

  method WriteVerb(verb: Verb, signingData: array<char>) returns (res: int, pos: nat)
    requires signingData.Length == SIGNING_SIZE
    modifies signingData
    ensures res == if verb == Other then MS3_ERR_IMPOSSIBLE else MS3_ERR_NONE
    ensures verb != Other ==> Written(signingData[..], pos, VerbLine(verb))
  {
    pos := 0;
    match verb {
      case Get =>
        Snprintf(signingData, 0, SIGNING_SIZE, "GET\n");
        pos := pos + 4;
      case Head =>
        Snprintf(signingData, 0, SIGNING_SIZE, "HEAD\n");
        pos := pos + 5;
      case Put =>
        Snprintf(signingData, 0, SIGNING_SIZE, "PUT\n");
        pos := pos + 4;
      case Delete =>
        Snprintf(signingData, 0, SIGNING_SIZE, "DELETE\n");
        pos := pos + 7;
      case Other =>
        return MS3_ERR_IMPOSSIBLE, pos;
    }
    assert signingData[0..] == signingData[..];
    return MS3_ERR_NONE, pos;
  }

  method WritePath(bucket: Option<string>, path: string, signingData: array<char>, pos: nat, ghost before: string)
    returns (end: nat)
    requires Written(signingData[..], pos, before)
    modifies signingData
    ensures |before + CanonicalUri(bucket, path) + "\n"| <= SIGNING_SIZE
            ==> Written(signingData[..], end, before + CanonicalUri(bucket, path) + "\n")
  {
    hide Holds, Cut;
    ghost var line := CanonicalUri(bucket, path) + "\n";
    if bucket.Some? {
      Append(signingData, pos, "/" + bucket.value + path + "\n", before);
      end := pos + |path| + |bucket.value| + 2;
    } else {
      Append(signingData, pos, path + "\n", before);
      end := pos + |path| + 1;
    }
    assert end == pos + |line|;
    hide CanonicalUri;
    assert before + CanonicalUri(bucket, path) + "\n" == before + line;
  }

  method WriteQuery(query: Option<string>, signingData: array<char>, pos: nat, ghost before: string)
    returns (end: nat)
    requires Written(signingData[..], pos, before)
    modifies signingData
    ensures |before + CanonicalQuery(query) + "\n"| <= SIGNING_SIZE
            ==> Written(signingData[..], end, before + CanonicalQuery(query) + "\n")
  {
    hide Holds, Cut;
    if query.Some? {
      Append(signingData, pos, query.value + "\n", before);
      end := pos + |query.value| + 1;
    } else {
      Append(signingData, pos, "\n", before);
      end := pos + 1;
      assert [] + "\n" == "\n";
    }
    assert before + CanonicalQuery(query) + "\n" == before + (CanonicalQuery(query) + "\n");
  }

  lemma {:induction false} LinesGrow(headers: seq<string>, i: nat)
    requires i <= |headers|
    ensures |HeaderLines(headers[..i])| <= |HeaderLines(headers)|
    decreases |headers| - i
  {
    if i < |headers| {
      assert headers[..i + 1][..i] == headers[..i];
      LinesGrow(headers, i + 1);
    } else {
      assert headers[..i] == headers;
    }
  }

  /** The list has at least the header that the loop looks at before it asks for the next. */
  method WriteHeaders(headers: seq<string>, signingData: array<char>, pos: nat, ghost before: string)
    returns (end: nat)
    requires headers != [] && Written(signingData[..], pos, before)
    requires |before + HeaderLines(headers)| <= SIGNING_SIZE
    modifies signingData
    ensures Written(signingData[..], end, before + HeaderLines(headers))
  {
    hide Holds, Cut, Written;
    end := pos;
    var current := 0;
    assert before + HeaderLines(headers[..0]) == before;
    while true
      invariant current < |headers|
      invariant Written(signingData[..], end, before + HeaderLines(headers[..current]))
      decreases |headers| - current
    {
      LinesGrow(headers, current + 1);
      LineStep(headers, current, before);
      end := WriteHeader(headers[current], signingData, end, before + HeaderLines(headers[..current]));
      current := current + 1;
      if current == |headers| {
        break;
      }
    }
    assert headers[..current] == headers;
  }

  lemma LineStep(headers: seq<string>, i: nat, before: string)
    requires i < |headers|
    ensures before + HeaderLines(headers[..i + 1]) == before + HeaderLines(headers[..i]) + headers[i] + "\n"
  {
    assert headers[..i + 1][..i] == headers[..i];
    var lines := HeaderLines(headers[..i]);
    assert before + (lines + headers[i] + "\n") == before + lines + headers[i] + "\n";
  }

  method WriteHeader(header: string, signingData: array<char>, pos: nat, ghost before: string)
    returns (end: nat)
    requires Written(signingData[..], pos, before) && |before + header + "\n"| <= SIGNING_SIZE
    modifies signingData
    ensures Written(signingData[..], end, before + header + "\n")
  {
    hide Holds, Cut;
    Append(signingData, pos, header + "\n", before);
    assert before + header + "\n" == before + (header + "\n");
    end := pos + |header| + 1;
  }

  method WriteNames(hasSource: bool, hasToken: bool, signingData: array<char>, pos: nat, ghost before: string)
    returns (end: nat)
    requires Written(signingData[..], pos, before)
    modifies signingData
    ensures |before + NamesLine(hasSource, hasToken)| <= SIGNING_SIZE
            ==> Written(signingData[..], end, before + NamesLine(hasSource, hasToken))
  {
    hide Holds, Cut;
    Append(signingData, pos, NamesLine(hasSource, hasToken), before);
    if hasSource && hasToken {
      end := pos + 77;
    } else if hasSource {
      end := pos + 56;
    } else if hasToken {
      end := pos + 59;
    } else {
      end := pos + 38;
    }
  }

  /** What generate_request_hash writes before the hash of the payload. */
  function Assembled(verb: Verb, uri: string, query: string, headers: seq<string>, hasSource: bool, hasToken: bool)
    : string
    requires verb != Other
  {
    VerbLine(verb) + uri + "\n" + query + "\n" + HeaderLines(headers) + NamesLine(hasSource, hasToken)
  }

  lemma AssembledIsCanonical(verb: Verb, uri: string, query: string, headers: seq<string>,
                             hasSource: bool, hasToken: bool)
    requires verb != Other && Names(headers) == NameList(hasSource, hasToken)
    ensures Assembled(verb, uri, query, headers, hasSource, hasToken) == CanonicalHead(verb, uri, query, headers)
  {
    NamesLineAgrees(hasSource, hasToken);
    hide NamesLine, NamesText, HeaderLines, VerbLine, NameList;
    var before := VerbLine(verb) + uri + "\n" + query + "\n" + HeaderLines(headers);
    var names := NamesText(Names(headers));
    assert before + ("\n" + names + "\n") == before + "\n" + names + "\n";
  }

  /** generate_request_hash up to the hashing: every length that is added to `pos` is the length of what was written. */
  method AssembleRequest(verb: Verb, path: string, bucket: Option<string>, query: Option<string>, postHash: string,
                         headers: seq<string>, hasSource: bool, hasToken: bool, signingData: array<char>)
    returns (res: int)
    requires signingData.Length == SIGNING_SIZE && headers != [] && |postHash| == 64
    requires verb != Other ==> |Assembled(verb, CanonicalUri(bucket, path), CanonicalQuery(query), headers,
                                          hasSource, hasToken)| <= SIGNING_SIZE
    modifies signingData
    ensures res == if verb == Other then MS3_ERR_IMPOSSIBLE else MS3_ERR_NONE
    ensures verb != Other ==>
              Holds(signingData[..],
                    Cut(Assembled(verb, CanonicalUri(bucket, path), CanonicalQuery(query), headers,
                                  hasSource, hasToken) + postHash, SIGNING_SIZE))
  {
    hide Holds, Cut, Written, CanonicalUri, CanonicalQuery, HeaderLines, NamesLine, VerbLine;
    var pos;
    res, pos := WriteVerb(verb, signingData);
    if res != MS3_ERR_NONE {
      return;
    }
    ghost var text := VerbLine(verb);
    pos := WritePath(bucket, path, signingData, pos, text);
    text := text + CanonicalUri(bucket, path) + "\n";
    pos := WriteQuery(query, signingData, pos, text);
    text := text + CanonicalQuery(query) + "\n";
    pos := WriteHeaders(headers, signingData, pos, text);
    text := text + HeaderLines(headers);
    pos := WriteNames(hasSource, hasToken, signingData, pos, text);
    text := text + NamesLine(hasSource, hasToken);
    AppendHash(signingData, pos, postHash, text);
  }

  method AppendHash(signingData: array<char>, pos: nat, postHash: string, ghost before: string)
    requires |postHash| == 64 && Written(signingData[..], pos, before)
    modifies signingData
    ensures Holds(signingData[..], Cut(before + postHash, SIGNING_SIZE))
  {
    hide Holds, Cut;
    Append(signingData, pos, FirstChars(postHash, 64), before);
  }

  predicate AllNoNul(texts: seq<string>) {
    forall i :: 0 <= i < |texts| ==> NoNul(texts[i])
  }

  lemma {:induction false} LinesNoNul(headers: seq<string>)
    requires AllNoNul(headers)
    ensures NoNul(HeaderLines(headers))
  {
    if headers != [] {
      LinesNoNul(headers[..|headers| - 1]);
    }
  }

  lemma NamesNoNul(hasSource: bool, hasToken: bool)
    ensures NoNul(NamesLine(hasSource, hasToken))
  {
    assert NoNul(HOST) && NoNul(CONTENT_HASH) && NoNul(COPY_SOURCE) && NoNul(DATE) && NoNul(SECURITY_TOKEN);
  }

  lemma AssembledNoNul(verb: Verb, uri: string, query: string, headers: seq<string>, hasSource: bool, hasToken: bool)
    requires verb != Other && NoNul(uri) && NoNul(query) && AllNoNul(headers)
    ensures NoNul(Assembled(verb, uri, query, headers, hasSource, hasToken))
  {
    LinesNoNul(headers);
    NamesNoNul(hasSource, hasToken);
    hide HeaderLines, NamesLine;
  }

  /** The hash of a canonical request, cut to the size of its buffer. */
  function RequestHash(head: string, payloadHash: string): (r: string)
    ensures |r| == 64
  {
    HexText(Digest(Bytes(Cut(head + payloadHash, SIGNING_SIZE))))
  }

  /** generate_request_hash */
  method GenerateRequestHash(verb: Verb, path: string, bucket: Option<string>, query: Option<string>,
                             postHash: string, headers: seq<string>, hasSource: bool, hasToken: bool,
                             returnHash: array<char>)
    returns (res: int)
    requires headers != [] && |postHash| == 64 && returnHash.Length == 65
    requires NoNul(CanonicalUri(bucket, path)) && NoNul(CanonicalQuery(query)) && NoNul(postHash) && AllNoNul(headers)
    requires verb != Other ==> |Assembled(verb, CanonicalUri(bucket, path), CanonicalQuery(query), headers,
                                          hasSource, hasToken)| <= SIGNING_SIZE
    modifies returnHash
    ensures res == if verb == Other then MS3_ERR_IMPOSSIBLE else MS3_ERR_NONE
    ensures verb != Other ==>
              Holds(returnHash[..],
                    RequestHash(Assembled(verb, CanonicalUri(bucket, path), CanonicalQuery(query), headers,
                                          hasSource, hasToken), postHash))
  {
    hide Holds, Cut, Assembled, CanonicalUri, CanonicalQuery, Digest, Bytes, HexText, AllNoNul;
    var signingData := new char[SIGNING_SIZE];
    res := AssembleRequest(verb, path, bucket, query, postHash, headers, hasSource, hasToken, signingData);
    if res != MS3_ERR_NONE {
      return;
    }
    ghost var head := Assembled(verb, CanonicalUri(bucket, path), CanonicalQuery(query), headers, hasSource, hasToken);
    AssembledNoNul(verb, CanonicalUri(bucket, path), CanonicalQuery(query), headers, hasSource, hasToken);
    assert NoNul(Cut(head + postHash, SIGNING_SIZE));
    var text := ReadText(signingData, Cut(head + postHash, SIGNING_SIZE));
    var hash := HashText(text);
    PrintHash(hash, returnHash);
  }

  /** sha256 over a text. */
  method HashText(text: string) returns (hash: array<byte>)
    ensures fresh(hash) && hash.Length == 32 && hash[..] == Digest(Bytes(text))
  {
    hide Digest, Bytes;
    var data := AsBytes(text);
    hash := HashBytes(data, data.Length);
    assert data[..data.Length] == data[..];
  }

  method HashBytes(data: array<byte>, length: nat) returns (hash: array<byte>)
    requires length <= data.Length
    ensures fresh(hash) && hash.Length == 32 && hash[..] == Digest(data[..length])
  {
    hide Digest;
    hash := new byte[32];
    var rc := Hmac.Hash(data, length, hash);
    assert hash[..] == Digest(data[..length]) + [];
  }

  // ---- the canonical request says everything once ----

  predicate OneLine(s: string) {
    '\n' !in s
  }

  predicate OneLineEach(texts: seq<string>) {
    forall i :: 0 <= i < |texts| ==> OneLine(texts[i])
  }

  function VerbName(verb: Verb): string
    requires verb != Other
  {
    match verb
    case Get => "GET"
    case Head => "HEAD"
    case Put => "PUT"
    case Delete => "DELETE"
  }

  lemma VerbNames(verb: Verb, other: Verb)
    requires verb != Other && other != Other
    ensures VerbLine(verb) == VerbName(verb) + "\n" && OneLine(VerbName(verb))
    ensures VerbName(verb) == VerbName(other) <==> verb == other
    ensures VerbName(Get) == "GET" && VerbName(Head) == "HEAD" && VerbName(Put) == "PUT" && VerbName(Delete) == "DELETE"
  {
    assert VerbName(verb)[0] == VerbName(other)[0] <==> verb == other;
  }

  lemma {:induction false} FieldsOfLines(headers: seq<string>, tail: string)
    requires OneLineEach(headers)
    ensures Fields(HeaderLines(headers) + tail, '\n') == headers + Fields(tail, '\n')
  {
    hide Fields;
    if headers == [] {
      assert HeaderLines(headers) + tail == tail;
    } else {
      var front, last := headers[..|headers| - 1], headers[|headers| - 1];
      FieldsOfLines(front, last + "\n" + tail);
      assert HeaderLines(headers) + tail == HeaderLines(front) + (last + "\n" + tail);
      assert OneLine(last);
      FieldsFirst(last, tail, '\n');
      assert front + ([last] + Fields(tail, '\n')) == headers + Fields(tail, '\n');
    }
  }

  lemma FieldsOfThree(a: string, b: string, c: string, rest: string)
    requires OneLine(a) && OneLine(b) && OneLine(c)
    ensures Fields(a + "\n" + (b + "\n" + (c + "\n" + rest)), '\n') == [a, b, c] + Fields(rest, '\n')
  {
    hide Fields;
    FieldsFirst(c, rest, '\n');
    FieldsFirst(b, c + "\n" + rest, '\n');
    FieldsFirst(a, b + "\n" + (c + "\n" + rest), '\n');
    assert [a] + ([b] + ([c] + Fields(rest, '\n'))) == [a, b, c] + Fields(rest, '\n');
  }

  /** The empty line, the names, and the hash of the payload. */
  function Ending(headers: seq<string>, hash: string): string {
    "\n" + NamesText(Names(headers)) + "\n" + hash
  }

  lemma HeadShape(verb: Verb, uri: string, query: string, headers: seq<string>, hash: string)
    requires verb != Other
    ensures CanonicalHead(verb, uri, query, headers) + hash
         == VerbName(verb) + "\n" + (uri + "\n" + (query + "\n" + (HeaderLines(headers) + Ending(headers, hash))))
  {
    VerbNames(verb, verb);
    hide NamesText, Names, HeaderLines, VerbName, VerbLine;
    var name, lines, names := VerbName(verb), HeaderLines(headers), NamesText(Names(headers));
    RegroupTail(lines, names, hash);
    RegroupHead(name, uri, query, lines, "\n" + names + "\n", hash);
  }

  lemma RegroupTail(lines: string, names: string, hash: string)
    ensures lines + ("\n" + names + "\n") + hash == lines + ("\n" + names + "\n" + hash)
  {}

  lemma RegroupHead(name: string, uri: string, query: string, lines: string, names: string, hash: string)
    ensures name + "\n" + uri + "\n" + query + "\n" + lines + names + hash
         == name + "\n" + (uri + "\n" + (query + "\n" + (lines + names + hash)))
  {}

  lemma {:induction false} NamesOneLine(names: seq<string>)
    requires OneLineEach(names)
    ensures OneLine(NamesText(names))
  {
    if |names| == 1 {
      assert OneLine(names[0]);
    } else if names != [] {
      NamesOneLine(names[..|names| - 1]);
      assert OneLine(names[|names| - 1]);
    }
  }

  lemma HeaderNamesOneLine(headers: seq<string>)
    requires OneLineEach(headers)
    ensures OneLine(NamesText(Names(headers)))
  {
    forall i | 0 <= i < |Names(headers)|
      ensures OneLine(Names(headers)[i])
    {
      assert OneLine(headers[i]);
    }
    NamesOneLine(Names(headers));
  }

  lemma FieldsAfterBreak(rest: string, c: char)
    ensures Fields([c] + rest, c) == [[]] + Fields(rest, c)
  {
    assert ([c] + rest)[1..] == rest;
  }

  lemma RegroupFour(a: string, b: string, c: string, d: string)
    ensures a + b + c + d == a + (b + c + d)
  {}

  lemma FieldsOfEnding(names: string, hash: string, c: char)
    requires c !in names && c !in hash
    ensures Fields([c] + names + [c] + hash, c) == [[], names, hash]
  {
    hide Fields;
    RegroupFour([c], names, [c], hash);
    FieldsAfterBreak(names + [c] + hash, c);
    FieldsFirst(names, hash, c);
    FieldsOfOne(hash, c);
  }

  lemma EndingFields(headers: seq<string>, hash: string)
    requires OneLineEach(headers) && OneLine(hash)
    ensures Fields(Ending(headers, hash), '\n') == [[], NamesText(Names(headers)), hash]
  {
    HeaderNamesOneLine(headers);
    hide Fields, NamesText, Names, OneLineEach;
    FieldsOfEnding(NamesText(Names(headers)), hash, '\n');
  }

  /** One request's canonical text, as its lines. */
  lemma CanonicalLines(verb: Verb, uri: string, query: string, headers: seq<string>, hash: string)
    requires verb != Other && OneLine(uri) && OneLine(query) && OneLineEach(headers) && OneLine(hash)
    ensures Fields(CanonicalHead(verb, uri, query, headers) + hash, '\n')
         == [VerbName(verb), uri, query] + headers + [[], NamesText(Names(headers)), hash]
  {
    HeadShape(verb, uri, query, headers, hash);
    VerbNames(verb, verb);
    EndingFields(headers, hash);
    FieldsOfLines(headers, Ending(headers, hash));
    hide Fields, NamesText, Names, HeaderLines, VerbName, VerbLine, CanonicalHead, Ending, OneLine;
    FieldsOfThree(VerbName(verb), uri, query, HeaderLines(headers) + Ending(headers, hash));
  }

  /** Requests that differ in any part that is signed have different canonical texts. */
  lemma {:induction false} CanonicalInjective(verb: Verb, uri: string, query: string, headers: seq<string>, hash: string,
                           verb': Verb, uri': string, query': string, headers': seq<string>, hash': string)
    requires verb != Other && OneLine(uri) && OneLine(query) && OneLineEach(headers) && OneLine(hash)
    requires verb' != Other && OneLine(uri') && OneLine(query') && OneLineEach(headers') && OneLine(hash')
    ensures CanonicalHead(verb, uri, query, headers) + hash == CanonicalHead(verb', uri', query', headers') + hash'
            <==> verb == verb' && uri == uri' && query == query' && headers == headers' && hash == hash'
  {
    CanonicalLines(verb, uri, query, headers, hash);
    CanonicalLines(verb', uri', query', headers', hash');
    VerbNames(verb, verb');
    hide Fields, CanonicalHead, NamesText, Names, OneLine, VerbName, VerbLine;
    var end, end' := [[], NamesText(Names(headers)), hash], [[], NamesText(Names(headers')), hash'];
    if CanonicalHead(verb, uri, query, headers) + hash == CanonicalHead(verb', uri', query', headers') + hash' {
      SameParts([VerbName(verb), uri, query], headers, end, [VerbName(verb'), uri', query'], headers', end');
    }
  }

  lemma SameParts(a: seq<string>, b: seq<string>, c: seq<string>, a': seq<string>, b': seq<string>, c': seq<string>)
    requires a + b + c == a' + b' + c' && |a| == |a'| == 3 && |c| == |c'| == 3
    ensures a[0] == a'[0] && a[1] == a'[1] && a[2] == a'[2] && b == b' && c[2] == c'[2]
  {
    var all := a + b + c;
    assert a == all[..3] && a' == (a' + b' + c')[..3];
    assert b == all[3..3 + |b|] && b' == (a' + b' + c')[3..3 + |b'|];
    assert c == all[3 + |b|..] && c' == (a' + b' + c')[3 + |b'|..];
  }

  /** With a line break inside, one part can be read as two: other requests, the same text. */
  lemma LineBreakConfuses(verb: Verb, a: string, b: string, c: string, headers: seq<string>)
    requires verb != Other
    ensures CanonicalHead(verb, a + "\n" + b, c, headers) == CanonicalHead(verb, a, b + "\n" + c, headers)
  {
    hide VerbLine, HeaderLines, NamesText, Names;
    assert VerbLine(verb) + (a + "\n" + b) + "\n" + c == VerbLine(verb) + a + "\n" + (b + "\n" + c);
  }
}
