/** The query string and the URI of a request. */
module RequestUri {
  import opened Options
  import opened Errors
  import opened CText
  import opened PercentEncoding
  import opened ObjectPath

  const QUERY_SIZE: nat := 3072
  const MAX_URI_LENGTH: nat := 1024
  const DEFAULT_DOMAIN := "s3.amazonaws.com"

  datatype Param = Param(name: string, value: string)

  function PageParams(continuation: Option<string>, version: int): seq<Param> {
    if version == 2 then
      (if continuation.Some? then [Param("continuation-token", continuation.value)] else [])
      + [Param("list-type", "2")]
    else if continuation.Some? then [Param("marker", continuation.value)]
    else []
  }

  /** What a listing asks for. */
  function Params(prefix: Option<string>, continuation: Option<string>, version: int, delimiter: bool): seq<Param> {
    (if delimiter then [Param("delimiter", "/")] else [])
    + PageParams(continuation, version)
    + (if prefix.Some? then [Param("prefix", prefix.value)] else [])
  }

  function Joint(before: string, text: string): string {
    if before == [] then text else before + "&" + text
  }

  function Assignment(p: Param): string {
    p.name + "=" + Escape(p.value)
  }

  function QueryText(params: seq<Param>): string {
    if params == [] then []
    else Joint(QueryText(params[..|params| - 1]), Assignment(params[|params| - 1]))
  }

  // ---- reading a query string ----

  function IndexOf(s: string, c: char): (n: nat)
    ensures n <= |s| && c !in s[..n] && (n < |s| ==> s[n] == c)
  {
    if s == [] || s[0] == c then 0 else 1 + IndexOf(s[1..], c)
  }

  /** The pieces between the separators, empty ones included. */
  function Fields(s: string, c: char): (r: seq<string>)
    ensures r != []
    decreases |s|
  {
    var n := IndexOf(s, c);
    if n < |s| then [s[..n]] + Fields(s[n + 1..], c) else [s]
  }

  function ReadParam(s: string): Param {
    var n := IndexOf(s, '=');
    Param(s[..n], if n < |s| then Unescape(s[n + 1..]) else [])
  }

  function ReadEach(fields: seq<string>): seq<Param> {
    seq(|fields|, i requires 0 <= i < |fields| => ReadParam(fields[i]))
  }

  function ReadQuery(s: string): seq<Param> {
    if s == [] then [] else ReadEach(Fields(s, '&'))
  }

  lemma IndexAfter(s: string, rest: string, c: char)
    requires c !in s && (rest != [] ==> rest[0] == c)
    ensures IndexOf(s + rest, c) == |s|
  {
    if s == [] {
      assert s + rest == rest;
    } else {
      assert (s + rest)[1..] == s[1..] + rest;
      IndexAfter(s[1..], rest, c);
    }
  }

  lemma FieldsFirst(a: string, rest: string, c: char)
    requires c !in a
    ensures Fields(a + [c] + rest, c) == [a] + Fields(rest, c)
  {
    var s := a + [c] + rest;
    assert s == a + ([c] + rest);
    IndexAfter(a, [c] + rest, c);
    assert s[..|a|] == a && s[|a| + 1..] == rest;
  }

  lemma FieldsOfOne(a: string, c: char)
    requires c !in a
    ensures Fields(a, c) == [a]
  {
    IndexAfter(a, [], c);
    assert a + [] == a;
  }

  lemma FieldsAppendStep(first: string, rest: string, b: string, c: char)
    requires c !in first && Fields(rest + [c] + b, c) == Fields(rest, c) + Fields(b, c)
    ensures Fields(first + [c] + rest + [c] + b, c) == Fields(first + [c] + rest, c) + Fields(b, c)
  {
    hide Fields;
    FieldsFirst(first, rest, c);
    FieldsFirst(first, rest + [c] + b, c);
    assert first + [c] + (rest + [c] + b) == first + [c] + rest + [c] + b;
    assert [first] + (Fields(rest, c) + Fields(b, c)) == ([first] + Fields(rest, c)) + Fields(b, c);
  }

  /** A separator separates: no field spans one. */
  lemma {:induction false} FieldsAppend(a: string, b: string, c: char)
    ensures Fields(a + [c] + b, c) == Fields(a, c) + Fields(b, c)
    decreases |a|
  {
    hide Fields;
    var n := IndexOf(a, c);
    if n < |a| {
      var first, rest := a[..n], a[n + 1..];
      FieldsAppend(rest, b, c);
      FieldsAppendStep(first, rest, b, c);
      assert a == first + [c] + rest;
    } else {
      assert a[..n] == a;
      FieldsFirst(a, b, c);
      FieldsOfOne(a, c);
    }
  }

  predicate PlainName(s: string) {
    s != [] && forall i :: 0 <= i < |s| ==> Unreserved(s[i])
  }

  predicate GoodParams(params: seq<Param>) {
    forall i :: 0 <= i < |params| ==> PlainName(params[i].name) && CString(params[i].value)
  }

  lemma NameCharacters(s: string)
    requires PlainName(s)
    ensures '=' !in s && '&' !in s
  {}

  lemma ValueCharacters(s: string)
    requires CString(s)
    ensures '&' !in Escape(s)
  {
    EscapedCharacters(s);
    hide Escape, CString;
    forall i | 0 <= i < |Escape(s)|
      ensures Escape(s)[i] != '&'
    {}
  }

  lemma AssignmentReads(p: Param)
    requires PlainName(p.name) && CString(p.value)
    ensures ReadParam(Assignment(p)) == p && '&' !in Assignment(p)
  {
    NameCharacters(p.name);
    ValueCharacters(p.value);
    UnescapeWhole(p.value);
    hide Escape, Unescape, PlainName, CString, IndexOf;
    var tail := "=" + Escape(p.value);
    assert Assignment(p) == p.name + tail;
    IndexAfter(p.name, tail, '=');
    assert Assignment(p)[..|p.name|] == p.name;
    assert Assignment(p)[|p.name| + 1..] == Escape(p.value);
  }

  lemma ReadEachAppend(a: seq<string>, b: string)
    ensures ReadEach(a + [b]) == ReadEach(a) + [ReadParam(b)]
  {}

  lemma FieldsOfAssignment(p: Param)
    requires PlainName(p.name) && CString(p.value)
    ensures Assignment(p) != [] && Fields(Assignment(p), '&') == [Assignment(p)]
    ensures ReadEach([Assignment(p)]) == [p]
  {
    AssignmentReads(p);
    assert Assignment(p) != [];
    hide Assignment, ReadParam;
    FieldsOfOne(Assignment(p), '&');
  }

  lemma FieldsOfJoint(before: string, params: seq<Param>, p: Param)
    requires before != [] && ReadEach(Fields(before, '&')) == params && PlainName(p.name) && CString(p.value)
    ensures ReadEach(Fields(Joint(before, Assignment(p)), '&')) == params + [p]
  {
    hide Fields, ReadEach, ReadParam, Assignment, PlainName, CString;
    FieldsOfAssignment(p);
    AssignmentReads(p);
    FieldsAppend(before, Assignment(p), '&');
    ReadEachAppend(Fields(before, '&'), Assignment(p));
  }

  lemma {:induction false} FieldsOfQuery(params: seq<Param>)
    requires GoodParams(params) && params != []
    ensures QueryText(params) != [] && ReadEach(Fields(QueryText(params), '&')) == params
  {
    var front, last := params[..|params| - 1], params[|params| - 1];
    hide Assignment, Fields, ReadParam, ReadEach, PlainName, CString;
    FieldsOfAssignment(last);
    if front == [] {
      assert params == [last];
    } else {
      FieldsOfQuery(front);
      FieldsOfJoint(QueryText(front), front, last);
      assert front + [last] == params;
    }
  }

  /** Reading the query gives every parameter back, in order and unchanged. */
  lemma {:induction false} QueryRoundTrip(params: seq<Param>)
    requires GoodParams(params)
    ensures ReadQuery(QueryText(params)) == params
  {
    if params != [] {
      FieldsOfQuery(params);
    }
  }

  /** The value of the first parameter with the name. */
  function ValueOf(params: seq<Param>, name: string): Option<string> {
    if params == [] then None else if params[0].name == name then Some(params[0].value) else ValueOf(params[1..], name)
  }

  /** What a server finds in the query of a listing, by name. */
  lemma ListingReads(prefix: Option<string>, continuation: Option<string>, version: int, delimiter: bool)
    requires (prefix.Some? ==> CString(prefix.value)) && (continuation.Some? ==> CString(continuation.value))
    ensures var params := ReadQuery(QueryText(Params(prefix, continuation, version, delimiter)));
            && ValueOf(params, "prefix") == prefix
            && ValueOf(params, "delimiter") == (if delimiter then Some("/") else None)
            && ValueOf(params, "marker") == (if version == 2 then None else continuation)
            && ValueOf(params, "continuation-token") == (if version == 2 then continuation else None)
            && ValueOf(params, "list-type") == (if version == 2 then Some("2") else None)
  {
    ParamsAreGood(prefix, continuation, version, delimiter);
    QueryRoundTrip(Params(prefix, continuation, version, delimiter));
    hide ReadQuery, QueryText, CString, GoodParams;
    ParamsSay(prefix, continuation, version, delimiter, "prefix");
    ParamsSay(prefix, continuation, version, delimiter, "delimiter");
    ParamsSay(prefix, continuation, version, delimiter, "marker");
    ParamsSay(prefix, continuation, version, delimiter, "continuation-token");
    ParamsSay(prefix, continuation, version, delimiter, "list-type");
  }

  lemma ExampleParams()
    ensures Assignment(Param("delimiter", "/")) == "delimiter=%2F"
    ensures Assignment(Param("continuation-token", "t")) == "continuation-token=t"
    ensures Assignment(Param("list-type", "2")) == "list-type=2"
    ensures Assignment(Param("prefix", "a/b")) == "prefix=a%2Fb" && Assignment(Param("marker", "t")) == "marker=t"
  {
    assert Escape("t") == "t" && Escape("2") == "2" && Escape("/") == "%2F";
    assert "a/b"[1..] == "/b" && "/b"[1..] == "b";
    assert Escape("b") == "b" && Escape("/b") == "%2Fb" && Escape("a/b") == "a%2Fb";
    hide Escape;
  }

  lemma QueryOfNone()
    ensures QueryText([]) == []
  {}

  /** A query in full. */
  lemma QueryExample()
    ensures QueryText(Params(Some("a/b"), Some("t"), 2, true))
         == "delimiter=%2F" + "&" + "continuation-token=t" + "&" + "list-type=2" + "&" + "prefix=a%2Fb"
    ensures QueryText(Params(Some("a/b"), Some("t"), 1, false)) == "marker=t" + "&" + "prefix=a%2Fb"
  {
    ExampleParams();
    QueryOfNone();
    var a, b, c := Param("delimiter", "/"), Param("continuation-token", "t"), Param("list-type", "2");
    var p, m := Param("prefix", "a/b"), Param("marker", "t");
    assert Params(Some("a/b"), Some("t"), 2, true) == [] + [a] + [b] + [c] + [p];
    assert Params(Some("a/b"), Some("t"), 1, false) == [] + [m] + [p];
    hide QueryText, Assignment, Params;
    QueryLast([], a);
    QueryLast([] + [a], b);
    QueryLast([] + [a] + [b], c);
    QueryLast([] + [a] + [b] + [c], p);
    QueryLast([], m);
    QueryLast([] + [m], p);
  }

  lemma ValueAppend(a: seq<Param>, b: seq<Param>, name: string)
    ensures ValueOf(a + b, name) == if ValueOf(a, name).Some? then ValueOf(a, name) else ValueOf(b, name)
  {
    if a == [] {
      assert a + b == b;
    } else {
      assert (a + b)[1..] == a[1..] + b;
      ValueAppend(a[1..], b, name);
    }
  }

  lemma ValueOfOne(p: Param, name: string)
    ensures ValueOf([p], name) == if p.name == name then Some(p.value) else None
  {
    assert [p][1..] == [];
  }

  lemma ParamsSay(prefix: Option<string>, continuation: Option<string>, version: int, delimiter: bool, name: string)
    ensures ValueOf(Params(prefix, continuation, version, delimiter), name) ==
            if delimiter && name == "delimiter" then Some("/")
            else if version == 2 && name == "continuation-token" && continuation.Some? then continuation
            else if version == 2 && name == "list-type" then Some("2")
            else if version != 2 && name == "marker" && continuation.Some? then continuation
            else if name == "prefix" then prefix
            else None
  {
    var first := if delimiter then [Param("delimiter", "/")] else [];
    var page := PageParams(continuation, version);
    var last := if prefix.Some? then [Param("prefix", prefix.value)] else [];
    ValueAppend(first, page, name);
    ValueAppend(first + page, last, name);
    ValueOfOne(Param("delimiter", "/"), name);
    ValueOfOne(Param("continuation-token", if continuation.Some? then continuation.value else []), name);
    ValueOfOne(Param("list-type", "2"), name);
    ValueOfOne(Param("marker", if continuation.Some? then continuation.value else []), name);
    ValueOfOne(Param("prefix", if prefix.Some? then prefix.value else []), name);
    if continuation.Some? {
      ValueAppend([Param("continuation-token", continuation.value)], [Param("list-type", "2")], name);
    }
    hide ValueOf;
  }

  lemma {:induction false} QueryNoNul(params: seq<Param>)
    requires GoodParams(params)
    ensures NoNul(QueryText(params))
  {
    if params != [] {
      var last := params[|params| - 1];
      QueryNoNul(params[..|params| - 1]);
      EscapedCharacters(last.value);
      assert forall i :: 0 <= i < |Assignment(last)| ==> Assignment(last)[i] != '\0';
    }
  }

  lemma PlainNames()
    ensures PlainName("delimiter") && PlainName("continuation-token") && PlainName("list-type")
    ensures PlainName("marker") && PlainName("prefix")
  {}

  lemma ParamsAreGood(prefix: Option<string>, continuation: Option<string>, version: int, delimiter: bool)
    requires (prefix.Some? ==> CString(prefix.value)) && (continuation.Some? ==> CString(continuation.value))
    ensures GoodParams(Params(prefix, continuation, version, delimiter))
  {
    PlainNames();
    hide PlainName;
  }

  lemma QueryLast(params: seq<Param>, p: Param)
    ensures QueryText(params + [p]) == Joint(QueryText(params), Assignment(p))
  {
    assert (params + [p])[..|params|] == params;
  }

  // ---- src/request.c ----

  method AppendQuery(queryBuffer: array<char>, text: string, ghost before: string)
    requires queryBuffer.Length == QUERY_SIZE
    requires Holds(queryBuffer[..], Cut(before, QUERY_SIZE)) && NoNul(before)
    modifies queryBuffer
    ensures Holds(queryBuffer[..], Cut(Joint(before, text), QUERY_SIZE))
  {
    ghost var held := Cut(before, QUERY_SIZE);
    assert queryBuffer[0..] == queryBuffer[..];
    CutNoNul(before, QUERY_SIZE);
    hide Holds;
    var length := StrLen(queryBuffer, 0, held);
    if length != 0 {
      CutAgain(held, QUERY_SIZE);
      Append(queryBuffer, length, "&" + text, held);
      CutTwice(before, "&" + text, QUERY_SIZE);
      assert before + ("&" + text) == Joint(before, text);
    } else {
      Snprintf(queryBuffer, 0, QUERY_SIZE, text);
      assert queryBuffer[0..] == queryBuffer[..];
    }
  }

  lemma NoQuery(buffer: seq<char>)
    requires buffer != [] && buffer[0] == '\0'
    ensures Holds(buffer, Cut(QueryText([]), QUERY_SIZE))
  {}

  lemma HoldsNoQuery(buffer: seq<char>)
    requires buffer != [] && buffer[0] == '\0'
    ensures HoldsQuery(buffer, [])
  {
    NoQuery(buffer);
  }

  lemma JointTwice(before: string, a: string, b: string)
    requires a != []
    ensures Joint(before, a + "&" + b) == Joint(Joint(before, a), b)
  {
    if before != [] {
      assert before + "&" + (a + "&" + b) == (before + "&" + a) + "&" + b;
    }
  }

  lemma FixedParams()
    ensures Assignment(Param("delimiter", "/")) == "delimiter=%2F"
    ensures Assignment(Param("list-type", "2")) == "list-type=2"
  {
    EscapeOne('/');
    EscapeOne('2');
    hide Escape;
  }

  lemma EscapeOne(c: char)
    ensures Escape([c]) == EscapeChar(c)
  {
    assert Escape([]) == [];
    assert EscapeChar(c) + [] == EscapeChar(c);
  }

  /** The buffer holds the query for these parameters, as far as it fits. */
  ghost predicate HoldsQuery(buffer: seq<char>, params: seq<Param>) {
    GoodParams(params) && Holds(buffer, Cut(QueryText(params), QUERY_SIZE))
  }

  method AppendParam(queryBuffer: array<char>, text: string, ghost p: Param, ghost done: seq<Param>)
    requires queryBuffer.Length == QUERY_SIZE && HoldsQuery(queryBuffer[..], done)
    requires PlainName(p.name) && CString(p.value) && text == Assignment(p)
    modifies queryBuffer
    ensures HoldsQuery(queryBuffer[..], done + [p])
  {
    hide Holds, Cut, QueryText, PlainName, CString, Assignment;
    QueryNoNul(done);
    AppendQuery(queryBuffer, text, QueryText(done));
    QueryLast(done, p);
  }

  /** The token and the list type are written by one call. */
  method AppendToken(queryBuffer: array<char>, token: string, ghost done: seq<Param>)
    requires queryBuffer.Length == QUERY_SIZE && HoldsQuery(queryBuffer[..], done) && CString(token)
    modifies queryBuffer
    ensures HoldsQuery(queryBuffer[..], done + [Param("continuation-token", token)] + [Param("list-type", "2")])
  {
    PlainNames();
    FixedParams();
    hide Holds, Cut, QueryText, PlainName, Escape;
    QueryNoNul(done);
    var encoded := Escape(token);
    ghost var first, second := Param("continuation-token", token), Param("list-type", "2");
    AppendQuery(queryBuffer, "continuation-token=" + encoded + "&list-type=2", QueryText(done));
    QueryLast(done, first);
    QueryLast(done + [first], second);
    JointTwice(QueryText(done), Assignment(first), Assignment(second));
    assert Assignment(first) + "&" + Assignment(second) == "continuation-token=" + encoded + "&list-type=2";
  }

  method AppendPage(queryBuffer: array<char>, continuation: Option<string>, version: int, ghost done: seq<Param>)
    requires queryBuffer.Length == QUERY_SIZE && HoldsQuery(queryBuffer[..], done)
    requires continuation.Some? ==> CString(continuation.value)
    modifies queryBuffer
    ensures HoldsQuery(queryBuffer[..], done + PageParams(continuation, version))
  {
    PlainNames();
    FixedParams();
    hide HoldsQuery, PlainName, Escape;
    if version == 2 {
      if continuation.Some? {
        AppendToken(queryBuffer, continuation.value, done);
        assert done + PageParams(continuation, version)
            == done + [Param("continuation-token", continuation.value)] + [Param("list-type", "2")];
      } else {
        AppendParam(queryBuffer, "list-type=2", Param("list-type", "2"), done);
        assert PageParams(continuation, version) == [Param("list-type", "2")];
      }
    } else if continuation.Some? {
      var encoded := Escape(continuation.value);
      AppendParam(queryBuffer, "marker=" + encoded, Param("marker", continuation.value), done);
    } else {
      assert done + PageParams(continuation, version) == done;
    }
  }

  /** generate_query */
  method GenerateQuery(prefix: Option<string>, continuation: Option<string>, version: int, delimiter: bool,
                       queryBuffer: array<char>)
    requires queryBuffer.Length == QUERY_SIZE
    requires (prefix.Some? ==> CString(prefix.value)) && (continuation.Some? ==> CString(continuation.value))
    modifies queryBuffer
    ensures HoldsQuery(queryBuffer[..], Params(prefix, continuation, version, delimiter))
  {
    PlainNames();
    FixedParams();
    hide HoldsQuery, PlainName, Escape, PageParams, Cut;
    queryBuffer[0] := '\0';
    HoldsNoQuery(queryBuffer[..]);
    ghost var done: seq<Param> := [];
    if delimiter {
      AppendParam(queryBuffer, "delimiter=%2F", Param("delimiter", "/"), done);
      done := done + [Param("delimiter", "/")];
      assert done == [Param("delimiter", "/")];
    }
    AppendPage(queryBuffer, continuation, version, done);
    done := done + PageParams(continuation, version);
    if prefix.Some? {
      var encoded := Escape(prefix.value);
      AppendParam(queryBuffer, "prefix=" + encoded, Param("prefix", prefix.value), done);
    } else {
      assert done + [] == done;
    }
  }

  /** Where the requests go. */
  datatype Endpoint = Endpoint(baseDomain: Option<string>, bucket: string, useHttp: bool, protocolVersion: int) {
    function Domain(): string {
      if baseDomain.Some? then baseDomain.value else DEFAULT_DOMAIN
    }

    function Prefix(): string {
      (if useHttp then "http" else "https") + "://"
      + if protocolVersion == 1 then Domain() + "/" + bucket else bucket + "." + Domain()
    }

    ghost predicate Valid() {
      NoNul(Domain()) && NoNul(bucket)
    }
  }

  function Uri(e: Endpoint, path: string, query: Option<string>): string {
    e.Prefix() + (path + Tail(query))
  }

  function Tail(query: Option<string>): string {
    if query.Some? then "?" + query.value else []
  }

  function CountedLength(e: Endpoint, path: string, query: Option<string>): nat {
    10 + |e.Domain()| + |e.bucket| + |path| + if query.Some? then |query.value| else 0
  }

  /** The 10 that the length check starts from covers the longest scheme and every separator. */
  lemma UriLength(e: Endpoint, path: string, query: Option<string>)
    ensures |Uri(e, path, query)| <= CountedLength(e, path, query)
    ensures !e.useHttp && query.Some? ==> |Uri(e, path, query)| == CountedLength(e, path, query)
  {}

  /** The longest URI over https with a query that is accepted has 1022 characters. */
  lemma AcceptedLength(e: Endpoint, path: string, query: Option<string>)
    requires !e.useHttp && query.Some?
    ensures CountedLength(e, path, query) < MAX_URI_LENGTH - 1 <==> |Uri(e, path, query)| <= 1022
  {
    UriLength(e, path, query);
    hide Uri, CountedLength;
  }

  /** build_request_uri: the URI that the transfer is given, or an error. */
  method BuildRequestUri(e: Endpoint, path: string, query: Option<string>) returns (res: int, uri: string)
    requires e.Valid() && NoNul(path) && (query.Some? ==> NoNul(query.value))
    ensures res == if CountedLength(e, path, query) >= MAX_URI_LENGTH - 1 then MS3_ERR_URI_TOO_LONG else MS3_ERR_NONE
    ensures res == MS3_ERR_NONE ==> uri == Uri(e, path, query)
  {
    var uriBuffer := new char[MAX_URI_LENGTH];
    if CountedLength(e, path, query) >= MAX_URI_LENGTH - 1 {
      return MS3_ERR_URI_TOO_LONG, [];
    }
    UriLength(e, path, query);
    var text := Uri(e, path, query);
    Snprintf(uriBuffer, 0, MAX_URI_LENGTH - 1, text);
    var length := StrLen(uriBuffer, 0, text);
    assert uriBuffer[0..] == uriBuffer[..];
    return MS3_ERR_NONE, uriBuffer[..length];
  }

  /** What a list command asks for. */
  datatype ListingQuery =
    ListingQuery(prefix: Option<string>, continuation: Option<string>, version: int, delimiter: bool)
  {
    function ToParams(): seq<Param> {
      Params(prefix, continuation, version, delimiter)
    }

    ghost predicate Valid() {
      (prefix.Some? ==> CString(prefix.value)) && (continuation.Some? ==> CString(continuation.value))
    }
  }

  function QueryOf(listing: Option<ListingQuery>): Option<string> {
    if listing.Some? then Some(QueryText(listing.value.ToParams())) else None
  }

  lemma CutTooLong(e: Endpoint, path: string, query: Option<string>)
    ensures var cutPath := Cut(path, PATH_SIZE);
            var cutQuery := if query.Some? then Some(Cut(query.value, QUERY_SIZE)) else None;
            CountedLength(e, cutPath, cutQuery) < MAX_URI_LENGTH - 1
            ==> cutPath == path && cutQuery == query
    ensures var cutPath := Cut(path, PATH_SIZE);
            var cutQuery := if query.Some? then Some(Cut(query.value, QUERY_SIZE)) else None;
            CountedLength(e, path, query) < MAX_URI_LENGTH - 1
            ==> cutPath == path && cutQuery == query
  {}

  /**
   * The start of execute_request. The buffers may cut a path or a query off, but no request is made of the
   * remains: what is left is still too long for a URI.
   */
  method PrepareRequest(e: Endpoint, name: Option<string>, listing: Option<ListingQuery>,
                        pathBuffer: array<char>, queryBuffer: array<char>)
    returns (res: int, uri: string)
    requires pathBuffer.Length == PATH_SIZE && queryBuffer.Length == QUERY_SIZE && pathBuffer != queryBuffer
    requires e.Valid() && (listing.Some? ==> listing.value.Valid())
    requires name.Some? ==> CString(name.value) && StartsInside(Segments(name.value))
    modifies pathBuffer, queryBuffer
    ensures res == if CountedLength(e, PathOf(name), QueryOf(listing)) >= MAX_URI_LENGTH - 1
                   then MS3_ERR_URI_TOO_LONG else MS3_ERR_NONE
    ensures res == MS3_ERR_NONE ==> uri == Uri(e, PathOf(name), QueryOf(listing))
  {
    hide Segments, PathOf, QueryText, Holds, CountedLength, Uri, Params, GoodParams, StartsInside;
    GeneratePath(name, pathBuffer);
    PathCharacters(name);
    var path := ReadText(pathBuffer, Cut(PathOf(name), PATH_SIZE));
    var query: Option<string> := None;
    if listing.Some? {
      var q := listing.value;
      GenerateQuery(q.prefix, q.continuation, q.version, q.delimiter, queryBuffer);
      QueryNoNul(q.ToParams());
      var text := ReadText(queryBuffer, Cut(QueryText(q.ToParams()), QUERY_SIZE));
      query := Some(text);
    }
    res, uri := BuildRequestUri(e, path, query);
    CutTooLong(e, PathOf(name), QueryOf(listing));
  }

  lemma ConcatInjective(a: string, b: string, x: string, y: string)
    requires |a| == |x|
    ensures a + b == x + y <==> a == x && b == y
  {
    assert (a + b)[..|a|] == a && (x + y)[..|x|] == x;
    assert (a + b)[|a|..] == b && (x + y)[|x|..] == y;
  }

  lemma TailInjective(query: Option<string>, other: Option<string>)
    ensures Tail(query) == Tail(other) <==> query == other
  {
    if query.Some? && other.Some? {
      ConcatInjective("?", query.value, "?", other.value);
    }
  }

  lemma UriInjective(e: Endpoint, path: string, query: Option<string>, otherPath: string, otherQuery: Option<string>)
    requires '?' !in path && '?' !in otherPath
    ensures Uri(e, path, query) == Uri(e, otherPath, otherQuery) <==> path == otherPath && query == otherQuery
  {
    IndexAfter(path, Tail(query), '?');
    IndexAfter(otherPath, Tail(otherQuery), '?');
    TailInjective(query, otherQuery);
    hide Tail, IndexOf;
    ConcatInjective(e.Prefix(), path + Tail(query), e.Prefix(), otherPath + Tail(otherQuery));
    if path + Tail(query) == otherPath + Tail(otherQuery) {
      ConcatInjective(path, Tail(query), otherPath, Tail(otherQuery));
    }
  }

  lemma {:induction false} QueryInjective(a: seq<Param>, b: seq<Param>)
    requires GoodParams(a) && GoodParams(b)
    ensures QueryText(a) == QueryText(b) <==> a == b
  {
    QueryRoundTrip(a);
    QueryRoundTrip(b);
  }

  /** Two requests to one endpoint have the same URI exactly when they name the same segments and ask for the same. */
  lemma {:induction false} SameUri(e: Endpoint, name: string, listing: Option<ListingQuery>,
                other: string, otherListing: Option<ListingQuery>)
    requires CString(name) && CString(other)
    requires (listing.Some? ==> listing.value.Valid()) && (otherListing.Some? ==> otherListing.value.Valid())
    ensures Uri(e, PathOf(Some(name)), QueryOf(listing)) == Uri(e, PathOf(Some(other)), QueryOf(otherListing))
            <==> && Segments(name) == Segments(other)
                 && (listing.Some? <==> otherListing.Some?)
                 && (listing.Some? ==> listing.value.ToParams() == otherListing.value.ToParams())
  {
    hide PathOf, Uri, QueryText, Segments, Params, GoodParams, CString;
    PathCharacters(Some(name));
    PathCharacters(Some(other));
    UriInjective(e, PathOf(Some(name)), QueryOf(listing), PathOf(Some(other)), QueryOf(otherListing));
    PathInjective(name, other);
    if listing.Some? && otherListing.Some? {
      var a, b := listing.value, otherListing.value;
      ParamsAreGood(a.prefix, a.continuation, a.version, a.delimiter);
      ParamsAreGood(b.prefix, b.continuation, b.version, b.delimiter);
      QueryInjective(a.ToParams(), b.ToParams());
    }
  }
}
