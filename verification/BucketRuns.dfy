/** Runs of a listing against a server that holds a bucket: what is asked for, answered, and made of it. */
module BucketRuns {
  import opened Options
  import opened Errors
  import opened XmlSpec
  import opened XmlRoundTrip
  import opened ListPool
  import opened ListPage
  import opened Listing
  import opened BucketPage
  import opened BucketServer
  import opened BucketKeys
  import opened TextElements
  import ObjectPath
  import RequestUri
  import PercentEncoding

  // ---- Requests ----

  /** What all requests of a listing have in common: where they go, and which keys are asked for, grouped or not. */
  datatype Asking = Asking(endpoint: RequestUri.Endpoint, prefix: Option<string>, delimiter: bool) {
    /** The length that build_request_uri counts for a request that continues from `cont`. */
    function RequestLength(version: int, cont: Option<string>): nat {
      RequestUri.CountedLength(endpoint, ObjectPath.PathOf(None),
                               RequestUri.QueryOf(Some(RequestUri.ListingQuery(prefix, cont, version, delimiter))))
    }

    /** The request is sent; otherwise its URI is too long. */
    predicate Fits(version: int, cont: Option<string>) {
      RequestLength(version, cont) < RequestUri.MAX_URI_LENGTH - 1
    }
  }

  /** The start of execute_request for a page of the listing: refused exactly if the request does not fit. */
  method PreparePage(a: Asking, version: int, cont: Option<string>, pathBuffer: array<char>, queryBuffer: array<char>)
    returns (res: int, uri: string)
    requires pathBuffer.Length == ObjectPath.PATH_SIZE && queryBuffer.Length == RequestUri.QUERY_SIZE
    requires pathBuffer != queryBuffer && a.endpoint.Valid()
    requires RequestUri.ListingQuery(a.prefix, cont, version, a.delimiter).Valid()
    modifies pathBuffer, queryBuffer
    ensures res == if a.Fits(version, cont) then MS3_ERR_NONE else MS3_ERR_URI_TOO_LONG
  {
    hide ObjectPath.PathOf, RequestUri.CountedLength, RequestUri.QueryText;
    res, uri := RequestUri.PrepareRequest(a.endpoint, None,
                                          Some(RequestUri.ListingQuery(a.prefix, cont, version, a.delimiter)),
                                          pathBuffer, queryBuffer);
  }

  // ---- Replies ----

  /** How many objects the server puts on a page, for each request. */
  type PageSizes = (nat, Option<string>) -> nat

  ghost predicate SizesWithin(size: PageSizes, n: nat) {
    forall i, cont :: 1 <= size(i, cont) <= n
  }

  ghost predicate NoEmptyPages(size: PageSizes) {
    forall i, cont :: 1 <= size(i, cont)
  }

  function FullPages(n: nat): PageSizes {
    (i: nat, cont: Option<string>) => n
  }

  function FirstOf<T>(os: seq<T>, size: nat): (page: seq<T>)
    ensures |page| <= |os| && page == os[..|page|]
  {
    if |os| <= size then os else os[..size]
  }

  /** The reply is some document that shows the page. */
  ghost predicate PrintsPage(reply: Reply, version: int, page: seq<Entry>, more: Option<string>) {
    exists d: Document :: Renders(d, version, page, more) && reply == Http(200, PrintDocument(d))
  }

  /** What comes of a request: it is refused before it is sent, or it brings the page. */
  ghost predicate Answers(reply: Reply, version: int, a: Asking, cont: Option<string>,
                          page: seq<Entry>, more: Option<string>)
  {
    if a.Fits(version, cont) then PrintsPage(reply, version, page, more) else reply == NotSent(MS3_ERR_URI_TOO_LONG)
  }

  /** What a page of objects, in the form in which they can be read, asks for. */
  function PageAsks(os: seq<Object>, version: int, more: Option<string>): Option<string> {
    if more == None then None else if version == 2 then more else LastKeyAfter(os, None)
  }

  /** What the client makes of a printed page: the objects that it keeps and the prefixes, in document order. */
  lemma PrintedPage(d: Document, s: Settings, es: seq<Entry>, more: Option<string>)
    requires s.version == 1 || s.version == 2
    requires Renders(d, s.version, es, more) && GoodEntries(es) && PlainToken(more)
    ensures var reply, shown := Http(200, PrintDocument(d)), ShownEntries(es);
            && GoodReply(reply, s) && ReplyItems(reply, s) == EntryItems(shown, s.conv)
            && ReplyResult(reply, s) == MS3_ERR_NONE && AsksFor(reply, s) == PageAsks(Objects(shown), s.version, more)
  {
    hide GoodDocument, PrintDocument, ParseDocument, View, NodeInBounds, IsPageOf, PageOf, Continuation, GoodPage;
    hide Snug, AllReadable, GoodEntries, ShownEntries, EntryItems, Objects, PlainToken, GoodToken, Kept;
    PlainIsGood(more);
    ShownReadable(es);
    ParsePrint(d);
    PageRead(Erase(d.root), s.version, s.conv, ShownEntries(es), more);
  }

  lemma PlainIsGood(more: Option<string>)
    requires PlainToken(more)
    ensures GoodToken(more)
  {}

  lemma AnsweredPage(reply: Reply, s: Settings, page: seq<Entry>, more: Option<string>)
    requires s.version == 1 || s.version == 2
    requires PrintsPage(reply, s.version, page, more) && GoodEntries(page) && PlainToken(more)
    ensures var shown := ShownEntries(page);
            && GoodReply(reply, s) && ReplyItems(reply, s) == EntryItems(shown, s.conv)
            && ReplyResult(reply, s) == MS3_ERR_NONE && AsksFor(reply, s) == PageAsks(Objects(shown), s.version, more)
  {
    hide Renders, PrintDocument, GoodReply, ReplyItems, AsksFor, ReplyResult, PageAsks;
    hide GoodEntries, PlainToken, ShownEntries, EntryItems, Objects;
    var d: Document :| Renders(d, s.version, page, more) && reply == Http(200, PrintDocument(d));
    PrintedPage(d, s, page, more);
  }

  /** The same of a page of objects only. */
  lemma AnsweredObjects(reply: Reply, s: Settings, page: seq<Object>, more: Option<string>)
    requires s.version == 1 || s.version == 2
    requires PrintsPage(reply, s.version, AsEntries(page), more) && GoodObjects(page) && PlainToken(more)
    ensures var shown := ShownAll(page);
            && GoodReply(reply, s) && ReplyItems(reply, s) == Items(Kept(shown), s.conv)
            && ReplyResult(reply, s) == MS3_ERR_NONE && AsksFor(reply, s) == PageAsks(shown, s.version, more)
  {
    hide PrintsPage, GoodReply, ReplyItems, AsksFor, ReplyResult, PageAsks;
    hide Kept, Items, GoodObjects, GoodEntries, PlainToken, ShownAll, ShownEntries, AsEntries, EntryItems, Objects;
    ObjectEntries(page);
    OnlyObjects(ShownAll(page), s.conv);
    AnsweredPage(reply, s, AsEntries(page), more);
  }

  lemma RefusedRequest(reply: Reply, s: Settings)
    requires reply == NotSent(MS3_ERR_URI_TOO_LONG)
    ensures GoodReply(reply, s) && ReplyItems(reply, s) == [] && AsksFor(reply, s) == None
    ensures ReplyResult(reply, s) == MS3_ERR_URI_TOO_LONG
  {}

  lemma PageIsPrinted(page: seq<Entry>, version: int, more: Option<string>)
    requires version == 1 || version == 2
    requires GoodEntries(page) && PlainToken(more)
    ensures PrintsPage(Http(200, PrintDocument(PageDocument(page, version, more))), version, page, more)
  {
    hide Renders, PrintDocument, PageDocument, GoodEntries, PlainToken;
    PageRenders(page, version, more);
  }

  // ---- Runs ----

  /** The run ends within n requests, with the given items and the given result. */
  ghost predicate RunGives(server: Server, i: nat, cont: Option<string>, s: Settings, n: nat,
                           items: seq<Item>, res: int)
  {
    && EndsWithin(server, i, cont, s, n)
    && var replies := Replies(server, i, cont, s, n);
       AllItems(replies, s) == items && ReplyResult(replies[|replies| - 1], s) == res
  }

  /** The listing ends, without an error, and is the expected one. */
  ghost predicate Lists(server: Server, expected: seq<Item>, s: Settings) {
    exists m: nat :: RunGives(server, 0, None, s, m, expected, MS3_ERR_NONE)
  }

  lemma RunEnds(server: Server, i: nat, cont: Option<string>, s: Settings, n: nat)
    requires n > 0 && GoodReply(server(i, cont), s) && AsksFor(server(i, cont), s) == None
    ensures RunGives(server, i, cont, s, n, ReplyItems(server(i, cont), s), ReplyResult(server(i, cont), s))
  {
    hide GoodReply, AsksFor, ReplyResult, ReplyItems, AllItems;
    ItemsOfOne(server(i, cont), s);
    assert [server(i, cont)] + [] == [server(i, cont)];
  }

  lemma RunContinues(server: Server, i: nat, cont: Option<string>, s: Settings, n: nat, items: seq<Item>, res: int)
    requires n > 0 && GoodReply(server(i, cont), s) && AsksFor(server(i, cont), s).Some?
    requires RunGives(server, i + 1, AsksFor(server(i, cont), s), s, n - 1, items, res)
    ensures RunGives(server, i, cont, s, n, ReplyItems(server(i, cont), s) + items, res)
  {
    hide GoodReply, AsksFor, ReplyResult, ReplyItems, AllItems;
    ItemsOfFirst(server(i, cont), Replies(server, i + 1, AsksFor(server(i, cont), s), s, n - 1), s);
  }

  /** A larger bound on the number of requests does not change the run. */
  lemma {:induction false} MoreRequests(server: Server, i: nat, cont: Option<string>, s: Settings, m: nat, n: nat)
    requires EndsWithin(server, i, cont, s, m) && m <= n
    ensures EndsWithin(server, i, cont, s, n) && Replies(server, i, cont, s, n) == Replies(server, i, cont, s, m)
    decreases m
  {
    hide GoodReply, AsksFor;
    var next := AsksFor(server(i, cont), s);
    if next.Some? {
      MoreRequests(server, i + 1, next, s, m - 1, n - 1);
    }
  }

  lemma WithinMore(server: Server, i: nat, cont: Option<string>, s: Settings, m: nat, n: nat,
                   items: seq<Item>, res: int)
    requires RunGives(server, i, cont, s, m, items, res) && m <= n
    ensures RunGives(server, i, cont, s, n, items, res)
  {
    hide EndsWithin, Replies;
    MoreRequests(server, i, cont, s, m, n);
  }

  /** A run has one outcome. */
  lemma SameRun(server: Server, i: nat, cont: Option<string>, s: Settings, m: nat, n: nat,
                a: seq<Item>, resA: int, b: seq<Item>, resB: int)
    requires RunGives(server, i, cont, s, m, a, resA) && RunGives(server, i, cont, s, n, b, resB)
    ensures a == b && resA == resB
  {
    hide EndsWithin, Replies, AllItems, ReplyResult;
    if m <= n {
      MoreRequests(server, i, cont, s, m, n);
    } else {
      MoreRequests(server, i, cont, s, n, m);
    }
  }

  /** The outcome of a run tells whether it is the expected one. */
  lemma ListsIff(server: Server, expected: seq<Item>, s: Settings, n: nat, items: seq<Item>, res: int)
    requires RunGives(server, 0, None, s, n, items, res)
    ensures Lists(server, expected, s) <==> items == expected && res == MS3_ERR_NONE
  {
    hide RunGives;
    if m: nat :| RunGives(server, 0, None, s, m, expected, MS3_ERR_NONE) {
      SameRun(server, 0, None, s, m, n, expected, MS3_ERR_NONE, items, res);
    }
  }

  // ---- How long a request may be ----

  function Joint(length: nat, text: string): nat {
    if length == 0 then |text| else length + 1 + |text|
  }

  /** The length of a query, parameter by parameter. */
  lemma QueryLonger(params: seq<RequestUri.Param>, p: RequestUri.Param)
    ensures |RequestUri.QueryText(params + [p])| == Joint(|RequestUri.QueryText(params)|, RequestUri.Assignment(p))
  {
    RequestUri.QueryLast(params, p);
    hide RequestUri.QueryText, RequestUri.Assignment;
  }

  /** What the text that a request continues from adds to its length. */
  lemma ContinuationLength(a: Asking, version: int, text: string)
    requires version == 1 || version == 2
    ensures a.RequestLength(version, Some(text)) == a.RequestLength(version, None) + |PercentEncoding.Escape(text)|
              + if version == 2 then 20 else if a.delimiter || a.prefix.Some? then 8 else 7
  {
    QueryLengths(a, version, text);
    hide ObjectPath.PathOf, PercentEncoding.Escape, RequestUri.QueryText, RequestUri.Params;
  }

  lemma WithPrefix(front: seq<RequestUri.Param>, prefix: Option<string>)
    ensures |RequestUri.QueryText(front + if prefix.Some? then [RequestUri.Param("prefix", prefix.value)] else [])|
         == if prefix.Some?
            then Joint(|RequestUri.QueryText(front)|, RequestUri.Assignment(RequestUri.Param("prefix", prefix.value)))
            else |RequestUri.QueryText(front)|
  {
    hide RequestUri.QueryText, RequestUri.Assignment;
    if prefix.Some? {
      QueryLonger(front, RequestUri.Param("prefix", prefix.value));
    } else {
      assert front + [] == front;
    }
  }

  function Front(delimiter: bool): seq<RequestUri.Param> {
    if delimiter then [RequestUri.Param("delimiter", "/")] else []
  }

  lemma FrontLength(delimiter: bool)
    ensures |RequestUri.QueryText(Front(delimiter))| > 0 <==> delimiter
  {
    NoQuery();
    if delimiter {
      QueryLonger([], RequestUri.Param("delimiter", "/"));
      assert [] + [RequestUri.Param("delimiter", "/")] == Front(delimiter);
    }
    hide RequestUri.QueryText;
  }

  lemma PageLengths(delimiter: bool, version: int, text: string)
    requires version == 1 || version == 2
    ensures |RequestUri.QueryText(Front(delimiter) + RequestUri.PageParams(Some(text), version))|
         == |RequestUri.QueryText(Front(delimiter) + RequestUri.PageParams(None, version))|
            + |PercentEncoding.Escape(text)| + if version == 2 then 20 else if delimiter then 8 else 7
    ensures version == 2 || delimiter
            <==> |RequestUri.QueryText(Front(delimiter) + RequestUri.PageParams(None, version))| > 0
  {
    FrontLength(delimiter);
    hide PercentEncoding.Escape, RequestUri.QueryText;
    var front := Front(delimiter);
    var token, kind := RequestUri.Param("continuation-token", text), RequestUri.Param("list-type", "2");
    if version == 2 {
      QueryLonger(front, token);
      QueryLonger(front + [token], kind);
      QueryLonger(front, kind);
      assert front + ([token] + [kind]) == front + [token] + [kind];
      assert RequestUri.PageParams(None, 2) == [kind];
    } else {
      QueryLonger(front, RequestUri.Param("marker", text));
      assert front + [] == front;
    }
  }

  lemma QueryLengths(a: Asking, version: int, text: string)
    requires version == 1 || version == 2
    ensures |RequestUri.QueryText(RequestUri.Params(a.prefix, Some(text), version, a.delimiter))|
         == |RequestUri.QueryText(RequestUri.Params(a.prefix, None, version, a.delimiter))|
            + |PercentEncoding.Escape(text)|
            + if version == 2 then 20 else if a.delimiter || a.prefix.Some? then 8 else 7
  {
    PageLengths(a.delimiter, version, text);
    hide PercentEncoding.Escape, RequestUri.QueryText, RequestUri.PageParams, RequestUri.Assignment;
    WithPrefix(Front(a.delimiter) + RequestUri.PageParams(Some(text), version), a.prefix);
    WithPrefix(Front(a.delimiter) + RequestUri.PageParams(None, version), a.prefix);
  }

  lemma NoQuery()
    ensures RequestUri.QueryText([]) == []
  {}

  /** Encoding makes a text at most three times as long, and no shorter. */
  lemma {:induction false} EscapedLength(text: string)
    ensures |text| <= |PercentEncoding.Escape(text)| <= 3 * |text|
  {
    if text != [] {
      EscapedLength(text[1..]);
    }
  }
}
