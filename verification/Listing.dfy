/** Listing a bucket: one request per page, each page appended to the client's list. */
module Listing {
  import opened Options
  import opened Errors
  import opened XmlSpec
  import opened ListPool
  import opened ListPage
  import opened ListResponse
  import ReceiveBuffer

  /** What comes of one request: it is not sent, the transfer fails, or there is a response. */
  datatype Reply = NotSent(err: int) | CurlError | Http(code: int, body: string)

  /** The server and the way to it: what comes of the i-th request, given what it continues from. */
  type Server = (nat, Option<string>) -> Reply

  /** The error for a response code. */
  function StatusResult(code: int, hasRole: bool): int {
    if code == 404 then MS3_ERR_NOT_FOUND
    else if code == 403 then MS3_ERR_AUTH
    else if code >= 400 then if hasRole then MS3_ERR_AUTH_ROLE else MS3_ERR_SERVER
    else if code == 301 then MS3_ERR_ENDPOINT
    else MS3_ERR_NONE
  }

  /** What a response body adds to the list. A body that is not XML adds nothing, and nobody notices. */
  function BodyPage(body: string, version: int, conv: Convert): Page {
    match ParseDocument(body)
    case None => Page([], NO_VARS)
    case Some(root) => PageOf(View(body, root), version, conv)
  }

  predicate GoodBody(body: string, version: int) {
    ParseDocument(body).Some? ==> GoodPage(View(body, ParseDocument(body).value), version)
  }

  /** The settings of a client that a listing depends on. */
  datatype Settings = Settings(version: int, conv: Convert, hasRole: bool)

  function NextOf(body: string, s: Settings): Option<string> {
    Continuation(BodyPage(body, s.version, s.conv).vars, s.version)
  }

  predicate GoodReply(reply: Reply, s: Settings) {
    match reply
    case NotSent(err) => err != MS3_ERR_NONE
    case CurlError => true
    case Http(_, body) => GoodBody(body, s.version)
  }

  /** What a reply makes the client ask for next. */
  function AsksFor(reply: Reply, s: Settings): Option<string> {
    if reply.Http? then NextOf(reply.body, s) else None
  }

  /** From the i-th request on there are at most n requests, and every page can be read. */
  ghost predicate EndsWithin(server: Server, i: nat, cont: Option<string>, s: Settings, n: nat)
    decreases n
  {
    hide AsksFor, GoodReply;
    && n > 0 && GoodReply(server(i, cont), s)
    && var next := AsksFor(server(i, cont), s);
       next.Some? ==> EndsWithin(server, i + 1, next, s, n - 1)
  }

  /** The replies of a run, in order. */
  ghost function Replies(server: Server, i: nat, cont: Option<string>, s: Settings, n: nat): (r: seq<Reply>)
    requires EndsWithin(server, i, cont, s, n)
    ensures r != []
    decreases n
  {
    hide AsksFor, GoodReply;
    var next := AsksFor(server(i, cont), s);
    [server(i, cont)] + if next == None then [] else Replies(server, i + 1, next, s, n - 1)
  }

  function ReplyItems(reply: Reply, s: Settings): seq<Item> {
    if reply.Http? then BodyPage(reply.body, s.version, s.conv).items else []
  }

  /** The pages of a run, one after the other. */
  function AllItems(replies: seq<Reply>, s: Settings): seq<Item> {
    if replies == [] then [] else ReplyItems(replies[0], s) + AllItems(replies[1..], s)
  }

  lemma ItemsOfFirst(reply: Reply, rest: seq<Reply>, s: Settings)
    ensures AllItems([reply] + rest, s) == ReplyItems(reply, s) + AllItems(rest, s)
  {
    hide ReplyItems;
    assert ([reply] + rest)[1..] == rest;
  }

  lemma ItemsOfOne(reply: Reply, s: Settings)
    ensures AllItems([reply], s) == ReplyItems(reply, s)
  {
    hide ReplyItems;
    assert [reply] + [] == [reply];
    ItemsOfFirst(reply, [], s);
  }

  function ReplyResult(reply: Reply, s: Settings): int {
    match reply
    case NotSent(err) => err
    case CurlError => MS3_ERR_REQUEST_ERROR
    case Http(code, _) => StatusResult(code, s.hasRole)
  }

  /** The result says what became of the request. */
  ghost predicate Reports(res: int, reply: Reply, hasRole: bool) {
    match reply
    case NotSent(err) => res == err
    case CurlError => res == MS3_ERR_REQUEST_ERROR
    case Http(code, _) =>
      && (code == 404 ==> res == MS3_ERR_NOT_FOUND)
      && (code == 403 ==> res == MS3_ERR_AUTH)
      && (code == 301 ==> res == MS3_ERR_ENDPOINT)
      && (code >= 400 && code != 403 && code != 404 ==> res == if hasRole then MS3_ERR_AUTH_ROLE else MS3_ERR_SERVER)
      && (code < 400 && code != 301 ==> res == MS3_ERR_NONE)
  }

  lemma ResultReports(reply: Reply, s: Settings)
    ensures Reports(ReplyResult(reply, s), reply, s.hasRole)
  {}

  // ---- When success can be believed ----

  /** A response that is no error and that was empty or could be parsed. */
  predicate WasRead(reply: Reply) {
    && reply.Http? && StatusResult(reply.code, false) == MS3_ERR_NONE
    && (reply.body == "" || ParseDocument(reply.body).Some?)
  }

  predicate NoErrorStatus(reply: Reply) {
    reply.Http? ==> StatusResult(reply.code, false) == MS3_ERR_NONE
  }

  lemma StatusOfRole(code: int, hasRole: bool)
    ensures StatusResult(code, hasRole) == MS3_ERR_NONE <==> StatusResult(code, false) == MS3_ERR_NONE
  {}

  /** Whoever asks for another page has parsed one. */
  lemma AskedMeansParsed(reply: Reply, s: Settings)
    requires AsksFor(reply, s).Some?
    ensures reply.Http? && ParseDocument(reply.body).Some?
  {
    hide PageOf, ParseDocument, View, NodeInBounds;
  }

  /** All replies of a run but the last were sent for, arrived and were parsed; only their status can be wrong. */
  lemma {:induction false} EarlierReplies(server: Server, i: nat, cont: Option<string>, s: Settings, n: nat, j: nat)
    requires EndsWithin(server, i, cont, s, n) && j + 1 < |Replies(server, i, cont, s, n)|
    ensures var reply := Replies(server, i, cont, s, n)[j];
            reply.Http? && ParseDocument(reply.body).Some?
    decreases n
  {
    hide AsksFor, GoodReply, ParseDocument;
    var next := AsksFor(server(i, cont), s);
    if j == 0 {
      AskedMeansParsed(server(i, cont), s);
    } else {
      EarlierReplies(server, i + 1, next, s, n - 1, j - 1);
    }
  }

  /**
   * The result of a listing is that of its last request. When it is success, every response of the run was read
   * without an error if and only if no earlier one had an error status and the last body is empty or parses.
   */
  lemma {:induction false} SuccessIsTrue(server: Server, cont: Option<string>, s: Settings, n: nat)
    requires EndsWithin(server, 0, cont, s, n)
    requires var rs := Replies(server, 0, cont, s, n); ReplyResult(rs[|rs| - 1], s) == MS3_ERR_NONE
    ensures var rs := Replies(server, 0, cont, s, n); var last := rs[|rs| - 1];
            (forall j :: 0 <= j < |rs| ==> WasRead(rs[j])) <==>
            && (forall j :: 0 <= j < |rs| - 1 ==> NoErrorStatus(rs[j]))
            && (last.Http? && (last.body == "" || ParseDocument(last.body).Some?))
  {
    hide EndsWithin, Replies, ParseDocument, StatusResult;
    var rs := Replies(server, 0, cont, s, n);
    var last := rs[|rs| - 1];
    match last {
      case NotSent(_) => LastIsGood(server, 0, cont, s, n);
      case CurlError =>
      case Http(code, _) => StatusOfRole(code, s.hasRole);
    }
    forall j | 0 <= j < |rs| - 1
      ensures WasRead(rs[j]) <==> NoErrorStatus(rs[j])
    {
      EarlierReplies(server, 0, cont, s, n, j);
    }
  }

  lemma {:induction false} LastIsGood(server: Server, i: nat, cont: Option<string>, s: Settings, n: nat)
    requires EndsWithin(server, i, cont, s, n)
    ensures var rs := Replies(server, i, cont, s, n); GoodReply(rs[|rs| - 1], s)
    decreases n
  {
    hide AsksFor, GoodReply;
    var next := AsksFor(server(i, cont), s);
    if next.Some? {
      LastIsGood(server, i + 1, next, s, n - 1);
    }
  }

  lemma NotMarkup()
    ensures ParseDocument("oops") == None
  {
    assert SkipSpace("oops", 0) == 0;
  }

  /** A response with status 200 that is not XML at all: an empty listing, and success. */
  lemma UnreadableIsSuccess(s: Settings)
    ensures var server: Server := (i: nat, cont: Option<string>) => Http(200, "oops");
            && EndsWithin(server, 0, None, s, 1)
            && Replies(server, 0, None, s, 1) == [Http(200, "oops")]
            && AllItems([Http(200, "oops")], s) == [] && ReplyResult(Http(200, "oops"), s) == MS3_ERR_NONE
            && !WasRead(Http(200, "oops"))
  {
    NotMarkup();
    hide ParseDocument;
    ItemsOfOne(Http(200, "oops"), s);
  }

  /** How a body arrives: in what pieces, into a buffer that grows by what chunks, with what rounding. */
  datatype Transfer = Transfer(fl: real -> real, chunk: nat, split: string -> seq<string>) {
    ghost predicate Valid() {
      ReceiveBuffer.RoundsLikeDouble(fl) && chunk >= 1 && forall body :: Delivers(body)
    }

    ghost predicate Delivers(body: string) {
      ReceiveBuffer.Deliverable(split(body)) && ReceiveBuffer.Concat(split(body)) == body
    }
  }

  function Pieces(body: string): seq<string> {
    if body == "" then [] else Pieces(body[..|body| - 1]) + [[body[|body| - 1]]]
  }

  lemma {:induction false} PiecesDeliver(body: string)
    ensures ReceiveBuffer.Concat(Pieces(body)) == body
    ensures forall i :: 0 <= i < |Pieces(body)| ==> |Pieces(body)[i]| == 1
  {
    if body != "" {
      var front := body[..|body| - 1];
      PiecesDeliver(front);
      assert Pieces(body)[..|Pieces(body)| - 1] == Pieces(front);
    }
  }

  /** There is such a way of delivering bodies: character by character. */
  lemma TransferExists()
    ensures exists transfer: Transfer :: transfer.Valid()
  {
    ReceiveBuffer.RoundingExists();
    var limit := ReceiveBuffer.TWO_53;
    var fl := (x: real) => if limit as real <= x < (limit + 2) as real then limit as real else x;
    var transfer := Transfer(fl, 1, Pieces);
    hide ReceiveBuffer.RoundsLikeDouble, ReceiveBuffer.Concat;
    assert ReceiveBuffer.RoundsLikeDouble(fl);
    forall body
      ensures transfer.Delivers(body)
    {
      PiecesDeliver(body);
    }
    assert transfer.Valid();
  }

  class Client {
    const list: Container
    const settings: Settings
    const transfer: Transfer

    constructor (settings: Settings, transfer: Transfer)
      requires transfer.Valid()
      ensures Valid() && fresh(list) && fresh(list.Footprint()) && list.items == []
      ensures this.settings == settings && this.transfer == transfer
    {
      this.settings, this.transfer := settings, transfer;
      list := new Container();
    }

    ghost predicate Valid()
      reads this, list, list.pools, list.records
    {
      list.Valid() && transfer.Valid()
    }

    /** The list case of execute_request: only the result of the last request of a run is returned. */
    method ExecuteList(server: Server, i: nat, cont: Option<string>, ghost n: nat) returns (res: int)
      requires Valid() && EndsWithin(server, i, cont, settings, n)
      modifies list.Footprint()
      ensures Valid() && fresh(list.Footprint() - old(list.Footprint()))
      ensures var replies := Replies(server, i, cont, settings, n);
              && list.items == old(list.items) + AllItems(replies, settings)
              && res == ReplyResult(replies[|replies| - 1], settings)
              && Reports(res, replies[|replies| - 1], settings.hasRole)
      decreases n
    {
      ResultReports(server(i, cont), settings);
      hide Reports, Container.Valid, Transfer.Valid, NextOf, BodyPage, GoodBody, AllItems, StatusResult;
      var reply := server(i, cont);
      ItemsOfOne(reply, settings);
      assert [reply] + [] == [reply];
      match reply
      case NotSent(err) =>
        return err;
      case CurlError =>
        return MS3_ERR_REQUEST_ERROR;
      case Http(code, body) =>
        res := StatusResult(code, settings.hasRole);
        var next := ReceivePage(body);
        if next.Some? {
          ItemsOfFirst(reply, Replies(server, i + 1, next, settings, n - 1), settings);
          res := ExecuteList(server, i + 1, next, n - 1);
          if res != MS3_ERR_NONE {
            return res;
          }
        }
    }

    /** The pieces of the body, collected in the receive buffer, which is handed to the parser as it is. */
    method ReceivePage(body: string) returns (next: Option<string>)
      requires Valid() && GoodBody(body, settings.version)
      modifies list.Footprint()
      ensures Valid() && fresh(list.Footprint() - old(list.Footprint()))
      ensures list.items == old(list.items) + BodyPage(body, settings.version, settings.conv).items
      ensures next == NextOf(body, settings)
    {
      hide Container.Valid, PageOf, ParseDocument, View, NodeInBounds, GoodPage, ReceiveBuffer.Concat;
      assert transfer.Delivers(body);
      var mem := ReceiveBuffer.ReceiveAll(transfer.fl, transfer.chunk, transfer.split(body));
      if mem.data == null {
        ParseNothing(body);
        return None;
      }
      assert mem.data[..mem.length] == body;
      var rc;
      rc, next := ParseListResponse(mem.data, mem.length, list, settings.version, settings.conv);
    }

    /** ms3_list. */
    method List(server: Server, ghost n: nat) returns (res: int, start: Ptr)
      requires Valid() && EndsWithin(server, 0, None, settings, n)
      modifies list.Footprint()
      ensures Valid() && fresh(list.Footprint() - old(list.Footprint()))
      ensures var replies := Replies(server, 0, None, settings, n);
              && list.items == AllItems(replies, settings)
              && res == ReplyResult(replies[|replies| - 1], settings)
      ensures start == list.start
      ensures var replies := Replies(server, 0, None, settings, n);
              Reports(res, replies[|replies| - 1], settings.hasRole)
    {
      hide Container.Valid, Transfer.Valid, EndsWithin, Replies, AllItems, ReplyResult, Reports;
      list.ListFree();
      res := ExecuteList(server, 0, None, n);
      start := list.start;
    }
  }
}
