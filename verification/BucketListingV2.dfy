/**
 * Listing a whole bucket in version 2: each request continues from a token that the server gave out. The listing
 * gets to the end of the bucket unless a token is too long to send; it takes keys as they are printed.
 */
module BucketListingV2 {
  import opened Options
  import opened Errors
  import opened XmlSpec
  import opened XmlRoundTrip
  import opened ListPool
  import opened ListPage
  import opened Listing
  import opened BucketPage
  import opened BucketServer
  import opened BucketKeys
  import opened BucketRuns
  import opened MarkupText
  import opened TextElements

  // ---- The server ----

  /** Tokens stand for positions in the bucket; each reply may use one of its own. */
  datatype Tokens = Tokens(token: (nat, nat) -> string, position: string -> nat) {
    /** The position that a request continues from. */
    function At(cont: Option<string>): nat {
      if cont == None then 0 else position(cont.value)
    }

    ghost predicate Valid() {
      forall i: nat, k: nat :: IsToken(i, k)
    }

    ghost predicate IsToken(i: nat, k: nat) {
      position(token(i, k)) == k && GoodValue(token(i, k))
    }
  }

  /** There are such tokens. */
  lemma TokensExist()
    ensures Tokens((i: nat, k: nat) => seq(k + 1, _ => 'a'), (t: string) => if t == "" then 0 else |t| - 1).Valid()
  {}

  function From(bucket: seq<Entry>, k: nat): (rest: seq<Entry>)
    ensures k <= |bucket| ==> rest == bucket[k..]
  {
    if k <= |bucket| then bucket[k..] else []
  }

  function PageAt(bucket: seq<Entry>, size: PageSizes, t: Tokens, i: nat, cont: Option<string>): (page: seq<Entry>)
    ensures t.At(cont) <= |bucket| ==> t.At(cont) + |page| <= |bucket|
  {
    FirstOf(From(bucket, t.At(cont)), size(i, cont))
  }

  /** The token for what is behind the page. */
  function TokenBehind(bucket: seq<Entry>, size: PageSizes, t: Tokens, i: nat, cont: Option<string>): Option<string> {
    var k := t.At(cont) + |PageAt(bucket, size, t, i, cont)|;
    if k < |bucket| then Some(t.token(i, k)) else None
  }

  ghost predicate RepliesV2(server: Server, bucket: seq<Entry>, a: Asking, size: PageSizes, t: Tokens,
                            i: nat, cont: Option<string>)
  {
    Answers(server(i, cont), 2, a, cont, PageAt(bucket, size, t, i, cont), TokenBehind(bucket, size, t, i, cont))
  }

  /** A version 2 server: its pages may be of any sizes and come in any layout. */
  ghost predicate ServesV2(server: Server, bucket: seq<Entry>, a: Asking, size: PageSizes, t: Tokens) {
    forall i: nat, cont :: RepliesV2(server, bucket, a, size, t, i, cont)
  }

  function SimpleServerV2(bucket: seq<Entry>, a: Asking, size: PageSizes, t: Tokens): Server {
    (i: nat, cont: Option<string>) =>
      if a.Fits(2, cont) then
        Http(200, PrintDocument(PageDocument(PageAt(bucket, size, t, i, cont), 2,
                                             TokenBehind(bucket, size, t, i, cont))))
      else NotSent(MS3_ERR_URI_TOO_LONG)
  }

  lemma PageIsGood(bucket: seq<Entry>, size: PageSizes, t: Tokens, i: nat, cont: Option<string>)
    requires GoodEntries(bucket) && t.Valid()
    ensures GoodEntries(PageAt(bucket, size, t, i, cont)) && PlainToken(TokenBehind(bucket, size, t, i, cont))
  {
    var k, page := t.At(cont), PageAt(bucket, size, t, i, cont);
    hide GoodEntry, Tokens.At;
    assert t.IsToken(i, k + |page|);
    if k <= |bucket| {
      SliceOfGoodEntries(bucket, k, |page|);
    }
  }

  /** There is such a server for every bucket. */
  lemma SimpleServesV2(bucket: seq<Entry>, a: Asking, size: PageSizes, t: Tokens)
    requires GoodEntries(bucket) && t.Valid()
    ensures ServesV2(SimpleServerV2(bucket, a, size, t), bucket, a, size, t)
  {
    hide GoodEntries, PrintDocument, PageDocument, PrintsPage, PageAt, TokenBehind, PlainToken, Asking.Fits;
    hide Tokens.Valid;
    forall i: nat, cont
      ensures RepliesV2(SimpleServerV2(bucket, a, size, t), bucket, a, size, t, i, cont)
    {
      PageIsGood(bucket, size, t, i, cont);
      PageIsPrinted(PageAt(bucket, size, t, i, cont), 2, TokenBehind(bucket, size, t, i, cont));
    }
  }

  // ---- What a listing gets to see ----

  lemma TokenBehindIs(bucket: seq<Entry>, size: PageSizes, t: Tokens, i: nat, cont: Option<string>)
    requires t.Valid() && NoEmptyPages(size) && t.At(cont) <= |bucket|
    ensures var page, next := PageAt(bucket, size, t, i, cont), TokenBehind(bucket, size, t, i, cont);
            && (next.Some? ==> t.At(cont) < t.At(next) <= |bucket| && t.At(next) == t.At(cont) + |page|)
            && bucket[t.At(cont)..] == page + if next.Some? then bucket[t.At(next)..] else []
  {
    hide Tokens.Valid;
    var k, page := t.At(cont), PageAt(bucket, size, t, i, cont);
    TokenIs(t, i, k + |page|);
    assert size(i, cont) >= 1;
    assert bucket[k..] == page + bucket[k + |page|..];
  }

  lemma TokenIs(t: Tokens, i: nat, k: nat)
    requires t.Valid()
    ensures t.At(Some(t.token(i, k))) == k
  {
    assert t.IsToken(i, k);
  }

  /** Every request from the i-th on is short enough to be sent. */
  ghost predicate TokensFit(a: Asking, bucket: seq<Entry>, size: PageSizes, t: Tokens, i: nat, cont: Option<string>)
    requires t.Valid() && NoEmptyPages(size) && t.At(cont) <= |bucket|
    decreases |bucket| - t.At(cont)
  {
    hide Asking.Fits, PageAt, TokenBehind, Tokens.At, Tokens.Valid, NoEmptyPages;
    TokenBehindIs(bucket, size, t, i, cont);
    && a.Fits(2, cont)
    && var next := TokenBehind(bucket, size, t, i, cont);
       next.Some? ==> TokensFit(a, bucket, size, t, i + 1, next)
  }

  /** The entries of the pages that come from the i-th request on. */
  ghost function Received(a: Asking, bucket: seq<Entry>, size: PageSizes, t: Tokens,
                          i: nat, cont: Option<string>): seq<Entry>
    requires t.Valid() && NoEmptyPages(size) && t.At(cont) <= |bucket|
    decreases |bucket| - t.At(cont)
  {
    hide Asking.Fits, PageAt, TokenBehind, Tokens.At, Tokens.Valid, NoEmptyPages;
    TokenBehindIs(bucket, size, t, i, cont);
    if !a.Fits(2, cont) then []
    else
      var next := TokenBehind(bucket, size, t, i, cont);
      PageAt(bucket, size, t, i, cont) + if next == None then [] else Received(a, bucket, size, t, i + 1, next)
  }

  /** What comes is the front of what is behind the token, and all of it if every request is sent. */
  lemma {:induction false} ReceivedIsFront(a: Asking, bucket: seq<Entry>, size: PageSizes, t: Tokens,
                                           i: nat, cont: Option<string>)
    requires t.Valid() && NoEmptyPages(size) && t.At(cont) <= |bucket|
    ensures Received(a, bucket, size, t, i, cont) <= bucket[t.At(cont)..]
    ensures TokensFit(a, bucket, size, t, i, cont) ==> Received(a, bucket, size, t, i, cont) == bucket[t.At(cont)..]
    decreases |bucket| - t.At(cont)
  {
    hide Asking.Fits, PageAt, TokenBehind, Tokens.At, Tokens.Valid, NoEmptyPages;
    TokenBehindIs(bucket, size, t, i, cont);
    var next := TokenBehind(bucket, size, t, i, cont);
    if next.Some? {
      ReceivedIsFront(a, bucket, size, t, i + 1, next);
    }
  }

  // ---- The run ----

  lemma ReplyV2(server: Server, bucket: seq<Entry>, a: Asking, size: PageSizes, t: Tokens, s: Settings,
                i: nat, cont: Option<string>)
    requires s.version == 2 && GoodEntries(bucket) && t.Valid()
    requires ServesV2(server, bucket, a, size, t) && a.Fits(2, cont)
    ensures var reply, page := server(i, cont), PageAt(bucket, size, t, i, cont);
            && GoodReply(reply, s) && ReplyItems(reply, s) == EntryItems(ShownEntries(page), s.conv)
            && ReplyResult(reply, s) == MS3_ERR_NONE && AsksFor(reply, s) == TokenBehind(bucket, size, t, i, cont)
  {
    hide GoodReply, ReplyItems, AsksFor, GoodEntries, ReplyResult, EntryItems, PrintsPage, PageAt, TokenBehind;
    hide PlainToken, ShownEntries, LastKeyAfter, Asking.Fits, Tokens.Valid;
    assert RepliesV2(server, bucket, a, size, t, i, cont);
    PageIsGood(bucket, size, t, i, cont);
    AnsweredPage(server(i, cont), s, PageAt(bucket, size, t, i, cont), TokenBehind(bucket, size, t, i, cont));
  }

  lemma RefusedV2(server: Server, bucket: seq<Entry>, a: Asking, size: PageSizes, t: Tokens,
                  i: nat, cont: Option<string>)
    requires ServesV2(server, bucket, a, size, t) && !a.Fits(2, cont)
    ensures server(i, cont) == NotSent(MS3_ERR_URI_TOO_LONG)
  {
    assert RepliesV2(server, bucket, a, size, t, i, cont);
  }

  lemma NoItems(conv: Convert)
    ensures EntryItems(ShownEntries([]), conv) == []
  {}

  lemma ItemsOfTwo(a: seq<Entry>, b: seq<Entry>, conv: Convert)
    ensures EntryItems(ShownEntries(a + b), conv)
         == EntryItems(ShownEntries(a), conv) + EntryItems(ShownEntries(b), conv)
  {
    hide EntryItems, ShownEntries;
    ShownEntriesAppend(a, b);
    EntriesAppend(ShownEntries(a), ShownEntries(b), conv);
  }

  /** The run from a token on ends; a request that is too long is its last one. */
  lemma {:induction false} RunV2(server: Server, bucket: seq<Entry>, a: Asking, size: PageSizes, t: Tokens,
                                 s: Settings, i: nat, cont: Option<string>)
    requires s.version == 2 && GoodEntries(bucket) && t.Valid() && NoEmptyPages(size) && t.At(cont) <= |bucket|
    requires ServesV2(server, bucket, a, size, t)
    ensures RunGives(server, i, cont, s, |bucket| - t.At(cont) + 1,
                     EntryItems(ShownEntries(Received(a, bucket, size, t, i, cont)), s.conv),
                     if TokensFit(a, bucket, size, t, i, cont) then MS3_ERR_NONE else MS3_ERR_URI_TOO_LONG)
    decreases |bucket| - t.At(cont)
  {
    hide GoodReply, ReplyItems, AsksFor, GoodEntries, ReplyResult, EntryItems, RunGives, ServesV2, ShownEntries;
    hide Asking.Fits, PageAt, TokenBehind, Tokens.At, Tokens.Valid, NoEmptyPages;
    TokenBehindIs(bucket, size, t, i, cont);
    var bound, next := |bucket| - t.At(cont) + 1, TokenBehind(bucket, size, t, i, cont);
    if !a.Fits(2, cont) {
      RefusedV2(server, bucket, a, size, t, i, cont);
      RefusedRequest(server(i, cont), s);
      RunEnds(server, i, cont, s, bound);
      NoItems(s.conv);
    } else {
      ReplyV2(server, bucket, a, size, t, s, i, cont);
      if next == None {
        assert Received(a, bucket, size, t, i, cont) == PageAt(bucket, size, t, i, cont);
        RunEnds(server, i, cont, s, bound);
      } else {
        var behind := Received(a, bucket, size, t, i + 1, next);
        var items := EntryItems(ShownEntries(behind), s.conv);
        var res := if TokensFit(a, bucket, size, t, i + 1, next) then MS3_ERR_NONE else MS3_ERR_URI_TOO_LONG;
        RunV2(server, bucket, a, size, t, s, i + 1, next);
        WithinMore(server, i + 1, next, s, |bucket| - t.At(next) + 1, bound - 1, items, res);
        RunContinues(server, i, cont, s, bound, items, res);
        ItemsOfTwo(PageAt(bucket, size, t, i, cont), behind, s.conv);
      }
    }
  }

  /**
   * ms3_list and ms3_list_dir in version 2: the run always ends, with every object that came and is kept, and every
   * prefix that came, listed once, in order, and as it is shown. It lists all of the bucket, without an error,
   * exactly when its kept keys and its prefixes are plain and every token on the way is short enough to be sent.
   */
  lemma ListingV2(server: Server, bucket: seq<Entry>, a: Asking, size: PageSizes, t: Tokens, s: Settings)
    requires s.version == 2 && GoodEntries(bucket) && t.Valid() && NoEmptyPages(size)
    requires ServesV2(server, bucket, a, size, t)
    ensures RunGives(server, 0, None, s, |bucket| + 1,
                     EntryItems(ShownEntries(Received(a, bucket, size, t, 0, None)), s.conv),
                     if TokensFit(a, bucket, size, t, 0, None) then MS3_ERR_NONE else MS3_ERR_URI_TOO_LONG)
    ensures TokensFit(a, bucket, size, t, 0, None) ==> Received(a, bucket, size, t, 0, None) == bucket
    ensures Received(a, bucket, size, t, 0, None) <= bucket
    ensures Lists(server, EntryItems(bucket, s.conv), s)
            <==> PlainEntries(bucket) && TokensFit(a, bucket, size, t, 0, None)
  {
    hide RunGives, EntryItems, GoodEntries, PlainEntries, ServesV2, ShownEntries, Received, TokensFit, Tokens.Valid;
    hide Lists, NoEmptyPages;
    assert bucket[0..] == bucket;
    RunV2(server, bucket, a, size, t, s, 0, None);
    ReceivedIsFront(a, bucket, size, t, 0, None);
    ShownEntryItems(bucket, s.conv);
    ListsIff(server, EntryItems(bucket, s.conv), s, |bucket| + 1,
                EntryItems(ShownEntries(Received(a, bucket, size, t, 0, None)), s.conv),
                if TokensFit(a, bucket, size, t, 0, None) then MS3_ERR_NONE else MS3_ERR_URI_TOO_LONG);
  }

  /** Tokens that are short enough wherever they stand. */
  lemma {:induction false} ShortTokensFit(a: Asking, bucket: seq<Entry>, size: PageSizes, t: Tokens,
                                          i: nat, cont: Option<string>)
    requires t.Valid() && NoEmptyPages(size) && t.At(cont) <= |bucket|
    requires a.Fits(2, cont) && forall j: nat, k: nat :: a.Fits(2, Some(t.token(j, k)))
    ensures TokensFit(a, bucket, size, t, i, cont)
    decreases |bucket| - t.At(cont)
  {
    hide Asking.Fits, PageAt, Tokens.At, Tokens.Valid, NoEmptyPages;
    TokenBehindIs(bucket, size, t, i, cont);
    var next := TokenBehind(bucket, size, t, i, cont);
    if next.Some? {
      ShortTokensFit(a, bucket, size, t, i + 1, next);
    }
  }

  /** ms3_list on a version 2 bucket, down to the linked list. */
  method ListBucketV2(client: Client, server: Server, bucket: seq<Entry>, a: Asking, size: PageSizes, t: Tokens)
    returns (res: int, start: Ptr)
    requires client.Valid() && client.settings.version == 2
    requires GoodEntries(bucket) && t.Valid() && NoEmptyPages(size) && ServesV2(server, bucket, a, size, t)
    modifies client.list.Footprint()
    ensures client.Valid() && start == client.list.start
    ensures client.list.items == EntryItems(ShownEntries(Received(a, bucket, size, t, 0, None)), client.settings.conv)
    ensures res == if TokensFit(a, bucket, size, t, 0, None) then MS3_ERR_NONE else MS3_ERR_URI_TOO_LONG
    ensures res == MS3_ERR_NONE && client.list.items == EntryItems(bucket, client.settings.conv)
            <==> PlainEntries(bucket) && TokensFit(a, bucket, size, t, 0, None)
  {
    hide Client.Valid, GoodEntries, EndsWithin, Replies, ServesV2, PlainEntries, ShownEntries, EntryItems, Received;
    hide TokensFit, Tokens.Valid, NoEmptyPages, Lists, AllItems, ReplyResult;
    ListingV2(server, bucket, a, size, t, client.settings);
    ShownEntryItems(bucket, client.settings.conv);
    res, start := client.List(server, |bucket| + 1);
  }
}
