/**
 * Listing a whole bucket in version 1: each request continues from the last key that was kept. A listing stops for
 * good at a page that is all directories or at a marker that is too long to send, and it takes keys as they are
 * printed: trimmed, and with their entities.
 */
module BucketListingV1 {
  import opened Options
  import opened Errors
  import opened XmlSpec
  import opened XmlRoundTrip
  import opened ListPool
  import opened ListPage
  import opened Listing
  import opened BucketPage
  import opened BucketServer
  import opened BucketKeys
  import opened BucketRuns
  import opened MarkupText
  import opened TextElements

  // ---- The server ----

  function MoreV1(page: seq<Object>, rest: seq<Object>): Option<string> {
    if |page| < |rest| then Some("more") else None
  }

  /** The reply to one request: the first objects behind the marker, and whether there are more. */
  ghost predicate RepliesV1(server: Server, bucket: seq<Object>, a: Asking, size: PageSizes,
                            i: nat, marker: Option<string>)
  {
    var rest := After(bucket, marker);
    var page := FirstOf(rest, size(i, marker));
    Answers(server(i, marker), 1, a, marker, AsEntries(page), MoreV1(page, rest))
  }

  /** A version 1 server: its pages may be of any sizes and come in any layout. */
  ghost predicate ServesV1(server: Server, bucket: seq<Object>, a: Asking, size: PageSizes) {
    forall i: nat, marker :: RepliesV1(server, bucket, a, size, i, marker)
  }

  function SimpleServerV1(bucket: seq<Object>, a: Asking, size: PageSizes): Server {
    (i: nat, marker: Option<string>) =>
      var rest := After(bucket, marker);
      var page := FirstOf(rest, size(i, marker));
      if a.Fits(1, marker) then Http(200, PrintDocument(PageDocument(AsEntries(page), 1, MoreV1(page, rest))))
      else NotSent(MS3_ERR_URI_TOO_LONG)
  }

  lemma MoreIsPlain(page: seq<Object>, rest: seq<Object>)
    ensures PlainToken(MoreV1(page, rest))
  {}

  /** What is behind a marker is the end of the bucket. */
  lemma {:induction false} AfterIsEnd(os: seq<Object>, marker: Option<string>) returns (k: nat)
    ensures k <= |os| && After(os, marker) == os[k..]
  {
    if marker == None || os == [] || Less(marker.value, os[0].key) {
      k := 0;
    } else {
      k := AfterIsEnd(os[1..], marker);
      k := k + 1;
    }
  }

  /** There is such a server for every bucket. */
  lemma SimpleServesV1(bucket: seq<Object>, a: Asking, size: PageSizes)
    requires GoodObjects(bucket)
    ensures ServesV1(SimpleServerV1(bucket, a, size), bucket, a, size)
  {
    hide GoodObjects, GoodEntries, AsEntries, ShownEntries, PrintDocument, PageDocument, PrintsPage, MoreV1, PlainToken;
    hide Asking.Fits, After;
    forall i: nat, marker
      ensures RepliesV1(SimpleServerV1(bucket, a, size), bucket, a, size, i, marker)
    {
      var k := AfterIsEnd(bucket, marker);
      var rest := bucket[k..];
      var page := FirstOf(rest, size(i, marker));
      SliceIsGood(bucket, k, |page|);
      MoreIsPlain(page, rest);
      ObjectEntries(page);
      PageIsPrinted(AsEntries(page), 1, MoreV1(page, rest));
    }
  }

  // ---- What a listing gets to see ----

  /** The marker behind which the objects from position k on begin. */
  function MarkerAt(bucket: seq<Object>, k: nat): Option<string>
    requires k <= |bucket|
  {
    if k == 0 then None else Some(bucket[k - 1].key)
  }

  function PageAt(bucket: seq<Object>, size: PageSizes, i: nat, k: nat): (page: seq<Object>)
    requires k <= |bucket|
    ensures k + |page| <= |bucket|
  {
    FirstOf(bucket[k..], size(i, MarkerAt(bucket, k)))
  }

  /** Where the request after the i-th goes on: behind the last object kept of a page that is not the last one. */
  function NextAt(bucket: seq<Object>, size: PageSizes, i: nat, k: nat): (next: Option<nat>)
    requires k <= |bucket|
    ensures next.Some? ==> k < next.value <= |bucket|
  {
    var page := PageAt(bucket, size, i, k);
    if k + |page| == |bucket| || Kept(page) == [] then None else Some(k + LastKept(page) + 1)
  }

  /** Every request from the i-th on is short enough to be sent. */
  predicate MarkersFit(a: Asking, bucket: seq<Object>, size: PageSizes, i: nat, k: nat)
    requires k <= |bucket|
    decreases |bucket| - k
  {
    && a.Fits(1, MarkerAt(bucket, k))
    && var next := NextAt(bucket, size, i, k);
       next.Some? ==> MarkersFit(a, bucket, size, i + 1, next.value)
  }

  /** Some page from the i-th on is all directories, with something to keep behind it. */
  predicate StallsFrom(bucket: seq<Object>, size: PageSizes, i: nat, k: nat)
    requires k <= |bucket|
    decreases |bucket| - k
  {
    var page, next := PageAt(bucket, size, i, k), NextAt(bucket, size, i, k);
    || (Kept(page) == [] && Kept(bucket[k + |page|..]) != [])
    || (next.Some? && StallsFrom(bucket, size, i + 1, next.value))
  }

  /** The objects that are listed from the i-th request on. */
  function ListedV1(a: Asking, bucket: seq<Object>, size: PageSizes, i: nat, k: nat): seq<Object>
    requires k <= |bucket|
    decreases |bucket| - k
  {
    if !a.Fits(1, MarkerAt(bucket, k)) then []
    else
      var next := NextAt(bucket, size, i, k);
      Kept(PageAt(bucket, size, i, k)) + if next == None then [] else ListedV1(a, bucket, size, i + 1, next.value)
  }

  /** What should be listed from position k on: what is kept of a page, and what is behind the last object kept. */
  lemma KeptFrom(bucket: seq<Object>, size: PageSizes, i: nat, k: nat)
    requires k <= |bucket|
    ensures var page, next := PageAt(bucket, size, i, k), NextAt(bucket, size, i, k);
            Kept(bucket[k..]) == Kept(page) + Kept(bucket[if next.Some? then next.value else k + |page|..])
  {
    hide Kept, AllDirectories;
    var rest, page := bucket[k..], PageAt(bucket, size, i, k);
    assert rest == page + bucket[k + |page|..];
    KeptAppend(page, bucket[k + |page|..]);
    if NextAt(bucket, size, i, k).Some? {
      var j := LastKept(page) + 1;
      KeptUpTo(page);
      assert rest == page[..j] + bucket[k + j..];
      KeptAppend(page[..j], bucket[k + j..]);
    }
  }

  /** A listing never invents, repeats or reorders: what it gets is the front of what it should get. */
  lemma {:induction false} ListedIsPrefix(a: Asking, bucket: seq<Object>, size: PageSizes, i: nat, k: nat)
    requires k <= |bucket|
    ensures ListedV1(a, bucket, size, i, k) <= Kept(bucket[k..])
    decreases |bucket| - k
  {
    hide Kept, PageAt, NextAt, Asking.Fits;
    KeptFrom(bucket, size, i, k);
    var next := NextAt(bucket, size, i, k);
    if next.Some? {
      ListedIsPrefix(a, bucket, size, i + 1, next.value);
    }
  }

  lemma NothingBehindEnd(bucket: seq<Object>)
    ensures Kept(bucket[|bucket|..]) == []
  {}

  /** When all requests are sent, the listing is complete exactly when no page hides something. */
  lemma {:induction false} CompleteIffNoStall(a: Asking, bucket: seq<Object>, size: PageSizes, i: nat, k: nat)
    requires k <= |bucket| && MarkersFit(a, bucket, size, i, k)
    ensures ListedV1(a, bucket, size, i, k) == Kept(bucket[k..]) <==> !StallsFrom(bucket, size, i, k)
    decreases |bucket| - k
  {
    hide Kept, Asking.Fits, FirstOf, MarkerAt;
    KeptFrom(bucket, size, i, k);
    var page, next := PageAt(bucket, size, i, k), NextAt(bucket, size, i, k);
    if next.Some? {
      CompleteIffNoStall(a, bucket, size, i + 1, next.value);
      SameFront(Kept(page), ListedV1(a, bucket, size, i + 1, next.value), Kept(bucket[next.value..]));
    } else {
      NothingBehindEnd(bucket);
    }
  }

  // ---- The run ----

  /** With plain keys the client continues from the key of an object: that of the last one kept. */
  lemma PlainReplyV1(server: Server, bucket: seq<Object>, a: Asking, size: PageSizes, s: Settings, i: nat, k: nat)
    requires s.version == 1 && k <= |bucket| && GoodObjects(bucket) && Sorted(bucket) && PlainKeys(bucket)
    requires ServesV1(server, bucket, a, size) && a.Fits(1, MarkerAt(bucket, k))
    ensures var reply, page := server(i, MarkerAt(bucket, k)), PageAt(bucket, size, i, k);
            var next := NextAt(bucket, size, i, k);
            && GoodReply(reply, s) && ReplyItems(reply, s) == Items(Kept(page), s.conv)
            && ReplyResult(reply, s) == MS3_ERR_NONE
            && AsksFor(reply, s) == if next == None then None else MarkerAt(bucket, next.value)
  {
    hide GoodReply, ReplyItems, AsksFor, Kept, GoodObjects, ReplyResult, Items, PlainKeys, Asking.Fits, PrintsPage;
    hide ShownAll, After, Sorted, AllDirectories, IsDirectory, PlainToken;
    var marker, page := MarkerAt(bucket, k), PageAt(bucket, size, i, k);
    AfterMarker(bucket, k);
    assert RepliesV1(server, bucket, a, size, i, marker);
    var more := MoreV1(page, bucket[k..]);
    SliceIsGood(bucket, k, |page|);
    SliceIsPlain(bucket, k, |page|);
    MoreIsPlain(page, bucket[k..]);
    AnsweredObjects(server(i, marker), s, page, more);
    KeptShown(page);
    if Kept(page) != [] {
      KeptUpTo(page);
    }
  }

  lemma AfterMarker(bucket: seq<Object>, k: nat)
    requires Sorted(bucket) && k <= |bucket|
    ensures After(bucket, MarkerAt(bucket, k)) == bucket[k..]
  {
    if k > 0 {
      AfterKey(bucket, k - 1);
    }
  }

  /** The run from a position on ends; a request that is too long is its last one. */
  lemma {:induction false} RunV1(server: Server, bucket: seq<Object>, a: Asking, size: PageSizes, s: Settings,
                                 i: nat, k: nat)
    requires s.version == 1 && k <= |bucket| && GoodObjects(bucket) && Sorted(bucket) && PlainKeys(bucket)
    requires ServesV1(server, bucket, a, size)
    ensures RunGives(server, i, MarkerAt(bucket, k), s, |bucket| - k + 1,
                     Items(ListedV1(a, bucket, size, i, k), s.conv),
                     if MarkersFit(a, bucket, size, i, k) then MS3_ERR_NONE else MS3_ERR_URI_TOO_LONG)
    decreases |bucket| - k
  {
    hide GoodReply, ReplyItems, AsksFor, Kept, GoodObjects, Sorted, ReplyResult, Items, RunGives, ServesV1;
    hide PlainKeys, Asking.Fits, PageAt, NextAt, MarkerAt;
    var marker, next := MarkerAt(bucket, k), NextAt(bucket, size, i, k);
    if !a.Fits(1, marker) {
      RefusedV1(server, bucket, a, size, i, marker);
      RefusedRequest(server(i, marker), s);
      RunEnds(server, i, marker, s, |bucket| - k + 1);
      NoItems(s.conv);
    } else {
      PlainReplyV1(server, bucket, a, size, s, i, k);
      if next == None {
        assert ListedV1(a, bucket, size, i, k) == Kept(PageAt(bucket, size, i, k));
        RunEnds(server, i, marker, s, |bucket| - k + 1);
      } else {
        var behind := ListedV1(a, bucket, size, i + 1, next.value);
        var res := if MarkersFit(a, bucket, size, i + 1, next.value) then MS3_ERR_NONE else MS3_ERR_URI_TOO_LONG;
        RunV1(server, bucket, a, size, s, i + 1, next.value);
        WithinMore(server, i + 1, MarkerAt(bucket, next.value), s, |bucket| - next.value + 1, |bucket| - k,
                   Items(behind, s.conv), res);
        MarkerBehind(bucket, next.value);
        RunContinues(server, i, marker, s, |bucket| - k + 1, Items(behind, s.conv), res);
        ItemsAppend(Kept(PageAt(bucket, size, i, k)), behind, s.conv);
      }
    }
  }

  lemma MarkerBehind(bucket: seq<Object>, k: nat)
    requires 0 < k <= |bucket|
    ensures MarkerAt(bucket, k).Some?
  {}

  lemma NoItems(conv: Convert)
    ensures Items([], conv) == []
  {}

  lemma RefusedV1(server: Server, bucket: seq<Object>, a: Asking, size: PageSizes, i: nat, marker: Option<string>)
    requires ServesV1(server, bucket, a, size) && !a.Fits(1, marker)
    ensures server(i, marker) == NotSent(MS3_ERR_URI_TOO_LONG)
  {
    assert RepliesV1(server, bucket, a, size, i, marker);
  }

  /** The listing is complete, and no request was too long. */
  predicate CompleteV1(a: Asking, bucket: seq<Object>, size: PageSizes) {
    MarkersFit(a, bucket, size, 0, 0) && !StallsFrom(bucket, size, 0, 0)
  }

  /** With plain keys the listing ends, with the front of what should be listed, and says if a request was too long. */
  lemma PlainListingV1(server: Server, bucket: seq<Object>, a: Asking, size: PageSizes, s: Settings)
    requires s.version == 1 && GoodObjects(bucket) && Sorted(bucket) && PlainKeys(bucket)
    requires ServesV1(server, bucket, a, size)
    ensures var listed, expected := Items(ListedV1(a, bucket, size, 0, 0), s.conv), Items(Kept(bucket), s.conv);
            var fit := MarkersFit(a, bucket, size, 0, 0);
            && RunGives(server, 0, None, s, |bucket| + 1, listed, if fit then MS3_ERR_NONE else MS3_ERR_URI_TOO_LONG)
            && listed <= expected
            && (fit ==> (listed == expected <==> !StallsFrom(bucket, size, 0, 0)))
  {
    hide RunGives, Kept, ListedV1, StallsFrom, MarkersFit, GoodObjects, Sorted, PlainKeys, ServesV1;
    assert bucket[0..] == bucket;
    RunV1(server, bucket, a, size, s, 0, 0);
    ListedIsPrefix(a, bucket, size, 0, 0);
    if MarkersFit(a, bucket, size, 0, 0) {
      CompleteIffNoStall(a, bucket, size, 0, 0);
    }
    var front, kept := ListedV1(a, bucket, size, 0, 0), Kept(bucket);
    assert kept == front + kept[|front|..];
    ItemsAppend(front, kept[|front|..], s.conv);
    assert Items(front, s.conv) == Items(kept, s.conv) ==> |front| == |kept| && front == kept;
  }

  // ---- And without plain keys ----

  /** Whatever a run lists, it lists as it is shown. */
  lemma {:induction false} ListedAreShown(server: Server, bucket: seq<Object>, a: Asking, size: PageSizes, s: Settings,
                                          i: nat, marker: Option<string>, m: nat)
    requires s.version == 1 && GoodObjects(bucket) && ServesV1(server, bucket, a, size)
    requires EndsWithin(server, i, marker, s, m)
    ensures AllShown(AllItems(Replies(server, i, marker, s, m), s), bucket)
    decreases m
  {
    hide GoodReply, AsksFor, GoodObjects, ReplyItems, AllItems, IsShown, ServesV1;
    var next := AsksFor(server(i, marker), s);
    ReplyIsShown(server, bucket, a, size, s, i, marker);
    if next == None {
      ItemsOfOne(server(i, marker), s);
      assert [server(i, marker)] + [] == [server(i, marker)];
    } else {
      ListedAreShown(server, bucket, a, size, s, i + 1, next, m - 1);
      ItemsOfFirst(server(i, marker), Replies(server, i + 1, next, s, m - 1), s);
    }
  }

  lemma ReplyIsShown(server: Server, bucket: seq<Object>, a: Asking, size: PageSizes, s: Settings,
                     i: nat, marker: Option<string>)
    requires s.version == 1 && GoodObjects(bucket) && ServesV1(server, bucket, a, size)
    ensures AllShown(ReplyItems(server(i, marker), s), bucket)
  {
    hide GoodReply, ReplyItems, AsksFor, Kept, GoodObjects, ReplyResult, Items, Asking.Fits, PrintsPage;
    hide ShownAll, After, PlainToken, IsShown;
    assert RepliesV1(server, bucket, a, size, i, marker);
    if a.Fits(1, marker) {
      var k := AfterIsEnd(bucket, marker);
      var rest := bucket[k..];
      var page := FirstOf(rest, size(i, marker));
      SliceIsGood(bucket, k, |page|);
      MoreIsPlain(page, rest);
      AnsweredObjects(server(i, marker), s, page, MoreV1(page, rest));
      PageIsShown(bucket, k, |page|, s.conv);
    } else {
      RefusedRequest(server(i, marker), s);
    }
  }

  /** A run of any length that lists the bucket has met plain keys only. */
  lemma ListedMeansPlain(server: Server, bucket: seq<Object>, a: Asking, size: PageSizes, s: Settings)
    requires s.version == 1 && GoodObjects(bucket) && ServesV1(server, bucket, a, size)
    requires Lists(server, Items(Kept(bucket), s.conv), s)
    ensures PlainKeys(bucket)
  {
    hide GoodObjects, ServesV1, Kept, Items, AllShown, KeptKeysShown, EndsWithin, Replies, AllItems;
    hide Plain, IsDirectory, ReplyResult;
    var m: nat :| RunGives(server, 0, None, s, m, Items(Kept(bucket), s.conv), MS3_ERR_NONE);
    ListedAreShown(server, bucket, a, size, s, 0, None, m);
    AllKeptShown(bucket, s.conv);
    forall j | 0 <= j < |bucket| && !IsDirectory(bucket[j].key)
      ensures Plain(bucket[j].key)
    {
      KeptKeyIsPlain(bucket, j);
    }
  }

  /**
   * ms3_list in version 1: every key that does not end in a slash is listed once, in order, and without an error
   * exactly when all of these keys are plain, every marker on the way is short enough to be sent, and no page on
   * the way is all directories with something to keep behind it.
   */
  lemma ListingV1(server: Server, bucket: seq<Object>, a: Asking, size: PageSizes, s: Settings)
    requires s.version == 1 && GoodObjects(bucket) && Sorted(bucket) && ServesV1(server, bucket, a, size)
    ensures Lists(server, Items(Kept(bucket), s.conv), s) <==> PlainKeys(bucket) && CompleteV1(a, bucket, size)
  {
    hide RunGives, Kept, Items, ListedV1, StallsFrom, MarkersFit, GoodObjects, Sorted, PlainKeys, ServesV1, Lists;
    if Lists(server, Items(Kept(bucket), s.conv), s) {
      ListedMeansPlain(server, bucket, a, size, s);
    }
    if PlainKeys(bucket) {
      PlainListingV1(server, bucket, a, size, s);
      var res := if MarkersFit(a, bucket, size, 0, 0) then MS3_ERR_NONE else MS3_ERR_URI_TOO_LONG;
      ListsIff(server, Items(Kept(bucket), s.conv), s, |bucket| + 1,
               Items(ListedV1(a, bucket, size, 0, 0), s.conv), res);
    }
  }

  /** ms3_list on a version 1 bucket, down to the linked list. */
  method ListBucketV1(client: Client, server: Server, bucket: seq<Object>, a: Asking, size: PageSizes)
    returns (res: int, start: Ptr)
    requires client.Valid() && client.settings.version == 1
    requires GoodObjects(bucket) && Sorted(bucket) && PlainKeys(bucket) && ServesV1(server, bucket, a, size)
    modifies client.list.Footprint()
    ensures client.Valid() && start == client.list.start
    ensures client.list.items == Items(ListedV1(a, bucket, size, 0, 0), client.settings.conv)
    ensures client.list.items <= Items(Kept(bucket), client.settings.conv)
    ensures res == if MarkersFit(a, bucket, size, 0, 0) then MS3_ERR_NONE else MS3_ERR_URI_TOO_LONG
    ensures res == MS3_ERR_NONE && client.list.items == Items(Kept(bucket), client.settings.conv)
            <==> CompleteV1(a, bucket, size)
  {
    hide Client.Valid, GoodObjects, Sorted, Kept, StallsFrom, MarkersFit, EndsWithin, Replies, ServesV1, ListedV1;
    hide PlainKeys, AllItems, ReplyResult, Items;
    PlainListingV1(server, bucket, a, size, client.settings);
    res, start := client.List(server, |bucket| + 1);
  }

  // ---- Full pages ----

  /** With full pages, the listing is hindered by any n directories in a row that have something to keep behind. */
  lemma {:induction false} FullPagesStall(bucket: seq<Object>, n: nat, i: nat, k: nat)
    requires n > 0 && k <= |bucket|
    ensures StallsFrom(bucket, FullPages(n), i, k) <==> Stalls(bucket[k..], n)
    decreases |bucket| - k
  {
    hide Kept, AllDirectories, Stalls;
    var size, rest := FullPages(n), bucket[k..];
    var page, next := PageAt(bucket, size, i, k), NextAt(bucket, size, i, k);
    if |rest| <= n {
      assert bucket[k + |page|..] == bucket[|bucket|..];
      NothingBehindEnd(bucket);
      ShortDoesNotStall(rest, n);
    } else {
      assert page == rest[..n] && bucket[k + n..] == rest[n..];
      NothingKept(page);
      if next == None {
        StallsAtFront(rest, n);
      } else {
        assert rest[LastKept(page) + 1..] == bucket[next.value..];
        FullPagesStall(bucket, n, i + 1, next.value);
        StallsBehind(rest, n);
        assert Kept(page) != [];
      }
    }
  }

  lemma StallsAtFront(os: seq<Object>, n: nat)
    requires n < |os| && Kept(os[..n]) == []
    ensures Stalls(os, n) <==> Kept(os[n..]) != []
  {
    hide Kept, AllDirectories;
    assert os == os[..n] + os[n..];
    NothingKept(os[..n]);
    if Kept(os[n..]) == [] {
      KeptAppend(os[..n], os[n..]);
      NothingToStall(os, n);
    } else {
      assert os[0..0 + n] == os[..n] && os[0 + n..] == os[n..];
      assert StallsAt(os, n, 0);
    }
  }
}
