/** Which buckets version 1 lists whatever the server does, and buckets that it does not list. */
module ListedBuckets {
  import opened Options
  import opened Errors
  import opened XmlSpec
  import opened ListPool
  import opened ListPage
  import opened Listing
  import opened BucketPage
  import opened BucketServer
  import opened BucketKeys
  import opened BucketRuns
  import opened BucketListingV1
  import opened MarkupText
  import opened TextElements
  import ObjectPath
  import PercentEncoding
  import RequestUri

  // ---- What a caller can check ----

  /** No directory key stands before a key that is kept. */
  predicate DirectoriesLast(bucket: seq<Object>) {
    forall i, j :: 0 <= i < j < |bucket| && IsDirectory(bucket[i].key) ==> IsDirectory(bucket[j].key)
  }

  /** Every key that may have to serve as a marker is short enough. */
  predicate KeysFit(a: Asking, bucket: seq<Object>) {
    && a.Fits(1, None)
    && forall j :: 0 <= j < |bucket| - 1 && !IsDirectory(bucket[j].key) ==> a.Fits(1, Some(bucket[j].key))
  }

  /** Whatever sizes of up to n objects a server gives its pages, and however it prints them. */
  ghost predicate EveryServerLists(a: Asking, bucket: seq<Object>, n: nat, s: Settings) {
    forall server, size :: SizesWithin(size, n) && ServesV1(server, bucket, a, size)
                           ==> Lists(server, Items(Kept(bucket), s.conv), s)
  }

  lemma {:induction false} ShortKeysFit(a: Asking, bucket: seq<Object>, size: PageSizes, i: nat, k: nat)
    requires k <= |bucket| && KeysFit(a, bucket)
    requires a.Fits(1, MarkerAt(bucket, k))
    ensures MarkersFit(a, bucket, size, i, k)
    decreases |bucket| - k
  {
    hide Kept, Asking.Fits, AllDirectories, IsDirectory;
    var page, next := PageAt(bucket, size, i, k), NextAt(bucket, size, i, k);
    if next.Some? {
      assert page == bucket[k..k + |page|] && page[LastKept(page)] == bucket[next.value - 1];
      ShortKeysFit(a, bucket, size, i + 1, next.value);
    }
  }

  lemma {:induction false} DirectoriesLastDoNotStall(bucket: seq<Object>, size: PageSizes, i: nat, k: nat)
    requires k <= |bucket| && NoEmptyPages(size) && DirectoriesLast(bucket)
    ensures !StallsFrom(bucket, size, i, k)
    decreases |bucket| - k
  {
    hide Kept, AllDirectories, IsDirectory;
    var page, next := PageAt(bucket, size, i, k), NextAt(bucket, size, i, k);
    if Kept(page) == [] {
      DirectoriesStay(bucket, k, |page|);
    }
    if next.Some? {
      DirectoriesLastDoNotStall(bucket, size, i + 1, next.value);
    }
  }

  lemma DirectoriesStay(bucket: seq<Object>, k: nat, n: nat)
    requires DirectoriesLast(bucket) && k + n <= |bucket| && Kept(bucket[k..][..n]) == []
    requires n > 0 || k == |bucket|
    ensures Kept(bucket[k + n..]) == []
  {
    hide Kept, IsDirectory;
    NothingKept(bucket[k..][..n]);
    NothingKept(bucket[k + n..]);
    if n > 0 {
      assert bucket[k..][..n][0] == bucket[k];
    }
  }

  lemma OnePages(bucket: seq<Object>, i: nat, k: nat)
    requires k < |bucket|
    ensures PageAt(bucket, FullPages(1), i, k) == [bucket[k]]
    ensures var next := NextAt(bucket, FullPages(1), i, k);
            next == if k + 1 == |bucket| || IsDirectory(bucket[k].key) then None else Some(k + 1)
  {
    hide IsDirectory;
    assert bucket[k..] == [bucket[k]] + bucket[k + 1..];
    OneKept(bucket[k]);
  }

  lemma OneKept(o: Object)
    ensures Kept([o]) == [] <==> IsDirectory(o.key)
  {}

  /** With one object on a page, every kept key but the last object's has to serve as a marker. */
  lemma {:induction false} OnePagesNeedKeys(a: Asking, bucket: seq<Object>, i: nat, k: nat, j: nat)
    requires DirectoriesLast(bucket) && k <= j < |bucket| - 1 && !IsDirectory(bucket[j].key)
    requires MarkersFit(a, bucket, FullPages(1), i, k)
    ensures a.Fits(1, Some(bucket[j].key))
    decreases |bucket| - k
  {
    hide Asking.Fits, IsDirectory, PageAt, NextAt;
    OnePages(bucket, i, k);
    if k < j {
      OnePagesNeedKeys(a, bucket, i + 1, k + 1, j);
    } else {
      assert MarkersFit(a, bucket, FullPages(1), i + 1, k + 1);
    }
  }

  lemma OneDirectoryStalls(bucket: seq<Object>)
    requires !Stalls(bucket, 1)
    ensures DirectoriesLast(bucket)
  {
    hide IsDirectory, Kept;
    forall i, j | 0 <= i < j < |bucket| && IsDirectory(bucket[i].key)
      ensures IsDirectory(bucket[j].key)
    {
      assert !StallsAt(bucket, 1, i);
      NothingKept(bucket[i + 1..]);
      assert bucket[i + 1..][j - i - 1] == bucket[j];
    }
  }

  /**
   * Every server with pages of up to n objects lists the bucket if and only if its kept keys are plain, no directory
   * key stands before one of them, and each of them that may be a marker is short enough.
   */
  lemma ListedByEveryServer(a: Asking, bucket: seq<Object>, n: nat, s: Settings)
    requires s.version == 1 && n > 0 && GoodObjects(bucket) && Sorted(bucket)
    ensures EveryServerLists(a, bucket, n, s)
            <==> PlainKeys(bucket) && DirectoriesLast(bucket) && KeysFit(a, bucket)
  {
    hide GoodObjects, Sorted, PlainKeys, DirectoriesLast, KeysFit, ServesV1, Lists, StallsFrom, MarkersFit, Stalls;
    if EveryServerLists(a, bucket, n, s) {
      var size := FullPages(1);
      var server := SimpleServerV1(bucket, a, size);
      SimpleServesV1(bucket, a, size);
      assert SizesWithin(size, n) && ServesV1(server, bucket, a, size);
      ListingV1(server, bucket, a, size, s);
      FullPagesStall(bucket, 1, 0, 0);
      assert bucket[0..] == bucket;
      OneDirectoryStalls(bucket);
      KeysHaveToFit(a, bucket);
    }
    if PlainKeys(bucket) && DirectoriesLast(bucket) && KeysFit(a, bucket) {
      forall server, size | SizesWithin(size, n) && ServesV1(server, bucket, a, size)
        ensures Lists(server, Items(Kept(bucket), s.conv), s)
      {
        FirstFits(a, bucket);
        ShortKeysFit(a, bucket, size, 0, 0);
        DirectoriesLastDoNotStall(bucket, size, 0, 0);
        ListingV1(server, bucket, a, size, s);
      }
    }
  }

  lemma FirstFits(a: Asking, bucket: seq<Object>)
    requires KeysFit(a, bucket)
    ensures a.Fits(1, MarkerAt(bucket, 0))
  {}

  lemma KeysHaveToFit(a: Asking, bucket: seq<Object>)
    requires DirectoriesLast(bucket) && MarkersFit(a, bucket, FullPages(1), 0, 0)
    ensures KeysFit(a, bucket)
  {
    hide IsDirectory, Asking.Fits, DirectoriesLast, NextAt;
    assert a.Fits(1, None);
    forall j | 0 <= j < |bucket| - 1 && !IsDirectory(bucket[j].key)
      ensures a.Fits(1, Some(bucket[j].key))
    {
      OnePagesNeedKeys(a, bucket, 0, 0, j);
    }
  }

  /** A bound on the length of the keys, three times which leaves room for the rest of the request. */
  lemma BoundedKeysFit(a: Asking, bucket: seq<Object>, bound: nat)
    requires forall o :: o in bucket ==> |o.key| <= bound
    requires a.RequestLength(1, None) + 8 + 3 * bound < RequestUri.MAX_URI_LENGTH - 1
    ensures KeysFit(a, bucket)
  {
    hide IsDirectory, Asking.RequestLength;
    forall j | 0 <= j < |bucket|
      ensures a.Fits(1, Some(bucket[j].key))
    {
      assert bucket[j] in bucket;
      ContinuationLength(a, 1, bucket[j].key);
      EscapedLength(bucket[j].key);
    }
  }

  // ---- Buckets that are not listed ----

  lemma GoodFile(key: string)
    requires Plain(key) && key != "" && '\0' !in key
    ensures GoodObject(Object(key, "1", "t"))
  {
    ShownIsSame(key);
    assert GoodValue("1") && GoodValue("t");
  }

  const HIDING_BUCKET: seq<Object> := [Object("a/", "1", "t"), Object("b", "1", "t")]

  lemma PlainFiles()
    ensures Plain("a/") && Plain("b")
  {}

  lemma HidingBucketIsGood()
    ensures Sorted(HIDING_BUCKET) && GoodObjects(HIDING_BUCKET) && PlainKeys(HIDING_BUCKET)
  {
    PlainFiles();
    hide Plain, IsDirectory, Shown;
    GoodFile("a/");
    GoodFile("b");
    hide GoodObject;
  }

  lemma HidingBucketIsNotListed(a: Asking)
    requires a.Fits(1, None)
    ensures Kept(HIDING_BUCKET) == [HIDING_BUCKET[1]]
    ensures ListedV1(a, HIDING_BUCKET, FullPages(1), 0, 0) == [] && MarkersFit(a, HIDING_BUCKET, FullPages(1), 0, 0)
  {
    hide Asking.Fits;
    OnePages(HIDING_BUCKET, 0, 0);
    assert HIDING_BUCKET[1..] == [HIDING_BUCKET[1]];
    OneKept(HIDING_BUCKET[0]);
  }

  /** A directory on a page of its own hides the file behind it: the client lists nothing, and reports no error. */
  lemma DirectoryHidesFile(server: Server, a: Asking, s: Settings)
    requires s.version == 1 && a.Fits(1, None) && ServesV1(server, HIDING_BUCKET, a, FullPages(1))
    ensures Sorted(HIDING_BUCKET) && GoodObjects(HIDING_BUCKET) && Kept(HIDING_BUCKET) == [HIDING_BUCKET[1]]
    ensures RunGives(server, 0, None, s, 3, [], MS3_ERR_NONE)
  {
    HidingBucketIsGood();
    HidingBucketIsNotListed(a);
    hide GoodObjects, Sorted, PlainKeys, Kept, ListedV1, RunGives, StallsFrom, Asking.Fits, ServesV1, MarkersFit;
    PlainListingV1(server, HIDING_BUCKET, a, FullPages(1), s);
  }

  const MARKED := "a&b"
  const MARKER := "a&amp;b"

  lemma MarkedIsShown()
    ensures Shown(MARKED) == MARKER && Less(MARKER, MARKED) && Less(MARKED, "c") && '\0' !in MARKED
    ensures !IsDirectory(MARKER)
  {
    assert MARKED[1..] == "&b" && MARKED[1..][1..] == "b" && MARKED[1..][1..][1..] == "";
    assert EscapeText("b") == "b" + "";
    assert EscapeText("&b") == "&amp;" + EscapeText("b");
    assert EscapeText(MARKED) == "a" + EscapeText("&b");
    assert EscapeText(MARKED) == MARKER;
    TrimmedSame(MARKER);
    assert MARKER[1..][0] == '&' && MARKER[1..][1..][0] == 'a';
  }

  const MARKED_BUCKET: seq<Object> := [Object(MARKED, "1", "t"), Object("c", "1", "t")]

  lemma MarkedBucketIsGood()
    ensures GoodObjects(MARKED_BUCKET) && Sorted(MARKED_BUCKET)
  {
    MarkedIsShown();
    hide Less, Shown;
    assert GoodValue("1") && GoodValue("t");
    GoodFile("c");
  }

  lemma MarkedAfter(marker: Option<string>)
    requires marker == None || marker == Some(MARKER)
    ensures After(MARKED_BUCKET, marker) == MARKED_BUCKET
  {
    MarkedIsShown();
    hide Less, Shown, IsDirectory;
  }

  lemma MarkedAsks(more: Option<string>)
    requires more.Some?
    ensures PageAsks(ShownAll([MARKED_BUCKET[0]]), 1, more) == Some(MARKER)
  {
    MarkedIsShown();
    hide Less, Shown, IsDirectory;
    var shown := ShownAll([MARKED_BUCKET[0]]);
    LastOfKept(shown, None);
    assert shown[1..] == [];
  }

  lemma FirstOfTwo(server: Server, bucket: seq<Object>, a: Asking, i: nat, marker: Option<string>)
    requires |bucket| == 2 && GoodObjects(bucket) && After(bucket, marker) == bucket && a.Fits(1, marker)
    requires ServesV1(server, bucket, a, FullPages(1))
    ensures PrintsPage(server(i, marker), 1, AsEntries([bucket[0]]), Some("more"))
    ensures GoodObjects([bucket[0]]) && PlainToken(Some("more"))
  {
    hide GoodObject, After, Asking.Fits, PrintsPage, PlainToken;
    assert RepliesV1(server, bucket, a, FullPages(1), i, marker);
    assert bucket[..1] == [bucket[0]];
    MoreIsPlain([bucket[0]], bucket);
  }

  /** The first page again: the entity in the marker puts it in front of the key it was made from. */
  lemma MarkedReply(server: Server, a: Asking, s: Settings, i: nat, marker: Option<string>)
    requires s.version == 1 && (marker == None || marker == Some(MARKER)) && a.Fits(1, marker)
    requires ServesV1(server, MARKED_BUCKET, a, FullPages(1))
    ensures AsksFor(server(i, marker), s) == Some(MARKER)
  {
    MarkedBucketIsGood();
    MarkedAfter(marker);
    hide GoodObjects, AsksFor, After, PageAsks, ShownAll, GoodReply, ReplyItems, ReplyResult, Kept, Items;
    hide Asking.Fits, PrintsPage, PlainToken, ServesV1;
    FirstOfTwo(server, MARKED_BUCKET, a, i, marker);
    MarkedAsks(Some("more"));
    AnsweredObjects(server(i, marker), s, [MARKED_BUCKET[0]], Some("more"));
  }

  /** A key with an ampersand, alone on its page, is asked for again and again: no number of requests is enough. */
  lemma {:induction false} MarkerRepeats(server: Server, a: Asking, s: Settings, i: nat, marker: Option<string>, m: nat)
    requires s.version == 1 && (marker == None || marker == Some(MARKER))
    requires a.Fits(1, None) && a.Fits(1, Some(MARKER)) && ServesV1(server, MARKED_BUCKET, a, FullPages(1))
    ensures !EndsWithin(server, i, marker, s, m)
    decreases m
  {
    hide AsksFor, GoodReply, Asking.Fits, ServesV1;
    if m > 0 {
      MarkedReply(server, a, s, i, marker);
      MarkerRepeats(server, a, s, i + 1, Some(MARKER), m - 1);
    }
  }

  /** A key that S3 allows, but that is too long for a marker. */
  predicate LongKey(key: string) {
    1005 <= |key| <= 1024 && Plain(key) && '\0' !in key && !IsDirectory(key) && Less(key, "b")
  }

  lemma LongKeyExists()
    ensures LongKey(seq(1024, _ => 'a'))
  {}

  function LongBucket(key: string): seq<Object> {
    [Object(key, "1", "t"), Object("b", "1", "t")]
  }

  lemma LongBucketIsGood(key: string)
    requires LongKey(key)
    ensures Sorted(LongBucket(key)) && GoodObjects(LongBucket(key)) && PlainKeys(LongBucket(key))
    ensures !Stalls(LongBucket(key), 1)
  {
    assert !IsDirectory("b") && Plain("b");
    hide Plain, IsDirectory, Less;
    GoodFile(key);
    GoodFile("b");
    hide GoodObject, Kept;
    NoDirectories(LongBucket(key));
  }

  lemma NoDirectories(bucket: seq<Object>)
    requires forall o :: o in bucket ==> !IsDirectory(o.key)
    ensures !Stalls(bucket, 1)
  {
    hide IsDirectory, Kept;
    forall i: nat
      ensures !StallsAt(bucket, 1, i)
    {
      if i < |bucket| {
        assert bucket[i..i + 1][0] == bucket[i] && bucket[i] in bucket;
      }
    }
  }

  lemma LongMarker(a: Asking, key: string)
    requires |key| >= 1005
    ensures !a.Fits(1, Some(key))
  {
    ContinuationLength(a, 1, key);
    EscapedLength(key);
    hide PercentEncoding.Escape, RequestUri.QueryText, ObjectPath.PathOf;
    assert a.RequestLength(1, None) >= 11 by {
      RootPath();
    }
  }

  lemma RootPath()
    ensures ObjectPath.PathOf(None) == "/"
  {}

  lemma LongKeyIsListed(a: Asking, key: string)
    requires LongKey(key) && a.Fits(1, None)
    ensures var bucket, size := LongBucket(key), FullPages(1);
            ListedV1(a, bucket, size, 0, 0) == [bucket[0]] && !MarkersFit(a, bucket, size, 0, 0)
  {
    hide Asking.Fits, Plain, Less, PageAt, NextAt;
    var bucket := LongBucket(key);
    LongMarker(a, key);
    OnePages(bucket, 0, 0);
    KeptOne(bucket[0]);
  }

  /** The marker after the first page is refused: the object behind it is never asked for. */
  lemma LongKeyIsRefused(server: Server, a: Asking, s: Settings, key: string)
    requires LongKey(key)
    requires s.version == 1 && a.Fits(1, None) && ServesV1(server, LongBucket(key), a, FullPages(1))
    ensures var bucket := LongBucket(key);
            && Sorted(bucket) && GoodObjects(bucket) && PlainKeys(bucket) && !Stalls(bucket, 1)
            && RunGives(server, 0, None, s, 3, Items([bucket[0]], s.conv), MS3_ERR_URI_TOO_LONG)
            && !Lists(server, Items(Kept(bucket), s.conv), s)
  {
    hide GoodObjects, Sorted, PlainKeys, Kept, ListedV1, RunGives, StallsFrom, Asking.Fits, ServesV1, MarkersFit;
    hide Items, Lists, Stalls, LongKey;
    LongBucketIsGood(key);
    LongKeyIsListed(a, key);
    PlainListingV1(server, LongBucket(key), a, FullPages(1), s);
    ListingV1(server, LongBucket(key), a, FullPages(1), s);
  }

  // ---- Prefixes in version 1 ----

  const B_FILE := Object("b", "1", "t")
  const D_FILE := Object("d", "1", "t")

  lemma PrefixPages()
    ensures GoodEntries([Obj(B_FILE), Dir("c/")]) && GoodEntries([Dir("c/"), Obj(D_FILE)])
    ensures ShownEntries([Obj(B_FILE), Dir("c/")]) == [Obj(B_FILE), Dir("c/")]
    ensures ShownEntries([Dir("c/"), Obj(D_FILE)]) == [Dir("c/"), Obj(D_FILE)]
  {
    PlainNames();
    GoodFile("b");
    GoodFile("d");
    ShownIsSame("b");
    ShownIsSame("c/");
    ShownIsSame("d");
    hide Plain, Shown, GoodObject;
  }

  lemma PlainNames()
    ensures Plain("b") && Plain("c/") && Plain("d")
  {}

  lemma PrefixItems(conv: Convert)
    ensures EntryItems([Obj(B_FILE), Dir("c/")], conv) == [ItemOf(B_FILE, conv), Item("c/", 0, 0)]
    ensures EntryItems([Dir("c/"), Obj(D_FILE)], conv) == [Item("c/", 0, 0), ItemOf(D_FILE, conv)]
    ensures LastKeyAfter(Objects([Obj(B_FILE), Dir("c/")]), None) == Some("b")
  {
    hide ItemOf;
    assert [Obj(B_FILE), Dir("c/")][1..] == [Dir("c/")] && [Dir("c/")][1..] == [];
    assert [Dir("c/"), Obj(D_FILE)][1..] == [Obj(D_FILE)] && [Obj(D_FILE)][1..] == [];
    assert EntryItems([], conv) == [] && Objects([]) == [];
    assert EntryItems([Dir("c/")], conv) == [Item("c/", 0, 0)] && Objects([Dir("c/")]) == [];
    assert EntryItems([Obj(D_FILE)], conv) == [ItemOf(D_FILE, conv)];
    assert Objects([Obj(B_FILE), Dir("c/")]) == [B_FILE];
    KeptOne(B_FILE);
  }

  /**
   * A prefix does not move the marker: what a page of version 1 ends with comes again with what is behind the last
   * object.
   */
  lemma PrefixListedTwice(server: Server, s: Settings)
    requires s.version == 1
    requires PrintsPage(server(0, None), 1, [Obj(B_FILE), Dir("c/")], Some("more"))
    requires PrintsPage(server(1, Some("b")), 1, [Dir("c/"), Obj(D_FILE)], None)
    ensures RunGives(server, 0, None, s, 2,
                     [ItemOf(B_FILE, s.conv), Item("c/", 0, 0)] + [Item("c/", 0, 0), ItemOf(D_FILE, s.conv)],
                     MS3_ERR_NONE)
  {
    hide PrintsPage, GoodReply, ReplyItems, AsksFor, ReplyResult, GoodEntries, ShownEntries, EntryItems, Objects;
    hide RunGives, LastKeyAfter, ItemOf;
    PrefixPages();
    PrefixItems(s.conv);
    MoreIsPlain([], [B_FILE]);
    NoMoreIsPlain();
    hide PlainToken;
    AnsweredPage(server(0, None), s, [Obj(B_FILE), Dir("c/")], Some("more"));
    AnsweredPage(server(1, Some("b")), s, [Dir("c/"), Obj(D_FILE)], None);
    RunEnds(server, 1, Some("b"), s, 1);
    RunContinues(server, 0, None, s, 2, [Item("c/", 0, 0), ItemOf(D_FILE, s.conv)], MS3_ERR_NONE);
  }

  lemma NoMoreIsPlain()
    ensures PlainToken(None)
  {}
}
