/** The keys of a bucket: their order, which of them are kept, and how the client gets to see them. */
module BucketKeys {
  import opened Options
  import opened XmlSpec
  import opened ListPool
  import opened ListPage
  import opened BucketPage
  import opened BucketServer
  import opened MarkupText
  import opened TextElements

  // ---- Keys in order ----

  /** The order of keys: by their bytes. */
  predicate Less(a: string, b: string) {
    b != "" && (a == "" || a[0] < b[0] || (a[0] == b[0] && Less(a[1..], b[1..])))
  }

  lemma {:induction false} LessAsymmetric(a: string, b: string)
    requires Less(a, b)
    ensures !Less(b, a)
  {
    if a != "" && a[0] == b[0] {
      LessAsymmetric(a[1..], b[1..]);
    }
  }

  predicate Sorted(os: seq<Object>) {
    forall i, j :: 0 <= i < j < |os| ==> Less(os[i].key, os[j].key)
  }

  /** The objects that come behind a marker. */
  function After(os: seq<Object>, marker: Option<string>): seq<Object> {
    if marker == None || os == [] || Less(marker.value, os[0].key) then os else After(os[1..], marker)
  }

  /** Behind the key of an object come exactly the objects that follow it. */
  lemma {:induction false} AfterKey(os: seq<Object>, k: nat)
    requires Sorted(os) && k < |os|
    ensures After(os, Some(os[k].key)) == os[k + 1..]
  {
    if k == 0 {
      if Less(os[0].key, os[0].key) {
        LessAsymmetric(os[0].key, os[0].key);
      }
      assert |os| > 1 ==> Less(os[0].key, os[1].key);
      assert os[1..] == [] || After(os[1..], Some(os[0].key)) == os[1..];
    } else {
      assert Less(os[0].key, os[k].key);
      LessAsymmetric(os[0].key, os[k].key);
      AfterKey(os[1..], k - 1);
      assert os[1..][k..] == os[k + 1..];
    }
  }

  // ---- Kept objects ----

  lemma {:induction false} KeptAppend(a: seq<Object>, b: seq<Object>)
    ensures Kept(a + b) == Kept(a) + Kept(b)
  {
    if a == [] {
      assert a + b == b;
    } else {
      assert (a + b)[1..] == a[1..] + b;
      KeptAppend(a[1..], b);
    }
  }

  predicate AllDirectories(os: seq<Object>) {
    forall i :: 0 <= i < |os| ==> IsDirectory(os[i].key)
  }

  lemma {:induction false} NothingKept(os: seq<Object>)
    ensures Kept(os) == [] <==> AllDirectories(os)
  {
    if os != [] {
      NothingKept(os[1..]);
      assert AllDirectories(os) ==> AllDirectories(os[1..]);
      if AllDirectories(os[1..]) && IsDirectory(os[0].key) {
        assert forall i :: 0 < i < |os| ==> os[i] == os[1..][i - 1];
      }
    }
  }

  /** The index of the last object that is kept. */
  function LastKept(os: seq<Object>): (k: nat)
    requires Kept(os) != []
    ensures k < |os| && !IsDirectory(os[k].key)
    ensures AllDirectories(os[k + 1..])
  {
    if IsDirectory(os[|os| - 1].key) then
      KeptAppend(os[..|os| - 1], os[|os| - 1..]);
      assert os[..|os| - 1] + os[|os| - 1..] == os;
      NothingKept(os[|os| - 1..]);
      var k := LastKept(os[..|os| - 1]);
      assert os[k + 1..] == os[..|os| - 1][k + 1..] + os[|os| - 1..];
      k
    else |os| - 1
  }

  lemma KeptOne(o: Object)
    requires !IsDirectory(o.key)
    ensures Kept([o]) == [o]
  {
  }

  lemma KeptUpTo(os: seq<Object>)
    requires Kept(os) != []
    ensures var k := LastKept(os);
            Kept(os) == Kept(os[..k + 1]) && Kept(os)[|Kept(os)| - 1] == os[k]
  {
    hide Kept, AllDirectories, IsDirectory;
    var k := LastKept(os);
    assert os == os[..k + 1] + os[k + 1..] && os[..k + 1] == os[..k] + [os[k]];
    KeptAppend(os[..k + 1], os[k + 1..]);
    NothingKept(os[k + 1..]);
    KeptAppend(os[..k], [os[k]]);
    KeptOne(os[k]);
  }

  // ---- Rows of directories ----

  /** A page full of directories, with something to keep behind it. */
  ghost predicate StallsAt(os: seq<Object>, n: nat, i: nat) {
    i + n <= |os| && AllDirectories(os[i..i + n]) && Kept(os[i + n..]) != []
  }

  /** Somewhere in the bucket there are n directories in a row, and something to keep behind them. */
  ghost predicate Stalls(os: seq<Object>, n: nat) {
    exists i: nat :: StallsAt(os, n, i)
  }

  /** Only the part behind the last kept object of a full page can stall. */
  lemma StallsBehind(os: seq<Object>, n: nat)
    requires 0 < n < |os| && Kept(os[..n]) != []
    ensures Stalls(os, n) <==> Stalls(os[LastKept(os[..n]) + 1..], n)
  {
    hide Kept, AllDirectories;
    var k := LastKept(os[..n]) + 1;
    var rest := os[k..];
    forall i: nat | StallsAt(os, n, i)
      ensures i >= k && StallsAt(rest, n, i - k)
    {
      if i < k {
        DirectoryInside(os[i..i + n], k - 1 - i);
      } else {
        SameSlices(os, k, i - k, n);
      }
    }
    forall i: nat | StallsAt(rest, n, i)
      ensures StallsAt(os, n, i + k)
    {
      SameSlices(os, k, i, n);
    }
    if Stalls(os, n) {
      var i: nat :| StallsAt(os, n, i);
      assert StallsAt(rest, n, i - k);
    }
    if Stalls(rest, n) {
      var i: nat :| StallsAt(rest, n, i);
      assert StallsAt(os, n, i + k);
    }
  }

  lemma SameSlices(os: seq<Object>, k: nat, i: nat, n: nat)
    requires k <= |os| && (i + n <= |os[k..]| || i + k + n <= |os|)
    ensures os[k..][i..i + n] == os[i + k..i + k + n] && os[k..][i + n..] == os[i + k + n..]
  {
  }

  lemma DirectoryInside(os: seq<Object>, i: nat)
    requires AllDirectories(os) && i < |os|
    ensures IsDirectory(os[i].key)
  {
  }

  lemma SameFront(a: seq<Object>, x: seq<Object>, y: seq<Object>)
    ensures a + x == a + y ==> x == y
  {
    assert (a + x)[|a|..] == x && (a + y)[|a|..] == y;
  }

  lemma ShortDoesNotStall(os: seq<Object>, n: nat)
    requires |os| <= n
    ensures !Stalls(os, n)
  {
    forall i: nat
      ensures !StallsAt(os, n, i)
    {
      if i + n <= |os| {
        assert os[i + n..] == [];
      }
    }
  }

  lemma NothingToStall(os: seq<Object>, n: nat)
    requires Kept(os) == []
    ensures !Stalls(os, n)
  {
    hide Kept;
    forall i: nat
      ensures !StallsAt(os, n, i)
    {
      if i + n <= |os| {
        assert os == os[..i + n] + os[i + n..];
        KeptAppend(os[..i + n], os[i + n..]);
      }
    }
  }

  // ---- Keys as the client sees them ----

  /** Every key that is kept comes through as it is: nothing to trim, nothing to escape. */
  predicate PlainKeys(os: seq<Object>) {
    forall i :: 0 <= i < |os| && !IsDirectory(os[i].key) ==> Plain(os[i].key)
  }

  lemma ShownDirectory(key: string)
    requires IsDirectory(key)
    ensures IsDirectory(Shown(key))
  {
    var t := EscapeText(key);
    EscapeShape(key);
    hide EscapeText;
    assert t[|t| - 1] == '/';
  }

  lemma ShownTail(os: seq<Object>)
    requires os != []
    ensures ShownAll(os) == [ShownObject(os[0])] + ShownAll(os[1..])
  {}

  lemma PlainTail(os: seq<Object>)
    requires os != []
    ensures PlainKeys(os) <==> (!IsDirectory(os[0].key) ==> Plain(os[0].key)) && PlainKeys(os[1..])
  {
    hide IsDirectory, Plain;
    if PlainKeys(os[1..]) {
      assert forall i :: 0 < i < |os| ==> os[i] == os[1..][i - 1];
    }
  }

  /** Showing the objects drops no object that it does not turn into a directory, and changes only their keys. */
  lemma {:induction false} ShownItems(os: seq<Object>, conv: Convert)
    ensures |Kept(ShownAll(os))| <= |Kept(os)|
    ensures Items(Kept(ShownAll(os)), conv) == Items(Kept(os), conv) <==> PlainKeys(os)
  {
    hide IsDirectory, Plain, Shown, Kept, Items, PlainKeys;
    if os == [] {
      NothingShown(conv);
    } else {
      var key := os[0].key;
      ShownItems(os[1..], conv);
      ShownTail(os);
      PlainTail(os);
      ShownIsSame(key);
      KeptFirst(os);
      KeptFirst(ShownAll(os));
      KeptItemsFirst(os, conv);
      KeptItemsFirst(ShownAll(os), conv);
      assert ShownAll(os)[1..] == ShownAll(os[1..]);
      ItemCount(Kept(ShownAll(os)), conv);
      ItemCount(Kept(os), conv);
      if IsDirectory(key) {
        ShownDirectory(key);
      } else if !IsDirectory(Shown(key)) {
        SameFrontItems(ItemOf(ShownObject(os[0]), conv), Items(Kept(ShownAll(os[1..])), conv),
                       ItemOf(os[0], conv), Items(Kept(os[1..]), conv));
      }
    }
  }

  lemma NothingShown(conv: Convert)
    ensures Kept([]) == [] && PlainKeys([]) && ShownAll([]) == []
  {}

  lemma ItemCount(os: seq<Object>, conv: Convert)
    ensures |Items(os, conv)| == |os|
  {}

  lemma SameFrontItems(a: Item, x: seq<Item>, b: Item, y: seq<Item>)
    ensures [a] + x == [b] + y <==> a == b && x == y
  {
    assert ([a] + x)[0] == a && ([b] + y)[0] == b && ([a] + x)[1..] == x && ([b] + y)[1..] == y;
  }

  lemma {:induction false} KeptShown(os: seq<Object>)
    requires PlainKeys(os)
    ensures Kept(ShownAll(os)) == Kept(os)
  {
    hide IsDirectory, Plain, Shown, Kept, PlainKeys;
    if os == [] {
      assert ShownAll(os) == os;
    } else {
      PlainTail(os);
      ShownTail(os);
      ShownIsSame(os[0].key);
      KeptShown(os[1..]);
      KeptFirst(os);
      KeptFirst(ShownAll(os));
      assert ShownAll(os)[1..] == ShownAll(os[1..]);
      if IsDirectory(os[0].key) {
        ShownDirectory(os[0].key);
      }
    }
  }

  lemma ShownAppend(a: seq<Object>, b: seq<Object>)
    ensures ShownAll(a + b) == ShownAll(a) + ShownAll(b)
  {}

  lemma SliceIsGood(os: seq<Object>, k: nat, n: nat)
    requires GoodObjects(os) && k + n <= |os|
    ensures GoodObjects(os[k..][..n])
  {
  }

  lemma SliceIsPlain(os: seq<Object>, k: nat, n: nat)
    requires PlainKeys(os) && k + n <= |os|
    ensures PlainKeys(os[k..][..n])
  {
    hide Plain, IsDirectory;
  }

  lemma {:induction false} ItemsAppend(a: seq<Object>, b: seq<Object>, conv: Convert)
    ensures Items(a + b, conv) == Items(a, conv) + Items(b, conv)
  {
    if a == [] {
      assert a + b == b;
    } else {
      assert (a + b)[1..] == a[1..] + b;
      ItemsAppend(a[1..], b, conv);
    }
  }

  // ---- The same of entries ----

  predicate PlainEntry(e: Entry) {
    match e
    case Obj(o) => !IsDirectory(o.key) ==> Plain(o.key)
    case Dir(prefix) => Plain(prefix)
  }

  predicate PlainEntries(es: seq<Entry>) {
    forall i :: 0 <= i < |es| ==> PlainEntry(es[i])
  }

  lemma EntryItemsFirst(es: seq<Entry>, conv: Convert)
    requires es != []
    ensures EntryItems(es, conv) == EntryItem(es[0], conv) + EntryItems(es[1..], conv)
    ensures ShownEntries(es)[0] == ShownEntry(es[0]) && ShownEntries(es)[1..] == ShownEntries(es[1..])
    ensures PlainEntries(es) <==> PlainEntry(es[0]) && PlainEntries(es[1..])
  {
    hide EntryItem, PlainEntry, ShownEntry;
    if PlainEntries(es[1..]) {
      assert forall i :: 0 < i < |es| ==> es[i] == es[1..][i - 1];
    }
  }

  /** A kept entry that is shown differently is listed differently, or not at all. */
  lemma EntryIsShown(e: Entry, conv: Convert)
    ensures |EntryItem(ShownEntry(e), conv)| <= |EntryItem(e, conv)| <= 1
    ensures EntryItem(ShownEntry(e), conv) == EntryItem(e, conv) <==> PlainEntry(e)
  {
    hide IsDirectory, Plain, Shown;
    match e {
      case Obj(o) =>
        ShownIsSame(o.key);
        if IsDirectory(o.key) {
          ShownDirectory(o.key);
        }
      case Dir(prefix) =>
        ShownIsSame(prefix);
        assert [Item(Shown(prefix), 0, 0)][0] == [Item(prefix, 0, 0)][0] <==> Shown(prefix) == prefix;
    }
  }

  lemma {:induction false} ShownEntryItems(es: seq<Entry>, conv: Convert)
    ensures |EntryItems(ShownEntries(es), conv)| <= |EntryItems(es, conv)|
    ensures EntryItems(ShownEntries(es), conv) == EntryItems(es, conv) <==> PlainEntries(es)
  {
    hide EntryItem, EntryItems, PlainEntry, ShownEntry, PlainEntries;
    if es == [] {
      NoEntriesShown(conv);
    } else {
      EntryItemsFirst(es, conv);
      EntryItemsFirst(ShownEntries(es), conv);
      EntryIsShown(es[0], conv);
      ShownEntryItems(es[1..], conv);
      ShortFront(EntryItem(ShownEntry(es[0]), conv), EntryItems(ShownEntries(es[1..]), conv),
                 EntryItem(es[0], conv), EntryItems(es[1..], conv));
    }
  }

  lemma NoEntriesShown(conv: Convert)
    ensures EntryItems([], conv) == [] && PlainEntries([]) && ShownEntries([]) == []
  {}

  lemma ShortFront(a: seq<Item>, x: seq<Item>, b: seq<Item>, y: seq<Item>)
    requires |a| <= |b| && |x| <= |y|
    ensures a + x == b + y <==> a == b && x == y
  {
    if a + x == b + y {
      assert |a| == |b|;
      assert a == (a + x)[..|a|] && b == (b + y)[..|b|] && x == (a + x)[|a|..] && y == (b + y)[|b|..];
    }
  }

  lemma {:induction false} EntriesAppend(a: seq<Entry>, b: seq<Entry>, conv: Convert)
    ensures EntryItems(a + b, conv) == EntryItems(a, conv) + EntryItems(b, conv)
  {
    hide EntryItem;
    if a == [] {
      assert a + b == b;
    } else {
      assert (a + b)[1..] == a[1..] + b;
      EntriesAppend(a[1..], b, conv);
    }
  }

  lemma ShownEntriesAppend(a: seq<Entry>, b: seq<Entry>)
    ensures ShownEntries(a + b) == ShownEntries(a) + ShownEntries(b)
  {
    hide ShownEntry;
  }

  lemma SliceOfGoodEntries(es: seq<Entry>, k: nat, n: nat)
    requires GoodEntries(es) && k + n <= |es|
    ensures GoodEntries(es[k..][..n])
  {
    hide GoodEntry;
  }

  lemma PlainObjects(os: seq<Object>)
    ensures PlainEntries(AsEntries(os)) <==> PlainKeys(os)
  {
    hide IsDirectory, Plain;
    if PlainEntries(AsEntries(os)) {
      forall i | 0 <= i < |os| && !IsDirectory(os[i].key)
        ensures Plain(os[i].key)
      {
        assert PlainEntry(AsEntries(os)[i]);
      }
    }
  }

  // ---- Keys that are shown for keys ----

  /** Some object of the bucket is shown with this key. */
  ghost predicate IsShown(key: string, bucket: seq<Object>) {
    exists k :: 0 <= k < |bucket| && key == Shown(bucket[k].key)
  }

  ghost predicate AllShown(items: seq<Item>, bucket: seq<Object>) {
    forall i :: 0 <= i < |items| ==> IsShown(items[i].key, bucket)
  }

  lemma {:induction false} KeptAreShown(os: seq<Object>, bucket: seq<Object>, conv: Convert)
    requires forall o :: o in os ==> IsShown(o.key, bucket)
    ensures AllShown(Items(Kept(os), conv), bucket)
  {
    hide IsShown, IsDirectory;
    if os != [] {
      KeptAreShown(os[1..], bucket, conv);
      KeptItemsFirst(os, conv);
      assert os[0] in os;
    }
  }

  lemma PageIsShown(bucket: seq<Object>, k: nat, n: nat, conv: Convert)
    requires k + n <= |bucket|
    ensures AllShown(Items(Kept(ShownAll(bucket[k..][..n])), conv), bucket)
  {
    hide AllShown, Kept, Items, Shown;
    var page := bucket[k..][..n];
    forall o | o in ShownAll(page)
      ensures IsShown(o.key, bucket)
    {
      var i :| 0 <= i < |page| && ShownAll(page)[i] == o;
      assert page[i] == bucket[k + i];
    }
    KeptAreShown(ShownAll(page), bucket, conv);
  }

  ghost predicate KeptKeysShown(bucket: seq<Object>) {
    forall j :: 0 <= j < |bucket| && !IsDirectory(bucket[j].key) ==> IsShown(bucket[j].key, bucket)
  }

  lemma {:induction false} KeptIn(os: seq<Object>, j: nat, conv: Convert)
    requires j < |os| && !IsDirectory(os[j].key)
    ensures ItemOf(os[j], conv) in Items(Kept(os), conv)
  {
    hide IsDirectory, ItemOf;
    KeptItemsFirst(os, conv);
    if j > 0 {
      KeptIn(os[1..], j - 1, conv);
    }
  }

  lemma AllKeptShown(bucket: seq<Object>, conv: Convert)
    requires AllShown(Items(Kept(bucket), conv), bucket)
    ensures KeptKeysShown(bucket)
  {
    hide IsShown, IsDirectory;
    forall j | 0 <= j < |bucket| && !IsDirectory(bucket[j].key)
      ensures IsShown(bucket[j].key, bucket)
    {
      KeptIn(bucket, j, conv);
    }
  }

  /**
   * If every key that is kept is shown for some key, all of them are plain: a key with markup would be shown for
   * a shorter one with markup, and so on without end.
   */
  lemma {:induction false} KeptKeyIsPlain(bucket: seq<Object>, j: nat)
    requires KeptKeysShown(bucket) && j < |bucket| && !IsDirectory(bucket[j].key)
    ensures Plain(bucket[j].key)
    decreases |bucket[j].key|
  {
    hide IsDirectory, EscapeText, Trimmed;
    var key := bucket[j].key;
    var k :| 0 <= k < |bucket| && key == Shown(bucket[k].key);
    var source := bucket[k].key;
    TrimmedEnds(EscapeText(source));
    if IsDirectory(source) {
      ShownDirectory(source);
    } else {
      SourceIsTrimmed(bucket, k);
      EscapeKeepsEnds(source);
      TrimmedSame(EscapeText(source));
      EscapeShape(source);
      if |source| < |key| {
        KeptKeyIsPlain(bucket, k);
      }
      EscapePlain(source);
    }
  }

  lemma SourceIsTrimmed(bucket: seq<Object>, k: nat)
    requires KeptKeysShown(bucket) && k < |bucket| && !IsDirectory(bucket[k].key)
    ensures NoEndSpace(bucket[k].key)
  {
    hide IsDirectory, EscapeText, Trimmed;
    var i :| 0 <= i < |bucket| && bucket[k].key == Shown(bucket[i].key);
    TrimmedEnds(EscapeText(bucket[i].key));
  }
}
