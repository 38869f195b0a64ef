/** How a server prints a bucket: any well-formed page, and one way of printing it. */
module BucketServer {
  import opened Options
  import opened XmlSpec
  import opened XmlRoundTrip
  import opened ListPage
  import opened BucketPage
  import opened MarkupText
  import opened TextElements

  // ---- Objects that can be printed ----

  /** A key is any C string with something to see in it; size and date are plain. */
  predicate GoodObject(o: Object) {
    '\0' !in o.key && Shown(o.key) != "" && GoodValue(o.size) && GoodValue(o.date)
  }

  predicate GoodObjects(os: seq<Object>) {
    forall i :: 0 <= i < |os| ==> GoodObject(os[i])
  }

  /** The object that the client gets to see. */
  function ShownObject(o: Object): Object {
    Object(Shown(o.key), o.size, o.date)
  }

  function ShownAll(os: seq<Object>): (r: seq<Object>)
    ensures |r| == |os| && forall i :: 0 <= i < |os| ==> r[i] == ShownObject(os[i])
  {
    if os == [] then [] else [ShownObject(os[0])] + ShownAll(os[1..])
  }

  // ---- Entries ----

  predicate GoodEntry(e: Entry) {
    match e
    case Obj(o) => GoodObject(o)
    case Dir(prefix) => '\0' !in prefix && Shown(prefix) != ""
  }

  predicate GoodEntries(es: seq<Entry>) {
    forall i :: 0 <= i < |es| ==> GoodEntry(es[i])
  }

  function ShownEntry(e: Entry): Entry {
    match e
    case Obj(o) => Obj(ShownObject(o))
    case Dir(prefix) => Dir(Shown(prefix))
  }

  function ShownEntries(es: seq<Entry>): (r: seq<Entry>)
    ensures |r| == |es| && forall i :: 0 <= i < |es| ==> r[i] == ShownEntry(es[i])
  {
    if es == [] then [] else [ShownEntry(es[0])] + ShownEntries(es[1..])
  }

  lemma ObjectEntries(os: seq<Object>)
    ensures GoodObjects(os) ==> GoodEntries(AsEntries(os))
    ensures ShownEntries(AsEntries(os)) == AsEntries(ShownAll(os))
  {
    hide GoodObject, ShownObject;
  }

  lemma ShownNoNul(s: string)
    requires '\0' !in s
    ensures '\0' !in Shown(s)
  {
    EscapeNoNul(s);
  }

  lemma ShownReadable(es: seq<Entry>)
    requires GoodEntries(es)
    ensures AllReadable(ShownEntries(es))
  {
    hide Shown, Plain;
    forall i | 0 <= i < |es|
      ensures ReadableEntry(ShownEntries(es)[i])
    {
      assert GoodEntry(es[i]);
      ShownNoNul(match es[i] case Obj(o) => o.key case Dir(prefix) => prefix);
    }
  }

  // ---- Renderings ----

  predicate PlainToken(more: Option<string>) {
    more.Some? ==> GoodValue(more.value)
  }

  /** A document without whitespace before a `>`, whose root is a page that shows the entries. */
  ghost predicate Renders(d: Document, version: int, es: seq<Entry>, more: Option<string>) {
    && GoodDocument(d) && Snug(d.root) && Erase(d.root).children != []
    && IsPageOf(Erase(d.root), version, ShownEntries(es), more)
  }

  // ---- A rendering ----

  function ObjectElem(o: Object): Elem {
    Group("", "Contents", "", "",
          [TextElem("Key", o.key), TextElem("LastModified", o.date), TextElem("Size", o.size)], "", "")
  }

  function EntryElem(e: Entry): Elem {
    match e
    case Obj(o) => ObjectElem(o)
    case Dir(prefix) => Group("", "CommonPrefixes", "", "", [TextElem("Prefix", prefix)], "", "")
  }

  function FlagText(more: Option<string>): string {
    if more.Some? then "true" else "false"
  }

  /** The elements behind the objects. */
  function LastElems(version: int, more: Option<string>): seq<Elem> {
    [TextElem("IsTruncated", FlagText(more))]
    + if version == 2 && more.Some? then [TextElem("NextContinuationToken", more.value)] else []
  }

  function PageElems(es: seq<Entry>, version: int, more: Option<string>): seq<Elem> {
    if es == [] then LastElems(version, more) else [EntryElem(es[0])] + PageElems(es[1..], version, more)
  }

  function PageDocument(es: seq<Entry>, version: int, more: Option<string>): Document {
    Document(NoHeader, Group("", "ListBucketResult", "", "", PageElems(es, version, more), "", ""), "")
  }

  lemma FieldNames()
    ensures GoodOpen("Key", "") && GoodOpen("LastModified", "") && GoodOpen("Size", "")
  {
    OpenWithoutAttributes("Key");
    OpenWithoutAttributes("LastModified");
    OpenWithoutAttributes("Size");
    hide GoodOpen;
  }

  lemma BucketNames()
    ensures GoodOpen("Contents", "") && GoodOpen("ListBucketResult", "")
    ensures GoodOpen("IsTruncated", "") && GoodOpen("NextContinuationToken", "")
  {
    OpenWithoutAttributes("Contents");
    OpenWithoutAttributes("ListBucketResult");
    OpenWithoutAttributes("IsTruncated");
    OpenWithoutAttributes("NextContinuationToken");
    hide GoodOpen;
  }

  lemma PrefixElemNames()
    ensures GoodOpen("CommonPrefixes", "") && GoodOpen("Prefix", "")
  {
    OpenWithoutAttributes("CommonPrefixes");
    OpenWithoutAttributes("Prefix");
    hide GoodOpen;
  }

  lemma FieldKinds(text: string)
    ensures FieldOf(Tree("Key", Some(text), [])) == Key
    ensures FieldOf(Tree("Size", Some(text), [])) == Size
    ensures FieldOf(Tree("LastModified", Some(text), [])) == Date
  {
    hide NameIs;
    NameIsPrefix("Key", "Key");
    NameIsPrefix("Size", "Size");
    NameIsPrefix("LastModified", "LastModified");
    OtherInitial("Size", "Key");
    OtherInitial("LastModified", "Key");
    OtherInitial("LastModified", "Size");
  }

  function ObjectTree(o: Object): Tree {
    Tree("Contents", None,
         [Tree("Key", Some(o.key), []), Tree("LastModified", Some(o.date), []), Tree("Size", Some(o.size), [])])
  }

  lemma TextsFirst(t: Tree, rest: seq<Tree>, kind: FieldKind)
    ensures Texts([t] + rest, kind) == (if FieldOf(t) == kind then [TextOf(t)] else []) + Texts(rest, kind)
  {
    hide FieldOf, TextOf;
    assert ([t] + rest)[1..] == rest;
  }

  lemma TextsOfThree(a: Tree, b: Tree, c: Tree, kind: FieldKind)
    ensures Texts([a, b, c], kind) ==
            (if FieldOf(a) == kind then [TextOf(a)] else [])
            + ((if FieldOf(b) == kind then [TextOf(b)] else [])
               + (if FieldOf(c) == kind then [TextOf(c)] else []))
  {
    hide FieldOf, TextOf, Texts;
    NoTexts(kind);
    TextsFirst(c, [], kind);
    TextsFirst(b, [c], kind);
    TextsFirst(a, [b, c], kind);
    assert [c] + [] == [c] && [b] + [c] == [b, c] && [a] + [b, c] == [a, b, c];
  }

  lemma NoTexts(kind: FieldKind)
    ensures Texts([], kind) == []
  {}

  lemma ObjectDescribed(o: Object)
    ensures Describes(ObjectTree(o), o)
  {
    FieldKinds(o.key);
    FieldKinds(o.date);
    FieldKinds(o.size);
    hide FieldOf;
    var kids := ObjectTree(o).children;
    TextsOfThree(kids[0], kids[1], kids[2], Key);
    TextsOfThree(kids[0], kids[1], kids[2], Date);
    TextsOfThree(kids[0], kids[1], kids[2], Size);
  }

  lemma ObjectElemGood(o: Object)
    requires GoodObject(o)
    ensures Good(ObjectElem(o)) && Snug(ObjectElem(o)) && LastPad(ObjectElem(o)) == ""
    ensures Erase(ObjectElem(o)) == ObjectTree(ShownObject(o))
  {
    FieldNames();
    BucketNames();
    PlainShown(o.size);
    PlainShown(o.date);
    hide Shown, Plain, GoodOpen, GoodName, TextElem;
    TextElemGood("Key", o.key);
    TextElemGood("LastModified", o.date);
    TextElemGood("Size", o.size);
    ThreeElems(TextElem("Key", o.key), TextElem("LastModified", o.date), TextElem("Size", o.size));
    hide AllGood, AllSnug, EraseAll;
  }

  function EntryTree(e: Entry): Tree {
    match e
    case Obj(o) => ObjectTree(o)
    case Dir(prefix) => Tree("CommonPrefixes", None, [Tree("Prefix", Some(prefix), [])])
  }

  lemma EntryDescribed(e: Entry)
    ensures DescribesEntry(EntryTree(e), e)
  {
    if e.Obj? {
      ObjectDescribed(e.o);
    }
  }

  lemma PrefixElemGood(prefix: string)
    requires GoodEntry(Dir(prefix))
    ensures var e := EntryElem(Dir(prefix));
            && Good(e) && Snug(e) && LastPad(e) == "" && Erase(e) == EntryTree(ShownEntry(Dir(prefix)))
  {
    PrefixElemNames();
    hide Shown, GoodOpen, TextElem;
    TextElemGood("Prefix", prefix);
    OneElem(TextElem("Prefix", prefix));
    hide AllGood, AllSnug, EraseAll;
  }

  lemma EntryElemGood(e: Entry)
    requires GoodEntry(e)
    ensures Good(EntryElem(e)) && Snug(EntryElem(e)) && LastPad(EntryElem(e)) == ""
    ensures Erase(EntryElem(e)) == EntryTree(ShownEntry(e))
  {
    match e
    case Obj(o) => ObjectElemGood(o);
    case Dir(prefix) => PrefixElemGood(prefix);
  }

  // ---- It is a rendering of pages ----

  function LastTrees(version: int, more: Option<string>): seq<Tree> {
    [Tree("IsTruncated", Some(FlagText(more)), [])]
    + if version == 2 && more.Some? then [Tree("NextContinuationToken", more, [])] else []
  }

  function PageTrees(es: seq<Entry>, version: int, more: Option<string>): seq<Tree> {
    if es == [] then LastTrees(version, more) else [EntryTree(es[0])] + PageTrees(es[1..], version, more)
  }

  lemma FlagIsGood(more: Option<string>)
    ensures GoodValue(FlagText(more))
  {}

  lemma LastElemsGood(version: int, more: Option<string>)
    requires PlainToken(more)
    ensures var es := LastElems(version, more);
            AllGood(es) && AllSnug(es) && EraseAll(es) == LastTrees(version, more)
  {
    BucketNames();
    FlagIsGood(more);
    hide FlagText, Shown, Plain, GoodOpen, GoodName, TextElem, Good, Snug, LastPad, Erase, AllGood, AllSnug, EraseAll;
    PlainShown(FlagText(more));
    TextElemGood("IsTruncated", FlagText(more));
    var first := TextElem("IsTruncated", FlagText(more));
    if version == 2 && more.Some? {
      PlainShown(more.value);
      TextElemGood("NextContinuationToken", more.value);
      TwoElems(first, TextElem("NextContinuationToken", more.value));
    } else {
      OneElem(first);
      assert LastElems(version, more) == [first];
    }
  }

  lemma {:induction false} PageElemsGood(es: seq<Entry>, version: int, more: Option<string>)
    requires GoodEntries(es) && PlainToken(more)
    ensures var page := PageElems(es, version, more);
            AllGood(page) && AllSnug(page) && EraseAll(page) == PageTrees(ShownEntries(es), version, more)
  {
    hide Good, Snug, LastPad, Erase, EntryElem, EntryTree, LastElems, LastTrees, GoodEntry, PlainToken, ShownEntry;
    if es == [] {
      LastElemsGood(version, more);
    } else {
      EntryElemGood(es[0]);
      PageElemsGood(es[1..], version, more);
      assert PageElems(es, version, more)[1..] == PageElems(es[1..], version, more);
      assert ShownEntries(es)[1..] == ShownEntries(es[1..]);
    }
  }

  lemma OfKindOne(node: Tree, version: int, kind: ElementKind)
    ensures OfKind([node], version, kind) == if KindOf(node, version) == kind then [node] else []
  {
    hide KindOf;
    assert [node][1..] == [];
  }

  lemma OfKindLast(version: int, more: Option<string>, kind: ElementKind)
    ensures var nodes := LastTrees(version, more);
            OfKind(nodes, version, kind) ==
            (if KindOf(nodes[0], version) == kind then [nodes[0]] else [])
            + (if |nodes| == 2 && KindOf(nodes[1], version) == kind then [nodes[1]] else [])
  {
    hide KindOf, OfKind, FlagText;
    var nodes := LastTrees(version, more);
    OfKindOne(nodes[0], version, kind);
    if |nodes| == 2 {
      OfKindFirst(nodes, version, kind);
      assert nodes[1..] == [nodes[1]];
      OfKindOne(nodes[1], version, kind);
    } else {
      assert nodes == [nodes[0]];
    }
  }

  lemma LastKinds(version: int, more: Option<string>)
    requires version == 1 || version == 2
    ensures var nodes := LastTrees(version, more);
            && Listed(nodes, version) == [] && PrefixesHaveChildren(nodes, version)
            && OfKind(nodes, version, Truncated) == (if version == 1 then [nodes[0]] else [])
            && OfKind(nodes, version, Token) == (if version == 2 && more.Some? then [nodes[1]] else [])
  {
    LastElementKinds(version, more);
    hide KindOf, OfKind, FlagText;
    OfKindLast(version, more, Truncated);
    OfKindLast(version, more, Token);
    NoneListed(LastTrees(version, more), version);
  }

  lemma {:induction false} NoneListed(nodes: seq<Tree>, version: int)
    requires forall i :: 0 <= i < |nodes| ==> !IsListed(nodes[i], version)
    ensures Listed(nodes, version) == []
  {
    hide IsListed;
    if nodes != [] {
      NoneListed(nodes[1..], version);
    }
  }

  lemma LastElementKinds(version: int, more: Option<string>)
    ensures var nodes := LastTrees(version, more);
            && KindOf(nodes[0], version) == (if version == 1 then Truncated else Other)
            && (|nodes| == 2 ==> KindOf(nodes[1], version) == Token)
  {
    hide NameIs;
    NamesDiffer();
    OtherInitial("IsTruncated", "Contents");
    OtherInitial("IsTruncated", "CommonPrefixes");
  }

  lemma {:induction false} PageKinds(es: seq<Entry>, version: int, more: Option<string>)
    requires version == 1 || version == 2
    requires AllReadable(es)
    ensures var nodes, last := PageTrees(es, version, more), LastTrees(version, more);
            && DescribesAll(Listed(nodes, version), es) && PrefixesHaveChildren(nodes, version)
            && OfKind(nodes, version, Truncated) == OfKind(last, version, Truncated)
            && OfKind(nodes, version, Token) == OfKind(last, version, Token)
  {
    hide DescribesEntry, ReadableEntry, KindOf, EntryTree, LastTrees, OfKind, IsListed, Listed;
    if es == [] {
      LastKinds(version, more);
    } else {
      var nodes := PageTrees(es, version, more);
      EntryIsListed(es[0], version);
      EntryDescribed(es[0]);
      PageKinds(es[1..], version, more);
      assert nodes[1..] == PageTrees(es[1..], version, more);
      ListedFirst(nodes, version);
      OfKindFirst(nodes, version, Truncated);
      OfKindFirst(nodes, version, Token);
      forall i | 0 <= i < |nodes| && KindOf(nodes[i], version) == Prefixes
        ensures nodes[i].children != []
      {
        if i > 0 {
          assert nodes[i] == nodes[1..][i - 1];
        }
      }
    }
  }

  lemma EntryIsListed(e: Entry, version: int)
    requires ReadableEntry(e)
    ensures var t := EntryTree(e);
            && t.children != [] && IsListed(t, version)
            && KindOf(t, version) != Truncated && KindOf(t, version) != Token
  {
    hide KindOf, IsListed, GoodElement, DescribesEntry, ReadableEntry, ItemsOf, VarsAfter, EntryItem, IsDirectory;
    EntryHasChildren(e);
    EntryDescribed(e);
    EntryRead(EntryTree(e), e, version, Convert(_ => 0, _ => 0), NO_VARS);
  }

  lemma EntryHasChildren(e: Entry)
    ensures EntryTree(e).children != []
  {}

  lemma PageIsDocument(es: seq<Entry>, version: int, more: Option<string>)
    requires GoodEntries(es) && PlainToken(more)
    ensures var d := PageDocument(es, version, more);
            && GoodDocument(d) && Snug(d.root)
            && Erase(d.root).children == PageTrees(ShownEntries(es), version, more)
  {
    BucketNames();
    PageElemsGood(es, version, more);
    hide AllGood, AllSnug, EraseAll, PageElems, GoodOpen, GoodEntries, ShownEntries, PlainToken, PageTrees;
  }

  lemma FlagSays(more: Option<string>)
    ensures FlagText(more) == "true" <==> more.Some?
    ensures FlagText(more) != "" && '\0' !in FlagText(more)
  {
    assert FlagText(more)[0] == 't' <==> more.Some?;
  }

  lemma PageTreesArePage(root: Tree, es: seq<Entry>, version: int, more: Option<string>)
    requires version == 1 || version == 2
    requires AllReadable(es) && root.children == PageTrees(es, version, more)
    ensures IsPageOf(root, version, es, more)
  {
    hide OfKind, DescribesAll, PageTrees, FlagText, AllReadable, Listed, PrefixesHaveChildren;
    FlagSays(more);
    LastKinds(version, more);
    PageKinds(es, version, more);
  }

  lemma PageRenders(es: seq<Entry>, version: int, more: Option<string>)
    requires version == 1 || version == 2
    requires GoodEntries(es) && PlainToken(more)
    ensures Renders(PageDocument(es, version, more), version, es, more)
  {
    hide GoodEntries, PlainToken, PageDocument, GoodDocument, Snug, Erase, PageTrees, ShownEntries, IsPageOf;
    hide AllReadable;
    PageIsDocument(es, version, more);
    ShownReadable(es);
    PageTreesArePage(Erase(PageDocument(es, version, more).root), ShownEntries(es), version, more);
    PageTreesNotEmpty(ShownEntries(es), version, more);
  }

  lemma PageTreesNotEmpty(es: seq<Entry>, version: int, more: Option<string>)
    ensures PageTrees(es, version, more) != []
  {}
}
