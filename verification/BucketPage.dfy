/** The pages an S3 server prints for a slice of a bucket, and what the client makes of them. */
module BucketPage {
  import opened Options
  import opened XmlSpec
  import opened ListPool
  import opened ListPage

  /** An object of the bucket, with its key, size and date. */
  datatype Object = Object(key: string, size: string, date: string)

  // ---- One Contents element: its children in any order, among others ----

  datatype FieldKind = Key | Size | Date | NoField

  function FieldOf(t: Tree): FieldKind {
    if NameIs(t.name, "Key") then Key
    else if NameIs(t.name, "Size") then Size
    else if NameIs(t.name, "LastModified") then Date
    else NoField
  }

  /** The texts of the children of one kind. */
  function Texts(kids: seq<Tree>, kind: FieldKind): seq<string> {
    if kids == [] then []
    else if FieldOf(kids[0]) == kind then [TextOf(kids[0])] + Texts(kids[1..], kind)
    else Texts(kids[1..], kind)
  }

  /** Each text of a kind replaces the value from the one before. */
  function KeyAfter(texts: seq<string>, key: Option<string>): Option<string> {
    if texts == [] then key else KeyAfter(texts[1..], Some(texts[0]))
  }

  function SizeAfter(texts: seq<string>, conv: Convert, size: nat): nat {
    if texts == [] then size else SizeAfter(texts[1..], conv, conv.size(texts[0]))
  }

  function TimeAfter(texts: seq<string>, conv: Convert, time: int): int {
    if texts == [] then time else TimeAfter(texts[1..], conv, conv.time(texts[0]))
  }

  /** Without a directory key every variable ends with the last text of its kind. */
  lemma {:induction false} FieldsAreLast(kids: seq<Tree>, conv: Convert, f: Fields)
    requires !f.skip && forall key :: key in Texts(kids, Key) ==> !IsDirectory(key)
    ensures ReadFields(kids, conv, f) ==
            Fields(KeyAfter(Texts(kids, Key), f.key), false,
                   SizeAfter(Texts(kids, Size), conv, f.size), TimeAfter(Texts(kids, Date), conv, f.time))
    decreases |kids|
  {
    if kids != [] {
      hide NameIs, IsDirectory, TextOf;
      var text := TextOf(kids[0]);
      match FieldOf(kids[0])
      case Key =>
        assert text in Texts(kids, Key) && Texts(kids, Key)[1..] == Texts(kids[1..], Key);
        FieldsAreLast(kids[1..], conv, f.(key := Some(text)));
      case Size => FieldsAreLast(kids[1..], conv, f.(size := conv.size(text)));
      case Date => FieldsAreLast(kids[1..], conv, f.(time := conv.time(text)));
      case NoField => FieldsAreLast(kids[1..], conv, f);
    }
  }

  /** A directory key, wherever it stands, makes the loop skip the element. */
  lemma {:induction false} DirectorySkips(kids: seq<Tree>, conv: Convert, f: Fields)
    requires exists key :: key in Texts(kids, Key) && IsDirectory(key)
    ensures ReadFields(kids, conv, f).skip
    decreases |kids|
  {
    hide NameIs, IsDirectory;
    var text := TextOf(kids[0]);
    match FieldOf(kids[0])
    case Key =>
      if !IsDirectory(text) {
        DirectorySkips(kids[1..], conv, f.(key := Some(text)));
      }
    case Size => DirectorySkips(kids[1..], conv, f.(size := conv.size(text)));
    case Date => DirectorySkips(kids[1..], conv, f.(time := conv.time(text)));
    case NoField => DirectorySkips(kids[1..], conv, f);
  }

  predicate Readable(o: Object) {
    o.key != "" && o.size != "" && o.date != "" && '\0' !in o.key && '\0' !in o.size && '\0' !in o.date
  }

  /** A Contents element for o. */
  predicate Describes(t: Tree, o: Object) {
    && t.name == "Contents"
    && Texts(t.children, Key) == [o.key] && Texts(t.children, Size) == [o.size] && Texts(t.children, Date) == [o.date]
    && forall i :: 0 <= i < |t.children| ==> FieldOf(t.children[i]) != NoField ==> t.children[i].content.Some?
  }

  function ItemOf(o: Object, conv: Convert): Item {
    Item(o.key, conv.size(o.size), conv.time(o.date))
  }

  /** The objects that are not directories. */
  function Kept(os: seq<Object>): seq<Object> {
    if os == [] then []
    else if IsDirectory(os[0].key) then Kept(os[1..])
    else [os[0]] + Kept(os[1..])
  }

  function Items(os: seq<Object>, conv: Convert): (r: seq<Item>)
    ensures |r| == |os|
  {
    if os == [] then [] else [ItemOf(os[0], conv)] + Items(os[1..], conv)
  }

  lemma NamesDiffer()
    ensures !NameIs("Contents", "NextContinuationToken") && !NameIs("Contents", "IsTruncated")
    ensures NameIs("Contents", "Contents")
    ensures !NameIs("IsTruncated", "NextContinuationToken") && NameIs("IsTruncated", "IsTruncated")
    ensures NameIs("NextContinuationToken", "NextContinuationToken")
  {
    hide NameIs;
    NameIsPrefix("Contents", "Contents");
    NameIsPrefix("IsTruncated", "IsTruncated");
    NameIsPrefix("NextContinuationToken", "NextContinuationToken");
    OtherInitial("Contents", "NextContinuationToken");
    OtherInitial("Contents", "IsTruncated");
    OtherInitial("IsTruncated", "NextContinuationToken");
  }

  lemma OtherInitial(name: string, literal: string)
    requires name != "" && literal != "" && name[0] != literal[0]
    ensures !NameIs(name, literal)
  {
  }

  lemma {:induction false} KeysCounted(kids: seq<Tree>)
    ensures KeyCount(kids) == |Texts(kids, Key)|
  {
    if kids != [] {
      KeysCounted(kids[1..]);
    }
  }

  lemma {:induction false} TextsAreGood(kids: seq<Tree>, kind: FieldKind, i: nat)
    requires i < |kids| && FieldOf(kids[i]) == kind
    ensures TextOf(kids[i]) in Texts(kids, kind)
  {
    if i > 0 {
      TextsAreGood(kids[1..], kind, i - 1);
    }
  }

  lemma DescribedIsGood(t: Tree, o: Object, version: int)
    requires Describes(t, o) && Readable(o)
    ensures KindOf(t, version) == Contents && GoodElement(t, version)
  {
    hide NameIs;
    NamesDiffer();
    KeysCounted(t.children);
    forall i | 0 <= i < |t.children| && FieldOf(t.children[i]) != NoField
      ensures GoodString(t.children[i])
    {
      TextsAreGood(t.children, FieldOf(t.children[i]), i);
    }
    assert t.children != [];
  }

  /** What the client makes of one object. */
  lemma DescribedIsRead(t: Tree, o: Object, version: int, conv: Convert, v: Vars)
    requires Describes(t, o) && Readable(o)
    ensures ItemsOf(t, version, conv, v) == if IsDirectory(o.key) then [] else [ItemOf(o, conv)]
    ensures var w := VarsAfter(t, version, conv, v);
            && w.token == v.token && w.truncated == v.truncated
            && w.lastKey == if version == 1 && !IsDirectory(o.key) then Some(o.key) else v.lastKey
  {
    hide IsDirectory, ReadFields, Texts, NameIs;
    DescribedIsGood(t, o, version);
    var f := Fields(None, false, v.size, v.time);
    if IsDirectory(o.key) {
      assert o.key in Texts(t.children, Key);
      DirectorySkips(t.children, conv, f);
    } else {
      FieldsAreLast(t.children, conv, f);
    }
  }

  // ---- Entries of a page: objects, and prefixes that stand for many of them ----

  datatype Entry = Obj(o: Object) | Dir(prefix: string)

  /** A CommonPrefixes element for the prefix: it is in the first child. */
  predicate NamesPrefix(t: Tree, prefix: string) {
    && t.name == "CommonPrefixes" && t.children != []
    && t.children[0].name == "Prefix" && t.children[0].content == Some(prefix)
  }

  predicate DescribesEntry(t: Tree, e: Entry) {
    match e
    case Obj(o) => Describes(t, o)
    case Dir(prefix) => NamesPrefix(t, prefix)
  }

  predicate DescribesAll(ts: seq<Tree>, es: seq<Entry>) {
    |ts| == |es| && forall i :: 0 <= i < |ts| ==> DescribesEntry(ts[i], es[i])
  }

  predicate ReadableEntry(e: Entry) {
    match e
    case Obj(o) => Readable(o)
    case Dir(prefix) => prefix != "" && '\0' !in prefix
  }

  predicate AllReadable(es: seq<Entry>) {
    forall i :: 0 <= i < |es| ==> ReadableEntry(es[i])
  }

  /** What the list gets of an entry: a prefix has neither size nor date. */
  function EntryItem(e: Entry, conv: Convert): seq<Item> {
    match e
    case Obj(o) => if IsDirectory(o.key) then [] else [ItemOf(o, conv)]
    case Dir(prefix) => [Item(prefix, 0, 0)]
  }

  function EntryItems(es: seq<Entry>, conv: Convert): seq<Item> {
    if es == [] then [] else EntryItem(es[0], conv) + EntryItems(es[1..], conv)
  }

  function Objects(es: seq<Entry>): seq<Object> {
    if es == [] then [] else (if es[0].Obj? then [es[0].o] else []) + Objects(es[1..])
  }

  function AsEntries(os: seq<Object>): (es: seq<Entry>)
    ensures |es| == |os| && forall i :: 0 <= i < |os| ==> es[i] == Obj(os[i])
  {
    if os == [] then [] else [Obj(os[0])] + AsEntries(os[1..])
  }

  /** A page that has objects only. */
  lemma {:induction false} OnlyObjects(os: seq<Object>, conv: Convert)
    ensures Objects(AsEntries(os)) == os && EntryItems(AsEntries(os), conv) == Items(Kept(os), conv)
  {
    hide IsDirectory, ItemOf;
    if os != [] {
      assert AsEntries(os)[1..] == AsEntries(os[1..]);
      OnlyObjects(os[1..], conv);
      KeptItemsFirst(os, conv);
      assert [os[0]] + os[1..] == os;
    }
  }

  lemma PrefixNames()
    ensures !NameIs("CommonPrefixes", "NextContinuationToken") && !NameIs("CommonPrefixes", "IsTruncated")
    ensures !NameIs("CommonPrefixes", "Contents") && NameIs("CommonPrefixes", "CommonPrefixes")
    ensures NameIs("Prefix", "Prefix")
  {
    hide NameIs;
    NameIsPrefix("CommonPrefixes", "CommonPrefixes");
    NameIsPrefix("Prefix", "Prefix");
    NameIsPrefix("CommonPrefixes", "Contents");
    assert "CommonPrefixes"[2] != "Contents"[2];
    OtherInitial("CommonPrefixes", "NextContinuationToken");
    OtherInitial("CommonPrefixes", "IsTruncated");
  }

  /** What the client makes of one prefix. */
  lemma PrefixIsRead(t: Tree, prefix: string, version: int, conv: Convert, v: Vars)
    requires NamesPrefix(t, prefix) && ReadableEntry(Dir(prefix))
    ensures KindOf(t, version) == Prefixes && GoodElement(t, version) && IsListed(t, version)
    ensures ItemsOf(t, version, conv, v) == [Item(prefix, 0, 0)] && VarsAfter(t, version, conv, v) == v
  {
    hide NameIs;
    PrefixNames();
  }

  lemma ObjectIsListed(t: Tree, o: Object, version: int)
    requires Describes(t, o) && Readable(o)
    ensures IsListed(t, version)
  {
    DescribedIsGood(t, o, version);
  }

  // ---- One page: its elements in any order ----

  /** The elements of one kind, in document order. */
  function OfKind(nodes: seq<Tree>, version: int, kind: ElementKind): seq<Tree> {
    if nodes == [] then []
    else (if KindOf(nodes[0], version) == kind then [nodes[0]] else []) + OfKind(nodes[1..], version, kind)
  }

  /** Whether an element lists something: an object, or a prefix in its first child. */
  predicate IsListed(node: Tree, version: int) {
    match KindOf(node, version)
    case Contents => true
    case Prefixes => node.children != [] && NameIs(node.children[0].name, "Prefix")
    case _ => false
  }

  /** The elements that list something, in document order. */
  function Listed(nodes: seq<Tree>, version: int): seq<Tree> {
    if nodes == [] then []
    else (if IsListed(nodes[0], version) then [nodes[0]] else []) + Listed(nodes[1..], version)
  }

  /** The loop looks at the first child of every CommonPrefixes element. */
  predicate PrefixesHaveChildren(nodes: seq<Tree>, version: int) {
    forall i :: 0 <= i < |nodes| && KindOf(nodes[i], version) == Prefixes ==> nodes[i].children != []
  }

  lemma ListedFirst(nodes: seq<Tree>, version: int)
    requires nodes != []
    ensures Listed(nodes, version) ==
            if IsListed(nodes[0], version) then [nodes[0]] + Listed(nodes[1..], version)
            else Listed(nodes[1..], version)
  {
    hide IsListed;
  }

  lemma ListedAt(nodes: seq<Tree>, version: int, i: nat)
    requires i < |nodes| && IsListed(nodes[i], version)
    ensures nodes[i] in Listed(nodes, version)
  {
    hide IsListed;
    if i > 0 {
      ListedAt(nodes[1..], version, i - 1);
    }
  }

  /** Each token replaces the one before. */
  function TokenAfter(tokens: seq<Tree>, token: Option<string>): Option<string> {
    if tokens == [] then token else TokenAfter(tokens[1..], Some(TextOf(tokens[0])))
  }

  /** One element that says so is enough. */
  function TruncatedAfter(flags: seq<Tree>, truncated: bool): bool {
    if flags == [] then truncated else TruncatedAfter(flags[1..], truncated || TextOf(flags[0]) == "true")
  }

  /** How the elements say whether there is more: at most one does, wherever it stands. */
  ghost predicate SaysMore(nodes: seq<Tree>, version: int, more: Option<string>) {
    var tokens, flags := OfKind(nodes, version, Token), OfKind(nodes, version, Truncated);
    if version == 1 then
      && tokens == []
      && (more == None ==> flags == [] || (|flags| == 1 && GoodString(flags[0]) && TextOf(flags[0]) != "true"))
      && (more.Some? ==> |flags| == 1 && flags[0].content == Some("true"))
    else
      && (more == None ==> tokens == [])
      && (more.Some? ==> |tokens| == 1 && tokens[0].content == more)
  }

  /**
   * A page of entries: its elements list them in order, its elements say whether there is more, and all its other
   * elements mean nothing to the client. In version 2 `more` is the token to continue from; version 1 only says that
   * there is more.
   */
  ghost predicate IsPageOf(root: Tree, version: int, es: seq<Entry>, more: Option<string>) {
    && DescribesAll(Listed(root.children, version), es)
    && SaysMore(root.children, version, more)
    && PrefixesHaveChildren(root.children, version)
  }

  lemma OfKindFirst(nodes: seq<Tree>, version: int, kind: ElementKind)
    requires nodes != []
    ensures OfKind(nodes, version, kind) ==
            if KindOf(nodes[0], version) == kind then [nodes[0]] + OfKind(nodes[1..], version, kind)
            else OfKind(nodes[1..], version, kind)
  {
    hide KindOf;
  }

  lemma TokenFirst(node: Tree, rest: seq<Tree>, token: Option<string>)
    ensures TokenAfter([node] + rest, token) == TokenAfter(rest, Some(TextOf(node)))
  {
    assert ([node] + rest)[1..] == rest;
  }

  lemma FlagFirst(node: Tree, rest: seq<Tree>, truncated: bool)
    ensures TruncatedAfter([node] + rest, truncated) == TruncatedAfter(rest, truncated || TextOf(node) == "true")
  {
    assert ([node] + rest)[1..] == rest;
  }

  lemma KeptFirst(os: seq<Object>)
    requires os != []
    ensures IsDirectory(os[0].key) ==> Kept(os) == Kept(os[1..])
    ensures !IsDirectory(os[0].key) ==> Kept(os) == [os[0]] + Kept(os[1..])
  {
    hide IsDirectory;
  }

  lemma KeptItemsFirst(os: seq<Object>, conv: Convert)
    requires os != []
    ensures IsDirectory(os[0].key) ==> Items(Kept(os), conv) == Items(Kept(os[1..]), conv)
    ensures !IsDirectory(os[0].key) ==> Items(Kept(os), conv) == [ItemOf(os[0], conv)] + Items(Kept(os[1..]), conv)
  {
    hide IsDirectory;
    KeptFirst(os);
    if !IsDirectory(os[0].key) {
      assert Kept(os)[1..] == Kept(os[1..]);
    }
  }

  /** The key of the last object that is kept, or the one from before. */
  function LastKeyAfter(os: seq<Object>, key: Option<string>): Option<string> {
    var kept := Kept(os);
    if kept == [] then key else Some(kept[|kept| - 1].key)
  }

  lemma LastOfKept(os: seq<Object>, key: Option<string>)
    requires os != []
    ensures LastKeyAfter(os, key)
         == LastKeyAfter(os[1..], if IsDirectory(os[0].key) then key else Some(os[0].key))
  {
    hide IsDirectory;
    KeptFirst(os);
  }

  /** The loop over the page takes its entries in order, whatever stands between them. */
  lemma {:induction false} ElementsRead(nodes: seq<Tree>, es: seq<Entry>, version: int, conv: Convert, v: Vars)
    requires DescribesAll(Listed(nodes, version), es) && AllReadable(es)
    ensures var page := ReadElements(nodes, version, conv, v);
            && page.items == EntryItems(es, conv)
            && page.vars.token == TokenAfter(OfKind(nodes, version, Token), v.token)
            && page.vars.truncated == TruncatedAfter(OfKind(nodes, version, Truncated), v.truncated)
            && page.vars.lastKey == if version == 1 then LastKeyAfter(Objects(es), v.lastKey) else v.lastKey
    decreases |nodes|
  {
    if nodes != [] {
      ElementRead(nodes, es, version, conv, v);
    } else {
      NoEntries(es, conv, v.lastKey);
    }
  }

  lemma NoEntries(es: seq<Entry>, conv: Convert, key: Option<string>)
    requires es == []
    ensures EntryItems(es, conv) == [] && LastKeyAfter(Objects(es), key) == key
  {}

  lemma FirstEntry(e: Entry, es: seq<Entry>, conv: Convert, key: Option<string>)
    ensures EntryItems([e] + es, conv) == EntryItem(e, conv) + EntryItems(es, conv)
    ensures LastKeyAfter(Objects([e] + es), key) ==
            LastKeyAfter(Objects(es), if e.Obj? && !IsDirectory(e.o.key) then Some(e.o.key) else key)
  {
    hide EntryItem, LastKeyAfter, IsDirectory;
    assert ([e] + es)[1..] == es;
    if e.Obj? {
      var os := Objects([e] + es);
      assert os[1..] == Objects(es);
      LastOfKept(os, key);
    } else {
      assert [] + Objects(es) == Objects(es);
    }
  }

  lemma EntryRead(t: Tree, e: Entry, version: int, conv: Convert, v: Vars)
    requires DescribesEntry(t, e) && ReadableEntry(e)
    ensures ItemsOf(t, version, conv, v) == EntryItem(e, conv) && IsListed(t, version) && GoodElement(t, version)
    ensures KindOf(t, version) == Contents || KindOf(t, version) == Prefixes
    ensures var w := VarsAfter(t, version, conv, v);
            && w.token == v.token && w.truncated == v.truncated
            && w.lastKey == if version == 1 && e.Obj? && !IsDirectory(e.o.key) then Some(e.o.key) else v.lastKey
  {
    match e {
      case Obj(o) =>
        DescribedIsGood(t, o, version);
        DescribedIsRead(t, o, version, conv, v);
        ObjectIsListed(t, o, version);
      case Dir(prefix) =>
        PrefixIsRead(t, prefix, version, conv, v);
    }
    hide KindOf, ItemsOf, VarsAfter, IsListed, GoodElement, IsDirectory;
  }

  /** An element that lists nothing adds nothing. */
  lemma OtherRead(t: Tree, version: int, conv: Convert, v: Vars)
    requires !IsListed(t, version)
    ensures ItemsOf(t, version, conv, v) == []
    ensures var w := VarsAfter(t, version, conv, v);
            && w.lastKey == v.lastKey
            && w.token == (if KindOf(t, version) == Token then Some(TextOf(t)) else v.token)
            && w.truncated == (v.truncated || (KindOf(t, version) == Truncated && TextOf(t) == "true"))
  {
    hide KindOf, NameIs;
  }

  lemma ElementRead(nodes: seq<Tree>, es: seq<Entry>, version: int, conv: Convert, v: Vars)
    requires nodes != []
    requires DescribesAll(Listed(nodes, version), es) && AllReadable(es)
    ensures var page := ReadElements(nodes, version, conv, v);
            && page.items == EntryItems(es, conv)
            && page.vars.token == TokenAfter(OfKind(nodes, version, Token), v.token)
            && page.vars.truncated == TruncatedAfter(OfKind(nodes, version, Truncated), v.truncated)
            && page.vars.lastKey == if version == 1 then LastKeyAfter(Objects(es), v.lastKey) else v.lastKey
    decreases |nodes|, 0
  {
    hide IsDirectory, DescribesEntry, ReadableEntry, LastKeyAfter, OfKind, KindOf, IsListed, Listed, EntryItems;
    hide Objects, EntryItem, ItemsOf, VarsAfter, TokenAfter, TruncatedAfter, TextOf;
    OfKindFirst(nodes, version, Token);
    OfKindFirst(nodes, version, Truncated);
    ListedFirst(nodes, version);
    var w := VarsAfter(nodes[0], version, conv, v);
    if IsListed(nodes[0], version) {
      var rest := es[1..];
      assert es == [es[0]] + rest;
      assert Listed(nodes, version)[0] == nodes[0] && Listed(nodes, version)[1..] == Listed(nodes[1..], version);
      EntryRead(nodes[0], es[0], version, conv, v);
      FirstEntry(es[0], rest, conv, v.lastKey);
      ElementsRead(nodes[1..], rest, version, conv, w);
    } else {
      OtherRead(nodes[0], version, conv, v);
      TokenFirst(nodes[0], OfKind(nodes[1..], version, Token), v.token);
      FlagFirst(nodes[0], OfKind(nodes[1..], version, Truncated), v.truncated);
      ElementsRead(nodes[1..], es, version, conv, w);
    }
  }

  lemma OfKindAt(nodes: seq<Tree>, version: int, kind: ElementKind, i: nat)
    requires i < |nodes| && KindOf(nodes[i], version) == kind
    ensures nodes[i] in OfKind(nodes, version, kind)
  {
    hide KindOf;
    if i > 0 {
      OfKindAt(nodes[1..], version, kind, i - 1);
    }
  }

  predicate GoodToken(more: Option<string>) {
    more.Some? ==> more.value != "" && '\0' !in more.value
  }

  lemma ControlIsGood(nodes: seq<Tree>, version: int, more: Option<string>, node: Tree)
    requires version == 1 || version == 2
    requires SaysMore(nodes, version, more) && GoodToken(more)
    requires node in OfKind(nodes, version, Token) || (version == 1 && node in OfKind(nodes, version, Truncated))
    ensures GoodString(node)
  {
    hide OfKind, KindOf;
  }

  lemma PageIsGood(nodes: seq<Tree>, version: int, es: seq<Entry>, more: Option<string>, i: nat)
    requires version == 1 || version == 2
    requires DescribesAll(Listed(nodes, version), es) && AllReadable(es) && PrefixesHaveChildren(nodes, version)
    requires SaysMore(nodes, version, more) && GoodToken(more)
    requires i < |nodes|
    ensures GoodElement(nodes[i], version)
  {
    hide DescribesEntry, ReadableEntry, NameIs, SaysMore, GoodString, GoodContents, OfKind, Listed, IsListed, KindOf;
    hide GoodElement;
    var kind := KindOf(nodes[i], version);
    OfKindAt(nodes, version, kind, i);
    if IsListed(nodes[i], version) {
      ListedAt(nodes, version, i);
      var listed := Listed(nodes, version);
      var k :| 0 <= k < |listed| && listed[k] == nodes[i];
      EntryRead(listed[k], es[k], version, Convert(_ => 0, _ => 0), NO_VARS);
    } else {
      if kind == Token || kind == Truncated {
        KindNeedsVersion(nodes[i], version);
        ControlIsGood(nodes, version, more, nodes[i]);
      }
      UnlistedIsGood(nodes[i], version);
    }
  }

  lemma KindNeedsVersion(t: Tree, version: int)
    ensures KindOf(t, version) == Truncated ==> version == 1
  {
    hide NameIs;
  }

  lemma UnlistedIsGood(t: Tree, version: int)
    requires !IsListed(t, version) && (KindOf(t, version) == Prefixes ==> t.children != [])
    requires KindOf(t, version) == Token || KindOf(t, version) == Truncated ==> GoodString(t)
    ensures GoodElement(t, version)
  {
    hide KindOf, NameIs, GoodString;
  }

  lemma MoreRead(nodes: seq<Tree>, version: int, more: Option<string>)
    requires version == 1 || version == 2
    requires SaysMore(nodes, version, more)
    ensures TokenAfter(OfKind(nodes, version, Token), None) == if version == 2 then more else None
    ensures version == 1 ==> TruncatedAfter(OfKind(nodes, version, Truncated), false) == more.Some?
  {
    hide OfKind;
    var tokens, flags := OfKind(nodes, version, Token), OfKind(nodes, version, Truncated);
    if |tokens| == 1 {
      assert tokens[1..] == [];
    }
    if |flags| == 1 {
      assert flags[1..] == [];
    }
  }

  /** What the client makes of a page: in document order, the objects that it keeps and the prefixes. */
  lemma PageRead(root: Tree, version: int, conv: Convert, es: seq<Entry>, more: Option<string>)
    requires version == 1 || version == 2
    requires IsPageOf(root, version, es, more) && AllReadable(es) && root.children != [] && GoodToken(more)
    ensures GoodPage(root, version)
    ensures var page, kept := PageOf(root, version, conv), Kept(Objects(es));
            && page.items == EntryItems(es, conv)
            && Continuation(page.vars, version) ==
               if more == None then None
               else if version == 2 then more
               else if kept == [] then None else Some(kept[|kept| - 1].key)
  {
    hide DescribesAll, AllReadable, SaysMore, OfKind, GoodElement, Kept, Items, ReadElements, Listed, Objects;
    hide EntryItems, PrefixesHaveChildren;
    forall i | 0 <= i < |root.children|
      ensures GoodElement(root.children[i], version)
    {
      PageIsGood(root.children, version, es, more, i);
    }
    ElementsRead(root.children, es, version, conv, NO_VARS);
    MoreRead(root.children, version, more);
  }
}
