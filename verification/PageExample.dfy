/** One page of a listing written out, and the entries that the client takes from it. */
module PageExample {
  import opened Options
  import opened Errors
  import opened XmlSpec
  import opened XmlRoundTrip
  import opened ListPool
  import opened ListPage
  import opened Listing
  import opened BucketPage
  import opened BucketServer
  import opened BucketRuns
  import opened MarkupText
  import opened TextElements

  /** `<name>`, and `</name>` behind it. */
  function Tagged(name: string, inside: string): string {
    "<" + name + ">" + inside + "</" + name + ">"
  }

  lemma PrintedText(name: string, text: string)
    requires GoodValue(text)
    ensures Print(TextElem(name, text)) == Tagged(name, text)
  {
    PlainText(text);
    hide EscapeText;
    TagsOf(name, text);
  }

  lemma PlainText(text: string)
    requires GoodValue(text)
    ensures EscapeText(text) == text && TextStart(text) == 0 && TextEnd(text) == |text|
  {
    EscapePlain(text);
  }

  lemma TagsOf(name: string, inside: string)
    ensures "" + OpenTag(name, "", "") + ("" + (inside + ("" + CloseTag(name, "")))) == Tagged(name, inside)
    ensures "" + OpenTag(name, "", "") + (inside + ("" + CloseTag(name, ""))) == Tagged(name, inside)
  {
    assert OpenTag(name, "", "") == "<" + name + ">";
    assert CloseTag(name, "") == "</" + name + ">";
    hide OpenTag, CloseTag;
  }

  lemma PrintedGroup(name: string, kids: seq<Elem>)
    ensures Print(Group("", name, "", "", kids, "", "")) == Tagged(name, PrintAll(kids))
  {
    hide PrintAll;
    TagsOf(name, PrintAll(kids));
  }

  lemma PrintedFirst(e: Elem, es: seq<Elem>)
    ensures PrintAll([e] + es) == Print(e) + PrintAll(es)
  {
    hide Print;
    assert ([e] + es)[1..] == es;
  }

  lemma PrintedNone()
    ensures PrintAll([]) == ""
  {}

  function ObjectText(o: Object): string {
    Tagged("Contents", Tagged("Key", o.key) + (Tagged("LastModified", o.date) + Tagged("Size", o.size)))
  }

  lemma PrintedThree(a: Elem, b: Elem, c: Elem)
    ensures PrintAll([a, b, c]) == Print(a) + (Print(b) + Print(c))
  {
    hide Print;
    PrintedTwo(b, c);
    assert [a, b, c][1..] == [b, c];
  }

  lemma PrintedTwo(a: Elem, b: Elem)
    ensures PrintAll([a, b]) == Print(a) + Print(b)
  {
    hide Print;
    PrintedOne(b);
    assert [a, b][1..] == [b];
  }

  lemma PrintedOne(e: Elem)
    ensures PrintAll([e]) == Print(e)
  {
    hide Print;
    PrintedNone();
    assert [e][1..] == [];
    assert Print(e) + "" == Print(e);
  }

  lemma PrintedObject(o: Object)
    requires GoodValue(o.key) && GoodValue(o.date) && GoodValue(o.size)
    ensures Print(ObjectElem(o)) == ObjectText(o)
  {
    hide GoodValue, Print, PrintAll, TextElem, Tagged;
    PrintedText("Key", o.key);
    PrintedText("LastModified", o.date);
    PrintedText("Size", o.size);
    PrintedThree(TextElem("Key", o.key), TextElem("LastModified", o.date), TextElem("Size", o.size));
    PrintedGroup("Contents", [TextElem("Key", o.key), TextElem("LastModified", o.date), TextElem("Size", o.size)]);
  }

  lemma PrintedPrefix(prefix: string)
    requires GoodValue(prefix)
    ensures Print(EntryElem(Dir(prefix))) == Tagged("CommonPrefixes", Tagged("Prefix", prefix))
  {
    hide GoodValue, Print, PrintAll, TextElem, Tagged;
    PrintedText("Prefix", prefix);
    PrintedOne(TextElem("Prefix", prefix));
    PrintedGroup("CommonPrefixes", [TextElem("Prefix", prefix)]);
  }

  lemma PrintedLast(version: int, more: Option<string>)
    requires PlainToken(more)
    ensures PrintAll(LastElems(version, more)) ==
            Tagged("IsTruncated", if more.Some? then "true" else "false")
            + if version == 2 && more.Some? then Tagged("NextContinuationToken", more.value) else ""
  {
    FlagIsGood(more);
    hide GoodValue, Print, PrintAll, TextElem, Tagged;
    var flag := TextElem("IsTruncated", FlagText(more));
    PrintedText("IsTruncated", FlagText(more));
    if version == 2 && more.Some? {
      var token := TextElem("NextContinuationToken", more.value);
      PrintedText("NextContinuationToken", more.value);
      PrintedTwo(flag, token);
      assert LastElems(version, more) == [flag, token];
    } else {
      PrintedOne(flag);
      assert LastElems(version, more) == [flag];
      assert Print(flag) + "" == Print(flag);
    }
  }

  // ---- The example ----

  const PREFIX := Dir("a/")
  const FILE := Obj(Object("b", "7", "t"))
  const FOLDER := Obj(Object("c/", "0", "t"))

  /** A prefix, a file, a directory key, and that there is more. */
  function PageText(last: string): string {
    Tagged("ListBucketResult",
           Tagged("CommonPrefixes", Tagged("Prefix", "a/"))
           + (Tagged("Contents", Tagged("Key", "b") + (Tagged("LastModified", "t") + Tagged("Size", "7")))
              + (Tagged("Contents", Tagged("Key", "c/") + (Tagged("LastModified", "t") + Tagged("Size", "0")))
                 + last)))
  }

  lemma PlainTexts()
    ensures GoodValue("a/") && GoodValue("b") && GoodValue("c/") && GoodValue("7") && GoodValue("0") && GoodValue("t")
    ensures GoodValue("n")
  {}

  lemma ExamplePrinted(version: int, more: Option<string>)
    requires PlainToken(more)
    ensures PrintDocument(PageDocument([PREFIX, FILE, FOLDER], version, more))
         == PageText(PrintAll(LastElems(version, more)))
  {
    PlainTexts();
    hide GoodValue, Print, PrintAll, LastElems, Tagged, ObjectElem, TextElem, PlainToken;
    var last := LastElems(version, more);
    PrintedPrefix("a/");
    PrintedObject(FILE.o);
    PrintedObject(FOLDER.o);
    PageOfThree(PREFIX, FILE, FOLDER, version, more);
    hide EntryElem;
    PrintedFirst(EntryElem(FOLDER), last);
    PrintedFirst(EntryElem(FILE), [EntryElem(FOLDER)] + last);
    PrintedFirst(EntryElem(PREFIX), [EntryElem(FILE)] + ([EntryElem(FOLDER)] + last));
    PrintedGroup("ListBucketResult", PageElems([PREFIX, FILE, FOLDER], version, more));
    OnlyRoot(PageDocument([PREFIX, FILE, FOLDER], version, more));
  }

  lemma OnlyRoot(d: Document)
    requires d.header == NoHeader && d.rest == ""
    ensures PrintDocument(d) == Print(d.root)
  {
    hide Print;
    assert "" + (Print(d.root) + "") == Print(d.root);
  }

  lemma PageOfThree(a: Entry, b: Entry, c: Entry, version: int, more: Option<string>)
    ensures PageElems([a, b, c], version, more)
         == [EntryElem(a)] + ([EntryElem(b)] + ([EntryElem(c)] + LastElems(version, more)))
  {
    hide EntryElem, LastElems;
    assert [a, b, c][1..] == [b, c] && [b, c][1..] == [c] && [c][1..] == [];
    assert PageElems([c], version, more) == [EntryElem(c)] + PageElems([], version, more);
    assert PageElems([b, c], version, more) == [EntryElem(b)] + PageElems([c], version, more);
  }

  lemma ExampleIsGood()
    ensures GoodEntries([PREFIX, FILE, FOLDER]) && ShownEntries([PREFIX, FILE, FOLDER]) == [PREFIX, FILE, FOLDER]
  {
    PlainTexts();
    hide GoodValue;
    PlainShown("a/");
    PlainShown("b");
    PlainShown("c/");
    hide Shown;
    assert GoodEntry(PREFIX) && GoodEntry(FILE) && GoodEntry(FOLDER);
  }

  lemma ExampleItems(conv: Convert)
    ensures EntryItems([PREFIX, FILE, FOLDER], conv) == [Item("a/", 0, 0), Item("b", conv.size("7"), conv.time("t"))]
  {
    var all := [PREFIX, FILE, FOLDER];
    assert all[1..] == [FILE, FOLDER] && [FILE, FOLDER][1..] == [FOLDER] && [FOLDER][1..] == [];
    assert EntryItems([], conv) == [];
    assert EntryItems([FOLDER], conv) == [];
    assert EntryItems([FILE, FOLDER], conv) == [ItemOf(FILE.o, conv)];
  }

  lemma ExampleObjects()
    ensures LastKeyAfter(Objects([PREFIX, FILE, FOLDER]), None) == Some("b")
  {
    var all := [PREFIX, FILE, FOLDER];
    assert all[1..] == [FILE, FOLDER] && [FILE, FOLDER][1..] == [FOLDER] && [FOLDER][1..] == [];
    assert Objects([FOLDER]) == [FOLDER.o];
    assert Objects([FILE, FOLDER]) == [FILE.o, FOLDER.o];
    assert Objects(all) == [FILE.o, FOLDER.o];
    assert [FILE.o, FOLDER.o][1..] == [FOLDER.o] && [FOLDER.o][1..] == [];
    assert Kept([FOLDER.o]) == [];
    assert Kept([FILE.o, FOLDER.o]) == [FILE.o];
  }

  lemma ExampleRead(s: Settings, more: Option<string>)
    requires (s.version == 1 || s.version == 2) && PlainToken(more)
    ensures var reply := Http(200, PageText(PrintAll(LastElems(s.version, more))));
            && GoodReply(reply, s)
            && AsksFor(reply, s) == (if more == None then None else if s.version == 2 then more else Some("b"))
            && ReplyItems(reply, s) == [Item("a/", 0, 0), Item("b", s.conv.size("7"), s.conv.time("t"))]
  {
    hide PlainToken, GoodEntries, ShownEntries, Renders, PrintDocument, PageDocument, GoodReply, ReplyItems, AsksFor;
    hide EntryItems, Objects, PREFIX, FILE, FOLDER, LastKeyAfter, PageText, PrintAll, LastElems, ReplyResult;
    ExampleIsGood();
    ExampleItems(s.conv);
    ExampleObjects();
    ExamplePrinted(s.version, more);
    PageRenders([PREFIX, FILE, FOLDER], s.version, more);
    PrintedPage(PageDocument([PREFIX, FILE, FOLDER], s.version, more), s, [PREFIX, FILE, FOLDER], more);
  }

  /** In version 2: the prefix, then the file; the token says where to go on. */
  lemma ExamplePageV2(s: Settings)
    requires s.version == 2
    ensures var reply := Http(200, PageText(Tagged("IsTruncated", "true") + Tagged("NextContinuationToken", "n")));
            && GoodReply(reply, s) && AsksFor(reply, s) == Some("n")
            && ReplyItems(reply, s) == [Item("a/", 0, 0), Item("b", s.conv.size("7"), s.conv.time("t"))]
  {
    PlainTexts();
    hide GoodValue, GoodReply, ReplyItems, AsksFor, PageText, PrintAll, LastElems, Tagged;
    ExampleRead(s, Some("n"));
    PrintedLast(2, Some("n"));
  }

  /** In version 1 the last file that was kept says it. */
  lemma ExamplePageV1(s: Settings)
    requires s.version == 1
    ensures var reply := Http(200, PageText(Tagged("IsTruncated", "true") + ""));
            && GoodReply(reply, s) && AsksFor(reply, s) == Some("b")
            && ReplyItems(reply, s) == [Item("a/", 0, 0), Item("b", s.conv.size("7"), s.conv.time("t"))]
  {
    PlainTexts();
    hide GoodValue, GoodReply, ReplyItems, AsksFor, PageText, PrintAll, LastElems, Tagged;
    ExampleRead(s, Some("n"));
    PrintedLast(1, Some("n"));
  }
}
