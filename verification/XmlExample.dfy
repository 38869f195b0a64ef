/** One document with every kind of whitespace in it, written out, and what the parser makes of it. */
module XmlExample {
  import opened Options
  import opened XmlSpec
  import opened XmlRoundTrip

  const META := "<?xml version=\"1.0\"?>"

  /** A header, attributes, an empty element, and all kinds of whitespace between tags and around text. */
  const TEXT: string :=
    META + "\r\n<a>" + "\n\t<b c=\"d\">" + "\r\n\tx y\U{0b}\U{0c}\n" + "</b>" + "\r\n\t<e f=\"g\"/>" + "\r\n</a>" + "\n"

  const B := Leaf("\n\t", "b", " c=\"d\"", "", "\r\n\t", "x y", "\U{0b}\U{0c}\n", "")
  const E := Closed("\r\n\t", "e", " f=\"g\"", "")
  const ROOT := Group("\r\n", "a", "", "", [B, E], "\r\n", "")
  const LAYOUT := Document(Meta("", "xml version=\"1.0\""), ROOT, "\n")

  lemma PrintedB()
    ensures Print(B) == "\n\t<b c=\"d\">" + "\r\n\tx y\U{0b}\U{0c}\n" + "</b>"
  {}

  lemma PrintedE()
    ensures Print(E) == "\r\n\t<e f=\"g\"/>"
  {}

  lemma PrintedKids(a: Elem, b: Elem)
    ensures PrintAll([a, b]) == Print(a) + Print(b)
  {
    hide Print;
    PrintedOne(b);
    assert [a, b][1..] == [b];
  }

  lemma PrintedOne(e: Elem)
    ensures PrintAll([e]) == Print(e)
  {
    hide Print;
    assert [e][1..] == [] && PrintAll([]) == "";
    assert Print(e) + "" == Print(e);
  }

  lemma PrintedHeader()
    ensures HeaderText(LAYOUT.header) == META
  {}

  lemma PrintedRoot()
    ensures Print(ROOT) == "\r\n<a>" + "\n\t<b c=\"d\">" + "\r\n\tx y\U{0b}\U{0c}\n" + "</b>" + "\r\n\t<e f=\"g\"/>"
                           + "\r\n</a>"
  {
    PrintedB();
    PrintedE();
    PrintedKids(B, E);
    assert Front(ROOT) == "\r\n<a>" && "\r\n" + CloseTag("a", "") == "\r\n</a>";
    hide PrintAll, Front, CloseTag;
    Regroup("\r\n<a>", "\n\t<b c=\"d\">", "\r\n\tx y\U{0b}\U{0c}\n", "</b>", "\r\n\t<e f=\"g\"/>", "\r\n</a>");
  }

  lemma Regroup(a: string, b: string, c: string, d: string, e: string, f: string)
    ensures a + ((b + c + d + e) + f) == a + b + c + d + e + f
  {}

  lemma Printed()
    ensures PrintDocument(LAYOUT) == TEXT
  {
    PrintedHeader();
    PrintedRoot();
    hide HeaderText, Print, META;
    RegroupText(META, "\r\n<a>", "\n\t<b c=\"d\">", "\r\n\tx y\U{0b}\U{0c}\n", "</b>", "\r\n\t<e f=\"g\"/>", "\r\n</a>",
                "\n");
  }

  lemma RegroupText(m: string, a: string, b: string, c: string, d: string, e: string, f: string, g: string)
    ensures m + ((a + b + c + d + e + f) + g) == m + a + b + c + d + e + f + g
  {}

  lemma KidsAreGood()
    ensures Good(B) && Snug(B) && LastPad(B) == "" && Good(E) && Snug(E) && LastPad(E) == ""
    ensures Erase(B) == Tree("b", Some("x y"), []) && Erase(E) == Tree("e", None, [])
  {}

  lemma RootIsGood()
    ensures Good(ROOT) && Snug(ROOT)
    ensures Erase(ROOT) == Tree("a", None, [Tree("b", Some("x y"), []), Tree("e", None, [])])
  {
    KidsAreGood();
    hide B, E;
    TwoElems(B, E);
    assert [B] + [E] == [B, E];
    OpenWithoutAttributes("a");
    hide AllGood, AllSnug, EraseAll, GoodOpen;
  }

  lemma LayoutIsGood()
    ensures GoodDocument(LAYOUT) && Snug(ROOT)
    ensures Erase(ROOT) == Tree("a", None, [Tree("b", Some("x y"), []), Tree("e", None, [])])
  {
    RootIsGood();
    PrintedHeader();
    hide Good, Snug, Erase, ROOT, HeaderText;
  }

  lemma ExampleParsed()
    ensures ParseDocument(TEXT).Some?
    ensures View(TEXT, ParseDocument(TEXT).value)
         == Tree("a", None, [Tree("b", Some("x y"), []), Tree("e", None, [])])
  {
    Printed();
    LayoutIsGood();
    hide GoodDocument, Snug, Erase, PrintDocument, ParseDocument, View, NodeInBounds, TEXT, ROOT;
    ParsePrint(LAYOUT);
  }
}
