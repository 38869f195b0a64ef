/**
 * Parsing undoes printing, whatever whitespace, attributes and header the printed document carries, with one
 * exception: whitespace before the `>` of a tag.
 */
module XmlRoundTrip {
  import opened Options
  import opened XmlSpec

  /**
   * A document together with its layout: the whitespace in front of every opening tag, around text, in front
   * of every closing tag and before every `>`, and the attributes, which the parser drops.
   */
  datatype Elem =
    | Leaf(before: string, name: string, attrs: string, pad: string, lead: string, text: string, trail: string,
           endPad: string)
    | Group(before: string, name: string, attrs: string, pad: string, kids: seq<Elem>, trail: string, endPad: string)
    | Closed(before: string, name: string, attrs: string, pad: string)

  predicate GoodName(name: string) {
    && name != "" && name[0] != '/'
    && forall i :: 0 <= i < |name| ==> !IsSpace(name[i]) && name[i] != '>' && name[i] != '\0'
  }

  /** Attributes start with a blank, which ends the name. */
  predicate GoodAttrs(attrs: string) {
    && (attrs != "" ==> attrs[0] == ' ')
    && forall i :: 0 <= i < |attrs| ==> attrs[i] != '>'
  }

  /** An opening tag ends neither in whitespace, which is layout, nor in `/`. */
  predicate GoodOpen(name: string, attrs: string) {
    && GoodName(name) && GoodAttrs(attrs)
    && var last := (name + attrs)[|name + attrs| - 1]; !IsSpace(last) && last != '/'
  }

  predicate GoodText(text: string) {
    && text != "" && !IsSpace(text[0]) && !IsSpace(text[|text| - 1])
    && forall i :: 0 <= i < |text| ==> text[i] != '<'
  }

  predicate Good(e: Elem) {
    AllSpace(e.before) && AllSpace(e.pad) &&
    match e
    case Leaf(_, name, attrs, _, lead, text, trail, endPad) =>
      GoodOpen(name, attrs) && AllSpace(lead) && GoodText(text) && AllSpace(trail) && AllSpace(endPad)
    case Group(_, name, attrs, _, kids, trail, endPad) =>
      GoodOpen(name, attrs) && AllGood(kids) && AllSpace(trail) && AllSpace(endPad)
    case Closed(_, name, attrs, _) =>
      GoodName(name) && GoodAttrs(attrs)
  }

  predicate AllGood(es: seq<Elem>) {
    es == [] || (Good(es[0]) && AllGood(es[1..]))
  }

  function OpenTag(name: string, attrs: string, pad: string): string {
    "<" + (name + attrs + (pad + ">"))
  }

  function CloseTag(name: string, pad: string): string {
    "</" + (name + (pad + ">"))
  }

  function Front(e: Elem): string {
    e.before + OpenTag(e.name, if e.Closed? then e.attrs + "/" else e.attrs, e.pad)
  }

  /** What follows the opening tag. */
  function Inside(e: Elem): string
    decreases e, 0
  {
    match e
    case Leaf(_, name, _, _, lead, text, trail, endPad) => lead + (text + (trail + CloseTag(name, endPad)))
    case Group(_, name, _, _, kids, trail, endPad) => PrintAll(kids) + (trail + CloseTag(name, endPad))
    case Closed(_, _, _, _) => ""
  }

  function Print(e: Elem): string
    decreases e, 1
  {
    Front(e) + Inside(e)
  }

  function PrintAll(es: seq<Elem>): string {
    if es == [] then "" else Print(es[0]) + PrintAll(es[1..])
  }

  /** The whitespace before the last `>` of an element. */
  function LastPad(e: Elem): string {
    if e.Closed? then e.pad else e.endPad
  }

  /** The element without its last `>` and the whitespace before it. */
  function Opening(e: Elem): string {
    if e.Closed? then e.before + ("<" + (e.name + (e.attrs + "/")))
    else Front(e) + InsideFront(e)
  }

  /** What stands between the opening tag and the last `>` with the whitespace before it. */
  function InsideFront(e: Elem): string
    requires !e.Closed?
  {
    match e
    case Leaf(_, name, _, _, lead, text, trail, _) => lead + (text + (trail + ("</" + name)))
    case Group(_, name, _, _, kids, trail, _) => PrintAll(kids) + (trail + ("</" + name))
  }

  /** As far as the element is read. */
  function ReadLength(e: Elem): nat {
    |Opening(e)| + 1
  }

  /** No whitespace before any `>` of the element but the last. */
  predicate Snug(e: Elem) {
    match e
    case Leaf(_, _, _, pad, _, _, _, _) => pad == ""
    case Group(_, _, _, pad, kids, _, _) => pad == "" && AllSnug(kids)
    case Closed(_, _, _, _) => true
  }

  /** No whitespace before any `>`. */
  predicate AllSnug(es: seq<Elem>) {
    es == [] || (Snug(es[0]) && LastPad(es[0]) == "" && AllSnug(es[1..]))
  }

  /** The document without its layout. An empty-element tag without attributes keeps its slash. */
  function Erase(e: Elem): Tree {
    match e
    case Leaf(_, name, _, _, _, text, _, _) => Tree(name, Some(text), [])
    case Group(_, name, _, _, kids, _, _) => Tree(name, None, EraseAll(kids))
    case Closed(_, name, attrs, _) => Tree(if attrs == "" then name + "/" else name, None, [])
  }

  function EraseAll(es: seq<Elem>): seq<Tree> {
    if es == [] then [] else [Erase(es[0])] + EraseAll(es[1..])
  }

  // ---- Reading a text that stands at p ----

  lemma HasBound(s: string, p: nat, w: string)
    requires Has(s, p, w)
    ensures p + |w| <= |s|
  {
  }

  lemma HasParts(s: string, p: nat, a: string, b: string)
    requires Has(s, p, a + b)
    ensures Has(s, p, a) && Has(s, p + |a|, b)
  {
    var w := s[p..p + |a + b|];
    assert s[p..p + |a|] == w[..|a|] && s[p + |a|..p + |a| + |b|] == w[|a|..];
  }

  lemma HasAt(s: string, p: nat, w: string, i: nat)
    requires Has(s, p, w) && i < |w|
    ensures s[p + i] == w[i]
  {
    assert s[p..p + |w|][i] == w[i];
  }

  lemma SkipsOver(s: string, p: nat, w: string)
    requires Has(s, p, w) && AllSpace(w)
    requires p + |w| < |s| && !IsSpace(s[p + |w|])
    ensures SkipSpace(s, p) == p + |w|
  {
    var q := SkipSpace(s, p);
    if q < p + |w| {
      HasAt(s, p, w, q - p);
    }
  }

  lemma FindsAt(s: string, p: nat, w: string, c: char)
    requires Has(s, p, w) && forall i :: 0 <= i < |w| ==> w[i] != c
    requires p + |w| < |s| && s[p + |w|] == c
    ensures Find(s, p, c) == p + |w|
  {
    var q := Find(s, p, c);
    if q < p + |w| {
      HasAt(s, p, w, q - p);
    }
  }

  // ---- Tags ----

  predicate GoodInner(inner: string) {
    && inner != "" && !IsSpace(inner[0]) && !IsSpace(inner[|inner| - 1])
    && forall i :: 0 <= i < |inner| ==> inner[i] != '>'
  }

  /** The cursor is one behind the tag's text, whatever stands there. */
  lemma TagEndReads(s: string, p: nat, inner: string, pad: string)
    requires GoodInner(inner) && AllSpace(pad) && Has(s, p, inner + (pad + ">"))
    ensures TagEnd(s, p) == Some((Slice(p, |inner|), Clamp(s, p + |inner| + 1)))
    ensures Slice(p, |inner|).Of(s) == inner
  {
    hide Find, TrimEnd, Has;
    var e := p + |inner|;
    HasBound(s, p, inner + (pad + ">"));
    HasParts(s, p, inner, pad + ">");
    HasParts(s, e, pad, ">");
    HasAt(s, e + |pad|, ">", 0);
    HasAt(s, p, inner, |inner| - 1);
    InnerFound(s, p, inner, pad);
    forall i | e <= i < e + |pad|
      ensures IsSpace(s[i])
    {
      HasAt(s, e, pad, i - e);
    }
    TrimIs(s, p, e, e + |pad|);
  }

  lemma InnerFound(s: string, p: nat, inner: string, pad: string)
    requires GoodInner(inner) && AllSpace(pad) && Has(s, p, inner + (pad + ">"))
    ensures Find(s, p, '>') == p + |inner| + |pad|
  {
    var w := inner + pad;
    assert inner + (pad + ">") == w + ">";
    HasParts(s, p, w, ">");
    HasAt(s, p + |w|, ">", 0);
    FindsAt(s, p, w, '>');
  }

  lemma OpenTagReads(s: string, p: nat, before: string, inner: string, pad: string)
    requires AllSpace(before) && GoodInner(inner) && AllSpace(pad)
    requires Has(s, p, before + ("<" + (inner + (pad + ">"))))
    ensures var tag := Slice(p + |before| + 1, |inner|);
            && TagOpen(s, p) == Some((tag, Clamp(s, p + |before| + |inner| + 2)))
            && tag.InBounds(s) && tag.Of(s) == inner
            && Visible(s, p, 0) == '<' && Visible(s, p, 1) == inner[0]
    ensures Has(s, p + |before| + |inner| + 1, pad + ">")
  {
    hide SkipSpace, TagEnd, Has, AllSpace;
    var q := p + |before|;
    HasBound(s, p, before + ("<" + (inner + (pad + ">"))));
    HasParts(s, p, before, "<" + (inner + (pad + ">")));
    HasParts(s, q, "<", inner + (pad + ">"));
    HasAt(s, q, "<", 0);
    SkipsOver(s, p, before);
    TagEndReads(s, q + 1, inner, pad);
    HasParts(s, q + 1, inner, pad + ">");
    HasAt(s, q + 1, inner, 0);
  }

  lemma CloseTagSeen(s: string, p: nat, trail: string, name: string, pad: string)
    requires AllSpace(trail) && Has(s, p, trail + CloseTag(name, pad))
    ensures SkipSpace(s, p) == p + |trail| && Visible(s, p, 0) == '<' && Visible(s, p, 1) == '/'
    ensures Has(s, p + |trail| + 2, name + (pad + ">"))
  {
    hide SkipSpace;
    HasParts(s, p, trail, CloseTag(name, pad));
    var q := p + |trail|;
    HasParts(s, q, "</", name + (pad + ">"));
    HasAt(s, q, "</", 0);
    HasAt(s, q, "</", 1);
    SkipsOver(s, p, trail);
  }

  lemma CloseTagReads(s: string, p: nat, trail: string, name: string, pad: string, open: Slice)
    requires AllSpace(trail) && GoodName(name) && AllSpace(pad) && Has(s, p, trail + CloseTag(name, pad))
    requires open.InBounds(s) && open.Of(s) == name
    ensures Visible(s, p, 0) == '<' && Visible(s, p, 1) == '/'
    ensures Closing(s, p, open) == Some(Clamp(s, p + |trail + CloseTag(name, pad)| - |pad|))
  {
    hide SkipSpace, TagEnd, Visible, Has, AllSpace;
    CloseTagSeen(s, p, trail, name, pad);
    HasBound(s, p, trail + CloseTag(name, pad));
    TagEndReads(s, p + |trail| + 2, name, pad);
  }

  // ---- Names ----

  lemma {:induction false} WordLenIs(w: string, rest: string)
    requires forall i :: 0 <= i < |w| ==> w[i] != ' ' && w[i] != '\0'
    requires rest == "" || rest[0] == ' '
    ensures WordLen(w + rest) == |w|
  {
    if w == "" {
      assert w + rest == rest;
    } else {
      assert (w + rest)[1..] == w[1..] + rest;
      WordLenIs(w[1..], rest);
    }
  }

  lemma NameLenIs(w: string, rest: string)
    requires w != "" && forall i :: 0 <= i < |w| ==> w[i] != ' ' && w[i] != '\0'
    requires rest == "" || rest[0] == ' '
    ensures NameLen(w + rest) == |w|
  {
    assert (w + rest)[0..] == w + rest;
    WordLenIs(w, rest);
  }

  lemma NameOfIs(s: string, tag: Slice, name: string, rest: string)
    requires tag.InBounds(s) && tag.Of(s) == name + rest
    requires name != "" && forall i :: 0 <= i < |name| ==> name[i] != ' ' && name[i] != '\0'
    requires rest == "" || rest[0] == ' '
    ensures NameOf(s, tag).Of(s) == name
    ensures SelfClosing(s, tag) == ((name + rest)[|name + rest| - 1] == '/')
  {
    hide NameLen;
    NameLenIs(name, rest);
    var w := s[tag.start..tag.start + tag.len];
    assert w == name + rest;
    assert w[..|name|] == name;
    assert w[tag.len - 1] == s[tag.start + tag.len - 1];
  }

  /** Reading the opening tag of an element with content: the name loses its attributes. */
  lemma ElementOpens(s: string, p: nat, before: string, name: string, attrs: string, pad: string)
    requires AllSpace(before) && GoodOpen(name, attrs) && AllSpace(pad)
    requires Has(s, p, before + OpenTag(name, attrs, pad))
    ensures TagOpen(s, p).Some? && Visible(s, p, 0) == '<' && Visible(s, p, 1) == name[0]
    ensures var (tag, q) := TagOpen(s, p).value;
            && q == Clamp(s, p + |before + OpenTag(name, attrs, pad)| - |pad|)
            && NameOf(s, tag).Of(s) == name && !SelfClosing(s, tag)
  {
    var inner := name + attrs;
    assert GoodInner(inner);
    hide TagOpen, Visible, NameOf, SelfClosing, Has;
    OpenTagReads(s, p, before, inner, pad);
    NameOfIs(s, TagOpen(s, p).value.0, name, attrs);
  }

  /** An empty-element tag: without attributes the slash stays in the name. */
  lemma ClosedReads(s: string, p: nat, before: string, name: string, attrs: string, pad: string)
    requires AllSpace(before) && GoodName(name) && GoodAttrs(attrs) && AllSpace(pad)
    requires Has(s, p, before + OpenTag(name, attrs + "/", pad))
    ensures TagOpen(s, p).Some? && Visible(s, p, 0) == '<' && Visible(s, p, 1) == name[0]
    ensures var (tag, q) := TagOpen(s, p).value;
            && q == Clamp(s, p + |before + OpenTag(name, attrs + "/", pad)| - |pad|)
            && NameOf(s, tag).Of(s) == (if attrs == "" then name + "/" else name) && SelfClosing(s, tag)
  {
    hide TagOpen, Visible, NameOf, SelfClosing, Has;
    var inner := name + (attrs + "/");
    assert GoodInner(inner);
    OpenTagReads(s, p, before, inner, pad);
    if attrs == "" {
      assert inner == (name + "/") + "";
      NameOfIs(s, TagOpen(s, p).value.0, name + "/", "");
    } else {
      NameOfIs(s, TagOpen(s, p).value.0, name, attrs + "/");
    }
  }

  lemma TextFound(s: string, q: nat, text: string, trail: string)
    requires GoodText(text) && AllSpace(trail) && Has(s, q, text + (trail + "<"))
    ensures Find(s, q, '<') == q + |text| + |trail|
  {
    var w := text + trail;
    assert text + (trail + "<") == w + "<";
    HasParts(s, q, w, "<");
    HasAt(s, q + |w|, "<", 0);
    FindsAt(s, q, w, '<');
  }

  lemma TextTrimmed(s: string, q: nat, text: string, trail: string)
    requires text != "" && !IsSpace(text[|text| - 1]) && AllSpace(trail) && Has(s, q, text + trail)
    ensures TrimEnd(s, q, q + |text| + |trail|) == q + |text|
    ensures s[q] == text[0] && s[q..q + |text|] == text
  {
    hide TrimEnd, IsSpace;
    HasParts(s, q, text, trail);
    HasAt(s, q, text, 0);
    HasAt(s, q, text, |text| - 1);
    var r := q + |text|;
    forall i | r <= i < r + |trail|
      ensures IsSpace(s[i])
    {
      HasAt(s, r, trail, i - r);
    }
    TrimIs(s, q, r, r + |trail|);
  }

  /** Reading text: exactly its trimmed form, and the cursor stays where the text ends. */
  lemma TextReads(s: string, p: nat, lead: string, text: string, trail: string)
    requires AllSpace(lead) && GoodText(text) && AllSpace(trail)
    requires Has(s, p, lead + (text + (trail + "<")))
    ensures Visible(s, p, 0) != '<'
    ensures Content(s, p) == Some((Slice(p + |lead|, |text|), p + |lead| + |text|))
    ensures Slice(p + |lead|, |text|).Of(s) == text
  {
    hide SkipSpace, Find, TrimEnd, IsSpace, Has, AllSpace;
    HasBound(s, p, lead + (text + (trail + "<")));
    HasParts(s, p, lead, text + (trail + "<"));
    TextFound(s, p + |lead|, text, trail);
    assert text + (trail + "<") == (text + trail) + "<";
    HasParts(s, p + |lead|, text + trail, "<");
    TextTrimmed(s, p + |lead|, text, trail);
    SkipsOver(s, p, lead);
  }

  // ---- Elements ----

  lemma InsideSplits(e: Elem)
    requires !e.Closed?
    ensures Inside(e) == InsideFront(e) + (e.endPad + ">")
  {
    hide PrintAll;
    var back := e.endPad + ">";
    match e
    case Leaf(_, name, _, _, lead, text, trail, _) =>
      assert "</" + (name + back) == ("</" + name) + back;
      assert trail + (("</" + name) + back) == (trail + ("</" + name)) + back;
      assert text + ((trail + ("</" + name)) + back) == (text + (trail + ("</" + name))) + back;
    case Group(_, name, _, _, kids, trail, _) =>
      assert "</" + (name + back) == ("</" + name) + back;
      assert trail + (("</" + name) + back) == (trail + ("</" + name)) + back;
  }

  lemma PrintSplits(e: Elem)
    ensures Print(e) == Opening(e) + (LastPad(e) + ">")
  {
    hide InsideFront;
    if e.Closed? {
      assert Print(e) == Front(e);
    } else {
      InsideSplits(e);
      hide Inside, Front;
      assert Front(e) + (InsideFront(e) + (e.endPad + ">")) == (Front(e) + InsideFront(e)) + (e.endPad + ">");
    }
  }

  lemma ReadLengthIs(e: Elem)
    ensures ReadLength(e) + |LastPad(e)| == |Print(e)|
    ensures e.Closed? ==> ReadLength(e) + |e.pad| == |Front(e)|
    ensures !e.Closed? ==> ReadLength(e) + |e.endPad| == |Front(e)| + |Inside(e)|
  {
    PrintSplits(e);
    hide Opening, Front;
  }

  lemma InsideNotEmpty(e: Elem)
    requires !e.Closed?
    ensures Inside(e) != ""
  {
    InsideSplits(e);
    hide Inside;
  }

  lemma ElemOpens(s: string, p: nat, e: Elem)
    requires Good(e) && Has(s, p, Print(e))
    ensures Visible(s, p, 0) == '<' && Visible(s, p, 1) == e.name[0]
    ensures TagOpen(s, p).Some?
    ensures var (tag, q) := TagOpen(s, p).value;
            && q == Clamp(s, p + |Front(e)| - |e.pad|)
            && SelfClosing(s, tag) == e.Closed?
            && NameOf(s, tag).Of(s) == Erase(e).name
    ensures Has(s, p + |Front(e)|, Inside(e))
  {
    hide SkipSpace, Visible, TagOpen, NameOf, SelfClosing, Inside, EraseAll, AllGood, GoodOpen, GoodName;
    hide GoodAttrs, GoodText, AllSpace;
    HasParts(s, p, Front(e), Inside(e));
    if e.Closed? {
      ClosedReads(s, p, e.before, e.name, e.attrs, e.pad);
    } else {
      ElementOpens(s, p, e.before, e.name, e.attrs, e.pad);
    }
  }

  /** One element: its tree, and the cursor exactly behind its last tag, except at the very end of the input. */
  lemma {:induction false} NodeReads(s: string, p: nat, e: Elem)
    requires s != "" && Good(e) && Snug(e) && Has(s, p, Print(e))
    ensures ParseNode(s, p).Some?
    ensures var (node, q) := ParseNode(s, p).value;
            View(s, node) == Erase(e) && q == Clamp(s, p + ReadLength(e))
    decreases e, 1
  {
    hide SkipSpace, Visible, TagOpen, NameOf, SelfClosing, GoodOpen, GoodAttrs, GoodText, GoodName;
    hide Front, AllSpace, Closing, ParseInside, EraseAll, ViewAll, AllGood, Has, AllSnug, Inside, ReadLength;
    ElemOpens(s, p, e);
    HasBound(s, p, Print(e));
    if !e.Closed? {
      InsideNotEmpty(e);
    }
    ReadLengthIs(e);
    var (tag, p1) := TagOpen(s, p).value;
    match e
    case Leaf(_, _, _, _, _, _, _, _) =>
      LeafReads(s, p1, NameOf(s, tag), e);
    case Group(_, _, _, _, _, _, _) =>
      GroupReads(s, p1, NameOf(s, tag), e);
    case Closed(_, _, _, _) =>
  }

  lemma LeafParts(s: string, p: nat, lead: string, text: string, trail: string, name: string, pad: string)
    requires Has(s, p, lead + (text + (trail + CloseTag(name, pad))))
    ensures Has(s, p, lead + (text + (trail + "<")))
    ensures Has(s, p + |lead| + |text|, trail + CloseTag(name, pad))
  {
    var rest := trail + CloseTag(name, pad);
    HasParts(s, p, lead, text + rest);
    HasParts(s, p + |lead|, text, rest);
    var front := lead + (text + (trail + "<"));
    var back := "/" + (name + (pad + ">"));
    assert lead + (text + rest) == front + back;
    HasParts(s, p, front, back);
  }

  lemma LeafReads(s: string, p1: nat, name: Slice, e: Elem)
    requires s != "" && e.Leaf? && Good(e) && Has(s, p1, Inside(e)) && p1 < |s|
    requires name.InBounds(s) && name.Of(s) == e.name
    ensures ParseInside(s, p1).Some?
    ensures var (text, kids, p2) := ParseInside(s, p1).value;
            && text.Some? && text.value.Of(s) == e.text && kids == []
            && Closing(s, p2, name) == Some(Clamp(s, p1 + |Inside(e)| - |e.endPad|))
  {
    hide SkipSpace, Visible, Content, Closing, GoodAttrs, GoodText, GoodName, AllSpace, CloseTag, Has, Clamp;
    hide ParseChildren;
    LeafParts(s, p1, e.lead, e.text, e.trail, e.name, e.endPad);
    TextReads(s, p1, e.lead, e.text, e.trail);
    CloseTagReads(s, p1 + |e.lead| + |e.text|, e.trail, e.name, e.endPad, name);
  }

  lemma GroupReads(s: string, p1: nat, name: Slice, e: Elem)
    requires s != "" && e.Group? && Good(e) && AllSnug(e.kids) && Has(s, p1, Inside(e)) && p1 < |s|
    requires name.InBounds(s) && name.Of(s) == e.name
    ensures ParseInside(s, p1).Some?
    ensures var (text, kids, p2) := ParseInside(s, p1).value;
            && text == None && ViewAll(s, kids) == EraseAll(e.kids)
            && Closing(s, p2, name) == Some(Clamp(s, p1 + |Inside(e)| - |e.endPad|))
    decreases e, 0
  {
    hide SkipSpace, Visible, Content, Closing, GoodAttrs, GoodText, GoodName, AllSpace, Has, Clamp;
    hide ParseChildren, PrintAll, EraseAll, ViewAll, AllGood, AllSnug;
    var close := e.trail + CloseTag(e.name, e.endPad);
    HasParts(s, p1, PrintAll(e.kids), close);
    var p2 := p1 + |PrintAll(e.kids)|;
    CloseTagReads(s, p2, e.trail, e.name, e.endPad, name);
    HasBound(s, p2, close);
    KidsRead(s, p1, e.kids);
  }

  /** A closing tag comes next. */
  predicate ClosesNext(s: string, p: nat) {
    p < |s| && Visible(s, p, 0) == '<' && Visible(s, p, 1) == '/'
  }

  /** Elements in a row, as long as a closing tag comes behind them. */
  lemma {:induction false} KidsRead(s: string, p: nat, kids: seq<Elem>)
    requires AllGood(kids) && AllSnug(kids) && Has(s, p, PrintAll(kids)) && ClosesNext(s, p + |PrintAll(kids)|)
    ensures Visible(s, p, 0) == '<' && ParseChildren(s, p).Some?
    ensures var (nodes, q) := ParseChildren(s, p).value;
            ViewAll(s, nodes) == EraseAll(kids) && q == p + |PrintAll(kids)|
    decreases kids, 1
  {
    hide SkipSpace, Visible, TagOpen, NameOf, SelfClosing, Print, Erase, View, ParseNode, Has, Snug, LastPad;
    hide ReadLength;
    if kids != [] {
      HasParts(s, p, Print(kids[0]), PrintAll(kids[1..]));
      ElemOpens(s, p, kids[0]);
      NodeReads(s, p, kids[0]);
      ReadLengthIs(kids[0]);
      HasBound(s, p, PrintAll(kids));
      KidsRead(s, p + |Print(kids[0])|, kids[1..]);
    }
  }

  // ---- Building documents ----

  lemma OpenWithoutAttributes(name: string)
    requires GoodName(name) && name[|name| - 1] != '/'
    ensures GoodOpen(name, "")
  {
    assert name + "" == name;
  }

  lemma OneElem(e: Elem)
    requires Good(e) && Snug(e) && LastPad(e) == ""
    ensures AllGood([e]) && AllSnug([e]) && EraseAll([e]) == [Erase(e)]
  {
    hide Good, Snug, LastPad, Erase;
    assert [e][1..] == [];
    assert [Erase(e)] + [] == [Erase(e)];
  }

  lemma TwoElems(a: Elem, b: Elem)
    requires Good(a) && Good(b) && Snug(a) && Snug(b) && LastPad(a) == "" && LastPad(b) == ""
    ensures AllGood([a] + [b]) && AllSnug([a] + [b]) && EraseAll([a] + [b]) == [Erase(a)] + [Erase(b)]
  {
    hide Good, Snug, LastPad, Erase;
    assert ([a] + [b])[1..] == [b];
    OneElem(b);
  }

  lemma ThreeElems(a: Elem, b: Elem, c: Elem)
    requires Good(a) && Good(b) && Good(c) && Snug(a) && Snug(b) && Snug(c)
    requires LastPad(a) == "" && LastPad(b) == "" && LastPad(c) == ""
    ensures AllGood([a, b, c]) && AllSnug([a, b, c]) && EraseAll([a, b, c]) == [Erase(a), Erase(b), Erase(c)]
  {
    hide Good, Snug, LastPad, Erase;
    assert [a, b, c][1..] == [b, c] && [b, c][1..] == [c] && [c][1..] == [];
    OneElem(c);
    assert EraseAll([b, c]) == [Erase(b)] + EraseAll([c]);
  }

  // ---- Whitespace before `>` ----

  lemma DropFirst(s: string, p: nat, pad: string, rest: string)
    requires pad != "" && Has(s, p, pad + rest)
    ensures Has(s, p + 1, pad[1..] + rest)
  {
    assert pad + rest == [pad[0]] + (pad[1..] + rest);
    HasParts(s, p, [pad[0]], pad[1..] + rest);
  }

  /** Whitespace before the `>` of an opening tag: one character of it is read, and the `>` is not. */
  lemma PadFollows(s: string, p: nat, e: Elem)
    requires Has(s, p, Print(e)) && e.pad != ""
    ensures Has(s, p + |Front(e)| - |e.pad|, e.pad[1..] + (">" + Inside(e)))
  {
    hide Inside;
    var tag := e.name + if e.Closed? then e.attrs + "/" else e.attrs;
    var front := e.before + ("<" + tag);
    FrontSplits(e.before, tag, e.pad, Inside(e));
    HasParts(s, p, front, e.pad + (">" + Inside(e)));
    DropFirst(s, p + |front|, e.pad, ">" + Inside(e));
  }

  lemma FrontSplits(before: string, tag: string, pad: string, rest: string)
    ensures (before + ("<" + (tag + (pad + ">")))) + rest == (before + ("<" + tag)) + (pad + (">" + rest))
  {}

  lemma LastPadStands(s: string, p: nat, e: Elem)
    requires Has(s, p, Print(e)) && LastPad(e) != ""
    ensures Has(s, p + ReadLength(e), LastPad(e)[1..] + ">")
  {
    PrintSplits(e);
    hide Print, Opening;
    HasParts(s, p, Opening(e), LastPad(e) + ">");
    DropFirst(s, p + |Opening(e)|, LastPad(e), ">");
  }

  lemma SeesEnd(s: string, q: nat, w: string, rest: string)
    requires AllSpace(w) && Has(s, q, w + (">" + rest))
    ensures SkipSpace(s, q) == q + |w| < |s| && Visible(s, q, 0) == '>'
  {
    hide SkipSpace;
    HasParts(s, q, w, ">" + rest);
    HasParts(s, q + |w|, ">", rest);
    HasAt(s, q + |w|, ">", 0);
    SkipsOver(s, q, w);
  }

  /** Nothing is an element that begins with `>`. */
  lemma StuckOnPad(s: string, q: nat, w: string)
    requires AllSpace(w) && Has(s, q, w + ">") && q + |w| + 1 < |s| && Visible(s, q + |w| + 1, 0) == '<'
    ensures ParseChildren(s, q) == None
  {
    hide SkipSpace;
    assert w + ">" == w + (">" + "");
    SeesEnd(s, q, w, "");
    assert Visible(s, q, 1) == '<';
  }

  /** After whitespace before `>`, the `>` is taken for text. */
  lemma LeafPadded(s: string, p1: nat, e: Elem)
    requires s != "" && e.Leaf? && Good(e) && e.pad != "" && p1 < |s|
    requires Has(s, p1, e.pad[1..] + (">" + Inside(e)))
    ensures ParseInside(s, p1).Some?
    ensures ParseInside(s, p1).value.0.Some? && ParseInside(s, p1).value.0.value.Of(s) == ">" + (e.lead + e.text)
  {
    hide SkipSpace, Content, Visible, Has, CloseTag, AllSpace, GoodOpen, GoodText;
    var w, text, close := e.pad[1..], ">" + (e.lead + e.text), CloseTag(e.name, e.endPad);
    Regroup(e.lead, e.text, e.trail + close);
    AllSpaceTail(e.pad);
    EndIsText(e.lead, e.text);
    LeafParts(s, p1, w, text, e.trail, e.name, e.endPad);
    TextReads(s, p1, w, text, e.trail);
  }

  lemma Regroup(lead: string, text: string, rest: string)
    ensures ">" + (lead + (text + rest)) == (">" + (lead + text)) + rest
  {}

  lemma AllSpaceTail(w: string)
    requires AllSpace(w) && w != ""
    ensures AllSpace(w[1..])
  {}

  lemma EndIsText(lead: string, text: string)
    requires AllSpace(lead) && GoodText(text)
    ensures GoodText(">" + (lead + text))
  {}

  lemma GroupPadded(s: string, p1: nat, e: Elem)
    requires s != "" && e.Group? && Good(e) && e.pad != "" && p1 < |s|
    requires Has(s, p1, e.pad[1..] + (">" + Inside(e)))
    ensures ParseInside(s, p1).Some? ==> ParseInside(s, p1).value.0.Some?
  {
    hide SkipSpace, Content, Visible, Has, Inside;
    SeesEnd(s, p1, e.pad[1..], Inside(e));
  }

  /** Any other whitespace before a `>` than that of the element's last tag, and its tree is not read. */
  lemma {:induction false} NodeMisread(s: string, p: nat, e: Elem)
    requires s != "" && Good(e) && !Snug(e) && Has(s, p, Print(e))
    ensures ParseNode(s, p).Some? ==> View(s, ParseNode(s, p).value.0) != Erase(e)
    decreases e, 1
  {
    hide SkipSpace, Visible, TagOpen, NameOf, SelfClosing, GoodOpen, GoodAttrs, GoodText, GoodName;
    hide Front, AllSpace, Closing, ParseInside, EraseAll, ViewAll, AllGood, Has, AllSnug, Inside;
    ElemOpens(s, p, e);
    HasBound(s, p, Print(e));
    var (tag, p1) := TagOpen(s, p).value;
    if e.pad != "" {
      PadFollows(s, p, e);
      HasBound(s, p1, e.pad[1..] + (">" + Inside(e)));
      if e.Leaf? {
        LeafPadded(s, p1, e);
      } else {
        GroupPadded(s, p1, e);
      }
    } else {
      InsideNotEmpty(e);
      HasBound(s, p + |Front(e)|, Inside(e));
      GroupMisread(s, p1, e);
    }
  }

  lemma GroupMisread(s: string, p1: nat, e: Elem)
    requires s != "" && e.Group? && Good(e) && !AllSnug(e.kids) && Has(s, p1, Inside(e)) && p1 < |s|
    ensures ParseInside(s, p1).Some? ==> ViewAll(s, ParseInside(s, p1).value.1) != EraseAll(e.kids)
    decreases e, 0
  {
    hide SkipSpace, Visible, Content, Closing, GoodAttrs, GoodText, GoodName, AllSpace, Has, Clamp;
    hide ParseChildren, PrintAll, EraseAll, ViewAll, AllGood, AllSnug;
    var close := e.trail + CloseTag(e.name, e.endPad);
    HasParts(s, p1, PrintAll(e.kids), close);
    var p2 := p1 + |PrintAll(e.kids)|;
    HasBound(s, p2, close);
    CloseTagSeen(s, p2, e.trail, e.name, e.endPad);
    KidsMisread(s, p1, e.kids);
  }

  lemma FirstDiffers(s: string, nodes: seq<Node>, kids: seq<Elem>)
    requires nodes != [] && kids != [] && AllInBounds(s, nodes)
    requires View(s, nodes[0]) != Erase(kids[0]) || ViewAll(s, nodes[1..]) != EraseAll(kids[1..])
    ensures ViewAll(s, nodes) != EraseAll(kids)
  {
    hide View, Erase;
    assert ViewAll(s, nodes)[0] == View(s, nodes[0]) && ViewAll(s, nodes)[1..] == ViewAll(s, nodes[1..]);
    assert EraseAll(kids)[0] == Erase(kids[0]) && EraseAll(kids)[1..] == EraseAll(kids[1..]);
  }

  /** What comes behind the first of some elements in a row begins with `<`. */
  lemma RestSeen(s: string, p: nat, kids: seq<Elem>)
    requires AllGood(kids) && Has(s, p, PrintAll(kids)) && ClosesNext(s, p + |PrintAll(kids)|)
    ensures p < |s| && Visible(s, p, 0) == '<'
  {
    hide SkipSpace, Visible, Has, Print;
    if kids != [] {
      HasParts(s, p, Print(kids[0]), PrintAll(kids[1..]));
      ElemOpens(s, p, kids[0]);
      HasBound(s, p, PrintAll(kids));
    }
  }

  lemma {:induction false} KidsMisread(s: string, p: nat, kids: seq<Elem>)
    requires AllGood(kids) && !AllSnug(kids) && Has(s, p, PrintAll(kids)) && ClosesNext(s, p + |PrintAll(kids)|)
    ensures Visible(s, p, 0) == '<'
    ensures ParseChildren(s, p).Some? ==> ViewAll(s, ParseChildren(s, p).value.0) != EraseAll(kids)
    decreases kids, 1
  {
    hide SkipSpace, Visible, TagOpen, NameOf, SelfClosing, Print, Erase, View, ParseNode, Has, Snug, LastPad;
    hide ReadLength, ViewAll, EraseAll, AllInBounds;
    var kid, rest := kids[0], kids[1..];
    var end := p + |Print(kid)|;
    HasParts(s, p, Print(kid), PrintAll(rest));
    ElemOpens(s, p, kid);
    RestSeen(s, end, rest);
    if !Snug(kid) {
      NodeMisread(s, p, kid);
    } else {
      NodeReads(s, p, kid);
      ReadLengthIs(kid);
      if LastPad(kid) != "" {
        LastPadStands(s, p, kid);
        LastPadIsSpace(kid);
        StuckOnPad(s, p + ReadLength(kid), LastPad(kid)[1..]);
      } else {
        KidsMisread(s, end, rest);
      }
    }
    if ParseChildren(s, p).Some? {
      var nodes := ParseChildren(s, p).value.0;
      assert nodes != [] && nodes[0] == ParseNode(s, p).value.0;
      assert nodes[1..] == ParseChildren(s, ParseNode(s, p).value.1).value.0;
      FirstDiffers(s, nodes, kids);
    }
  }

  lemma LastPadIsSpace(e: Elem)
    requires Good(e)
    ensures AllSpace(LastPad(e))
  {}

  // ---- One text, one tree ----

  /** Where the closing tag that comes next ends. */
  function CloseEnd(s: string, p: nat): nat {
    if p <= |s| && SkipSpace(s, p) + 2 <= |s| then Find(s, SkipSpace(s, p) + 2, '>') else 0
  }

  lemma FrontEnds(s: string, p: nat, e: Elem)
    requires Good(e) && Has(s, p, Print(e))
    ensures Find(s, SkipSpace(s, p), '>') == p + |Front(e)| - 1
  {
    var tag := e.name + if e.Closed? then e.attrs + "/" else e.attrs;
    HasParts(s, p, Front(e), Inside(e));
    hide Inside, Print;
    assert Front(e) == e.before + ("<" + (tag + (e.pad + ">")));
    TagEnds(s, p, e.before, tag, e.pad);
  }

  lemma TagEnds(s: string, p: nat, before: string, inner: string, pad: string)
    requires AllSpace(before) && GoodInner(inner) && AllSpace(pad)
    requires Has(s, p, before + ("<" + (inner + (pad + ">"))))
    ensures Find(s, SkipSpace(s, p), '>') == p + |before| + 1 + |inner| + |pad|
  {
    hide SkipSpace, Has, AllSpace, GoodInner;
    var q := p + |before|;
    HasBound(s, p, before + ("<" + (inner + (pad + ">"))));
    HasParts(s, p, before, "<" + (inner + (pad + ">")));
    HasParts(s, q, "<", inner + (pad + ">"));
    HasAt(s, q, "<", 0);
    SkipsOver(s, p, before);
    InnerFound(s, q + 1, inner, pad);
  }

  lemma CloseEnds(s: string, p: nat, trail: string, name: string, pad: string)
    requires AllSpace(trail) && GoodName(name) && AllSpace(pad) && Has(s, p, trail + CloseTag(name, pad))
    ensures CloseEnd(s, p) == p + |trail + CloseTag(name, pad)| - 1
  {
    hide SkipSpace, Find, Visible, Has, AllSpace;
    CloseTagSeen(s, p, trail, name, pad);
    HasBound(s, p + |trail| + 2, name + (pad + ">"));
    assert GoodInner(name);
    InnerFound(s, p + |trail| + 2, name, pad);
  }

  lemma SameOpen(s: string, p: nat, e: Elem, e': Elem)
    requires Good(e) && Has(s, p, Print(e)) && Good(e') && Has(s, p, Print(e'))
    ensures |Front(e)| == |Front(e')| && (e.Closed? <==> e'.Closed?) && Erase(e).name == Erase(e').name
  {
    hide Good, Has, Print, Front, Erase, Inside, SkipSpace, Find, TagOpen, NameOf, SelfClosing, Visible;
    FrontEnds(s, p, e);
    FrontEnds(s, p, e');
    ElemOpens(s, p, e);
    ElemOpens(s, p, e');
  }

  lemma LeafSeen(s: string, q: nat, e: Elem)
    requires e.Leaf? && Good(e) && Has(s, q, Inside(e))
    ensures q < |s| && Visible(s, q, 0) != '<'
    ensures Content(s, q).Some? && Content(s, q).value.0.Of(s) == e.text
    ensures var p := Content(s, q).value.1;
            p == q + |e.lead| + |e.text| && CloseEnd(s, p) == q + |Inside(e)| - 1
  {
    hide SkipSpace, Visible, Content, GoodAttrs, GoodText, GoodName, AllSpace, CloseTag, Has, CloseEnd;
    LeafParts(s, q, e.lead, e.text, e.trail, e.name, e.endPad);
    HasBound(s, q, e.lead + (e.text + (e.trail + "<")));
    TextReads(s, q, e.lead, e.text, e.trail);
    CloseEnds(s, q + |e.lead| + |e.text|, e.trail, e.name, e.endPad);
  }

  lemma GroupSeen(s: string, q: nat, e: Elem)
    requires e.Group? && Good(e) && Has(s, q, Inside(e))
    ensures Has(s, q, PrintAll(e.kids)) && ClosesNext(s, q + |PrintAll(e.kids)|)
    ensures CloseEnd(s, q + |PrintAll(e.kids)|) == q + |Inside(e)| - 1
    ensures Visible(s, q, 0) == '<'
  {
    hide SkipSpace, Visible, GoodAttrs, GoodText, GoodName, AllSpace, Has, CloseEnd, PrintAll, AllGood;
    var p, close := q + |PrintAll(e.kids)|, e.trail + CloseTag(e.name, e.endPad);
    HasParts(s, q, PrintAll(e.kids), close);
    HasBound(s, p, close);
    CloseTagSeen(s, p, e.trail, e.name, e.endPad);
    CloseEnds(s, p, e.trail, e.name, e.endPad);
    RestSeen(s, q, e.kids);
  }

  /** Text and children do not look alike. */
  lemma LeafIsNoGroup(s: string, q: nat, e: Elem, e': Elem)
    requires e.Leaf? && Good(e) && Has(s, q, Inside(e))
    requires e'.Group? && Good(e')
    ensures !Has(s, q, Inside(e'))
  {
    hide Has, Inside, CloseEnd, Visible, Content, Good;
    LeafSeen(s, q, e);
    if Has(s, q, Inside(e')) {
      GroupSeen(s, q, e');
    }
  }

  lemma SameLeaf(s: string, q: nat, e: Elem, e': Elem)
    requires e.Leaf? && Good(e) && Has(s, q, Inside(e))
    requires e'.Leaf? && Good(e') && Has(s, q, Inside(e'))
    ensures e.text == e'.text && |Inside(e)| == |Inside(e')|
  {
    hide Has, Inside, CloseEnd, Visible, Content, Good;
    LeafSeen(s, q, e);
    LeafSeen(s, q, e');
  }

  lemma GroupGood(e: Elem)
    requires e.Group? && Good(e)
    ensures AllGood(e.kids)
  {
    hide GoodOpen, AllSpace, AllGood;
  }

  lemma NameStarts(e: Elem)
    requires Good(e)
    ensures e.name != "" && e.name[0] != '/'
  {
    hide AllSpace, AllGood, GoodAttrs, GoodText;
  }

  lemma SameGroup(s: string, q: nat, e: Elem, e': Elem)
    requires e.Group? && Good(e) && Has(s, q, Inside(e))
    requires e'.Group? && Good(e') && Has(s, q, Inside(e'))
    ensures EraseAll(e.kids) == EraseAll(e'.kids) && |Inside(e)| == |Inside(e')|
    decreases e, 0
  {
    hide *;
    GroupGood(e);
    GroupGood(e');
    GroupSeen(s, q, e);
    GroupSeen(s, q, e');
    SameKids(s, q, e.kids, e'.kids);
  }

  lemma ErasedSame(e: Elem, e': Elem)
    requires Erase(e).name == Erase(e').name
    requires (e.Closed? && e'.Closed?) || (e.Leaf? && e'.Leaf? && e.text == e'.text)
             || (e.Group? && e'.Group? && EraseAll(e.kids) == EraseAll(e'.kids))
    ensures Erase(e) == Erase(e')
  {
    hide EraseAll;
  }

  lemma PrintLength(e: Elem)
    ensures |Print(e)| == |Front(e)| + |Inside(e)| && (e.Closed? ==> Inside(e) == "")
  {
    hide Front, PrintAll;
  }

  /** Two elements that stand at one place have the same tree and the same length, misread or not. */
  lemma {:induction false} SameElem(s: string, p: nat, e: Elem, e': Elem)
    requires Good(e) && Has(s, p, Print(e)) && Good(e') && Has(s, p, Print(e'))
    ensures Erase(e) == Erase(e') && |Print(e)| == |Print(e')|
    decreases e, 1
  {
    SameOpen(s, p, e, e');
    PrintLength(e);
    PrintLength(e');
    HasParts(s, p, Front(e), Inside(e));
    HasParts(s, p, Front(e'), Inside(e'));
    hide Has, Front, Inside, Erase, EraseAll, Good, Print;
    var q := p + |Front(e)|;
    if e.Leaf? && e'.Group? {
      LeafIsNoGroup(s, q, e, e');
    } else if e.Group? && e'.Leaf? {
      LeafIsNoGroup(s, q, e', e);
    } else {
      if e.Leaf? {
        SameLeaf(s, q, e, e');
      } else if e.Group? {
        SameGroup(s, q, e, e');
      }
      ErasedSame(e, e');
    }
  }

  lemma KidsSplit(s: string, p: nat, kids: seq<Elem>)
    requires kids != [] && AllGood(kids) && Has(s, p, PrintAll(kids)) && ClosesNext(s, p + |PrintAll(kids)|)
    ensures Good(kids[0]) && AllGood(kids[1..])
    ensures Has(s, p, Print(kids[0])) && Has(s, p + |Print(kids[0])|, PrintAll(kids[1..]))
    ensures ClosesNext(s, p + |Print(kids[0])| + |PrintAll(kids[1..])|) && !ClosesNext(s, p)
    ensures |PrintAll(kids)| == |Print(kids[0])| + |PrintAll(kids[1..])|
  {
    hide Has, Print, Visible, Good, TagOpen, NameOf, SelfClosing, Front, Inside, Erase, Clamp;
    NameStarts(kids[0]);
    HasParts(s, p, Print(kids[0]), PrintAll(kids[1..]));
    ElemOpens(s, p, kids[0]);
  }

  lemma {:induction false} SameKids(s: string, p: nat, kids: seq<Elem>, kids': seq<Elem>)
    requires AllGood(kids) && Has(s, p, PrintAll(kids)) && ClosesNext(s, p + |PrintAll(kids)|)
    requires AllGood(kids') && Has(s, p, PrintAll(kids')) && ClosesNext(s, p + |PrintAll(kids')|)
    ensures EraseAll(kids) == EraseAll(kids') && |PrintAll(kids)| == |PrintAll(kids')|
    decreases kids, 2
  {
    hide Has, Print, Erase, ClosesNext, AllGood, Good;
    if kids != [] {
      KidsSplit(s, p, kids);
    }
    if kids' != [] {
      KidsSplit(s, p, kids');
    }
    if kids != [] && kids' != [] {
      SameElem(s, p, kids[0], kids'[0]);
      SameKids(s, p + |Print(kids[0])|, kids[1..], kids'[1..]);
    }
  }

  // ---- Documents ----

  /** An optional `<?...?>` in front, the root element, and anything at all behind it. */
  datatype Document = Document(header: Header, root: Elem, rest: string)

  datatype Header = NoHeader | Meta(lead: string, meta: string)

  function HeaderText(h: Header): string {
    match h
    case NoHeader => ""
    case Meta(lead, meta) => lead + ("<?" + (meta + "?>"))
  }

  function PrintDocument(d: Document): string {
    HeaderText(d.header) + (Print(d.root) + d.rest)
  }

  /** The first `?>` of a header ends it; without a header the root's name must not look like one. */
  predicate GoodDocument(d: Document) {
    Good(d.root) &&
    match d.header
    case NoHeader => d.root.name[0] != '?'
    case Meta(lead, _) =>
      && AllSpace(lead)
      && var t := HeaderText(d.header);
         forall i :: 0 <= i < |t| - 2 ==> !(t[i] == '?' && t[i + 1] == '>')
  }

  lemma {:induction false} MetaEndIs(s: string, p: nat, q: nat)
    requires p <= q && q + 2 <= |s| && s[q] == '?' && s[q + 1] == '>'
    requires forall i :: p <= i < q ==> !(s[i] == '?' && s[i + 1] == '>')
    ensures MetaEnd(s, p) == q + 2
    decreases q - p
  {
    if p < q {
      MetaEndIs(s, p + 1, q);
    }
  }

  lemma HeaderSkipped(s: string, h: Header)
    requires h.Meta? && AllSpace(h.lead) && Has(s, 0, HeaderText(h))
    requires var t := HeaderText(h);
             forall i :: 0 <= i < |t| - 2 ==> !(t[i] == '?' && t[i + 1] == '>')
    ensures s != "" && SkipMeta(s) == |HeaderText(h)|
  {
    hide SkipSpace;
    var t, n := HeaderText(h), |HeaderText(h)| - 2;
    HasParts(s, 0, h.lead, "<?" + (h.meta + "?>"));
    HasParts(s, |h.lead|, "<?", h.meta + "?>");
    HasAt(s, |h.lead|, "<?", 0);
    HasAt(s, |h.lead|, "<?", 1);
    SkipsOver(s, 0, h.lead);
    forall i | 0 <= i < |t|
      ensures s[i] == t[i]
    {
      HasAt(s, 0, t, i);
    }
    MetaEndIs(s, 0, n);
  }

  lemma NoHeaderSkipped(s: string)
    requires s != "" && Visible(s, 0, 1) != '?'
    ensures SkipMeta(s) == 0
  {
  }

  /** The root stands where the parser begins. */
  lemma RootPlaced(d: Document)
    requires GoodDocument(d)
    ensures var s := PrintDocument(d);
            s != "" && SkipMeta(s) == |HeaderText(d.header)| && Has(s, SkipMeta(s), Print(d.root))
  {
    hide Good, SkipMeta, Visible, Print, SelfClosing, TagOpen, NameOf, Inside, Front, Has, Erase;
    var s := PrintDocument(d);
    var p := |HeaderText(d.header)|;
    HasWhole(s);
    HasParts(s, 0, HeaderText(d.header), Print(d.root) + d.rest);
    HasParts(s, p, Print(d.root), d.rest);
    ElemOpens(s, p, d.root);
    if d.header.Meta? {
      HeaderSkipped(s, d.header);
    } else {
      PrintNotEmpty(d.root);
      NoHeaderSkipped(s);
    }
  }

  lemma HasWhole(s: string)
    ensures Has(s, 0, s)
  {}

  lemma PrintNotEmpty(e: Elem)
    ensures Print(e) != ""
  {
    hide Inside;
    assert Front(e) != "";
  }

  /**
   * Parse undoes print, exactly when there is no whitespace before a `>` other than that of the last tag: the
   * parser reads one character behind the tag's text and takes it for the `>`.
   */
  lemma {:induction false} ParsePrint(d: Document)
    requires GoodDocument(d)
    ensures var s := PrintDocument(d);
            (ParseDocument(s).Some? && View(s, ParseDocument(s).value) == Erase(d.root)) <==> Snug(d.root)
  {
    RootPlaced(d);
    assert Good(d.root);
    var s := PrintDocument(d);
    hide GoodDocument, PrintDocument, HeaderText, Good, SkipMeta, ParseNode, View, Erase, Print, Snug, Has, ReadLength;
    if Snug(d.root) {
      NodeReads(s, SkipMeta(s), d.root);
    } else {
      NodeMisread(s, SkipMeta(s), d.root);
    }
  }

  /** Two layouts with the same text are layouts of the same tree, whether or not the parser reads it. */
  lemma {:induction false} TextDeterminesTree(d: Document, d': Document)
    requires GoodDocument(d) && GoodDocument(d') && PrintDocument(d) == PrintDocument(d')
    ensures Erase(d.root) == Erase(d'.root)
  {
    RootPlaced(d);
    RootPlaced(d');
    assert Good(d.root) && Good(d'.root);
    hide GoodDocument, PrintDocument, HeaderText, Good, SkipMeta, Erase, Print, Has;
    SameElem(PrintDocument(d), SkipMeta(PrintDocument(d)), d.root, d'.root);
  }
}
