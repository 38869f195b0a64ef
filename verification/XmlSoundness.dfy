/** A successful parse accounts for every character of the element: tags, text, children and nothing else. */
module XmlSoundness {
  import opened Options
  import opened XmlSpec

  ghost predicate Gap(s: string, a: nat, b: nat) {
    a <= b <= |s| && forall i :: a <= i < b ==> IsSpace(s[i])
  }

  /** The inside of a tag stands in s[a..e]: up to the first `>`, without whitespace before it. */
  ghost predicate TagInside(s: string, a: nat, e: nat) {
    && a <= e < |s|
    && (forall i :: a <= i < e ==> s[i] != '>')
    && (a < e ==> !IsSpace(s[e - 1]))
    && exists g: nat :: e <= g < |s| && s[g] == '>' && Gap(s, e, g)
  }

  /**
   * The element n is written in s[lo..hi]: an opening tag that starts with its name; then, unless the tag
   * ends in `/`, its inside and a closing tag that spells the same name.
   */
  ghost predicate WrittenIn(s: string, n: Node, lo: nat, hi: nat)
    decreases n, 2
  {
    exists e: nat :: OpensAt(s, n, lo, e) &&
      if e > lo + 1 && n.name.len > 0 && s[e - 1] == '/' then
        n.content == None && n.children == [] && hi == e + 1
      else
        exists c: nat :: InsideIn(s, n, e + 1, c) && ClosesAt(s, n, c, hi)
  }

  /** `<`, the name, and the rest of the tag up to e. */
  ghost predicate OpensAt(s: string, n: Node, lo: nat, e: nat) {
    && lo < e < |s| && TagInside(s, lo + 1, e) && s[lo] == '<'
    && n.name == NameOf(s, Slice(lo + 1, e - (lo + 1)))
  }

  /** A closing tag from c to hi: `<`, the next visible character is `/`, and the name again. */
  ghost predicate ClosesAt(s: string, n: Node, c: nat, hi: nat) {
    && n.name.InBounds(s) && hi == c + 3 + n.name.len <= |s|
    && TagInside(s, c + 2, c + 2 + n.name.len)
    && s[c] == '<' && Visible(s, c, 1) == '/'
    && Has(s, c + 2, n.name.Of(s))
  }

  /** Between the tags: trimmed text, or children with nothing but whitespace between them. */
  ghost predicate InsideIn(s: string, n: Node, b: nat, c: nat)
    decreases n, 1
  {
    match n.content
    case Some(text) =>
      && n.children == [] && text.len > 0
      && var e := text.start + text.len;
         && Gap(s, b, text.start) && Gap(s, e, c)
         && text.start < e && !IsSpace(s[text.start]) && !IsSpace(s[e - 1])
         && forall i :: b <= i < c ==> s[i] != '<'
    case None => ChildrenIn(s, n.children, b, c)
  }

  /** The next visible character after a child's `<` is not `/`. */
  ghost predicate ChildrenIn(s: string, ns: seq<Node>, b: nat, c: nat)
    decreases ns, 3
  {
    if ns == [] then Gap(s, b, c)
    else exists lo: nat, hi: nat ::
      && Gap(s, b, lo) && lo <= |s| && Visible(s, lo, 1) != '/'
      && WrittenIn(s, ns[0], lo, hi) && ChildrenIn(s, ns[1..], hi, c)
  }

  // ---- The pieces of the parser ----

  lemma TagEndInside(s: string, a: nat)
    requires a < |s| && TagEnd(s, a).Some?
    ensures var (tag, q) := TagEnd(s, a).value; var e := a + tag.len;
            TagInside(s, a, e) && tag.start == a && CursorAt(s, q, e + 1)
  {
    var g := Find(s, a, '>');
    var e := TrimEnd(s, a, g);
    assert Gap(s, e, g);
  }

  /** The cursor is behind what has been read, unless the end of the input holds it back on a `>`. */
  ghost predicate CursorAt(s: string, q: nat, hi: nat) {
    q == hi || (q + 1 == hi == |s| && s[q] == '>')
  }

  lemma SkipSame(s: string, p: nat, q: nat)
    requires Gap(s, p, q)
    ensures SkipSpace(s, p) == SkipSpace(s, q)
    decreases q - p
  {
    if p < q {
      SkipSame(s, p + 1, q);
    }
  }

  lemma VisibleSame(s: string, p: nat, q: nat, n: nat)
    requires Gap(s, p, q)
    ensures Visible(s, p, n) == Visible(s, q, n)
  {
    hide SkipSpace;
    SkipSame(s, p, q);
  }

  lemma StuckOnEnd(s: string)
    requires s != "" && s[|s| - 1] == '>'
    ensures ParseInside(s, |s| - 1) == None && TagClose(s, |s| - 1) == None && ParseNode(s, |s| - 1) == None
    ensures ParseChildren(s, |s| - 1) == None
  {
    assert SkipSpace(s, |s| - 1) == |s| - 1;
  }

  lemma ContentStart(s: string, p: nat)
    requires p < |s| && Visible(s, p, 0) != '<' && Content(s, p).Some?
    ensures var start := SkipCursor(s, p);
            start == SkipSpace(s, p) && start < Find(s, start, '<') < |s| && !IsSpace(s[start])
  {
  }

  /** The text is what stands between the tags, trimmed. */
  lemma ContentTrimmed(s: string, p: nat)
    requires p < |s| && Visible(s, p, 0) != '<' && Content(s, p).Some?
    ensures var (text, e) := Content(s, p).value; var c := SkipSpace(s, e);
            && text.len > 0 && text.start == SkipSpace(s, p) && e == text.start + text.len
            && !IsSpace(s[text.start]) && !IsSpace(s[e - 1])
            && forall i :: text.start <= i < c ==> s[i] != '<'
  {
    hide TrimEnd, Find, SkipSpace, Visible;
    ContentStart(s, p);
    var start := SkipCursor(s, p);
    var g := Find(s, start, '<');
    var e := TrimEnd(s, start, g);
    assert e > start;
    var c := SkipSpace(s, e);
    assert c == g;
  }

  lemma TextInside(s: string, p: nat, n: Node)
    requires p < |s| && Visible(s, p, 0) != '<' && Content(s, p).Some?
    requires n.content == Some(Content(s, p).value.0) && n.children == []
    ensures InsideIn(s, n, p, SkipSpace(s, Content(s, p).value.1))
  {
    hide Content, SkipSpace, Visible;
    ContentTrimmed(s, p);
    var (text, e) := Content(s, p).value;
    var c := SkipSpace(s, e);
    assert Gap(s, p, text.start) && Gap(s, e, c);
    assert !IsSpace('<');
  }

  lemma TagCloseInside(s: string, p: nat)
    requires s != "" && p <= |s| && TagClose(s, p).Some?
    ensures var c := SkipSpace(s, p); var (tag, q) := TagClose(s, p).value;
            && c + 2 < |s| && s[c] == '<' && Visible(s, c, 1) == '/'
            && tag.start == c + 2 && TagInside(s, c + 2, c + 2 + tag.len)
            && CursorAt(s, q, c + 3 + tag.len)
  {
    hide TagEnd, TagInside;
    var c := SkipSpace(s, p);
    assert SkipSpace(s, c) == c;
    if c + 2 >= |s| {
      NoTagEnd(s, c + 1);
    }
    TagEndInside(s, Clamp(s, c + 2));
  }

  lemma NoTagEnd(s: string, a: nat)
    requires a + 1 == |s| && s[a] != '>'
    ensures TagEnd(s, a) == None
  {
  }

  /** A closing tag starts at the next `<`. */
  lemma ClosingInside(s: string, p: nat, n: Node)
    requires s != "" && p <= |s| && n.name.InBounds(s) && Closing(s, p, n.name).Some?
    ensures var c := SkipSpace(s, p); var hi := c + 3 + n.name.len;
            ClosesAt(s, n, c, hi) && CursorAt(s, Closing(s, p, n.name).value, hi)
  {
    hide TagInside, TagClose, Visible, SkipSpace;
    TagCloseInside(s, p);
    var (close, _) := TagClose(s, p).value;
    assert |close.Of(s)| == |n.name.Of(s)|;
  }

  lemma TagOpenInside(s: string, p: nat)
    requires s != "" && p <= |s| && TagOpen(s, p).Some?
    ensures var lo := SkipSpace(s, p); var (tag, q) := TagOpen(s, p).value; var e := lo + 1 + tag.len;
            && Gap(s, p, lo) && lo + 1 < |s| && s[lo] == '<' && tag.start == lo + 1
            && TagInside(s, lo + 1, e) && CursorAt(s, q, e + 1)
            && SelfClosing(s, tag) == (e > lo + 1 && NameOf(s, tag).len > 0 && s[e - 1] == '/')
  {
    hide TagEnd, TagInside, NameOf;
    var lo := SkipSpace(s, p);
    TagEndInside(s, lo + 1);
  }

  lemma InsideWritten(s: string, p: nat, n: Node)
    requires p < |s| && ParseInside(s, p).Some?
    requires n.content == ParseInside(s, p).value.0 && n.children == ParseInside(s, p).value.1
    ensures InsideIn(s, n, p, SkipSpace(s, ParseInside(s, p).value.2))
    decreases |s| - p, 3
  {
    hide SkipSpace, Visible, Content, Gap, ChildrenIn, ParseChildren;
    if n.content.Some? {
      TextInside(s, p, n);
    } else {
      ChildrenWritten(s, p);
    }
  }

  /** The whole element: where it starts, where it ends, and where the cursor is then. */
  lemma {:induction false} NodeWritten(s: string, p: nat) returns (lo: nat, hi: nat)
    requires s != "" && p <= |s| && ParseNode(s, p).Some?
    ensures Gap(s, p, lo) && WrittenIn(s, ParseNode(s, p).value.0, lo, hi)
    ensures CursorAt(s, ParseNode(s, p).value.1, hi)
    decreases |s| - p, 1
  {
    hide TagOpen, TagInside, SkipSpace, Visible, NameOf, SelfClosing, ClosesAt, InsideIn, Closing, ParseInside, Gap;
    lo := SkipSpace(s, p);
    TagOpenInside(s, p);
    var (tag, p1) := TagOpen(s, p).value;
    var (n, q) := ParseNode(s, p).value;
    var e := tag.start + tag.len;
    assert OpensAt(s, n, lo, e);
    if SelfClosing(s, tag) {
      hi := e + 1;
    } else {
      if p1 != e + 1 {
        StuckOnEnd(s);
      }
      var p2 := ParseInside(s, p1).value.2;
      var c := SkipSpace(s, p2);
      InsideWritten(s, p1, n);
      ClosingInside(s, p2, n);
      hi := c + 3 + n.name.len;
      assert InsideIn(s, n, e + 1, c) && ClosesAt(s, n, c, hi);
    }
  }

  lemma {:induction false} ChildrenWritten(s: string, p: nat)
    requires s != "" && p <= |s| && ParseChildren(s, p).Some?
    ensures var (kids, q) := ParseChildren(s, p).value;
            ChildrenIn(s, kids, p, SkipSpace(s, q))
    decreases |s| - p, 2
  {
    hide WrittenIn, Visible, ParseNode, SkipSpace;
    var (kids, q) := ParseChildren(s, p).value;
    if kids == [] {
      assert Gap(s, p, SkipSpace(s, q));
    } else {
      var lo, hi := NodeWritten(s, p);
      var p1 := ParseNode(s, p).value.1;
      if p1 != hi {
        StuckOnEnd(s);
      }
      ChildrenWritten(s, p1);
      VisibleSame(s, p, lo, 1);
      assert Gap(s, p, lo) && Visible(s, lo, 1) != '/';
      assert WrittenIn(s, kids[0], lo, hi) && ChildrenIn(s, kids[1..], hi, SkipSpace(s, q));
    }
  }

  // ---- And back: what is written is what the parser finds ----

  lemma TagInsideEnds(s: string, a: nat, e: nat)
    requires TagInside(s, a, e)
    ensures TagEnd(s, a) == Some((Slice(a, e - a), Clamp(s, e + 1)))
  {
    var g: nat :| e <= g < |s| && s[g] == '>' && Gap(s, e, g);
    FindIs(s, a, g, '>');
    TrimIs(s, a, e, g);
  }

  lemma ClosingParsed(s: string, p: nat, n: Node, c: nat, hi: nat)
    requires p <= |s| && SkipSpace(s, p) == c && ClosesAt(s, n, c, hi)
    ensures s != "" && Closing(s, p, n.name) == Some(Clamp(s, hi))
  {
    hide TagInside, SkipSpace, TagEnd;
    TagInsideEnds(s, c + 2, c + 2 + n.name.len);
    assert SkipSpace(s, c) == c by {
      SkipSame(s, p, c);
    }
    VisibleSame(s, p, c, 1);
  }

  lemma TextParsed(s: string, b: nat, n: Node, c: nat)
    requires n.content.Some? && InsideIn(s, n, b, c) && c < |s| && s[c] == '<'
    ensures Visible(s, b, 0) != '<' && Content(s, b).Some?
    ensures Content(s, b).value.0 == n.content.value && SkipSpace(s, Content(s, b).value.1) == c
  {
    var text := n.content.value;
    var e := text.start + text.len;
    SkipSame(s, b, text.start);
    SkipSame(s, e, c);
    assert SkipSpace(s, c) == c;
    FindIs(s, text.start, c, '<');
    TrimIs(s, text.start, e, c);
  }

  lemma OpenParsed(s: string, p: nat, n: Node, lo: nat, e: nat)
    requires Gap(s, p, lo) && OpensAt(s, n, lo, e)
    ensures TagOpen(s, p) == Some((Slice(lo + 1, e - (lo + 1)), Clamp(s, e + 1)))
    ensures SelfClosing(s, Slice(lo + 1, e - (lo + 1))) == (e > lo + 1 && n.name.len > 0 && s[e - 1] == '/')
  {
    hide TagEnd, TagInside, NameOf;
    TagInsideEnds(s, lo + 1, e);
    SkipSame(s, p, lo);
    assert SkipSpace(s, lo) == lo;
  }

  lemma {:induction false} NodeParsed(s: string, p: nat, n: Node, lo: nat, hi: nat)
    requires Gap(s, p, lo) && WrittenIn(s, n, lo, hi)
    ensures s != "" && ParseNode(s, p) == Some((n, Clamp(s, hi))) && lo < hi <= |s|
    decreases n, 2
  {
    hide TagInside, SkipSpace, NameOf, InsideIn, Closing, ParseInside, SelfClosing, TagOpen, Visible, Gap, Has;
    var e: nat :| OpensAt(s, n, lo, e) &&
      if e > lo + 1 && n.name.len > 0 && s[e - 1] == '/' then
        n.content == None && n.children == [] && hi == e + 1
      else
        exists c: nat :: InsideIn(s, n, e + 1, c) && ClosesAt(s, n, c, hi);
    OpenParsed(s, p, n, lo, e);
    if !(e > lo + 1 && n.name.len > 0 && s[e - 1] == '/') {
      var c: nat :| InsideIn(s, n, e + 1, c) && ClosesAt(s, n, c, hi);
      InsideParsed(s, e + 1, n, c);
      ClosingParsed(s, ParseInside(s, e + 1).value.2, n, c, hi);
    }
  }

  lemma InsideParsed(s: string, b: nat, n: Node, c: nat)
    requires InsideIn(s, n, b, c) && c < |s| && s[c] == '<' && Visible(s, c, 1) == '/'
    ensures b <= c && ParseInside(s, b).Some?
    ensures var (text, kids, q) := ParseInside(s, b).value;
            text == n.content && kids == n.children && SkipSpace(s, q) == c
    decreases n, 1
  {
    hide SkipSpace, Content, Visible;
    if n.content.Some? {
      TextParsed(s, b, n, c);
    } else {
      ChildrenParsed(s, b, n.children, c);
    }
  }

  lemma {:induction false} ChildrenParsed(s: string, b: nat, ns: seq<Node>, c: nat)
    requires ChildrenIn(s, ns, b, c) && c < |s| && s[c] == '<' && Visible(s, c, 1) == '/'
    ensures b <= c && Visible(s, b, 0) == '<' && ParseChildren(s, b).Some?
    ensures var (kids, q) := ParseChildren(s, b).value; kids == ns && SkipSpace(s, q) == c
    decreases ns, 3
  {
    hide SkipSpace, ParseNode, WrittenIn, Visible, Gap;
    if ns == [] {
      GapBound(s, b, c);
      VisibleSame(s, b, c, 0);
      VisibleSame(s, b, c, 1);
      VisibleHere(s, b, c);
    } else {
      var lo: nat, hi: nat :|
        && Gap(s, b, lo) && lo <= |s| && Visible(s, lo, 1) != '/'
        && WrittenIn(s, ns[0], lo, hi) && ChildrenIn(s, ns[1..], hi, c);
      GapBound(s, b, lo);
      NodeParsed(s, b, ns[0], lo, hi);
      ChildStarts(s, ns[0], lo, hi);
      VisibleSame(s, b, lo, 0);
      VisibleSame(s, b, lo, 1);
      VisibleHere(s, b, lo);
      ChildrenParsed(s, hi, ns[1..], c);
    }
  }

  lemma GapBound(s: string, a: nat, b: nat)
    requires Gap(s, a, b)
    ensures a <= b <= |s|
  {
  }

  lemma ChildStarts(s: string, n: Node, lo: nat, hi: nat)
    requires WrittenIn(s, n, lo, hi)
    ensures lo < |s| && s[lo] == '<'
  {
    hide InsideIn, ClosesAt;
    var e: nat :| OpensAt(s, n, lo, e);
  }

  lemma VisibleHere(s: string, a: nat, p: nat)
    requires Gap(s, a, p) && p < |s| && s[p] == '<'
    ensures SkipSpace(s, a) == p && Visible(s, p, 0) == '<'
  {
    SkipSame(s, a, p);
  }

  /** The parser finds exactly the elements that are written in the input. */
  lemma ParseIffWritten(s: string, p: nat, n: Node)
    requires s != "" && p <= |s|
    ensures (ParseNode(s, p).Some? && ParseNode(s, p).value.0 == n) <==>
            exists lo: nat, hi: nat :: Gap(s, p, lo) && WrittenIn(s, n, lo, hi)
  {
    hide ParseNode, WrittenIn;
    if ParseNode(s, p).Some? {
      var lo, hi := NodeWritten(s, p);
    }
    if lo: nat, hi: nat :| Gap(s, p, lo) && WrittenIn(s, n, lo, hi) {
      NodeParsed(s, p, n, lo, hi);
    }
  }

  // ---- Nesting ----

  /** Every string of the element, at any depth, lies in s[lo..hi]. */
  ghost predicate StringsIn(n: Node, lo: nat, hi: nat) {
    && lo <= n.name.start && n.name.start + n.name.len <= hi
    && (n.content.Some? ==> lo <= n.content.value.start && n.content.value.start + n.content.value.len <= hi)
    && AllStringsIn(n.children, lo, hi)
  }

  ghost predicate AllStringsIn(ns: seq<Node>, lo: nat, hi: nat) {
    ns == [] || (StringsIn(ns[0], lo, hi) && AllStringsIn(ns[1..], lo, hi))
  }

  /** A written element keeps its strings, and those of its children, strictly inside its own span. */
  lemma {:induction false} StringsInside(s: string, n: Node, lo: nat, hi: nat, a: nat, b: nat)
    requires WrittenIn(s, n, lo, hi) && a <= lo + 1 && hi <= b + 1
    ensures lo < hi <= |s| && StringsIn(n, a, b)
    decreases n, 0
  {
    hide TagInside, Visible, NameOf, Has, ChildrenIn;
    var e: nat :| OpensAt(s, n, lo, e) &&
      if e > lo + 1 && n.name.len > 0 && s[e - 1] == '/' then
        n.content == None && n.children == [] && hi == e + 1
      else
        exists c: nat :: InsideIn(s, n, e + 1, c) && ClosesAt(s, n, c, hi);
    NameOfBound(s, Slice(lo + 1, e - (lo + 1)));
    if !(e > lo + 1 && n.name.len > 0 && s[e - 1] == '/') {
      var c: nat :| InsideIn(s, n, e + 1, c) && ClosesAt(s, n, c, hi);
      if n.content == None {
        ChildrenInside(s, n.children, e + 1, c, a, b);
      }
    }
  }

  lemma NameOfBound(s: string, tag: Slice)
    requires tag.InBounds(s)
    ensures NameOf(s, tag).start == tag.start && NameOf(s, tag).len <= tag.len
  {
  }

  lemma {:induction false} ChildrenInside(s: string, ns: seq<Node>, lo: nat, hi: nat, a: nat, b: nat)
    requires ChildrenIn(s, ns, lo, hi) && a <= lo && hi <= b
    ensures lo <= hi && AllStringsIn(ns, a, b)
    decreases ns, 1
  {
    hide WrittenIn, Visible, ParseNode;
    if ns != [] {
      var l: nat, h: nat :|
        && Gap(s, lo, l) && l <= |s| && Visible(s, l, 1) != '/'
        && WrittenIn(s, ns[0], l, h) && ChildrenIn(s, ns[1..], h, hi);
      NodeParsed(s, l, ns[0], l, h);
      ChildrenInside(s, ns[1..], h, hi, a, b);
      StringsInside(s, ns[0], l, h, a, b);
    }
  }

  /** A parsed document: its root is written behind the header, with all its strings inside. */
  lemma DocumentWritten(s: string) returns (lo: nat, hi: nat)
    requires ParseDocument(s).Some?
    ensures s != "" && Gap(s, SkipMeta(s), lo) && WrittenIn(s, ParseDocument(s).value, lo, hi)
    ensures hi <= |s| && StringsIn(ParseDocument(s).value, lo + 1, hi - 1)
  {
    hide WrittenIn, ParseNode;
    lo, hi := NodeWritten(s, SkipMeta(s));
    NodeParsed(s, lo, ParseDocument(s).value, lo, hi);
    StringsInside(s, ParseDocument(s).value, lo, hi, lo + 1, hi - 1);
  }
}
