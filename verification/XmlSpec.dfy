/**
 * What the XML parser computes, as functions of the whole input and a cursor. A C byte is a char here.
 */
module XmlSpec {
  import opened Options

  /** isspace in the C locale. */
  predicate IsSpace(c: char) {
    c == ' ' || '\t' <= c <= '\r'
  }

  /** Tab, line feed, vertical tab, form feed, carriage return and blank. */
  lemma SpacesAre(c: char)
    ensures IsSpace(c) <==> c as int in {9, 10, 11, 12, 13, 32}
  {}

  predicate AllSpace(w: string) {
    forall i :: 0 <= i < |w| ==> IsSpace(w[i])
  }

  /** The text w stands in s at p. */
  predicate Has(s: string, p: nat, w: string) {
    p + |w| <= |s| && s[p..p + |w|] == w
  }

  // ---- Looking ahead ----

  /** The first index from p on that is not whitespace, or |s|. */
  function SkipSpace(s: string, p: nat): (q: nat)
    requires p <= |s|
    ensures p <= q <= |s| && forall i :: p <= i < q ==> IsSpace(s[i])
    ensures q < |s| ==> !IsSpace(s[q])
    decreases |s| - p
  {
    if p < |s| && IsSpace(s[p]) then SkipSpace(s, p + 1) else p
  }

  /** The n-th visible character from p on, counted from 0; NUL when there is none. */
  function Visible(s: string, p: nat, n: nat): char
    requires p <= |s|
    decreases n
  {
    var q := SkipSpace(s, p);
    if q == |s| then '\0' else if n == 0 then s[q] else Visible(s, q + 1, n - 1)
  }

  /** The first index from p on that holds c, or |s|. */
  function Find(s: string, p: nat, c: char): (q: nat)
    requires p <= |s|
    ensures p <= q <= |s| && (q < |s| ==> s[q] == c)
    ensures forall i :: p <= i < q ==> s[i] != c
    decreases |s| - p
  {
    if p < |s| && s[p] != c then Find(s, p + 1, c) else p
  }

  /** The end of s[lo..hi] without its trailing whitespace. */
  function TrimEnd(s: string, lo: nat, hi: nat): (p: nat)
    requires lo <= hi <= |s|
    ensures lo <= p <= hi && forall i :: p <= i < hi ==> IsSpace(s[i])
    ensures p == lo || !IsSpace(s[p - 1])
  {
    if lo < hi && IsSpace(s[hi - 1]) then TrimEnd(s, lo, hi - 1) else hi
  }

  lemma FindIs(s: string, p: nat, q: nat, c: char)
    requires p <= q < |s| && s[q] == c && forall i :: p <= i < q ==> s[i] != c
    ensures Find(s, p, c) == q
  {
  }

  lemma TrimIs(s: string, lo: nat, p: nat, hi: nat)
    requires lo <= p <= hi <= |s| && (p == lo || !IsSpace(s[p - 1]))
    requires forall i :: p <= i < hi ==> IsSpace(s[i])
    ensures TrimEnd(s, lo, hi) == p
  {
  }

  /** Where consuming leaves the cursor: never past the last character. */
  function Clamp(s: string, p: nat): (q: nat)
    requires s != ""
    ensures q < |s| && q <= p && (p < |s| ==> q == p)
  {
    if p >= |s| then |s| - 1 else p
  }

  /** Where skipping whitespace leaves the cursor. */
  function SkipCursor(s: string, p: nat): (q: nat)
    requires p <= |s|
    ensures p <= q <= |s| && (p < |s| ==> q < |s|)
  {
    var q := SkipSpace(s, p);
    if q == |s| && p < |s| then |s| - 1 else q
  }

  // ---- Tags and text ----

  datatype Slice = Slice(start: nat, len: nat) {
    predicate InBounds(s: string) {
      start + len <= |s|
    }

    function Of(s: string): string
      requires InBounds(s)
    {
      s[start..start + len]
    }
  }

  /** A tag's inside up to its `>`, without whitespace before the `>`, of which one character is consumed. */
  function TagEnd(s: string, start: nat): (r: Option<(Slice, nat)>)
    requires start < |s|
    ensures r.Some? ==> r.value.0.start == start && r.value.0.InBounds(s) && start <= r.value.1 < |s|
  {
    var g := Find(s, start, '>');
    if g == |s| then None
    else
      var p := TrimEnd(s, start, g);
      Some((Slice(start, p - start), Clamp(s, p + 1)))
  }

  function TagOpen(s: string, p: nat): (r: Option<(Slice, nat)>)
    requires s != "" && p <= |s|
    ensures r.Some? ==> r.value.0.InBounds(s) && p < r.value.0.start <= r.value.1 < |s|
  {
    var q := SkipSpace(s, p);
    if Visible(s, p, 0) == '<' then
      if q == |s| - 1 then None else TagEnd(s, q + 1)
    else None
  }

  function TagClose(s: string, p: nat): (r: Option<(Slice, nat)>)
    requires s != "" && p <= |s|
    ensures r.Some? ==> r.value.0.InBounds(s) && p < r.value.0.start <= r.value.1 < |s|
  {
    if Visible(s, p, 0) == '<' && Visible(s, p, 1) == '/' then
      TagEnd(s, Clamp(s, SkipSpace(s, p) + 2))
    else None
  }

  /** Text up to the next `<`, trimmed on both sides; the cursor stays where the text ends. */
  function Content(s: string, p: nat): (r: Option<(Slice, nat)>)
    requires p < |s|
    ensures r.Some? ==> r.value.0.InBounds(s) && p <= r.value.0.start <= r.value.1 < |s|
  {
    var start := SkipCursor(s, p);
    var g := Find(s, start, '<');
    if g == |s| then None
    else
      var e := TrimEnd(s, start, g);
      Some((Slice(start, e - start), e))
  }

  /** How many leading characters of t are blanks. */
  function Blanks(t: string): (k: nat)
    ensures k <= |t|
  {
    if t == "" || t[0] != ' ' then 0 else 1 + Blanks(t[1..])
  }

  /** The length of the first word of t, which ends at a blank, a NUL or the end. */
  function WordLen(t: string): (k: nat)
    ensures k <= |t|
  {
    if t == "" || t[0] == ' ' || t[0] == '\0' then 0 else 1 + WordLen(t[1..])
  }

  /** The tag name's length once attributes are cut off: that of the first word, if there is one. */
  function NameLen(t: string): (k: nat)
    ensures k <= |t|
  {
    var b := Blanks(t);
    var k := WordLen(t[b..]);
    if k == 0 then |t| else k
  }

  // ---- Elements ----

  datatype Node = Node(name: Slice, content: Option<Slice>, children: seq<Node>)

  /** The closing tag at p has to spell the open name. */
  function Closing(s: string, p: nat, name: Slice): (r: Option<nat>)
    requires s != "" && p <= |s| && name.InBounds(s)
    ensures r.Some? ==> p < r.value < |s|
  {
    match TagClose(s, p)
    case None => None
    case Some((close, q)) => if close.Of(s) == name.Of(s) then Some(q) else None
  }

  /** Every string of the node lies inside the input. */
  predicate NodeInBounds(s: string, n: Node) {
    && n.name.InBounds(s)
    && (n.content.Some? ==> n.content.value.InBounds(s))
    && AllInBounds(s, n.children)
  }

  predicate AllInBounds(s: string, ns: seq<Node>) {
    ns == [] || (NodeInBounds(s, ns[0]) && AllInBounds(s, ns[1..]))
  }

  /** The tag name without the attributes. */
  function NameOf(s: string, tag: Slice): (name: Slice)
    requires tag.InBounds(s)
    ensures name.InBounds(s) && name.start == tag.start && name.len <= tag.len
  {
    Slice(tag.start, NameLen(tag.Of(s)))
  }

  predicate SelfClosing(s: string, tag: Slice)
    requires tag.InBounds(s)
  {
    NameOf(s, tag).len > 0 && s[tag.start + tag.len - 1] == '/'
  }

  function ParseNode(s: string, p: nat): (r: Option<(Node, nat)>)
    requires s != "" && p <= |s|
    ensures r.Some? ==> NodeInBounds(s, r.value.0) && p < r.value.1 < |s|
    decreases |s| - p, 1
  {
    match TagOpen(s, p)
    case None => None
    case Some((tag, p1)) =>
      var name := NameOf(s, tag);
      if SelfClosing(s, tag) then Some((Node(name, None, []), p1))
      else
        match ParseInside(s, p1)
        case None => None
        case Some((text, kids, p2)) =>
          match Closing(s, p2, name)
          case None => None
          case Some(p3) => Some((Node(name, text, kids), p3))
  }

  /** Between the tags: text unless the next visible character is `<`, and elements otherwise. */
  function ParseInside(s: string, p: nat): (r: Option<(Option<Slice>, seq<Node>, nat)>)
    requires p < |s|
    ensures r.Some? && r.value.0.Some? ==> r.value.0.value.InBounds(s)
    ensures r.Some? ==> p <= r.value.2 <= |s|
    ensures r.Some? ==> AllInBounds(s, r.value.1)
    decreases |s| - p, 3
  {
    if Visible(s, p, 0) != '<' then
      match Content(s, p)
      case None => None
      case Some((text, q)) => Some((Some(text), [], q))
    else
      match ParseChildren(s, p)
      case None => None
      case Some((kids, q)) => Some((None, kids, q))
  }

  /** Elements up to the next closing tag. */
  function ParseChildren(s: string, p: nat): (r: Option<(seq<Node>, nat)>)
    requires s != "" && p <= |s|
    ensures r.Some? ==> p <= r.value.1 <= |s|
    ensures r.Some? ==> AllInBounds(s, r.value.0)
    decreases |s| - p, 2
  {
    if Visible(s, p, 1) == '/' then Some(([], p))
    else
      match ParseNode(s, p)
      case None => None
      case Some((kid, q)) =>
        match ParseChildren(s, q)
        case None => None
        case Some((kids, r)) => Some(([kid] + kids, r))
  }

  /** Behind the first `?>`, if the input begins with `<?` and there is one; otherwise at the start. */
  function SkipMeta(s: string): (p: nat)
    requires s != ""
    ensures p <= |s|
  {
    if Visible(s, 0, 0) == '<' && Visible(s, 0, 1) == '?' then MetaEnd(s, 0) else 0
  }

  function MetaEnd(s: string, p: nat): (q: nat)
    requires p <= |s|
    ensures q <= |s|
    decreases |s| - p
  {
    if p + 1 >= |s| then 0
    else if s[p] == '?' && s[p + 1] == '>' then p + 2
    else MetaEnd(s, p + 1)
  }

  function ParseDocument(s: string): (r: Option<Node>)
    ensures r.Some? ==> NodeInBounds(s, r.value)
  {
    if s == "" then None
    else
      match ParseNode(s, SkipMeta(s))
      case None => None
      case Some((root, _)) => Some(root)
  }

  // ---- What a node says: its strings, read out of the input ----

  datatype Tree = Tree(name: string, content: Option<string>, children: seq<Tree>)

  function View(s: string, n: Node): Tree
    requires NodeInBounds(s, n)
  {
    Tree(n.name.Of(s),
         if n.content.Some? then Some(n.content.value.Of(s)) else None,
         ViewAll(s, n.children))
  }

  function ViewAll(s: string, ns: seq<Node>): (ts: seq<Tree>)
    requires AllInBounds(s, ns)
    ensures |ts| == |ns|
  {
    if ns == [] then [] else [View(s, ns[0])] + ViewAll(s, ns[1..])
  }
}
