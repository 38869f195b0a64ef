/** The parser: a buffer that ends in a NUL, a cursor, and recursion over it. */
module XmlParser {
  import opened Options
  import opened XmlSpec

  class Parser {
    const buffer: array<char>
    const length: nat
    var position: nat

    /** The first `length` characters are the input; nothing behind the NUL that follows them may be read. */
    ghost predicate Valid()
      reads this, buffer
    {
      && 0 < length && length < buffer.Length && buffer[length] == '\0'
      && position <= length
    }

    ghost function Input(): string
      requires length <= buffer.Length
      reads buffer
    {
      buffer[..length]
    }

    constructor (buffer: array<char>, length: nat)
      requires 0 < length && length < buffer.Length && buffer[length] == '\0'
      ensures this.buffer == buffer && this.length == length && position == 0
      ensures Valid()
    {
      this.buffer, this.length, position := buffer, length, 0;
    }

    /** xml_parser_peek. */
    method Peek(n: nat) returns (c: char)
      requires Valid()
      ensures c == Visible(Input(), position, n)
    {
      var p := position;
      var k: nat := n;
      while p < length
        invariant position <= p <= length && k <= n
        invariant Visible(Input(), p, k) == Visible(Input(), position, n)
      {
        if !IsSpace(buffer[p]) {
          if k == 0 {
            return buffer[p];
          } else {
            k := k - 1;
          }
        }
        p := p + 1;
      }
      return '\0';
    }

    /** xml_parser_consume. */
    method Consume(n: nat)
      requires Valid()
      modifies this`position
      ensures Valid() && position == Clamp(Input(), old(position) + n)
    {
      position := position + n;
      if position >= length {
        position := length - 1;
      }
    }

    /** xml_skip_whitespace. */
    method SkipWhitespace()
      requires Valid()
      modifies this`position
      ensures Valid() && position == SkipCursor(Input(), old(position))
    {
      while IsSpace(buffer[position])
        invariant Valid() && old(position) <= position
        invariant SkipCursor(Input(), position) == SkipCursor(Input(), old(position))
        decreases length - position
      {
        if position + 1 >= length {
          return;
        } else {
          position := position + 1;
        }
      }
    }

    /** xml_parse_tag_end. */
    method ParseTagEnd() returns (name: Option<Slice>)
      requires Valid() && position < length
      modifies this`position
      ensures Valid() && old(position) <= position < length
      ensures match TagEnd(Input(), old(position))
              case None => name == None
              case Some((tag, q)) => name == Some(tag) && position == q
    {
      hide Find, TrimEnd, Visible;
      var start, len := position, 0;
      ghost var s := Input();
      ghost var g := Find(s, start, '>');
      ghost var e := if g < length then TrimEnd(s, start, g) else length;
      while start + len < length
        invariant Valid() && len <= e - start
        invariant position == Clamp(s, start + len)
        decreases length - len
      {
        SeesStop(s, start, position, '>');
        var current := Peek(0);
        if current == '>' || IsSpace(current) {
          break;
        } else {
          Consume(1);
          len := len + 1;
        }
      }
      SeesStop(s, start, position, '>');
      var next := Peek(0);
      if next != '>' {
        return None;
      }
      Consume(1);
      return Some(Slice(start, len));
    }

    /** xml_parse_tag_open. */
    method ParseTagOpen() returns (name: Option<Slice>)
      requires Valid()
      modifies this`position
      ensures Valid() && old(position) <= position
      ensures match TagOpen(Input(), old(position))
              case None => name == None
              case Some((tag, q)) => name == Some(tag) && position == q
    {
      hide TagEnd;
      SkipWhitespace();
      var c := Peek(0);
      LookAheadSame(Input(), old(position), position);
      if c != '<' {
        return None;
      }
      Consume(1);
      NoTagEndAtLast(Input());
      name := ParseTagEnd();
    }

    /** xml_parse_tag_close. */
    method ParseTagClose() returns (name: Option<Slice>)
      requires Valid()
      modifies this`position
      ensures Valid() && old(position) <= position
      ensures match TagClose(Input(), old(position))
              case None => name == None
              case Some((tag, q)) => name == Some(tag) && position == q
    {
      hide TagEnd;
      SkipWhitespace();
      var c := Peek(0);
      var d := Peek(1);
      LookAheadSame(Input(), old(position), position);
      if c != '<' || d != '/' {
        return None;
      }
      Consume(2);
      name := ParseTagEnd();
    }

    /** The scanning loop of xml_parse_content: because peeking skips whitespace, it stops where the text ends. */
    method ScanText() returns (len: nat)
      requires Valid() && position < length
      modifies this`position
      ensures Valid() && old(position) <= position < length
      ensures var g := Find(Input(), old(position), '<');
              if g < length then position == TrimEnd(Input(), old(position), g) == old(position) + len
              else Visible(Input(), position, 0) != '<'
    {
      hide Find, TrimEnd, Visible;
      var start := position;
      len := 0;
      ghost var s := Input();
      ghost var g := Find(s, start, '<');
      ghost var e := if g < length then TrimEnd(s, start, g) else length;
      while start + len < length
        invariant Valid() && len <= e - start
        invariant position == Clamp(s, start + len)
        decreases length - len
      {
        SeesStop(s, start, position, '<');
        var current := Peek(0);
        if current == '<' {
          break;
        } else {
          Consume(1);
          len := len + 1;
        }
      }
      SeesStop(s, start, position, '<');
    }

    /** The trimming loop of xml_parse_content. */
    method TrimText(start: nat, len: nat) returns (n: nat)
      requires Valid() && start + len <= length
      ensures n <= len && start + n == TrimEnd(Input(), start, start + len)
    {
      n := len;
      while n > 0 && IsSpace(buffer[start + n - 1])
        invariant n <= len && TrimEnd(Input(), start, start + n) == TrimEnd(Input(), start, start + len)
      {
        n := n - 1;
      }
    }

    /** xml_parse_content. */
    method ParseContent() returns (content: Option<Slice>)
      requires Valid() && position < length
      modifies this`position
      ensures Valid() && old(position) <= position
      ensures match Content(Input(), old(position))
              case None => content == None
              case Some((text, q)) => content == Some(text) && position == q
    {
      hide TrimEnd, Find, Visible, SkipCursor;
      SkipWhitespace();
      var start := position;
      ghost var s, g := Input(), Find(Input(), position, '<');
      var len := ScanText();
      VisibleAtEnd(s, start, g, position);
      var next := Peek(0);
      if next != '<' {
        return None;
      }
      len := TrimText(start, len);
      return Some(Slice(start, len));
    }

    /** What xml_find_attributes does to the tag: the first word of its clone gives the name's length. */
    method CutName(tag: Slice) returns (name: Slice)
      requires Valid() && tag.InBounds(Input())
      ensures name == NameOf(Input(), tag)
    {
      var clone := buffer[tag.start..tag.start + tag.len];
      assert clone == tag.Of(Input());
      var blanks := SpanBlanks(clone);
      var k := SpanWord(clone[blanks..]);
      return Slice(tag.start, if k == 0 then tag.len else k);
    }

    /** xml_string_equals. */
    method StringEquals(a: Slice, b: Slice) returns (r: bool)
      requires Valid() && a.InBounds(Input()) && b.InBounds(Input())
      ensures r == (a.Of(Input()) == b.Of(Input()))
    {
      if a.len != b.len {
        return false;
      }
      ghost var left, right := buffer[a.start..a.start + a.len], buffer[b.start..b.start + b.len];
      assert left == a.Of(Input()) && right == b.Of(Input());
      var i := 0;
      while i < a.len
        invariant i <= a.len
        invariant forall j :: 0 <= j < i ==> left[j] == right[j]
      {
        if buffer[a.start + i] != buffer[b.start + i] {
          assert left[i] != right[i];
          return false;
        }
        i := i + 1;
      }
      return true;
    }

    /** The closing tag, which has to match the opening one. */
    method ParseClosing(open: Slice) returns (ok: bool)
      requires Valid() && open.InBounds(Input())
      modifies this`position
      ensures Valid() && old(position) <= position
      ensures match Closing(Input(), old(position), open)
              case None => !ok
              case Some(q) => ok && position == q
    {
      hide TagClose;
      var close := ParseTagClose();
      if close == None {
        return false;
      }
      ok := StringEquals(open, close.value);
    }

    /** xml_parse_node. */
    method ParseNode() returns (node: Option<Node>)
      requires Valid()
      modifies this`position
      ensures Valid() && old(position) <= position
      ensures match XmlSpec.ParseNode(Input(), old(position))
              case None => node == None
              case Some((n, q)) => node == Some(n) && position == q
      decreases length - position, 1
    {
      hide TagOpen, NameOf, Closing, ParseInside;
      var tag := ParseTagOpen();
      if tag == None {
        return None;
      }
      var name := CutName(tag.value);
      if name.len > 0 && buffer[tag.value.start + tag.value.len - 1] == '/' {
        return Some(Node(name, None, []));
      }
      var inside := ParseBetween();
      if inside == None {
        return None;
      }
      var ok := ParseClosing(name);
      if !ok {
        return None;
      }
      return Some(Node(name, inside.value.0, inside.value.1));
    }

    /** The part of xml_parse_node between the tags: text, or the loop that grows the child array. */
    method ParseBetween() returns (r: Option<(Option<Slice>, seq<Node>)>)
      requires Valid() && position < length
      modifies this`position
      ensures Valid() && old(position) <= position
      ensures match ParseInside(Input(), old(position))
              case None => r == None
              case Some((text, kids, q)) => r == Some((text, kids)) && position == q
      decreases length - position, 3
    {
      hide Content, Visible, XmlSpec.ParseNode, ParseChildren, Behind;
      var start := position;
      var c := Peek(0);
      if c != '<' {
        var content := ParseContent();
        if content == None {
          return None;
        }
        return Some((content, []));
      }
      var children := [];
      BehindNothing(ParseChildren(Input(), start));
      var d := Peek(1);
      while d != '/'
        invariant Valid() && start <= position
        invariant d == Visible(Input(), position, 1)
        invariant ParseChildren(Input(), start) == Behind(children, ParseChildren(Input(), position))
        decreases length - position
      {
        BehindNext(Input(), position, children);
        var child := ParseNode();
        if child == None {
          return None;
        }
        children := children + [child.value];
        d := Peek(1);
      }
      assert Behind(children, ParseChildren(Input(), position)) == Some((children, position)) by {
        ChildrenEnd(Input(), position, children);
      }
      return Some((None, children));
    }

    /** xml_parse_skip_meta. */
    method SkipMetaHeader()
      requires Valid() && position == 0
      modifies this`position
      ensures Valid() && position == SkipMeta(Input())
    {
      var c := Peek(0);
      var d := Peek(1);
      if c == '<' && d == '?' {
        var p := position;
        while p < length
          invariant p <= length && position == 0 && MetaEnd(Input(), p) == MetaEnd(Input(), 0)
        {
          if buffer[p] == '?' && buffer[p + 1] == '>' {
            position := p + 2;
            return;
          }
          p := p + 1;
        }
      }
    }
  }

  /** strspn(t, " "). */
  method SpanBlanks(t: string) returns (k: nat)
    ensures k == Blanks(t)
  {
    k := 0;
    while k < |t| && t[k] == ' '
      invariant k <= |t| && Blanks(t) == k + Blanks(t[k..])
    {
      k := k + 1;
    }
  }

  /** strcspn(t, " "), where t may hold a NUL. */
  method SpanWord(t: string) returns (k: nat)
    ensures k == WordLen(t)
  {
    k := 0;
    while k < |t| && t[k] != ' ' && t[k] != '\0'
      invariant k <= |t| && WordLen(t) == k + WordLen(t[k..])
    {
      k := k + 1;
    }
  }

  /** Children already collected, in front of those still to come. */
  ghost function Behind(done: seq<Node>, rest: Option<(seq<Node>, nat)>): Option<(seq<Node>, nat)> {
    match rest
    case None => None
    case Some((kids, q)) => Some((done + kids, q))
  }

  lemma BehindNext(s: string, p: nat, done: seq<Node>)
    requires s != "" && p <= |s| && Visible(s, p, 1) != '/'
    ensures match XmlSpec.ParseNode(s, p)
            case None => Behind(done, ParseChildren(s, p)) == None
            case Some((kid, q)) =>
              Behind(done, ParseChildren(s, p)) == Behind(done + [kid], ParseChildren(s, q))
  {
    hide Visible, XmlSpec.ParseNode;
    if XmlSpec.ParseNode(s, p).Some? {
      var (kid, q) := XmlSpec.ParseNode(s, p).value;
      if ParseChildren(s, q).Some? {
        var kids := ParseChildren(s, q).value.0;
        assert done + ([kid] + kids) == done + [kid] + kids;
      }
    }
  }

  lemma ChildrenEnd(s: string, p: nat, done: seq<Node>)
    requires s != "" && p <= |s| && Visible(s, p, 1) == '/'
    ensures Behind(done, ParseChildren(s, p)) == Some((done, p))
  {
    assert done + [] == done;
  }

  lemma BehindNothing(rest: Option<(seq<Node>, nat)>)
    ensures Behind([], rest) == rest
  {
    if rest.Some? {
      assert [] + rest.value.0 == rest.value.0;
    }
  }

  /** xml_parse_document, on a buffer that ends in a NUL. */
  method ParseBuffer(buffer: array<char>, length: nat) returns (root: Option<Node>)
    requires length > 0 ==> length < buffer.Length && buffer[length] == '\0'
    requires length <= buffer.Length
    ensures root == ParseDocument(buffer[..length])
  {
    hide XmlSpec.ParseNode, SkipMeta;
    if length == 0 {
      return None;
    }
    var parser := new Parser(buffer, length);
    parser.SkipMetaHeader();
    root := parser.ParseNode();
  }

  /** While scanning for c, it is seen exactly from where the text in front of it ends. */
  lemma SeesStop(s: string, start: nat, p: nat, c: char)
    requires start <= p <= |s| && !IsSpace(c) && c != '\0'
    ensures !IsSpace(Visible(s, p, 0))
    ensures var g := Find(s, start, c);
            && (g == |s| ==> Visible(s, p, 0) != c)
            && (g < |s| && p < TrimEnd(s, start, g) ==> Visible(s, p, 0) != c)
            && (g < |s| && p == TrimEnd(s, start, g) ==> Visible(s, p, 0) == c)
  {
    var g := Find(s, start, c);
    var q := SkipSpace(s, p);
    if g < |s| {
      var e := TrimEnd(s, start, g);
      if p == e {
        assert q == g;
      } else if p < e {
        assert q < e;
      }
    }
  }

  lemma VisibleAtEnd(s: string, start: nat, g: nat, e: nat)
    requires start <= g <= |s| && start <= e <= |s|
    requires g < |s| ==> s[g] == '<' && e == TrimEnd(s, start, g)
    ensures g < |s| ==> Visible(s, e, 0) == '<' && TrimEnd(s, start, e) == e
  {
    if g < |s| {
      assert SkipSpace(s, e) == g;
    }
  }

  /** Skipping whitespace first does not change what the cursor sees. */
  lemma LookAheadSame(s: string, p: nat, q: nat)
    requires p <= |s| && q == SkipCursor(s, p)
    ensures Visible(s, q, 0) == Visible(s, p, 0) && Visible(s, q, 1) == Visible(s, p, 1)
    ensures Visible(s, p, 0) != '\0' ==> q == SkipSpace(s, p)
  {
    var r := SkipSpace(s, p);
    if q == r && q < |s| {
      assert SkipSpace(s, q) == q;
    } else if q < r {
      assert SkipSpace(s, q) == |s|;
    }
  }

  lemma NoTagEndAtLast(s: string)
    requires s != ""
    ensures s[|s| - 1] != '>' ==> TagEnd(s, |s| - 1) == None
  {
  }
}
