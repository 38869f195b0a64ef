/** Text on its way through a page: the server escapes its markup characters, and the client trims it. */
module MarkupText {
  import opened XmlSpec

  predicate IsMarkup(c: char) {
    c == '&' || c == '<' || c == '>'
  }

  function EscapeMark(c: char): (r: string)
    ensures r != "" && '<' !in r && '>' !in r
    ensures !IsMarkup(c) ==> r == [c]
    ensures IsMarkup(c) ==> |r| > 1 && r[0] == '&' && r[|r| - 1] == ';'
  {
    if c == '&' then "&amp;" else if c == '<' then "&lt;" else if c == '>' then "&gt;" else [c]
  }

  /** XML 1.0, section 2.4: markup characters in text are written as entities. */
  function EscapeText(s: string): string {
    if s == "" then "" else EscapeMark(s[0]) + EscapeText(s[1..])
  }

  lemma EscapedMarks()
    ensures EscapeText("<a>&") == "&lt;" + "a" + "&gt;" + "&amp;"
  {
    assert "<a>&"[1..] == "a>&" && "a>&"[1..] == ">&" && ">&"[1..] == "&" && "&"[1..] == "";
  }

  function TextStart(t: string): nat {
    SkipSpace(t, 0)
  }

  function TextEnd(t: string): (p: nat)
    ensures TextStart(t) <= p <= |t|
  {
    TrimEnd(t, TextStart(t), |t|)
  }

  function Trimmed(t: string): string {
    t[TextStart(t)..TextEnd(t)]
  }

  /** What the client gets to see of a text: it trims the entities, and does not decode them. */
  function Shown(s: string): string {
    Trimmed(EscapeText(s))
  }

  predicate NoEndSpace(s: string) {
    s != "" ==> !IsSpace(s[0]) && !IsSpace(s[|s| - 1])
  }

  predicate NoMarkup(s: string) {
    forall i :: 0 <= i < |s| ==> !IsMarkup(s[i])
  }

  /** Text that comes through as it is. */
  predicate Plain(s: string) {
    NoEndSpace(s) && NoMarkup(s)
  }

  lemma TrimmedSame(t: string)
    requires NoEndSpace(t)
    ensures Trimmed(t) == t
  {
    if t != "" {
      assert TextStart(t) == 0;
    }
  }

  lemma TrimmedEnds(t: string)
    ensures NoEndSpace(Trimmed(t))
  {}

  lemma {:induction false} EscapePlain(s: string)
    requires NoMarkup(s)
    ensures EscapeText(s) == s
  {
    if s != "" {
      EscapePlain(s[1..]);
    }
  }

  /** Entities only make a text longer, and they neither add nor hide a space or a slash at its ends. */
  lemma {:induction false} EscapeShape(s: string)
    ensures |EscapeText(s)| >= |s| && (|EscapeText(s)| == |s| ==> NoMarkup(s))
    ensures '<' !in EscapeText(s) && '>' !in EscapeText(s)
    ensures s != "" ==> EscapeText(s) != ""
                        && EscapeText(s)[0] == (if IsMarkup(s[0]) then '&' else s[0])
                        && var last := s[|s| - 1];
                           EscapeText(s)[|EscapeText(s)| - 1] == if IsMarkup(last) then ';' else last
  {
    if s != "" {
      hide EscapeMark;
      EscapeShape(s[1..]);
    }
  }

  lemma {:induction false} EscapeNoNul(s: string)
    requires '\0' !in s
    ensures '\0' !in EscapeText(s)
  {
    if s != "" {
      EscapeNoNul(s[1..]);
    }
  }

  lemma EscapeKeepsEnds(s: string)
    ensures NoEndSpace(s) <==> NoEndSpace(EscapeText(s))
  {
    EscapeShape(s);
  }

  /** Exactly the plain texts come through unchanged. */
  lemma ShownIsSame(s: string)
    ensures Shown(s) == s <==> Plain(s)
  {
    hide Trimmed, EscapeText;
    EscapeShape(s);
    EscapeKeepsEnds(s);
    TrimmedEnds(EscapeText(s));
    if NoEndSpace(s) {
      TrimmedSame(EscapeText(s));
    }
    if NoMarkup(s) {
      EscapePlain(s);
    }
  }
}
