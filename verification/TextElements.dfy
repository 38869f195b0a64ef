/** Elements that hold nothing but a text, as a server prints them. */
module TextElements {
  import opened Options
  import opened XmlSpec
  import opened XmlRoundTrip
  import opened MarkupText

  /** A text that comes through as it is, and is not empty. */
  predicate GoodValue(s: string) {
    s != "" && Plain(s) && '\0' !in s
  }

  /** `<name>`, the escaped text, and `</name>`. */
  function TextElem(name: string, text: string): Elem {
    var t := EscapeText(text);
    Leaf("", name, "", "", t[..TextStart(t)], Trimmed(t), t[TextEnd(t)..], "")
  }

  lemma TextElemGood(name: string, text: string)
    requires GoodOpen(name, "") && Shown(text) != ""
    ensures Good(TextElem(name, text)) && Snug(TextElem(name, text)) && LastPad(TextElem(name, text)) == ""
    ensures Erase(TextElem(name, text)) == Tree(name, Some(Shown(text)), [])
  {
    var t := EscapeText(text);
    EscapeShape(text);
    TrimmedEnds(t);
    hide EscapeText;
    assert GoodText(Trimmed(t));
    assert AllSpace(t[..TextStart(t)]) && AllSpace(t[TextEnd(t)..]);
  }

  lemma PlainShown(s: string)
    requires GoodValue(s)
    ensures Shown(s) == s
  {
    ShownIsSame(s);
  }
}
