/** C strings in character buffers: snprintf and strlen. */
module CText {

  predicate NoNul(text: string) {
    '\0' !in text
  }

  /** The buffer starts with the text and a 0 after it. */
  predicate Holds(buffer: seq<char>, text: string) {
    |text| < |buffer| && buffer[..|text|] == text && buffer[|text|] == '\0'
  }

  /** What is left of a text that is written where there is room for `size` characters, the 0 included. */
  function Cut(text: string, size: nat): (r: string)
    requires size > 0
    ensures r <= text && |r| < size
    ensures |text| < size ==> r == text
    ensures |text| >= size ==> |r| == size - 1
  {
    if |text| < size then text else text[..size - 1]
  }

  lemma HoldsAfter(buffer: seq<char>, before: string, text: string)
    requires |before| <= |buffer| && buffer[..|before|] == before && Holds(buffer[|before|..], text)
    ensures Holds(buffer, before + text)
  {
    assert buffer[..|before + text|] == buffer[..|before|] + buffer[|before|..][..|text|];
    assert buffer[|before|..][|text|] == buffer[|before + text|];
  }

  /** Cutting what is appended, at what room the cut text before it left, is cutting the whole. */
  lemma CutAppend(before: string, text: string, size: nat)
    requires size > 0
    ensures Cut(before, size) + Cut(text, size - |Cut(before, size)|) == Cut(before + text, size)
  {}

  /** What was cut before can be cut again with what is appended. */
  lemma CutTwice(before: string, text: string, size: nat)
    requires size > 0
    ensures Cut(Cut(before, size) + text, size) == Cut(before + text, size)
  {}

  lemma CutAgain(text: string, size: nat)
    requires |text| < size
    ensures Cut(text, size) == text
  {}

  lemma CutNoNul(text: string, size: nat)
    requires size > 0 && NoNul(text)
    ensures NoNul(Cut(text, size))
  {}

  /** snprintf(buffer + at, size, "%s", text); with no room at all it writes nothing. */
  method Snprintf(buffer: array<char>, at: nat, size: nat, text: string)
    requires at + size <= buffer.Length
    modifies buffer
    ensures buffer[..at] == old(buffer[..at])
    ensures size == 0 ==> buffer[..] == old(buffer[..])
    ensures size > 0 ==> Holds(buffer[at..], Cut(text, size))
  {
    if size == 0 {
      return;
    }
    var i := 0;
    while i < |text| && i < size - 1
      invariant 0 <= i <= |text| && i < size
      invariant buffer[..at] == old(buffer[..at])
      invariant buffer[at..at + i] == text[..i]
    {
      buffer[at + i] := text[i];
      i := i + 1;
    }
    buffer[at + i] := '\0';
    assert buffer[at..][..i] == buffer[at..at + i] == text[..i];
  }

  /**
   * snprintf(buffer + at, sizeof(buffer) - at, "%s", text), where `at` is kept by hand. If it is the length of
   * what should be there, the text goes behind it.
   */
  method Append(buffer: array<char>, at: nat, text: string, ghost before: string)
    requires buffer.Length > 0 && Holds(buffer[..], Cut(before, buffer.Length))
    requires at == |before| <= buffer.Length
    modifies buffer
    ensures Holds(buffer[..], Cut(before + text, buffer.Length))
  {
    ghost var was := buffer[..];
    Snprintf(buffer, at, buffer.Length - at, text);
    if at < buffer.Length {
      assert buffer[..][..at] == was[..at] == before;
      assert buffer[at..] == buffer[..][at..];
      HoldsAfter(buffer[..], before, Cut(text, buffer.Length - at));
    }
    CutAppend(before, text, buffer.Length);
  }

  method StrLen(buffer: array<char>, start: nat, ghost text: string) returns (n: nat)
    requires start <= buffer.Length && Holds(buffer[start..], text) && NoNul(text)
    ensures n == |text|
  {
    forall i | 0 <= i < |text|
      ensures buffer[start + i] == text[i] != '\0'
    {
      assert buffer[start..][..|text|][i] == text[i] && text[i] in text;
    }
    n := 0;
    while buffer[start + n] != '\0'
      invariant n <= |text|
      decreases |text| - n
    {
      assert n < |text| by {
        assert buffer[start..][n] != '\0';
      }
      n := n + 1;
    }
  }

  /** The text in a buffer. */
  method ReadText(buffer: array<char>, ghost text: string) returns (r: string)
    requires Holds(buffer[..], text) && NoNul(text)
    ensures r == text
  {
    assert buffer[0..] == buffer[..];
    var n := StrLen(buffer, 0, text);
    r := buffer[..n];
  }
}
