/** Percent-encoding as RFC 3986, sections 2.1 and 2.3, has it. */
module PercentEncoding {

  /** The characters of a C string: bytes other than 0. */
  predicate CString(s: string) {
    forall i :: 0 <= i < |s| ==> 0 < s[i] as int < 256
  }

  predicate Unreserved(c: char) {
    'A' <= c <= 'Z' || 'a' <= c <= 'z' || '0' <= c <= '9' || c in "-._~"
  }

  /** RFC 3986, section 2.3. */
  lemma UnreservedIs(c: char)
    ensures Unreserved(c) <==> || c in "ABCDEFGHIJKLMNOPQRSTUVWXYZ" || c in "abcdefghijklmnopqrstuvwxyz"
                               || c in "0123456789" || c == '-' || c == '.' || c == '_' || c == '~'
  {}

  function HexDigit(n: nat): (c: char)
    requires n < 16
    ensures HexValue(c) == n && Unreserved(c)
  {
    if n < 10 then '0' + n as char else 'A' + (n - 10) as char
  }

  /** The value of a hexadecimal digit in either case, or -1. */
  function HexValue(c: char): (n: int)
    ensures -1 <= n < 16
  {
    if '0' <= c <= '9' then c as int - '0' as int
    else if 'A' <= c <= 'F' then c as int - 'A' as int + 10
    else if 'a' <= c <= 'f' then c as int - 'a' as int + 10
    else -1
  }

  function EscapeChar(c: char): string {
    if Unreserved(c) || c as int >= 256 then [c] else ['%', HexDigit(c as int / 16), HexDigit(c as int % 16)]
  }

  /** RFC 3986, section 2.1: upper-case digits. */
  lemma EscapeCharIs(c: char)
    requires 0 < c as int < 256
    ensures EscapeChar(c) == if Unreserved(c) then [c]
                             else ['%', "0123456789ABCDEF"[c as int / 16], "0123456789ABCDEF"[c as int % 16]]
  {
    hide Unreserved;
    HexDigitIs(c as int / 16);
    HexDigitIs(c as int % 16);
  }

  lemma HexDigitIs(n: nat)
    requires n < 16
    ensures HexDigit(n) == "0123456789ABCDEF"[n]
  {}

  function Escape(s: string): string {
    if s == [] then [] else EscapeChar(s[0]) + Escape(s[1..])
  }

  predicate Triplet(s: string) {
    |s| >= 3 && s[0] == '%' && HexValue(s[1]) >= 0 && HexValue(s[2]) >= 0
  }

  function Unescape(s: string): string {
    if s == [] then []
    else if Triplet(s) then [(16 * HexValue(s[1]) + HexValue(s[2])) as char] + Unescape(s[3..])
    else [s[0]] + Unescape(s[1..])
  }

  lemma UnescapeChar(c: char, rest: string)
    requires 0 < c as int < 256
    ensures Unescape(EscapeChar(c) + rest) == [c] + Unescape(rest)
  {
    var text := EscapeChar(c) + rest;
    if Unreserved(c) {
      assert text[0] == c && text[1..] == rest;
    } else {
      assert Triplet(text) && text[3..] == rest;
      assert 16 * HexValue(text[1]) + HexValue(text[2]) == c as int;
    }
  }

  /** Decoding undoes encoding, whatever comes after the encoded text. */
  lemma {:induction false} UnescapeEscape(s: string, rest: string)
    requires CString(s)
    ensures Unescape(Escape(s) + rest) == s + Unescape(rest)
  {
    hide EscapeChar, Unescape;
    if s == [] {
      assert Escape(s) + rest == rest;
    } else {
      UnescapeChar(s[0], Escape(s[1..]) + rest);
      assert Escape(s) + rest == EscapeChar(s[0]) + (Escape(s[1..]) + rest);
      UnescapeEscape(s[1..], rest);
      assert s == [s[0]] + s[1..];
    }
  }

  lemma UnescapeWhole(s: string)
    requires CString(s)
    ensures Unescape(Escape(s)) == s
  {
    UnescapeEscape(s, []);
    assert Escape(s) + [] == Escape(s);
  }

  lemma EscapeInjective(s: string, t: string)
    requires CString(s) && CString(t)
    ensures Escape(s) == Escape(t) <==> s == t
  {
    UnescapeWhole(s);
    UnescapeWhole(t);
  }

  predicate Encoded(s: string) {
    forall i :: 0 <= i < |s| ==> Unreserved(s[i]) || s[i] == '%'
  }

  /** No character with a meaning of its own in a URI or in a C string is left. */
  lemma {:induction false} EscapedCharacters(s: string)
    requires CString(s)
    ensures Encoded(Escape(s)) && (Escape(s) == [] <==> s == [])
  {
    if s != [] {
      EscapedCharacters(s[1..]);
    }
  }
}
