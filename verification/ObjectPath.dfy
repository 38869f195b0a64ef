/** Object names to request paths: split at the slashes, encode every piece, put the slashes back. */
module ObjectPath {
  import opened Options
  import opened CText
  import opened PercentEncoding

  const PATH_SIZE: nat := 1024

  function TokenLength(s: string): (n: nat)
    ensures n <= |s| && '/' !in s[..n] && (n < |s| ==> s[n] == '/')
  {
    if s == [] || s[0] == '/' then 0 else 1 + TokenLength(s[1..])
  }

  /** The tokens that strtok_r finds: the non-empty pieces between slashes. */
  function Segments(s: string): (r: seq<string>)
    ensures forall i :: 0 <= i < |r| ==> r[i] != [] && '/' !in r[i]
    decreases |s|
  {
    if s == [] then []
    else if s[0] == '/' then Segments(s[1..])
    else [s[..TokenLength(s)]] + Segments(s[TokenLength(s)..])
  }

  lemma TokenLengthOf(s: string, rest: string)
    requires '/' !in s
    ensures TokenLength(s + rest) == |s| + TokenLength(rest)
  {
    if s == [] {
      assert s + rest == rest;
    } else {
      assert (s + rest)[1..] == s[1..] + rest;
      TokenLengthOf(s[1..], rest);
    }
  }

  lemma SlashFirst(s: string)
    ensures Segments("/" + s) == Segments(s)
  {
    assert ("/" + s)[1..] == s;
  }

  lemma TokenFirst(token: string, rest: string)
    requires token != [] && '/' !in token
    ensures Segments(token + "/" + rest) == [token] + Segments(rest)
  {
    var s := token + "/" + rest;
    assert s == token + ("/" + rest);
    TokenLengthOf(token, "/" + rest);
    SlashFirst(rest);
    assert s[..|token|] == token && s[|token|..] == "/" + rest;
  }

  /** A slash separates: no segment spans one. */
  lemma {:induction false} SegmentsAppend(a: string, b: string)
    ensures Segments(a + "/" + b) == Segments(a) + Segments(b)
    decreases |a|
  {
    var n := TokenLength(a);
    var token := a[..n];
    hide Segments, TokenLength;
    if n == |a| {
      assert token == a;
      if a == [] {
        NoSegments();
        SlashFirst(b);
        assert a + "/" + b == "/" + b;
      } else {
        SegmentsOfOne(a);
        TokenFirst(a, b);
      }
    } else {
      var rest := a[n + 1..];
      assert a == token + "/" + rest;
      SegmentsAppend(rest, b);
      SegmentsAppendStep(token, rest, b);
    }
  }

  lemma SegmentsAppendStep(token: string, rest: string, b: string)
    requires '/' !in token && Segments(rest + "/" + b) == Segments(rest) + Segments(b)
    ensures Segments(token + "/" + rest + "/" + b) == Segments(token + "/" + rest) + Segments(b)
  {
    hide Segments;
    assert token + "/" + (rest + "/" + b) == token + "/" + rest + "/" + b;
    if token == [] {
      SlashFirst(rest);
      SlashFirst(rest + "/" + b);
      assert token + "/" + rest == "/" + rest && token + "/" + (rest + "/" + b) == "/" + (rest + "/" + b);
    } else {
      TokenFirst(token, rest);
      TokenFirst(token, rest + "/" + b);
      assert [token] + (Segments(rest) + Segments(b)) == [token] + Segments(rest) + Segments(b);
    }
  }

  lemma NoSegments()
    ensures Segments([]) == []
  {}

  lemma SegmentsOfOne(s: string)
    requires s != [] && '/' !in s
    ensures Segments(s) == [s]
  {
    assert s + [] == s;
    TokenLengthOf(s, []);
  }

  /** "/" and the encoded piece, for every piece. */
  function Joined(segments: seq<string>): string {
    if segments == [] then []
    else Joined(segments[..|segments| - 1]) + "/" + Escape(segments[|segments| - 1])
  }

  function PathOf(name: Option<string>): string {
    if name == None || Segments(name.value) == [] then "/" else Joined(Segments(name.value))
  }

  /** Empty segments in front, between and behind are none. */
  lemma TwoTokens(a: string, b: string)
    requires a != [] && b != [] && '/' !in a && '/' !in b
    ensures Segments("/" + (a + "/" + ("/" + (b + "/" + "")))) == [a, b]
  {
    var rest := "/" + (b + "/" + "");
    SlashFirst(a + "/" + rest);
    TokenFirst(a, rest);
    SlashFirst(b + "/" + "");
    TokenFirst(b, "");
    NoSegments();
    hide Segments;
  }

  lemma ExampleSegments()
    ensures Segments("/a//b c/") == ["a", "b c"]
  {
    hide Segments;
    TwoTokens("a", "b c");
    assert "/a//b c/" == "/" + ("a" + "/" + ("/" + ("b c" + "/" + "")));
  }

  lemma ExampleEscaped()
    ensures Escape("a") == "a" && Escape("b c") == "b%20c"
  {
    assert "b c"[1..] == " c" && " c"[1..] == "c";
    assert Escape("c") == "c" && Escape(" c") == "%20c";
  }

  lemma JoinedTwo(a: string, b: string)
    ensures Joined([a, b]) == "/" + Escape(a) + "/" + Escape(b)
  {
    hide Escape;
    assert [a, b][..1] == [a] && [a][..0] == [];
    assert Joined([]) == [] && [] + "/" == "/";
  }

  /** A path in full: no empty segment, and one slash in front of every other. */
  lemma PathExample()
    ensures PathOf(None) == "/" && PathOf(Some("/a//b c/")) == "/a/b%20c"
  {
    ExampleSegments();
    ExampleEscaped();
    hide Segments, Escape;
    JoinedTwo("a", "b c");
    hide Joined;
    assert "/" + "a" + "/" + "b%20c" == "/a/b%20c";
  }

  ghost predicate Pieces(segments: seq<string>) {
    forall i :: 0 <= i < |segments| ==> segments[i] != [] && '/' !in segments[i] && CString(segments[i])
  }

  function EscapeEach(segments: seq<string>): seq<string> {
    seq(|segments|, i requires 0 <= i < |segments| => Escape(segments[i]))
  }

  lemma {:induction false} SegmentsAreCStrings(s: string)
    requires CString(s)
    ensures Pieces(Segments(s))
    decreases |s|
  {
    if s == [] {
    } else if s[0] == '/' {
      SegmentsAreCStrings(s[1..]);
    } else {
      SegmentsAreCStrings(s[TokenLength(s)..]);
    }
  }

  lemma {:induction false} SegmentsOfJoined(segments: seq<string>)
    requires Pieces(segments)
    ensures Segments(Joined(segments)) == EscapeEach(segments)
  {
    hide Escape, CString, Segments;
    if segments == [] {
      NoSegments();
    } else {
      var front, last := segments[..|segments| - 1], segments[|segments| - 1];
      SegmentsOfJoined(front);
      SegmentsAppend(Joined(front), Escape(last));
      EscapedCharacters(last);
      SegmentsOfOne(Escape(last));
      assert EscapeEach(segments) == EscapeEach(front) + [Escape(last)];
    }
  }

  /** Splitting the path at its slashes gives the encoded segments of the object name, all and in order. */
  lemma {:induction false} PathSegments(name: string)
    requires CString(name)
    ensures Segments(PathOf(Some(name))) == EscapeEach(Segments(name))
  {
    SegmentsAreCStrings(name);
    if Segments(name) == [] {
      assert "/"[1..] == [];
    } else {
      SegmentsOfJoined(Segments(name));
    }
  }

  /** Two objects share a path exactly when they have the same non-empty segments. */
  lemma {:induction false} PathInjective(a: string, b: string)
    requires CString(a) && CString(b)
    ensures PathOf(Some(a)) == PathOf(Some(b)) <==> Segments(a) == Segments(b)
  {
    PathSegments(a);
    PathSegments(b);
    var x, y := Segments(a), Segments(b);
    if PathOf(Some(a)) == PathOf(Some(b)) {
      assert |EscapeEach(x)| == |x| && |EscapeEach(y)| == |y|;
      SegmentsAreCStrings(a);
      SegmentsAreCStrings(b);
      forall i | 0 <= i < |x|
        ensures x[i] == y[i]
      {
        assert EscapeEach(x)[i] == EscapeEach(y)[i];
        EscapeInjective(x[i], y[i]);
      }
    }
  }

  lemma {:induction false} JoinedCharacters(segments: seq<string>)
    requires Pieces(segments)
    ensures forall i :: 0 <= i < |Joined(segments)| ==> Joined(segments)[i] !in "\0?"
  {
    if segments != [] {
      JoinedCharacters(segments[..|segments| - 1]);
      EscapedCharacters(segments[|segments| - 1]);
    }
  }

  /** A path ends where a query may begin. */
  lemma PathCharacters(name: Option<string>)
    requires name.Some? ==> CString(name.value)
    ensures NoNul(PathOf(name)) && '?' !in PathOf(name)
  {
    if name.Some? && Segments(name.value) != [] {
      SegmentsAreCStrings(name.value);
      JoinedCharacters(Segments(name.value));
    }
  }

  // ---- decoding ----

  function Slashed(segments: seq<string>): string {
    if segments == [] then [] else "/" + segments[0] + Slashed(segments[1..])
  }

  lemma {:induction false} SlashedLast(segments: seq<string>)
    requires segments != []
    ensures Slashed(segments) == Slashed(segments[..|segments| - 1]) + "/" + segments[|segments| - 1]
  {
    if |segments| > 1 {
      var rest := segments[1..];
      SlashedLast(rest);
      assert segments[..|segments| - 1][1..] == rest[..|rest| - 1];
    }
  }

  lemma UnescapeSlash(rest: string)
    ensures Unescape("/" + rest) == "/" + Unescape(rest)
  {
    assert ("/" + rest)[1..] == rest;
  }

  lemma {:induction false} UnescapeJoined(segments: seq<string>, rest: string)
    requires Pieces(segments)
    ensures Unescape(Joined(segments) + rest) == Slashed(segments) + Unescape(rest)
  {
    hide Unescape, Escape, CString;
    if segments == [] {
      assert Joined(segments) + rest == rest;
    } else {
      var front, last := segments[..|segments| - 1], segments[|segments| - 1];
      var tail := "/" + (Escape(last) + rest);
      assert Joined(segments) + rest == Joined(front) + tail;
      UnescapeJoined(front, tail);
      UnescapeSlash(Escape(last) + rest);
      UnescapeEscape(last, rest);
      SlashedLast(segments);
      hide Slashed, Joined;
      assert Slashed(front) + ("/" + (last + Unescape(rest))) == Slashed(segments) + Unescape(rest);
    }
  }

  /** No empty segment: no slash at either end, and no two in a row. */
  ghost predicate Tidy(name: string) {
    name != [] ==>
      && name[0] != '/'
      && name[|name| - 1] != '/'
      && forall i :: 0 < i < |name| && name[i - 1] == '/' ==> name[i] != '/'
  }

  lemma TidyRest(name: string, n: nat)
    requires name != [] && Tidy(name) && 0 < n < |name| && name[n] == '/'
    ensures n + 1 < |name| && Tidy(name[n + 1..])
  {
    var rest := name[n + 1..];
    assert rest[0] == name[n + 1] != '/';
    forall i | 0 < i < |rest| && rest[i - 1] == '/'
      ensures rest[i] != '/'
    {
      assert name[n + 1 + i - 1] == '/';
      assert name[n + 1 + i] != '/';
    }
  }

  lemma SlashedFirst(s: string, rest: seq<string>)
    ensures Slashed([s] + rest) == "/" + s + Slashed(rest)
  {
    assert ([s] + rest)[1..] == rest;
  }

  lemma SlashedOfOne(s: string)
    ensures Slashed([s]) == "/" + s
  {
    assert [s][1..] == [];
    assert "/" + s + [] == "/" + s;
  }

  lemma SlashedStep(token: string, rest: string)
    requires token != [] && '/' !in token && Slashed(Segments(rest)) == "/" + rest
    ensures Slashed(Segments(token + "/" + rest)) == "/" + (token + "/" + rest)
  {
    hide Segments, Slashed;
    SegmentsAppend(token, rest);
    SegmentsOfOne(token);
    SlashedFirst(token, Segments(rest));
    assert "/" + token + ("/" + rest) == "/" + (token + "/" + rest);
  }

  lemma {:induction false} SlashedOfTidy(name: string)
    requires name != [] && Tidy(name)
    ensures Slashed(Segments(name)) == "/" + name
    decreases |name|
  {
    assert name[0] != '/';
    var n := TokenLength(name);
    assert n > 0;
    hide Segments, Slashed, Tidy, TokenLength;
    if n == |name| {
      assert name[..n] == name;
      SegmentsOfOne(name);
      SlashedOfOne(name);
    } else {
      TidyRest(name, n);
      SlashedOfTidy(name[n + 1..]);
      SlashedStep(name[..n], name[n + 1..]);
      assert name == name[..n] + "/" + name[n + 1..];
    }
  }

  lemma TidyJoin(s: string, rest: string)
    requires s != [] && '/' !in s
    requires rest != [] ==> |rest| > 1 && rest[0] == '/' && Tidy(rest[1..])
    ensures Tidy(s + rest)
  {
    var t := s + rest;
    forall i | 0 <= i < |s|
      ensures t[i] != '/'
    {
      assert t[i] == s[i];
    }
    forall i | |s| < i < |t|
      ensures t[i] == rest[1..][i - |s| - 1]
    {}
  }

  lemma {:induction false} SlashedIsTidy(segments: seq<string>)
    requires segments != [] && Pieces(segments)
    ensures |Slashed(segments)| > 1 && Slashed(segments)[0] == '/' && Tidy(Slashed(segments)[1..])
  {
    hide Tidy, CString;
    var rest := Slashed(segments[1..]);
    if |segments| > 1 {
      SlashedIsTidy(segments[1..]);
    }
    TidyJoin(segments[0], rest);
    assert Slashed(segments)[1..] == segments[0] + rest;
  }

  /** Decoding the path gives the object name back exactly when the name has no empty segment. */
  lemma {:induction false} PathRecoversObject(name: string)
    requires CString(name)
    ensures Unescape(PathOf(Some(name))) == Slashed(Segments(name)) || Segments(name) == []
    ensures Unescape(PathOf(Some(name))) == "/" + name <==> Tidy(name)
  {
    var segments := Segments(name);
    SegmentsAreCStrings(name);
    if segments == [] {
      assert Unescape("/") == "/" + Unescape("/"[1..]);
      if Tidy(name) && name != [] {
        SlashedOfTidy(name);
      }
    } else {
      UnescapeJoined(segments, []);
      assert Joined(segments) + [] == Joined(segments);
      if Tidy(name) {
        SlashedOfTidy(name);
      } else {
        SlashedIsTidy(segments);
        assert ("/" + name)[1..] == name;
      }
    }
  }

  // ---- src/request.c ----

  lemma SkipSlash(s: string)
    requires s != [] && s[0] == '/'
    ensures Segments(s) == Segments(s[1..])
  {}

  lemma FirstToken(token: string, rest: string)
    requires token != [] && '/' !in token && (rest != [] ==> rest[0] == '/')
    ensures Segments(token + rest) == [token] + Segments(if rest == [] then [] else rest[1..])
  {
    hide Segments;
    SegmentsOfOne(token);
    if rest == [] {
      NoSegments();
      assert token + rest == token;
    } else {
      SegmentsAppend(token, rest[1..]);
      assert token + "/" + rest[1..] == token + rest;
    }
  }

  /** strtok_r(NULL, "/", &save): the next token of `s` from `save` on, and where to look for the one after. */
  method NextToken(s: string, save: nat) returns (found: bool, start: nat, end: nat, next: nat)
    requires save <= |s|
    ensures found <==> Segments(s[save..]) != []
    ensures save <= start <= end <= next <= |s| && (found ==> start < end)
    ensures found ==> Segments(s[save..]) == [s[start..end]] + Segments(s[next..])
  {
    hide Segments;
    start := save;
    while start < |s| && s[start] == '/'
      invariant save <= start <= |s|
      invariant Segments(s[start..]) == Segments(s[save..])
    {
      SkipSlash(s[start..]);
      assert s[start..][1..] == s[start + 1..];
      start := start + 1;
    }
    end, next := start, start;
    if start == |s| {
      NoSegments();
      return false, start, end, next;
    }
    while end < |s| && s[end] != '/'
      invariant start <= end <= |s|
      invariant '/' !in s[start..end]
      invariant end == start ==> s[start] != '/'
    {
      end := end + 1;
    }
    next := if end < |s| then end + 1 else end;
    FirstToken(s[start..end], s[end..]);
    assert s[start..] == s[start..end] + s[end..];
    assert end < |s| ==> s[end..][1..] == s[next..];
    found := true;
  }

  /** Every segment is written from a place inside the buffer. */
  ghost predicate StartsInside(segments: seq<string>) {
    forall i :: 0 <= i < |segments| ==> |Joined(segments[..i])| <= PATH_SIZE
  }

  /** The places that the loop writes at: each segment takes a slash and its encoded length. */
  function Starts(segments: seq<string>, out: nat): (r: seq<nat>)
    ensures |r| == |segments|
  {
    if segments == [] then [] else [out] + Starts(segments[1..], out + |Escape(segments[0])| + 1)
  }

  lemma {:induction false} JoinedLength(segments: seq<string>)
    requires segments != []
    ensures |Joined(segments)| == |Escape(segments[0])| + 1 + |Joined(segments[1..])|
  {
    hide Escape;
    var front := segments[..|segments| - 1];
    if front != [] {
      JoinedLength(front);
      assert front[1..] == segments[1..][..|segments| - 2];
    }
  }

  lemma {:induction false} StartsAt(segments: seq<string>, out: nat, i: nat)
    requires i < |segments|
    ensures Starts(segments, out)[i] == out + |Joined(segments[..i])|
    decreases i
  {
    hide Escape;
    if i > 0 {
      StartsAt(segments[1..], out + |Escape(segments[0])| + 1, i - 1);
      JoinedLength(segments[..i]);
      assert segments[..i][1..] == segments[1..][..i - 1];
    }
  }

  lemma {:induction false} JoinedGrows(segments: seq<string>, i: nat)
    requires i <= |segments|
    ensures |Joined(segments[..i])| <= |Joined(segments)|
    decreases |segments|
  {
    hide Escape;
    if i == |segments| {
      assert segments[..i] == segments;
    } else {
      var front := segments[..|segments| - 1];
      assert front[..i] == segments[..i];
      JoinedGrows(front, i);
    }
  }

  ghost predicate WritesInside(segments: seq<string>) {
    forall i :: 0 <= i < |segments| ==> Starts(segments, 0)[i] <= PATH_SIZE
  }

  lemma StartsAreInside(segments: seq<string>)
    requires StartsInside(segments)
    ensures WritesInside(segments)
  {
    hide Joined, Starts;
    forall i | 0 <= i < |segments|
      ensures Starts(segments, 0)[i] <= PATH_SIZE
    {
      StartsAt(segments, 0, i);
      assert |Joined(segments[..i])| <= PATH_SIZE;
    }
  }

  lemma InsideStarts(segments: seq<string>)
    requires WritesInside(segments)
    ensures StartsInside(segments)
  {
    hide Joined, Starts;
    forall i | 0 <= i < |segments|
      ensures |Joined(segments[..i])| <= PATH_SIZE
    {
      StartsAt(segments, 0, i);
      assert Starts(segments, 0)[i] <= PATH_SIZE;
    }
  }

  lemma LastStart(segments: seq<string>)
    ensures StartsInside(segments) <==> segments == [] || |Joined(segments[..|segments| - 1])| <= PATH_SIZE
  {
    hide Joined;
    if segments != [] {
      var front := segments[..|segments| - 1];
      forall i | 0 <= i < |segments|
        ensures |Joined(segments[..i])| <= |Joined(front)|
      {
        JoinedGrows(front, i);
        assert front[..i] == segments[..i];
      }
    }
  }

  /**
   * No write begins past the end of the buffer exactly when the path without its last segment is not longer than
   * the buffer: past the end, what the code takes for the room that is left would be negative.
   */
  lemma {:induction false} StartsInsideIff(segments: seq<string>)
    ensures StartsInside(segments) <==> WritesInside(segments)
    ensures StartsInside(segments) <==> segments == [] || |Joined(segments[..|segments| - 1])| <= PATH_SIZE
  {
    LastStart(segments);
    hide StartsInside, WritesInside, Joined, Starts;
    if StartsInside(segments) {
      StartsAreInside(segments);
    }
    if WritesInside(segments) {
      InsideStarts(segments);
    }
  }

  lemma JoinedOne(segment: string)
    ensures Joined([segment]) == "/" + Escape(segment)
  {
    hide Escape;
    assert [segment][..0] == [];
    assert Joined([segment]) == [] + "/" + Escape(segment);
  }

  /** A segment that fills the buffer, and one behind it. */
  lemma LongSegmentIsOutside(segment: string)
    requires |segment| >= PATH_SIZE && '/' !in segment
    ensures !StartsInside(Segments(segment + "/" + "b"))
  {
    SegmentsAppend(segment, "b");
    SegmentsOfOne(segment);
    SegmentsOfOne("b");
    EscapeNotShorter(segment);
    JoinedOne(segment);
    hide Segments, Escape, Joined, StartsInside, Starts;
    var segments := [segment] + ["b"];
    StartsInsideIff(segments);
    assert segments[..|segments| - 1] == [segment];
  }

  lemma {:induction false} EscapeNotShorter(s: string)
    ensures |Escape(s)| >= |s|
  {
    if s != [] {
      EscapeNotShorter(s[1..]);
    }
  }

  /** One more segment behind what is there. */
  method AppendSegment(pathBuffer: array<char>, out: nat, token: string, ghost before: string) returns (end: nat)
    requires pathBuffer.Length == PATH_SIZE
    requires Holds(pathBuffer[..], Cut(before, PATH_SIZE)) && out == |before| <= PATH_SIZE
    modifies pathBuffer
    ensures Holds(pathBuffer[..], Cut(before + "/" + Escape(token), PATH_SIZE))
    ensures end == |before + "/" + Escape(token)|
  {
    hide Escape, Holds, Cut;
    var encoded := Escape(token);
    Append(pathBuffer, out, "/" + encoded, before);
    assert before + "/" + encoded == before + ("/" + encoded);
    end := out + |encoded| + 1;
  }

  /**
   * generate_path. A path that does not fit is cut off; what is required is only that no segment is written from
   * a place past the end.
   */
  method GeneratePath(name: Option<string>, pathBuffer: array<char>)
    requires pathBuffer.Length == PATH_SIZE
    requires name.Some? ==> StartsInside(Segments(name.value))
    modifies pathBuffer
    ensures Holds(pathBuffer[..], Cut(PathOf(name), PATH_SIZE))
  {
    hide Segments, Escape, Holds, Cut;
    pathBuffer[0] := '\0';
    NothingHeld(pathBuffer[..]);
    if name == None {
      WriteSlash(pathBuffer);
      return;
    }
    var path := name.value;
    ghost var segments := Segments(path);
    ghost var n := 0;
    var out := 0;
    assert path[0..] == path;
    var found: bool, start: nat, end: nat, save: nat := NextToken(path, 0);
    while found
      invariant start <= end <= save <= |path| && n <= |segments|
      invariant found <==> n < |segments|
      invariant found ==> segments[n..] == [path[start..end]] + Segments(path[save..])
      invariant out == |Joined(segments[..n])|
      invariant Holds(pathBuffer[..], Cut(Joined(segments[..n]), PATH_SIZE))
      decreases |segments| - n
    {
      assert segments[n] == segments[n..][0] == path[start..end];
      assert segments[..n + 1][..n] == segments[..n];
      out := AppendSegment(pathBuffer, out, path[start..end], Joined(segments[..n]));
      assert segments[n + 1..] == segments[n..][1..] == Segments(path[save..]);
      n := n + 1;
      found, start, end, save := NextToken(path, save);
    }
    assert segments[..n] == segments;
    FirstCharacter(pathBuffer[..], segments);
    if pathBuffer[0] != '/' {
      WriteSlash(pathBuffer);
    }
  }

  lemma NothingHeld(buffer: seq<char>)
    requires buffer != [] && buffer[0] == '\0'
    ensures Holds(buffer, Cut([], PATH_SIZE))
  {}

  method WriteSlash(pathBuffer: array<char>)
    requires pathBuffer.Length == PATH_SIZE
    modifies pathBuffer
    ensures Holds(pathBuffer[..], Cut("/", PATH_SIZE))
  {
    Snprintf(pathBuffer, 0, PATH_SIZE, "/");
    assert pathBuffer[0..] == pathBuffer[..];
  }

  lemma JoinedStarts(segments: seq<string>)
    requires segments != []
    ensures Joined(segments) != [] && Joined(segments)[0] == '/'
  {
    if |segments| > 1 {
      JoinedStarts(segments[..|segments| - 1]);
    }
  }

  lemma FirstCharacter(buffer: seq<char>, segments: seq<string>)
    requires Holds(buffer, Cut(Joined(segments), PATH_SIZE))
    ensures buffer[0] == '/' <==> segments != []
  {
    if segments != [] {
      JoinedStarts(segments);
      hide Joined;
      var text := Cut(Joined(segments), PATH_SIZE);
      assert text[0] == Joined(segments)[0];
      assert buffer[..|text|][0] == text[0];
    }
  }
}
