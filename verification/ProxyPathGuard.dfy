/**
 * The traversal guard of the gateway proxy, against the URL parser that reads the path after it: the path state of section
 * 4.4 of the WHATWG URL Standard, for a special scheme.
 */
module ProxyPathGuard {
  import opened Wrappers
  import opened Text

  // ---- The guard ----

  /** Everything before the first `?` or `#`. */
  function StripQuery(s: string): (r: string)
    ensures r <= s && '?' !in r && '#' !in r
    ensures r != s ==> s[|r|] == '?' || s[|r|] == '#'
  {
    if s == "" || s[0] == '?' || s[0] == '#' then "" else [s[0]] + StripQuery(s[1..])
  }

  predicate IsHex(c: char) {
    '0' <= c <= '9' || 'a' <= c <= 'f' || 'A' <= c <= 'F'
  }

  function HexValue(c: char): nat
    requires IsHex(c)
  {
    if c <= '9' then c as int - '0' as int
    else if c <= 'F' then c as int - 'A' as int + 10
    else c as int - 'a' as int + 10
  }

  /** The escape of a dot, or of a backslash, in either case. */
  predicate HasEscape(s: string, high: char, low: char, lowUpper: char) {
    exists i :: 0 <= i < |s| - 2 && s[i] == '%' && s[i + 1] == high && (s[i + 2] == low || s[i + 2] == lowUpper)
  }

  function EscapedByte(s: string, at: nat): Option<nat> {
    if at + 2 < |s| && s[at] == '%' && IsHex(s[at + 1]) && IsHex(s[at + 2]) then
      Some(HexValue(s[at + 1]) * 16 + HexValue(s[at + 2]))
    else None
  }

  /** The six low bits of a continuation byte. */
  function Continuation(s: string, at: nat): Option<nat> {
    match EscapedByte(s, at)
    case Some(b) => if 0x80 <= b < 0xc0 then Some(b - 0x80) else None
    case None => None
  }

  /** The code point of an escaped UTF-8 sequence of 1 to 4 bytes, unless it is overlong, a surrogate or too large. */
  function EscapedPoint(s: string, lead: nat): Option<(nat, nat)> {
    if lead < 0x80 then Some((lead, 1))
    else
      var c1, c2, c3 := Continuation(s, 3), Continuation(s, 6), Continuation(s, 9);
      if 0xc0 <= lead < 0xe0 && c1.Some? then
        var p := (lead - 0xc0) * 64 + c1.value;
        if p >= 0x80 then Some((p, 2)) else None
      else if 0xe0 <= lead < 0xf0 && c1.Some? && c2.Some? then
        var p := (lead - 0xe0) * 4096 + c1.value * 64 + c2.value;
        if p >= 0x800 && !(0xd800 <= p < 0xe000) then Some((p, 3)) else None
      else if 0xf0 <= lead < 0xf8 && c1.Some? && c2.Some? && c3.Some? then
        var p := (lead - 0xf0) * 262144 + c1.value * 4096 + c2.value * 64 + c3.value;
        if 0x10000 <= p < 0x110000 then Some((p, 4)) else None
      else None
  }

  datatype Decoded = Decoded(c: char, length: nat)

  /** The first character, and how much text it takes. */
  function TakeChar(s: string): (r: Option<Decoded>)
    requires s != ""
    ensures r.Some? ==> 1 <= r.value.length <= |s|
    ensures r.Some? && s[0] == '%' ==> forall i :: 0 <= i < r.value.length ==> s[i] == '%' || IsHex(s[i])
  {
    if s[0] != '%' then Some(Decoded(s[0], 1))
    else
      var lead := EscapedByte(s, 0);
      if lead.None? then None
      else
        var point := EscapedPoint(s, lead.value);
        if point.None? || !IsScalar(point.value.0) then None
        else Some(Decoded(point.value.0 as char, 3 * point.value.1))
  }

  predicate IsScalar(p: nat) {
    p < 0xd800 || 0xe000 <= p < 0x110000
  }

  function DecodeURIComponent(s: string): Option<string> {
    if s == "" then Some("")
    else
      var first := TakeChar(s);
      if first.None? then None
      else
        var more := DecodeURIComponent(s[first.value.length..]);
        if more.None? then None else Some([first.value.c] + more.value)
  }

  function Slash(): char -> bool {
    (c: char) => c == '/'
  }

  function AnySlash(): char -> bool {
    (c: char) => c == '/' || c == '\\'
  }

  predicate IsUnsafeGatewayProxyPath(rawUrl: string) {
    var path := StripQuery(rawUrl);
    var decoded := DecodeURIComponent(path);
    '\\' in path || HasEscape(path, '5', 'c', 'C') || HasEscape(path, '2', 'e', 'E') || decoded.None? ||
    "." in Split(decoded.value, AnySlash()) || ".." in Split(decoded.value, AnySlash())
  }

  // ---- The URL parser ----

  function HexDigit(n: nat): char
    requires n < 16
  {
    if n < 10 then '0' + n as char else 'A' + (n - 10) as char
  }

  function EscapeByte(b: nat): string
    requires b < 256
  {
    ['%', HexDigit(b / 16), HexDigit(b % 16)]
  }

  /** The path percent-encode set of section 1.3. */
  predicate IsPathEncoded(c: char) {
    c <= ' ' || c > '~' || c == '"' || c == '#' || c == '<' || c == '>' || c == '?' || c == '^' || c == '`' || c == '{' || c == '}'
  }

  function PercentEncode(c: char): string {
    var p := c as int;
    if !IsPathEncoded(c) then [c]
    else if p < 0x80 then EscapeByte(p)
    else if p < 0x800 then EscapeByte(0xc0 + p / 64) + EscapeByte(0x80 + p % 64)
    else if p < 0x10000 then EscapeByte(0xe0 + p / 4096) + EscapeByte(0x80 + p / 64 % 64) + EscapeByte(0x80 + p % 64)
    else EscapeByte(0xf0 + p / 262144) + EscapeByte(0x80 + p / 4096 % 64) + EscapeByte(0x80 + p / 64 % 64) + EscapeByte(0x80 + p % 64)
  }

  function Encoded(s: string): string {
    if s == "" then "" else PercentEncode(s[0]) + Encoded(s[1..])
  }

  predicate IsEscapedDot(s: string) {
    |s| == 3 && s[0] == '%' && s[1] == '2' && (s[2] == 'e' || s[2] == 'E')
  }

  predicate IsSingleDot(s: string) {
    s == "." || IsEscapedDot(s)
  }

  predicate IsDoubleDot(s: string) {
    (s != "" && s[0] == '.' && IsSingleDot(s[1..])) || (|s| > 3 && IsEscapedDot(s[..3]) && IsSingleDot(s[3..]))
  }

  /** The path state: `buffer` is the segment read so far, `path` the segments before it. */
  function PathState(s: string, buffer: string, path: seq<string>): seq<string> {
    if s != "" && s[0] != '/' && s[0] != '\\' && s[0] != '?' && s[0] != '#' then
      PathState(s[1..], buffer + PercentEncode(s[0]), path)
    else
      var slash := s != "" && (s[0] == '/' || s[0] == '\\');
      var path' :=
        if IsDoubleDot(buffer) then
          (if path == [] then [] else path[..|path| - 1]) + (if slash then [] else [""])
        else if IsSingleDot(buffer) then (if slash then path else path + [""])
        else path + [buffer];
      if slash then PathState(s[1..], "", path') else path'
  }

  /** What the parser drops first: control characters and spaces at the ends, tabs and line breaks anywhere. */
  function Cleaned(input: string): (r: string)
    ensures input != "" && input[0] == '/' ==> r != "" && r[0] == '/'
  {
    WithoutBreaks(Stripped(input))
  }

  function Stripped(s: string): (r: string)
    ensures s != "" && s[0] > ' ' ==> r != "" && r[0] == s[0]
  {
    if s == "" then s
    else if s[0] <= ' ' then Stripped(s[1..])
    else if s[|s| - 1] <= ' ' then Stripped(s[..|s| - 1])
    else s
  }

  function WithoutBreaks(s: string): (r: string)
    ensures s != "" && s[0] > ' ' ==> r != "" && r[0] == s[0]
  {
    if s == "" then s
    else if s[0] == '\t' || s[0] == '\n' || s[0] == '\r' then WithoutBreaks(s[1..])
    else [s[0]] + WithoutBreaks(s[1..])
  }

  /** The segments of an origin-form target. */
  function UrlPath(target: string): seq<string>
    requires target != "" && target[0] == '/'
  {
    PathState(Cleaned(target)[1..], "", [])
  }

  // ---- The guard sees what the parser sees ----

  function EncodedAll(segments: seq<string>): (r: seq<string>)
    ensures |r| == |segments| && forall i :: 0 <= i < |segments| ==> r[i] == Encoded(segments[i])
  {
    if segments == [] then [] else [Encoded(segments[0])] + EncodedAll(segments[1..])
  }

  predicate IsDots(s: string) {
    IsSingleDot(s) || IsDoubleDot(s)
  }

  /** No character is encoded to the escape of a dot. */
  lemma EncodingMakesNoDot(c: char)
    ensures IsPathEncoded(c) ==>
      var e := PercentEncode(c);
      |e| >= 3 && e[0] == '%' && !(e[1] == '2' && (e[2] == 'e' || e[2] == 'E'))
  {
  }

  ghost predicate OnlyDotEscapes(s: string) {
    forall i :: 0 <= i < |s| && s[i] == '%' ==> i + 2 < |s| && s[i + 1] == '2' && (s[i + 2] == 'e' || s[i + 2] == 'E')
  }

  lemma HeadIsKept(head: string, tail: string)
    ensures forall i :: 0 <= i < |head| ==> (head + tail)[i] == head[i]
  {
  }

  lemma FirstIsUnchanged(c: char, more: string)
    requires OnlyDotEscapes(PercentEncode(c) + more)
    ensures PercentEncode(c) == [c] && OnlyDotEscapes(more)
  {
    EncodingMakesNoDot(c);
    var e := PercentEncode(c);
    var s := e + more;
    HeadIsKept(e, more);
    forall i | 0 <= i < |more| && more[i] == '%'
      ensures i + 2 < |more| && more[i + 1] == '2' && (more[i + 2] == 'e' || more[i + 2] == 'E')
    {
      assert s[i + 1] == more[i] && i + 3 < |s|;
      assert s[i + 2] == more[i + 1] && s[i + 3] == more[i + 2];
    }
  }

  lemma {:induction false} UnchangedByEncoding(s: string)
    requires OnlyDotEscapes(Encoded(s))
    ensures Encoded(s) == s
  {
    if s != "" {
      FirstIsUnchanged(s[0], Encoded(s[1..]));
      UnchangedByEncoding(s[1..]);
    }
  }

  lemma EncodingKeepsDots(s: string)
    ensures IsDots(Encoded(s)) ==> IsDots(s)
  {
    var e := Encoded(s);
    if IsDots(e) {
      DotsEscapeOnlyDots(e);
      UnchangedByEncoding(s);
    }
  }

  lemma DotsEscapeOnlyDots(s: string)
    requires IsDots(s)
    ensures OnlyDotEscapes(s)
  {
  }

  lemma {:induction false} EncodedOneMore(s: string, c: char)
    ensures Encoded(s + [c]) == Encoded(s) + PercentEncode(c)
  {
    if s == "" {
      assert s + [c] == [c];
    } else {
      assert (s + [c])[1..] == s[1..] + [c];
      EncodedOneMore(s[1..], c);
    }
  }

  /** Where no segment is a dot segment, the path state only splits and encodes. */
  lemma {:induction false} PathStateSplits(s: string, raw: string, path: seq<string>)
    requires Free(raw, Slash())
    requires forall i :: 0 <= i < |s| ==> s[i] != '\\' && s[i] != '?' && s[i] != '#'
    requires forall segment :: segment in Split(raw + s, Slash()) ==> !IsDots(segment)
    ensures PathState(s, Encoded(raw), path) == path + EncodedAll(Split(raw + s, Slash()))
    decreases |s|
  {
    if s == "" {
      assert raw + s == raw;
      SplitFree(raw, Slash());
      assert raw in Split(raw + s, Slash());
      EncodingKeepsDots(raw);
      assert EncodedAll([raw]) == [Encoded(raw)];
    } else if s[0] == '/' {
      SegmentEnds(s, raw, path);
    } else {
      EncodedOneMore(raw, s[0]);
      assert (raw + [s[0]]) + s[1..] == raw + s;
      PathStateSplits(s[1..], raw + [s[0]], path);
    }
  }

  lemma {:induction false} SegmentEnds(s: string, raw: string, path: seq<string>)
    requires s != "" && s[0] == '/' && Free(raw, Slash())
    requires forall i :: 0 <= i < |s| ==> s[i] != '\\' && s[i] != '?' && s[i] != '#'
    requires forall segment :: segment in Split(raw + s, Slash()) ==> !IsDots(segment)
    ensures PathState(s, Encoded(raw), path) == path + EncodedAll(Split(raw + s, Slash()))
    decreases |s|, 0
  {
    var rest := s[1..];
    var segments := Split(rest, Slash());
    SplitAtSlash(raw, s);
    assert raw in [raw] + segments;
    KeepSegment(s, raw, path);
    assert "" + rest == rest && Encoded("") == "";
    assert forall segment :: segment in segments ==> segment in [raw] + segments;
    PathStateSplits(rest, "", path + [Encoded(raw)]);
    ConsEncoded(raw, segments, path);
  }

  lemma SplitAtSlash(raw: string, s: string)
    requires s != "" && s[0] == '/' && Free(raw, Slash())
    ensures Split(raw + s, Slash()) == [raw] + Split(s[1..], Slash())
  {
    assert raw + s == raw + ['/'] + s[1..];
    SplitFirst(raw, '/', s[1..], Slash());
  }

  lemma KeepSegment(s: string, raw: string, path: seq<string>)
    requires s != "" && s[0] == '/' && !IsDots(raw)
    ensures PathState(s, Encoded(raw), path) == PathState(s[1..], "", path + [Encoded(raw)])
  {
    EncodingKeepsDots(raw);
  }

  lemma ConsEncoded(raw: string, segments: seq<string>, path: seq<string>)
    ensures (path + [Encoded(raw)]) + EncodedAll(segments) == path + EncodedAll([raw] + segments)
  {
    assert ([raw] + segments)[1..] == segments;
  }

  /** A character read before a slash is read without it too. */
  lemma TakeCharBeforeSlash(a: string, b: string)
    requires a != "" && a[0] != '/' && TakeChar(a + ['/'] + b).Some?
    ensures TakeChar(a) == TakeChar(a + ['/'] + b)
  {
    var s := a + ['/'] + b;
    assert s[0] == a[0] && s[|a|] == '/';
    TakeCharReadsPrefix(s, a);
  }

  /** Only the text a character takes is read for it. */
  lemma TakeCharReadsPrefix(s: string, a: string)
    requires s != "" && a != "" && a <= s && TakeChar(s).Some? && (a == s || (s[|a|] != '%' && !IsHex(s[|a|])))
    ensures TakeChar(a) == TakeChar(s)
  {
    var n := TakeChar(s).value.length;
    assert n <= |a|;
    if s[0] == '%' {
      EscapesReadPrefix(s, a, n);
    }
  }

  lemma EscapesReadPrefix(s: string, a: string, n: nat)
    requires a <= s && n <= |a|
    ensures forall at: nat :: at + 3 <= n ==> EscapedByte(a, at) == EscapedByte(s, at) && Continuation(a, at) == Continuation(s, at)
  {
  }

  lemma {:induction false} DecodeAroundSlash(a: string, b: string)
    requires Free(a, Slash()) && DecodeURIComponent(a + ['/'] + b).Some?
    ensures DecodeURIComponent(a).Some? && DecodeURIComponent(b).Some?
    ensures DecodeURIComponent(a + ['/'] + b).value == DecodeURIComponent(a).value + ['/'] + DecodeURIComponent(b).value
    decreases |a|
  {
    var s := a + ['/'] + b;
    DecodeFirst(s);
    if a == "" {
      assert s[0] == '/' && s[1..] == b;
    } else {
      TakeCharBeforeSlash(a, b);
      var n := TakeChar(a).value.length;
      assert s[n..] == a[n..] + ['/'] + b;
      DecodeAroundSlash(a[n..], b);
      DecodedOneMore(a, TakeChar(a).value);
    }
  }

  lemma DecodeFirst(s: string)
    requires s != "" && DecodeURIComponent(s).Some?
    ensures TakeChar(s).Some? && DecodeURIComponent(s[TakeChar(s).value.length..]).Some?
    ensures DecodeURIComponent(s).value == [TakeChar(s).value.c] + DecodeURIComponent(s[TakeChar(s).value.length..]).value
  {
  }

  lemma DecodedOneMore(s: string, first: Decoded)
    requires s != "" && TakeChar(s) == Some(first) && DecodeURIComponent(s[first.length..]).Some?
    ensures DecodeURIComponent(s) == Some([first.c] + DecodeURIComponent(s[first.length..]).value)
  {
  }

  /** Where a raw segment is made of dots, so is a decoded one. */
  lemma {:induction false} DotSegmentDecodes(path: string, dots: string)
    requires DecodeURIComponent(path).Some? && (dots == "." || dots == "..")
    requires dots in Split(path, Slash())
    ensures dots in Split(DecodeURIComponent(path).value, AnySlash())
    decreases |path|
  {
    var a, b := FirstSegment(path);
    if a == path {
      SplitFree(path, Slash());
      DecodeDots(dots);
    } else {
      SplitFirst(a, '/', b, Slash());
      DecodeAroundSlash(a, b);
      SplitAround(DecodeURIComponent(a).value, '/', DecodeURIComponent(b).value, AnySlash());
      if dots == a {
        DecodeDots(dots);
      } else {
        DotSegmentDecodes(b, dots);
      }
    }
  }

  lemma DecodeDots(dots: string)
    requires dots == "." || dots == ".."
    ensures DecodeURIComponent(dots) == Some(dots) && Split(dots, AnySlash()) == [dots]
  {
    SplitFree(dots, AnySlash());
    var last := dots[|dots| - 1..];
    assert last == "." && last[1..] == "";
    assert TakeChar(last) == Some(Decoded('.', 1)) && TakeChar(dots) == Some(Decoded('.', 1));
    assert DecodeURIComponent(last) == Some("." + "");
    assert dots != last ==> dots[1..] == last && dots == "." + last;
  }

  lemma {:induction false} FirstSegment(path: string) returns (a: string, b: string)
    ensures Free(a, Slash())
    ensures a == path || path == a + ['/'] + b
  {
    if path == "" {
      a, b := "", "";
    } else if path[0] == '/' {
      a, b := "", path[1..];
    } else {
      a, b := FirstSegment(path[1..]);
      a := [path[0]] + a;
    }
  }

  /** What follows the path does not matter to the path state. */
  lemma {:induction false} QueryIsNotRead(s: string, buffer: string, path: seq<string>)
    ensures PathState(s, buffer, path) == PathState(StripQuery(s), buffer, path)
    decreases |s|
  {
    if s != "" && s[0] != '?' && s[0] != '#' {
      assert StripQuery(s)[1..] == StripQuery(s[1..]);
      if s[0] != '/' && s[0] != '\\' {
        QueryIsNotRead(s[1..], buffer + PercentEncode(s[0]), path);
      } else {
        var path' :=
          if IsDoubleDot(buffer) then (if path == [] then [] else path[..|path| - 1])
          else if IsSingleDot(buffer) then path
          else path + [buffer];
        assert path' + [] == path';
        QueryIsNotRead(s[1..], "", path');
      }
    }
  }

  lemma DotSegmentIsSeen(path: string, segment: string)
    requires segment in Split(path, Slash()) && IsDots(segment) && DecodeURIComponent(path).Some?
    ensures
      HasEscape(path, '2', 'e', 'E') ||
      "." in Split(DecodeURIComponent(path).value, AnySlash()) || ".." in Split(DecodeURIComponent(path).value, AnySlash())
  {
    if segment == "." || segment == ".." {
      DotSegmentDecodes(path, segment);
    } else {
      var i := EscapedDotAt(segment);
      var at := SegmentAt(path, segment);
      var here := path[at..at + |segment|];
      assert here[i] == path[at + i] && here[i + 1] == path[at + i + 1] && here[i + 2] == path[at + i + 2];
    }
  }

  lemma AcceptedHasNoDots(target: string)
    requires !IsUnsafeGatewayProxyPath(target)
    ensures forall segment :: segment in Split(StripQuery(target), Slash()) ==> !IsDots(segment)
  {
    forall segment | segment in Split(StripQuery(target), Slash()) ensures !IsDots(segment) {
      if IsDots(segment) {
        DotSegmentIsSeen(StripQuery(target), segment);
      }
    }
  }

  lemma EscapedDotAt(segment: string) returns (i: nat)
    requires IsDots(segment) && segment != "." && segment != ".."
    ensures i + 2 < |segment| && segment[i] == '%' && segment[i + 1] == '2' && (segment[i + 2] == 'e' || segment[i + 2] == 'E')
  {
    i := if segment[0] == '.' then 1 else 0;
  }

  lemma {:induction false} SegmentAt(path: string, segment: string) returns (at: nat)
    requires segment in Split(path, Slash())
    ensures at + |segment| <= |path| && path[at..at + |segment|] == segment
    decreases |path|
  {
    var a, b := FirstSegment(path);
    if a == path {
      SplitFree(path, Slash());
      at := 0;
    } else {
      SplitFirst(a, '/', b, Slash());
      if segment == a {
        at := 0;
      } else {
        var inB := SegmentAt(b, segment);
        at := |a| + 1 + inB;
      }
    }
  }

  const MOUNT := "/openclaw/"

  ghost predicate HasNoControls(target: string) {
    forall i :: 0 <= i < |target| ==> target[i] > ' '
  }

  /**
   * A target the guard accepts keeps its segments, up to percent-encoding, through the URL parser, and so stays below the
   * mount. A request target holds no spaces or control characters (section 3.2 of RFC 9112).
   */
  lemma AcceptedPathStaysMounted(target: string)
    requires !IsUnsafeGatewayProxyPath(target) && MOUNT <= target && HasNoControls(target)
    ensures
      var segments := Split(StripQuery(target)[1..], Slash());
      UrlPath(target) == EncodedAll(segments) && |segments| >= 2 && UrlPath(target)[0] == "openclaw"
  {
    PrefixIsInPath(MOUNT, target);
    AcceptedIsOnlySplit(target);
    FirstIsTheMount(StripQuery(target));
  }

  lemma {:induction false} NothingToClean(s: string)
    requires HasNoControls(s)
    ensures Stripped(s) == s && WithoutBreaks(s) == s
  {
    if s != "" {
      NothingToClean(s[1..]);
      assert s == [s[0]] + s[1..];
    }
  }

  /** With a tab between them two dots pass the guard, and the parser makes them one dot segment. */
  lemma TabHidesDots()
    ensures var target := MOUNT + ".\t./x"; !IsUnsafeGatewayProxyPath(target) && UrlPath(target) == ["x"]
  {
    var target := MOUNT + ".\t./x";
    GuardPassesTab(target);
    ParserDropsTab(target);
  }

  lemma GuardPassesTab(target: string)
    requires target == MOUNT + ".\t./x"
    ensures !IsUnsafeGatewayProxyPath(target)
  {
    var dots := ".\t.";
    assert target == "/" + ("openclaw" + ("/" + (dots + ("/" + "x"))));
    assert IsPlain("openclaw") && IsPlain(dots) && IsPlain("x");
    PiecesOfThree("openclaw", dots, "x");
    PlainIsUnsafeExactlyWhen(target);
  }

  ghost predicate IsPlain(s: string) {
    forall i :: 0 <= i < |s| ==> s[i] != '%' && s[i] != '/' && s[i] != '\\' && s[i] != '?' && s[i] != '#'
  }

  lemma PiecesOfThree(a: string, b: string, c: string)
    requires IsPlain(a) && IsPlain(b) && IsPlain(c)
    ensures Split("/" + (a + ("/" + (b + ("/" + c)))), AnySlash()) == ["", a, b, c]
  {
    SplitFree(c, AnySlash());
    OnePiece(b, c);
    OnePiece(a, b + ("/" + c));
    OnePiece("", a + ("/" + (b + ("/" + c))));
    assert "" + ("/" + (a + ("/" + (b + ("/" + c))))) == "/" + (a + ("/" + (b + ("/" + c))));
  }

  lemma OnePiece(a: string, rest: string)
    requires IsPlain(a)
    ensures Split(a + ("/" + rest), AnySlash()) == [a] + Split(rest, AnySlash())
  {
    SplitFirst(a, '/', rest, AnySlash());
    assert a + ("/" + rest) == a + ['/'] + rest;
  }

  lemma PlainIsUnsafeExactlyWhen(target: string)
    requires forall i :: 0 <= i < |target| ==> target[i] != '%' && target[i] != '\\' && target[i] != '?' && target[i] != '#'
    ensures IsUnsafeGatewayProxyPath(target) <==> "." in Split(target, AnySlash()) || ".." in Split(target, AnySlash())
  {
    PrefixIsInPath(target, target);
    DecodePlain(target);
  }

  lemma ParserDropsTab(target: string)
    requires target == MOUNT + ".\t./x"
    ensures target[0] == '/' && UrlPath(target) == ["x"]
  {
    TabIsCleaned(target);
    NamesOfExample();
    DotsOfExample();
    ClimbsOut("openclaw", "..", "x");
  }

  lemma NamesOfExample()
    ensures IsSegment("openclaw") && Encoded("openclaw") == "openclaw" && !IsDots("openclaw")
    ensures IsSegment("x") && Encoded("x") == "x" && !IsDots("x")
  {
    UnencodedStays("openclaw");
    UnencodedStays("x");
  }

  lemma DotsOfExample()
    ensures IsSegment("..") && Encoded("..") == ".." && IsDoubleDot("..")
  {
    UnencodedStays("..");
  }

  lemma TabIsCleaned(target: string)
    requires target == MOUNT + ".\t./x"
    ensures target[0] == '/' && Cleaned(target)[1..] == "openclaw" + ("/" + (".." + ("/" + "x")))
  {
    StrippedAlready(target);
    BreakDropped(MOUNT + ".", "./x");
    assert target == (MOUNT + ".") + "\t" + "./x";
    assert (MOUNT + ".") + "./x" == "/" + ("openclaw" + ("/" + (".." + ("/" + "x"))));
  }

  lemma StrippedAlready(target: string)
    requires target == MOUNT + ".\t./x"
    ensures target[0] == '/' && Stripped(target) == target
  {
    assert target[|target| - 1] == 'x';
  }

  /** A segment, a dot segment and a last one leave the last one. */
  lemma ClimbsOut(a: string, dots: string, c: string)
    requires IsSegment(a) && IsSegment(dots) && IsSegment(c) && IsDoubleDot(dots) && !IsDots(a) && !IsDots(c)
    requires Encoded(a) == a && Encoded(dots) == dots && Encoded(c) == c
    ensures PathState(a + ("/" + (dots + ("/" + c))), "", []) == [c]
  {
    SegmentIsAdded(a, dots + ("/" + c), []);
    assert [] + [a] == [a];
    DotsDropOne(dots, c, [a]);
    assert [a][..0] == [];
    ReadSegment(c, "", []);
    assert c + "" == c && [] + [c] == [c];
  }

  lemma SegmentIsAdded(a: string, rest: string, path: seq<string>)
    requires IsSegment(a) && !IsDots(a) && Encoded(a) == a
    ensures PathState(a + ("/" + rest), "", path) == PathState(rest, "", path + [a])
  {
    ReadSegment(a, "/" + rest, path);
    assert ("/" + rest)[1..] == rest;
  }

  lemma DotsDropOne(dots: string, rest: string, path: seq<string>)
    requires IsSegment(dots) && IsDoubleDot(dots) && Encoded(dots) == dots && path != []
    ensures PathState(dots + ("/" + rest), "", path) == PathState(rest, "", path[..|path| - 1])
  {
    ReadSegment(dots, "/" + rest, path);
    assert ("/" + rest)[1..] == rest;
    assert path[..|path| - 1] + [] == path[..|path| - 1];
  }

  lemma {:induction false} BreakDropped(before: string, after: string)
    requires HasNoControls(before) && HasNoControls(after)
    ensures WithoutBreaks(before + "\t" + after) == before + after
  {
    if before == "" {
      NothingToClean(after);
      assert "" + "\t" + after == "\t" + after;
    } else {
      BreakDropped(before[1..], after);
      assert (before + "\t" + after)[1..] == before[1..] + "\t" + after;
      assert before + after == [before[0]] + (before[1..] + after);
    }
  }

  /** The characters of one segment are read into the buffer. */
  lemma ReadSegment(segment: string, tail: string, path: seq<string>)
    requires IsSegment(segment) && Encoded(segment) == segment
    ensures PathState(segment + tail, "", path) == PathState(tail, segment, path)
  {
    ReadInto(segment, tail, "", path);
    assert "" + Encoded(segment) == segment;
  }

  ghost predicate IsSegment(s: string) {
    forall i :: 0 <= i < |s| ==> s[i] != '/' && s[i] != '\\' && s[i] != '?' && s[i] != '#'
  }

  lemma {:induction false} ReadInto(s: string, tail: string, buffer: string, path: seq<string>)
    requires IsSegment(s)
    ensures PathState(s + tail, buffer, path) == PathState(tail, buffer + Encoded(s), path)
    decreases |s|
  {
    if s == "" {
      assert s + tail == tail && buffer + "" == buffer;
    } else {
      assert (s + tail)[1..] == s[1..] + tail;
      ReadInto(s[1..], tail, buffer + PercentEncode(s[0]), path);
      assert buffer + PercentEncode(s[0]) + Encoded(s[1..]) == buffer + Encoded(s);
    }
  }

  lemma {:induction false} DecodePlain(s: string)
    requires '%' !in s
    ensures DecodeURIComponent(s) == Some(s)
  {
    if s != "" {
      assert s[0] in s;
      DecodePlain(s[1..]);
      assert s == [s[0]] + s[1..];
    }
  }

  lemma FirstIsTheMount(path: string)
    requires MOUNT <= path
    ensures var segments := Split(path[1..], Slash()); |segments| >= 2 && EncodedAll(segments)[0] == "openclaw"
  {
    var name, rest := NameAndRest(path);
    SplitAtSlash(name, rest);
    UnencodedStays(name);
  }

  lemma NameAndRest(path: string) returns (name: string, rest: string)
    requires MOUNT <= path
    ensures path[1..] == name + rest && name == "openclaw" && rest != "" && rest[0] == '/'
  {
    name, rest := path[1..9], path[9..];
    assert path[..10] == MOUNT;
    assert name == MOUNT[1..9];
  }

  lemma ReadsUncleaned(target: string)
    requires target != "" && target[0] == '/' && HasNoControls(target)
    ensures UrlPath(target) == PathState(target[1..], "", [])
  {
    NothingToClean(target);
  }

  lemma AcceptedIsOnlySplit(target: string)
    requires !IsUnsafeGatewayProxyPath(target) && StripQuery(target) != "" && target[0] == '/' && HasNoControls(target)
    ensures UrlPath(target) == EncodedAll(Split(StripQuery(target)[1..], Slash()))
  {
    ReadsUncleaned(target);
    AcceptedPathState(target);
  }

  lemma AcceptedPathState(target: string)
    requires !IsUnsafeGatewayProxyPath(target) && StripQuery(target) != "" && target[0] == '/'
    ensures PathState(target[1..], "", []) == EncodedAll(Split(StripQuery(target)[1..], Slash()))
  {
    var path := StripQuery(target);
    var below := path[1..];
    QueryIsNotRead(target[1..], "", []);
    assert below == StripQuery(target[1..]);
    AcceptedHasNoDots(target);
    assert "" + path == path && "" + below == below && Encoded("") == "";
    SplitAtSlash("", path);
    assert forall segment :: segment in Split(below, Slash()) ==> segment in Split(path, Slash());
    assert forall i :: 0 <= i < |below| ==> below[i] in path;
    PathStateSplits(below, "", []);
  }

  lemma {:induction false} PrefixIsInPath(prefix: string, target: string)
    requires prefix <= target && forall i :: 0 <= i < |prefix| ==> prefix[i] != '?' && prefix[i] != '#'
    ensures prefix <= StripQuery(target)
  {
    if prefix != "" {
      PrefixIsInPath(prefix[1..], target[1..]);
    }
  }

  lemma {:induction false} UnencodedStays(s: string)
    requires forall i :: 0 <= i < |s| ==> !IsPathEncoded(s[i])
    ensures Encoded(s) == s
  {
    if s != "" {
      UnencodedStays(s[1..]);
    }
  }
}
