/**
 * engines.node ranges: the scanner and parser of their text, the expansion of partial versions, and what a range says of
 * a version. A scanned term keeps the spelling it was read from, so text and terms determine each other.
 */
module EngineRange {
  import opened Wrappers
  import opened Text

  datatype Op = Ge | Gt | Le | Lt | Eq | Bare

  /** One comparator as written: `>= v24.16 `. `parts` are the digits after the major version, `after` the space behind. */
  datatype Term = Term(op: Op, gap: string, v: bool, major: Digits, parts: seq<Digits>, after: string)

  type Digits = s: string | IsDigits(s) witness "0"

  /** Terms joined by "and", behind leading space. */
  datatype Alternative = Alternative(before: string, terms: seq<Term>)

  datatype Triple = Triple(major: nat, minor: nat, patch: nat)

  datatype Comparator = Comparator(op: Op, version: Triple)

  datatype Runtime = Runtime(triple: Triple, prerelease: bool)

  // ---- Spelling ----

  function OpText(op: Op): string {
    match op
    case Ge => ">="
    case Gt => ">"
    case Le => "<="
    case Lt => "<"
    case Eq => "="
    case Bare => ""
  }

  function PartsText(parts: seq<Digits>, tail: string): string {
    if parts == [] then tail else "." + (parts[0] + PartsText(parts[1..], tail))
  }

  function VersionText(t: Term, tail: string): string {
    (if t.v then "v" else "") + (t.major + PartsText(t.parts, t.after + tail))
  }

  /** The term's text, followed by `tail`. */
  function TermText(t: Term, tail: string): string {
    OpText(t.op) + (t.gap + VersionText(t, tail))
  }

  function TermsText(terms: seq<Term>): string {
    if terms == [] then "" else TermText(terms[0], TermsText(terms[1..]))
  }

  function AlternativeText(a: Alternative): string {
    a.before + TermsText(a.terms)
  }

  function Texts(range: seq<Alternative>): (r: seq<string>)
    ensures |r| == |range|
  {
    if range == [] then [] else [AlternativeText(range[0])] + Texts(range[1..])
  }

  function JoinBars(pieces: seq<string>): string {
    if pieces == [] then "" else if |pieces| == 1 then pieces[0] else pieces[0] + ("||" + JoinBars(pieces[1..]))
  }

  function RangeText(range: seq<Alternative>): string {
    JoinBars(Texts(range))
  }

  // ---- The grammar ----

  ghost predicate AllSpace(s: string) {
    forall i :: 0 <= i < |s| ==> IsSpace(s[i])
  }

  ghost predicate IsTerm(t: Term) {
    AllSpace(t.gap) && AllSpace(t.after) && |t.parts| <= 2 && (t.op == Bare ==> t.gap == "")
  }

  /** Two terms may touch unless the second would continue the first one's number. */
  ghost predicate AreTerms(terms: seq<Term>) {
    forall i :: 0 <= i < |terms| ==>
      IsTerm(terms[i]) && (i + 1 < |terms| && terms[i].after == "" ==> terms[i + 1].op != Bare || terms[i + 1].v)
  }

  ghost predicate IsAlternative(a: Alternative) {
    AllSpace(a.before) && a.terms != [] && AreTerms(a.terms)
  }

  ghost predicate IsRange(range: seq<Alternative>) {
    range != [] && forall i :: 0 <= i < |range| ==> IsAlternative(range[i])
  }

  // ---- The scanner ----

  function Digit(): char -> bool {
    (c: char) => '0' <= c <= '9'
  }

  function SpaceChar(): char -> bool {
    (c: char) => IsSpace(c)
  }

  function TakeWhile(s: string, p: char -> bool): (r: (string, string))
    ensures s == r.0 + r.1
    ensures forall i :: 0 <= i < |r.0| ==> p(r.0[i])
    ensures r.1 != "" ==> !p(r.1[0])
  {
    if s == "" || !p(s[0]) then ("", s)
    else
      var rest := TakeWhile(s[1..], p);
      ([s[0]] + rest.0, rest.1)
  }

  function TakeOp(s: string): (r: (Op, string))
    ensures s == OpText(r.0) + r.1
  {
    if s == "" then (Bare, s)
    else if s[0] == '=' then (Eq, s[1..])
    else if s[0] == '>' then (if |s| > 1 && s[1] == '=' then (Ge, s[2..]) else (Gt, s[1..]))
    else if s[0] == '<' then (if |s| > 1 && s[1] == '=' then (Le, s[2..]) else (Lt, s[1..]))
    else (Bare, s)
  }

  /** Up to `most` groups of a dot and digits. */
  function TakeParts(s: string, most: nat): (r: (seq<Digits>, string))
    ensures |r.0| <= most && s == PartsText(r.0, r.1) && |r.1| <= |s|
    ensures s != "" && !Digit()(s[0]) && r.1 != "" ==> !Digit()(r.1[0])
    decreases most
  {
    if most == 0 || s == "" || s[0] != '.' || TakeWhile(s[1..], Digit()).0 == "" then ([], s)
    else
      var part := TakeWhile(s[1..], Digit());
      var more := TakeParts(part.1, most - 1);
      ([part.0] + more.0, more.1)
  }

  datatype Scanned = Scanned(before: string, term: Term, rest: string)

  /** The version of a term, its `v` and the space behind it. */
  function TakeVersion(op: Op, gap: string, s: string): (r: Option<(Term, string)>)
    ensures r.Some? ==>
      var (t, rest) := r.value;
      t.op == op && t.gap == gap && |t.parts| <= 2 && AllSpace(t.after) && s == VersionText(t, rest) && |rest| < |s| && MayFollow(t, rest)
  {
    var v := s != "" && s[0] == 'v';
    var major := TakeWhile(if v then s[1..] else s, Digit());
    if major.0 == "" then None
    else
      var parts := TakeParts(major.1, 2);
      var after := TakeWhile(parts.1, SpaceChar());
      Some((Term(op, gap, v, major.0, parts.0, after.0), after.1))
  }

  function Scan(s: string): (r: Option<Scanned>) {
    var before := TakeWhile(s, SpaceChar());
    var op := TakeOp(before.1);
    var gap := TakeWhile(op.1, SpaceChar());
    var version := TakeVersion(op.0, gap.0, gap.1);
    if version.None? then None else Some(Scanned(before.0, version.value.0, version.value.1))
  }

  /** What is left after a term was scanned. */
  ghost predicate MayFollow(t: Term, rest: string) {
    rest != "" ==> !IsSpace(rest[0]) && (t.after == "" ==> !Digit()(rest[0]))
  }

  lemma {:induction false} TakeAll(a: string, b: string, p: char -> bool)
    requires (forall i :: 0 <= i < |a| ==> p(a[i])) && (b != "" ==> !p(b[0]))
    ensures TakeWhile(a + b, p) == (a, b)
  {
    if a == "" {
      assert a + b == b;
    } else {
      TakeAll(a[1..], b, p);
      assert (a + b)[1..] == a[1..] + b && a == [a[0]] + a[1..];
    }
  }

  /** Nothing of `tail` can be read as part of what stands before it. */
  ghost predicate Stops(tail: string) {
    tail != "" ==> !IsSpace(tail[0]) && !Digit()(tail[0]) && tail[0] != '.'
  }

  lemma {:induction false} TakePartsBack(parts: seq<Digits>, tail: string, most: nat)
    requires |parts| <= most
    requires tail != "" ==> !Digit()(tail[0]) && (tail[0] != '.' || |parts| == most)
    ensures TakeParts(PartsText(parts, tail), most) == (parts, tail)
  {
    if parts != [] {
      var more := PartsText(parts[1..], tail);
      TakePartsBack(parts[1..], tail, most - 1);
      TakeAll(parts[0], more, Digit());
      assert PartsText(parts, tail)[1..] == parts[0] + more;
      assert more != "" ==> !Digit()(more[0]);
      assert parts == [parts[0]] + parts[1..];
    }
  }

  /** What is spelled is what is scanned. */
  lemma ScanTerm(before: string, t: Term, tail: string)
    requires AllSpace(before) && IsTerm(t) && (tail != "" ==> !IsSpace(tail[0])) && (t.after == "" ==> Stops(tail))
    ensures Scan(before + TermText(t, tail)) == Some(Scanned(before, t, tail))
  {
    TakeVersionBack(t, tail);
    TermStarts(t, tail);
    TakeOpAndGap(t.op, t.gap, VersionText(t, tail));
    TakeAll(before, TermText(t, tail), SpaceChar());
  }

  lemma TakeOpAndGap(op: Op, gap: string, text: string)
    requires AllSpace(gap) && text != "" && (text[0] == 'v' || Digit()(text[0])) && (op == Bare ==> gap == "")
    ensures TakeOp(OpText(op) + (gap + text)) == (op, gap + text)
    ensures TakeWhile(gap + text, SpaceChar()) == (gap, text)
  {
    TakeAll(gap, text, SpaceChar());
    assert (gap + text)[0] == if gap == "" then text[0] else gap[0];
    TakeOpBack(op, gap + text);
  }

  lemma TakeVersionBack(t: Term, tail: string)
    requires IsTerm(t) && (tail != "" ==> !IsSpace(tail[0])) && (t.after == "" ==> Stops(tail))
    ensures
      var text := VersionText(t, tail);
      (text[0] == 'v' || Digit()(text[0])) && TakeVersion(t.op, t.gap, text) == Some((t, tail))
  {
    var afterText := t.after + tail;
    assert afterText != "" ==> afterText[0] == if t.after == "" then tail[0] else t.after[0];
    var partsText := PartsText(t.parts, afterText);
    TakeAll(t.after, tail, SpaceChar());
    TakePartsBack(t.parts, afterText, 2);
    assert partsText != "" ==> !Digit()(partsText[0]);
    TakeAll(t.major, partsText, Digit());
    var text := VersionText(t, tail);
    assert t.v ==> text[1..] == t.major + partsText;
    assert !t.v ==> text == t.major + partsText;
  }

  lemma TakeOpBack(op: Op, rest: string)
    requires rest != "" ==> rest[0] != '<' && rest[0] != '>' && rest[0] != '='
    ensures TakeOp(OpText(op) + rest) == (op, rest)
  {
    var s := OpText(op) + rest;
    assert s[|OpText(op)|..] == rest;
  }

  lemma ScanSpells(s: string)
    requires Scan(s).Some?
    ensures
      var x := Scan(s).value;
      AllSpace(x.before) && IsTerm(x.term) && s == x.before + TermText(x.term, x.rest) && |x.rest| < |s| && MayFollow(x.term, x.rest)
  {
    var before := TakeWhile(s, SpaceChar());
    var op := TakeOp(before.1);
    var gap := TakeWhile(op.1, SpaceChar());
    assert op.0 == Bare ==> before.1 == op.1;
  }

  // ---- The parser ----

  function Terms(s: string): Option<seq<Term>>
    decreases |s|
  {
    if s == "" then Some([])
    else if Scan(s).None? then None
    else
      ScanSpells(s);
      var more := Terms(Scan(s).value.rest);
      if more.None? then None else Some([Scan(s).value.term] + more.value)
  }

  function NumberOf(digits: Digits): nat {
    DigitsValue(digits)
  }

  function ExpandComparator(t: Term): (r: seq<Comparator>)
    ensures r != []
  {
    var major := NumberOf(t.major);
    var minor := if |t.parts| > 0 then NumberOf(t.parts[0]) else 0;
    var patch := if |t.parts| > 1 then NumberOf(t.parts[1]) else 0;
    var full := Triple(major, minor, patch);
    var next := if |t.parts| == 0 then Triple(major + 1, 0, 0) else Triple(major, minor + 1, 0);
    var partial := |t.parts| < 2;
    match t.op
    case Ge => [Comparator(Ge, full)]
    case Lt => [Comparator(Lt, full)]
    case Gt => if partial then [Comparator(Ge, next)] else [Comparator(Gt, full)]
    case Le => if partial then [Comparator(Lt, next)] else [Comparator(Le, full)]
    case _ => if partial then [Comparator(Ge, full), Comparator(Lt, next)] else [Comparator(Eq, full)]
  }

  function Expanded(terms: seq<Term>): seq<Comparator> {
    if terms == [] then [] else ExpandComparator(terms[0]) + Expanded(terms[1..])
  }

  /** The pieces between "||"s, as String.split finds them from the left. */
  function SplitBars(s: string): (pieces: seq<string>)
    ensures |pieces| >= 1
  {
    if |s| >= 2 && s[0] == '|' && s[1] == '|' then [""] + SplitBars(s[2..])
    else if s == "" then [""]
    else
      var rest := SplitBars(s[1..]);
      [[s[0]] + rest[0]] + rest[1..]
  }

  function ParsedAlternative(piece: string): Option<seq<Comparator>> {
    var terms := Terms(piece);
    if terms.None? || terms.value == [] then None else Some(Expanded(terms.value))
  }

  function ParsedPieces(pieces: seq<string>): Option<seq<seq<Comparator>>> {
    if pieces == [] then Some([])
    else
      var first, more := ParsedAlternative(pieces[0]), ParsedPieces(pieces[1..]);
      if first.None? || more.None? then None else Some([first.value] + more.value)
  }

  function ParsedRange(spec: string): Option<seq<seq<Comparator>>> {
    if Trim(spec) == "" then None else ParsedPieces(SplitBars(Trim(spec)))
  }

  method ParseEngineRange(spec: string) returns (r: Option<seq<seq<Comparator>>>)
    ensures r == ParsedRange(spec)
  {
    var text := Trim(spec);
    if text == "" {
      return None;
    }
    var alternatives: seq<seq<Comparator>> := [];
    var pieces := SplitBars(text);
    assert pieces[0..] == pieces;
    assert ParsedPieces(pieces).Some? ==> [] + ParsedPieces(pieces).value == ParsedPieces(pieces).value;
    for i := 0 to |pieces|
      invariant ParsedPieces(pieces) == Prepended(alternatives, ParsedPieces(pieces[i..]))
    {
      var comparators := ParseAlternative(pieces[i]);
      PiecesFrom(pieces, i, alternatives);
      if comparators.None? {
        return None;
      }
      alternatives := alternatives + [comparators.value];
    }
    assert pieces[|pieces|..] == [] && alternatives + [] == alternatives;
    r := Some(alternatives);
  }

  lemma PiecesFrom(pieces: seq<string>, i: nat, read: seq<seq<Comparator>>)
    requires i < |pieces|
    ensures
      var first := ParsedAlternative(pieces[i]);
      Prepended(read, ParsedPieces(pieces[i..])) ==
      if first.None? then None else Prepended(read + [first.value], ParsedPieces(pieces[i + 1..]))
  {
    var more := ParsedPieces(pieces[i + 1..]);
    assert pieces[i..][0] == pieces[i] && pieces[i..][1..] == pieces[i + 1..];
    if more.Some? && ParsedAlternative(pieces[i]).Some? {
      AppendPrepend(read, ParsedAlternative(pieces[i]).value, more.value);
    }
  }

  /** `left` is the text from the scanner's last index on. */
  method ParseAlternative(text: string) returns (r: Option<seq<Comparator>>)
    ensures r == ParsedAlternative(text)
  {
    var comparators: seq<Comparator> := [];
    ghost var read: seq<Term> := [];
    var left := text;
    assert Terms(text).Some? ==> [] + Terms(text).value == Terms(text).value;
    while left != ""
      invariant HasRead(text, left, read)
      invariant comparators == Expanded(read) && (read == [] <==> comparators == [])
      decreases |left|
    {
      var scanned := Scan(left);
      if scanned.None? {
        Stuck(text, left, read);
        if comparators != [] && TakeWhile(left, SpaceChar()).1 == "" {
          return Some(comparators);
        }
        return None;
      }
      ReadOneMore(text, left, read);
      ExpandedOneMore(read, scanned.value.term);
      comparators := comparators + ExpandComparator(scanned.value.term);
      read := read + [scanned.value.term];
      left := scanned.value.rest;
    }
    NothingMore(text, read);
    r := if comparators != [] then Some(comparators) else None;
  }

  function Prepended<T>(read: seq<T>, more: Option<seq<T>>): Option<seq<T>> {
    if more.None? then None else Some(read + more.value)
  }

  ghost predicate HasRead(text: string, rest: string, read: seq<Term>) {
    AreTerms(read) && (read != [] ==> MayFollow(read[|read| - 1], rest)) && Terms(text) == Prepended(read, Terms(rest))
  }

  lemma ReadOneMore(text: string, rest: string, read: seq<Term>)
    requires HasRead(text, rest, read) && Scan(rest).Some?
    ensures var x := Scan(rest).value; HasRead(text, x.rest, read + [x.term]) && |x.rest| < |rest|
  {
    ScanSpells(rest);
    var x := Scan(rest).value;
    TermFollows(read, x, rest);
    TermsAfterScan(rest);
    if Terms(x.rest).Some? {
      AppendPrepend(read, x.term, Terms(x.rest).value);
    }
  }

  lemma TermsAfterScan(s: string)
    requires Scan(s).Some?
    ensures Terms(s) == Prepended([Scan(s).value.term], Terms(Scan(s).value.rest))
  {
    ScanSpells(s);
  }

  lemma AppendPrepend<T>(read: seq<T>, t: T, more: seq<T>)
    ensures read + ([t] + more) == (read + [t]) + more
  {
  }

  /** Space is left only before the first term, so text that cannot be scanned is outside the grammar. */
  lemma Stuck(text: string, rest: string, read: seq<Term>)
    requires HasRead(text, rest, read) && rest != "" && Scan(rest).None?
    ensures ParsedAlternative(text) == None
    ensures read != [] ==> TakeWhile(rest, SpaceChar()).1 != ""
  {
  }

  lemma NothingMore(text: string, read: seq<Term>)
    requires HasRead(text, "", read)
    ensures ParsedAlternative(text) == if read == [] then None else Some(Expanded(read))
  {
    assert Terms("") == Some([]);
    assert read + [] == read;
  }

  lemma TermFollows(read: seq<Term>, x: Scanned, s: string)
    requires AreTerms(read) && (read != [] ==> MayFollow(read[|read| - 1], s))
    requires AllSpace(x.before) && IsTerm(x.term) && s == x.before + TermText(x.term, x.rest)
    ensures AreTerms(read + [x.term])
  {
    if read != [] && x.term.op == Bare && !x.term.v {
      TermStarts(x.term, x.rest);
      StartsWithText(x.before, TermText(x.term, x.rest));
    }
  }

  lemma StartsWithText(space: string, text: string)
    requires AllSpace(space) && text != "" && !IsSpace((space + text)[0])
    ensures space == "" && space + text == text
  {
  }

  lemma TermStarts(t: Term, tail: string)
    requires IsTerm(t)
    ensures var text := TermText(t, tail); text != "" && !IsSpace(text[0]) && (Digit()(text[0]) <==> t.op == Bare && !t.v) && text[0] != '.'
  {
    var version := VersionText(t, tail);
    assert version[0] == if t.v then 'v' else t.major[0];
    assert t.op == Bare ==> TermText(t, tail) == version;
  }

  lemma {:induction false} ExpandedOneMore(terms: seq<Term>, t: Term)
    ensures Expanded(terms + [t]) == Expanded(terms) + ExpandComparator(t)
  {
    if terms != [] {
      assert (terms + [t])[1..] == terms[1..] + [t];
      ExpandedOneMore(terms[1..], t);
    } else {
      assert terms + [t] == [t];
    }
  }

  // ---- Text and terms determine each other ----

  lemma {:induction false} TermsBack(before: string, terms: seq<Term>)
    requires AllSpace(before) && terms != [] && AreTerms(terms)
    ensures Terms(before + TermsText(terms)) == Some(terms)
    decreases |terms|
  {
    var t, tail := terms[0], TermsText(terms[1..]);
    assert IsTerm(t);
    if |terms| > 1 {
      TermsBack("", terms[1..]);
      assert "" + tail == tail;
      assert IsTerm(terms[1]);
      TermStarts(terms[1], TermsText(terms[2..]));
      assert terms[1..][1..] == terms[2..];
    }
    TermsBackStep(before, t, tail, terms[1..]);
    assert terms == [t] + terms[1..];
  }

  lemma TermsBackStep(before: string, t: Term, tail: string, more: seq<Term>)
    requires AllSpace(before) && IsTerm(t) && (tail != "" ==> !IsSpace(tail[0])) && (t.after == "" ==> Stops(tail))
    requires Terms(tail) == Some(more)
    ensures Terms(before + TermText(t, tail)) == Some([t] + more)
  {
    ScanTerm(before, t, tail);
    TermStarts(t, tail);
  }

  lemma {:induction false} TermsSpell(s: string) returns (before: string)
    requires Terms(s).Some? && Terms(s).value != []
    ensures AllSpace(before) && s == before + TermsText(Terms(s).value) && AreTerms(Terms(s).value)
    decreases |s|
  {
    ScanSpells(s);
    TermsAfterScan(s);
    var x := Scan(s).value;
    before := x.before;
    var space := "";
    if x.rest != "" {
      space := TermsSpell(x.rest);
    }
    FirstTermSpells(s, x, space, Terms(x.rest).value);
  }

  lemma FirstTermSpells(s: string, x: Scanned, space: string, more: seq<Term>)
    requires IsTerm(x.term) && MayFollow(x.term, x.rest) && s == x.before + TermText(x.term, x.rest)
    requires if x.rest == "" then more == [] else AllSpace(space) && more != [] && AreTerms(more) && x.rest == space + TermsText(more)
    ensures s == x.before + TermsText([x.term] + more) && AreTerms([x.term] + more)
  {
    if x.rest != "" {
      RestIsTerms(x, space, more);
    }
    TermsTextOfCons(x.term, more);
  }

  lemma TermsTextOfCons(t: Term, more: seq<Term>)
    ensures TermsText([t] + more) == TermText(t, TermsText(more))
  {
    assert ([t] + more)[1..] == more;
  }

  lemma RestIsTerms(x: Scanned, space: string, more: seq<Term>)
    requires IsTerm(x.term) && MayFollow(x.term, x.rest) && x.rest != ""
    requires AllSpace(space) && more != [] && AreTerms(more) && x.rest == space + TermsText(more)
    ensures x.rest == TermsText(more) && AreTerms([x.term] + more)
  {
    assert IsTerm(more[0]);
    TermStarts(more[0], TermsText(more[1..]));
    StartsWithText(space, TermsText(more));
  }

  ghost predicate NoBar(s: string) {
    forall i :: 0 <= i < |s| ==> s[i] != '|'
  }

  lemma {:induction false} TermsHaveNoBar(terms: seq<Term>)
    requires AreTerms(terms)
    ensures NoBar(TermsText(terms))
  {
    if terms != [] {
      assert IsTerm(terms[0]);
      TermsHaveNoBar(terms[1..]);
      TermHasNoBar(terms[0], TermsText(terms[1..]));
    }
  }

  lemma TermHasNoBar(t: Term, tail: string)
    requires IsTerm(t) && NoBar(tail)
    ensures NoBar(TermText(t, tail))
  {
    PartsHaveNoBar(t.parts, t.after + tail);
    assert NoBar(OpText(t.op));
    assert NoBar(VersionText(t, tail));
  }

  lemma {:induction false} PartsHaveNoBar(parts: seq<Digits>, tail: string)
    requires NoBar(tail)
    ensures NoBar(PartsText(parts, tail))
  {
    if parts != [] {
      PartsHaveNoBar(parts[1..], tail);
    }
  }

  lemma {:induction false} SplitFirstBars(a: string, b: string)
    requires NoBar(a)
    ensures SplitBars(a) == [a] && SplitBars(a + ("||" + b)) == [a] + SplitBars(b)
  {
    var s := a + ("||" + b);
    if a == "" {
      assert s[2..] == b;
    } else {
      SplitFirstBars(a[1..], b);
      assert s[1..] == a[1..] + ("||" + b) && s[0] == a[0];
      assert a == [a[0]] + a[1..];
    }
  }

  lemma {:induction false} SplitOfJoin(pieces: seq<string>)
    requires pieces != [] && forall i :: 0 <= i < |pieces| ==> NoBar(pieces[i])
    ensures SplitBars(JoinBars(pieces)) == pieces
  {
    SplitFirstBars(pieces[0], JoinBars(pieces[1..]));
    if |pieces| > 1 {
      SplitOfJoin(pieces[1..]);
      assert pieces == [pieces[0]] + pieces[1..];
    }
  }

  lemma {:induction false} JoinOfSplit(s: string)
    ensures JoinBars(SplitBars(s)) == s
  {
    if |s| >= 2 && s[0] == '|' && s[1] == '|' {
      JoinOfSplit(s[2..]);
      JoinBehindBars(SplitBars(s[2..]));
      assert s == "||" + s[2..];
    } else if s != "" {
      JoinOfSplit(s[1..]);
      JoinBehindChar(s[0], SplitBars(s[1..]));
      assert s == [s[0]] + s[1..];
    }
  }

  lemma JoinBehindBars(pieces: seq<string>)
    requires pieces != []
    ensures JoinBars([""] + pieces) == "||" + JoinBars(pieces)
  {
    assert ([""] + pieces)[1..] == pieces;
  }

  lemma JoinBehindChar(c: char, pieces: seq<string>)
    requires pieces != []
    ensures JoinBars([[c] + pieces[0]] + pieces[1..]) == [c] + JoinBars(pieces)
  {
    var all := [[c] + pieces[0]] + pieces[1..];
    assert all[1..] == pieces[1..];
  }

  lemma AlternativeParses(a: Alternative)
    requires IsAlternative(a)
    ensures ParsedAlternative(AlternativeText(a)) == Some(Expanded(a.terms)) && AlternativeText(a) != ""
  {
    TermsBack(a.before, a.terms);
  }

  lemma AlternativeSpells(piece: string) returns (a: Alternative)
    requires ParsedAlternative(piece).Some?
    ensures IsAlternative(a) && AlternativeText(a) == piece
  {
    var before := TermsSpell(piece);
    a := Alternative(before, Terms(piece).value);
  }

  /** A range that is spelled parses to its expansion. */
  lemma RangeParses(range: seq<Alternative>, spec: string)
    requires IsRange(range) && Trim(spec) == RangeText(range)
    ensures ParsedRange(spec) == Some(Expansion(range))
  {
    TextsHaveNoBar(range);
    SplitOfJoin(Texts(range));
    PiecesParse(range);
    AlternativeParses(range[0]);
  }

  function Expansion(range: seq<Alternative>): (r: seq<seq<Comparator>>)
    ensures |r| == |range| && forall i :: 0 <= i < |range| ==> r[i] == Expanded(range[i].terms)
  {
    if range == [] then [] else [Expanded(range[0].terms)] + Expansion(range[1..])
  }

  lemma {:induction false} TextsHaveNoBar(range: seq<Alternative>)
    requires forall i :: 0 <= i < |range| ==> IsAlternative(range[i])
    ensures forall i :: 0 <= i < |range| ==> NoBar(Texts(range)[i])
  {
    if range != [] {
      assert IsAlternative(range[0]);
      TermsHaveNoBar(range[0].terms);
      TextsHaveNoBar(range[1..]);
    }
  }

  lemma {:induction false} PiecesParse(range: seq<Alternative>)
    requires forall i :: 0 <= i < |range| ==> IsAlternative(range[i])
    ensures ParsedPieces(Texts(range)) == Some(Expansion(range))
  {
    if range != [] {
      AlternativeParses(range[0]);
      PiecesParse(range[1..]);
    }
  }

  /** Nothing else parses: the text of whatever does is the spelling of some range. */
  lemma OnlyRangesParse(spec: string)
    ensures ParsedRange(spec).Some? <==> exists range :: IsRange(range) && Trim(spec) == RangeText(range)
  {
    if ParsedRange(spec).Some? {
      var range := PiecesSpell(SplitBars(Trim(spec)));
      JoinOfSplit(Trim(spec));
      assert IsRange(range);
    }
    forall range | IsRange(range) && Trim(spec) == RangeText(range) ensures ParsedRange(spec).Some? {
      RangeParses(range, spec);
    }
  }

  lemma {:induction false} PiecesSpell(pieces: seq<string>) returns (range: seq<Alternative>)
    requires ParsedPieces(pieces).Some?
    ensures Texts(range) == pieces && forall i :: 0 <= i < |range| ==> IsAlternative(range[i])
  {
    range := [];
    if pieces != [] {
      var first := AlternativeSpells(pieces[0]);
      var more := PiecesSpell(pieces[1..]);
      range := [first] + more;
      assert range[1..] == more;
    }
  }

  // ---- What a range says ----

  function CompareTriples(a: Triple, b: Triple): int {
    if a.major != b.major then (if a.major > b.major then 1 else -1)
    else if a.minor != b.minor then (if a.minor > b.minor then 1 else -1)
    else if a.patch != b.patch then (if a.patch > b.patch then 1 else -1)
    else 0
  }

  predicate Compares(op: Op, cmp: int) {
    match op
    case Ge => cmp >= 0
    case Gt => cmp > 0
    case Le => cmp <= 0
    case Lt => cmp < 0
    case _ => cmp == 0
  }

  predicate ComparatorHolds(c: Comparator, x: Triple) {
    Compares(c.op, CompareTriples(x, c.version))
  }

  predicate ComparatorsHold(comparators: seq<Comparator>, x: Triple) {
    forall c :: c in comparators ==> ComparatorHolds(c, x)
  }

  predicate RangeHolds(range: seq<seq<Comparator>>, x: Triple) {
    exists i :: 0 <= i < |range| && ComparatorsHold(range[i], x)
  }

  /** The one rule: the version's parts that the term names are compared, and the others are not looked at. */
  predicate TermHolds(t: Term, x: Triple) {
    var major := if x.major == NumberOf(t.major) then 0 else x.major - NumberOf(t.major);
    var minor := if |t.parts| > 0 then x.minor - NumberOf(t.parts[0]) else 0;
    var patch := if |t.parts| > 1 then x.patch - NumberOf(t.parts[1]) else 0;
    Compares(t.op, if major != 0 then major else if minor != 0 then minor else patch)
  }

  predicate TermsHold(terms: seq<Term>, x: Triple) {
    forall k :: 0 <= k < |terms| ==> TermHolds(terms[k], x)
  }

  lemma ExpansionHolds(t: Term, x: Triple)
    requires IsTerm(t)
    ensures ComparatorsHold(ExpandComparator(t), x) <==> TermHolds(t, x)
  {
    var e := ExpandComparator(t);
    assert e[0] in e && e[|e| - 1] in e;
  }

  lemma {:induction false} ExpansionsHold(terms: seq<Term>, x: Triple)
    requires AreTerms(terms)
    ensures ComparatorsHold(Expanded(terms), x) <==> TermsHold(terms, x)
  {
    if terms != [] {
      assert IsTerm(terms[0]);
      ExpansionHolds(terms[0], x);
      ExpansionsHold(terms[1..], x);
      assert ComparatorsHold(Expanded(terms), x) <==>
        ComparatorsHold(ExpandComparator(terms[0]), x) && ComparatorsHold(Expanded(terms[1..]), x);
      assert forall i :: 0 <= i < |terms[1..]| ==> terms[1..][i] == terms[i + 1];
      assert TermsHold(terms, x) <==> TermHolds(terms[0], x) && TermsHold(terms[1..], x);
    }
  }

  // ---- Versions ----

  predicate IsTagChar(c: char) {
    '0' <= c <= '9' || 'A' <= c <= 'Z' || 'a' <= c <= 'z' || c == '.' || c == '-'
  }

  /** `v24.16.0-rc.1`: three numbers, then perhaps a prerelease tag; what follows is not looked at. */
  function ParseRuntimeVersion(value: string): Option<Runtime> {
    var s := Trim(value);
    ReadVersion(if s != "" && s[0] == 'v' then s[1..] else s)
  }

  function ReadVersion(s: string): Option<Runtime> {
    var major := TakeWhile(s, Digit());
    var parts := TakeParts(major.1, 2);
    if major.0 == "" || |parts.0| < 2 then None
    else Some(Runtime(Triple(NumberOf(major.0), NumberOf(parts.0[0]), NumberOf(parts.0[1])), IsPrerelease(parts.1)))
  }

  predicate IsPrerelease(rest: string) {
    |rest| > 1 && rest[0] == '-' && IsTagChar(rest[1])
  }

  /** A version as runtimes print it reads back to its numbers; a tag marks it only if a tag character follows the dash. */
  lemma VersionReads(value: string, major: Digits, parts: seq<Digits>, rest: string)
    requires |parts| == 2 && (rest != "" ==> !Digit()(rest[0]))
    requires Trim(value) == major + PartsText(parts, rest) || Trim(value) == "v" + (major + PartsText(parts, rest))
    ensures ParseRuntimeVersion(value) ==
      Some(Runtime(Triple(NumberOf(major), NumberOf(parts[0]), NumberOf(parts[1])), IsPrerelease(rest)))
  {
    var text := major + PartsText(parts, rest);
    assert text[0] == major[0] && ("v" + text)[1..] == text;
    ReadVersionBack(major, parts, rest);
  }

  lemma ReadVersionBack(major: Digits, parts: seq<Digits>, rest: string)
    requires |parts| == 2 && (rest != "" ==> !Digit()(rest[0]))
    ensures ReadVersion(major + PartsText(parts, rest)) ==
      Some(Runtime(Triple(NumberOf(major), NumberOf(parts[0]), NumberOf(parts[1])), IsPrerelease(rest)))
  {
    var more := PartsText(parts, rest);
    assert more != "" ==> !Digit()(more[0]);
    TakeAll(major, more, Digit());
    TakePartsBack(parts, rest, 2);
  }

  predicate SatisfiesEngines(spec: string, version: string) {
    var range, runtime := ParsedRange(spec), ParseRuntimeVersion(version);
    range.None? || runtime.None? || (!runtime.value.prerelease && RangeHolds(range.value, runtime.value.triple))
  }

  /**
   * A version satisfies a spelled range exactly when it has no prerelease tag and all terms of some alternative hold under
   * the one rule.
   */
  lemma SatisfiesExactly(range: seq<Alternative>, spec: string, version: string)
    requires IsRange(range) && Trim(spec) == RangeText(range) && ParseRuntimeVersion(version).Some?
    ensures
      var runtime := ParseRuntimeVersion(version).value;
      SatisfiesEngines(spec, version) <==>
      !runtime.prerelease && exists i :: 0 <= i < |range| && TermsHold(range[i].terms, runtime.triple)
  {
    RangeParses(range, spec);
    RangeHoldsExactly(range, ParseRuntimeVersion(version).value.triple);
  }

  lemma RangeHoldsExactly(range: seq<Alternative>, x: Triple)
    requires IsRange(range)
    ensures RangeHolds(Expansion(range), x) <==> exists i :: 0 <= i < |range| && TermsHold(range[i].terms, x)
  {
    forall i | 0 <= i < |range|
      ensures ComparatorsHold(Expansion(range)[i], x) <==> TermsHold(range[i].terms, x)
    {
      assert IsAlternative(range[i]);
      ExpansionsHold(range[i].terms, x);
    }
  }

  /** What cannot be read blocks nothing: neither an exotic range nor an odd version. */
  lemma UnreadableNeverBlocks(spec: string, version: string)
    requires !SatisfiesEngines(spec, version)
    ensures (exists range :: IsRange(range) && Trim(spec) == RangeText(range)) && ParseRuntimeVersion(version).Some?
  {
    OnlyRangesParse(spec);
  }

  /** Every alternative is an interval: what lies between two versions it holds for, it holds for. */
  lemma AlternativeIsConvex(terms: seq<Term>, low: Triple, x: Triple, high: Triple)
    requires CompareTriples(low, x) <= 0 && CompareTriples(x, high) <= 0
    requires TermsHold(terms, low) && TermsHold(terms, high)
    ensures TermsHold(terms, x)
  {
    forall k | 0 <= k < |terms| ensures TermHolds(terms[k], x) {
      TermIsConvex(terms[k], low, x, high);
    }
  }

  lemma TermIsConvex(t: Term, low: Triple, x: Triple, high: Triple)
    requires CompareTriples(low, x) <= 0 && CompareTriples(x, high) <= 0 && TermHolds(t, low) && TermHolds(t, high)
    ensures TermHolds(t, x)
  {
  }
}
