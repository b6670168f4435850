/** The lines the operators' lock convention keeps beside the lock, and the tags they are made of. */
module BoxLockRecords {
  import opened Wrappers
  import opened Text

  const MAX_TAG: nat := 80
  const RECENT_LINES: nat := 10

  datatype LogEntry =
    | Acquired(at: string, owner: string, step: string, pid: nat, taker: string)
    | Released(at: string, owner: string, step: string, rc: int, taker: string)

  /** What is read off a line, whoever wrote it. */
  datatype LogLine = LogLine(at: string, event: string, owner: string, step: string, pid: Option<int>, rc: Option<int>, taker: Option<string>)

  predicate IsTagChar(c: char) {
    'A' <= c <= 'Z' || 'a' <= c <= 'z' || '+' == c || '-' <= c <= ':' || c == '@' || c == '_'
  }

  ghost predicate IsTag(s: string) {
    0 < |s| <= MAX_TAG && forall i :: 0 <= i < |s| ==> IsTagChar(s[i])
  }

  // ---- Tags ----

  function Sanitized(s: string): (r: string)
    ensures |r| == |s|
    ensures forall i :: 0 <= i < |s| ==> r[i] == if IsTagChar(s[i]) then s[i] else '_'
  {
    seq(|s|, i requires 0 <= i < |s| => if IsTagChar(s[i]) then s[i] else '_')
  }

  function Tag(value: Option<string>, fallback: string): (r: string)
    ensures IsTag(fallback) ==> IsTag(r)
  {
    var s := Sanitized(Trim(if value.Some? then value.value else ""));
    var cut := if |s| > MAX_TAG then s[..MAX_TAG] else s;
    if cut == "" then fallback else cut
  }

  /** A tag is its own tag, so sanitizing twice changes nothing. */
  lemma TagOfTag(value: Option<string>, fallback: string, other: string)
    requires IsTag(fallback)
    ensures Tag(Some(Tag(value, fallback)), other) == Tag(value, fallback)
  {
    var t := Tag(value, fallback);
    assert Trim(t) == t;
    assert Sanitized(t) == t;
  }

  // ---- Numbers ----

  function Decimal(n: nat): (s: string)
    ensures IsDigits(s)
  {
    (if n < 10 then "" else Decimal(n / 10)) + ['0' + (n % 10) as char]
  }

  function Signed(n: int): string {
    if n < 0 then "-" + Decimal(-n) else Decimal(n)
  }

  function ParseNumber(s: string, signed: bool): Option<int> {
    if IsDigits(s) then Some(DigitsValue(s))
    else if signed && s != "" && s[0] == '-' && IsDigits(s[1..]) then 
      var size: int := DigitsValue(s[1..]);
      Some(-size)
    else None
  }

  lemma {:induction false} DecimalValue(n: nat)
    ensures DigitsValue(Decimal(n)) == n
  {
    var s := Decimal(n);
    if n < 10 {
      assert s[..|s| - 1] == "";
    } else {
      DecimalValue(n / 10);
      assert s[..|s| - 1] == Decimal(n / 10);
    }
  }

  predicate IsNumeral(s: string) {
    s != "" && forall i :: 0 <= i < |s| ==> '0' <= s[i] <= '9' || s[i] == '-'
  }

  lemma DigitsParse(d: string, signed: bool)
    requires IsDigits(d)
    ensures ParseNumber(d, signed) == Some(DigitsValue(d)) && IsNumeral(d)
    ensures signed ==> ParseNumber("-" + d, signed) == Some(0 - DigitsValue(d)) && IsNumeral("-" + d)
  {
    var negative := "-" + d;
    assert negative[1..] == d && negative[0] == '-';
    assert !IsDigits(negative);
  }

  lemma NumbersParse(n: int, signed: bool)
    requires n >= 0 || signed
    ensures ParseNumber(Signed(n), signed) == Some(n) && IsNumeral(Signed(n))
  {
    var size := if n < 0 then -n else n;
    DecimalValue(size);
    DigitsParse(Decimal(size), signed);
  }

  // ---- Lines ----

  function Pair(key: string, value: string): string {
    key + "=" + value
  }

  function WordsFor(e: LogEntry): seq<string> {
    match e
    case Acquired(at, owner, step, pid, taker) => [at, "acquire", owner, step, Pair("pid", Signed(pid)), Pair("by", taker)]
    case Released(at, owner, step, rc, taker) => [at, "release", owner, step, Pair("rc", Signed(rc)), Pair("by", taker)]
  }

  function FormatLogLine(e: LogEntry): string {
    Spaced(WordsFor(e))
  }

  function Spaced(words: seq<string>): string {
    if words == [] then "" else if |words| == 1 then words[0] else words[0] + " " + Spaced(words[1..])
  }

  function NonEmpty(): string -> bool {
    (s: string) => s != ""
  }

  function Space(): char -> bool {
    (c: char) => IsSpace(c)
  }

  function NewLine(): char -> bool {
    (c: char) => c == '\n'
  }

  function Words(line: string): (words: seq<string>)
    ensures forall w :: w in words ==> w != ""
  {
    Select(Split(line, Space()), NonEmpty())
  }

  /** The last `key=value` pair of the key. */
  function Field(pairs: seq<string>, key: string): string {
    if pairs == [] then ""
    else if key + "=" <= pairs[|pairs| - 1] then pairs[|pairs| - 1][|key| + 1..]
    else Field(pairs[..|pairs| - 1], key)
  }

  function LineOf(words: seq<string>): Option<LogLine> {
    if |words| < 4 then None
    else
      var taker := Field(words[4..], "by");
      Some(LogLine(words[0], words[1], words[2], words[3], ParseNumber(Field(words[4..], "pid"), false),
                   ParseNumber(Field(words[4..], "rc"), true), if taker == "" then None else Some(taker)))
  }

  method ParseLogLine(line: string) returns (r: Option<LogLine>)
    ensures r == LineOf(Words(line))
  {
    var words := Words(line);
    if |words| < 4 {
      return None;
    }
    var rest := words[4..];
    var pid, rc, taker := "", "", "";
    for i := 0 to |rest|
      invariant pid == Field(rest[..i], "pid") && rc == Field(rest[..i], "rc") && taker == Field(rest[..i], "by")
    {
      var pair := rest[i];
      var eq := IndexOfEquals(pair);
      assert rest[..i + 1][..i] == rest[..i];
      FieldAtEquals(pair, "pid", eq);
      FieldAtEquals(pair, "rc", eq);
      FieldAtEquals(pair, "by", eq);
      if eq > 0 {
        match pair[..eq]
        case "pid" => pid := pair[eq + 1..];
        case "rc" => rc := pair[eq + 1..];
        case "by" => taker := pair[eq + 1..];
        case _ =>
      }
    }
    assert rest[..|rest|] == rest;
    r := Some(LogLine(words[0], words[1], words[2], words[3], ParseNumber(pid, false), ParseNumber(rc, true),
                      if taker == "" then None else Some(taker)));
  }

  function IndexOfEquals(s: string): (r: int)
    ensures -1 <= r < |s|
    ensures r >= 0 ==> s[r] == '=' && forall i :: 0 <= i < r ==> s[i] != '='
    ensures r < 0 ==> '=' !in s
  {
    if s == "" then -1
    else if s[0] == '=' then 0
    else
      var r := IndexOfEquals(s[1..]);
      if r < 0 then -1 else r + 1
  }

  lemma FieldAtEquals(pair: string, key: string, eq: int)
    requires eq == IndexOfEquals(pair) && key != "" && '=' !in key
    ensures key + "=" <= pair <==> eq > 0 && pair[..eq] == key
  {
    if key + "=" <= pair {
      assert pair[|key|] == '=';
      assert forall i :: 0 <= i < |key| ==> pair[i] == key[i] && key[i] in key;
      assert eq == |key|;
    }
    if eq > 0 && pair[..eq] == key {
      assert pair[..eq + 1] == key + "=";
    }
  }

  // ---- What is written reads back ----

  ghost predicate IsWord(s: string) {
    s != "" && Free(s, Space())
  }

  ghost predicate IsWritable(e: LogEntry) {
    IsWord(e.at) && IsTag(e.owner) && IsTag(e.step) && IsTag(e.taker)
  }

  function LineFor(e: LogEntry): LogLine {
    match e
    case Acquired(at, owner, step, pid, taker) => LogLine(at, "acquire", owner, step, Some(pid), None, Some(taker))
    case Released(at, owner, step, rc, taker) => LogLine(at, "release", owner, step, None, Some(rc), Some(taker))
  }

  lemma TagsAreWords(s: string)
    requires s != "" && forall i :: 0 <= i < |s| ==> IsTagChar(s[i])
    ensures IsWord(s)
  {
  }

  lemma NumeralsAreWords(s: string)
    requires IsNumeral(s)
    ensures IsWord(s)
  {
  }

  lemma PairsAreWords(key: string, value: string)
    requires IsWord(key) && IsWord(value)
    ensures IsWord(Pair(key, value))
  {
  }

  lemma NamesAreWords()
    ensures IsWord("acquire") && IsWord("release") && IsWord("pid") && IsWord("rc") && IsWord("by")
  {
  }

  lemma {:induction false} SpacedWords(words: seq<string>)
    requires words != [] && forall i :: 0 <= i < |words| ==> IsWord(words[i])
    ensures Split(Spaced(words), Space()) == words && Words(Spaced(words)) == words
  {
    assert IsWord(words[0]);
    if |words| == 1 {
      SplitFree(words[0], Space());
    } else {
      SplitFirst(words[0], ' ', Spaced(words[1..]), Space());
      SpacedWords(words[1..]);
    }
    SelectAll(words, NonEmpty());
  }

  lemma {:induction false} SelectAll(s: seq<string>, keep: string -> bool)
    requires forall x :: x in s ==> keep(x)
    ensures Select(s, keep) == s
  {
    if s != [] {
      SelectAll(s[1..], keep);
    }
  }

  lemma FieldOfTwo(k1: string, v1: string, k2: string, v2: string, key: string)
    requires k1 != "" && k2 != "" && key != "" && (key == k1 || key[0] != k1[0]) && (key == k2 || key[0] != k2[0])
    ensures Field([Pair(k1, v1), Pair(k2, v2)], key) == if key == k2 then v2 else if key == k1 then v1 else ""
  {
    var a, b := Pair(k1, v1), Pair(k2, v2);
    assert [a, b][..1] == [a];
    assert Field([a], key) == if key + "=" <= a then a[|key| + 1..] else "";
    assert a[0] == k1[0] && b[0] == k2[0];
  }

  lemma NumberPairIsWord(key: string, n: int, signed: bool)
    requires IsWord(key) && (n >= 0 || signed)
    ensures IsWord(Pair(key, Signed(n)))
  {
    NumbersParse(n, signed);
    NumeralsAreWords(Signed(n));
    PairsAreWords(key, Signed(n));
  }

  lemma SixWords(a: string, b: string, c: string, d: string, e: string, f: string)
    requires IsWord(a) && IsWord(b) && IsWord(c) && IsWord(d) && IsWord(e) && IsWord(f)
    ensures forall i :: 0 <= i < 6 ==> IsWord([a, b, c, d, e, f][i])
  {
  }

  lemma WordsForAreWords(e: LogEntry)
    requires IsWritable(e)
    ensures forall i :: 0 <= i < |WordsFor(e)| ==> IsWord(WordsFor(e)[i])
  {
    NamesAreWords();
    TagsAreWords(e.owner);
    TagsAreWords(e.step);
    TagsAreWords(e.taker);
    PairsAreWords("by", e.taker);
    match e
    case Acquired(at, owner, step, pid, taker) =>
      NumberPairIsWord("pid", pid, false);
      SixWords(at, "acquire", owner, step, Pair("pid", Signed(pid)), Pair("by", taker));
    case Released(at, owner, step, rc, taker) =>
      NumberPairIsWord("rc", rc, true);
      SixWords(at, "release", owner, step, Pair("rc", Signed(rc)), Pair("by", taker));
  }

  /** Every line written parses back to its fields. */
  lemma LogLineReadsBack(e: LogEntry)
    requires IsWritable(e)
    ensures LineOf(Words(FormatLogLine(e))) == Some(LineFor(e))
  {
    WordsForAreWords(e);
    SpacedWords(WordsFor(e));
    var n := if e.Acquired? then e.pid else e.rc;
    var key := if e.Acquired? then "pid" else "rc";
    NumbersParse(n, e.Released?);
    assert WordsFor(e)[4..] == [Pair(key, Signed(n)), Pair("by", e.taker)];
    FieldOfTwo(key, Signed(n), "by", e.taker, "by");
    FieldOfTwo(key, Signed(n), "by", e.taker, "pid");
    FieldOfTwo(key, Signed(n), "by", e.taker, "rc");
  }

  function Lines(log: seq<LogEntry>): (r: seq<string>)
    ensures |r| == |log| && forall i :: 0 <= i < |log| ==> r[i] == FormatLogLine(log[i])
  {
    seq(|log|, i requires 0 <= i < |log| => FormatLogLine(log[i]))
  }

  /** The file after each line was appended with a newline. */
  function FileOf(lines: seq<string>): string {
    if lines == [] then "" else lines[0] + "\n" + FileOf(lines[1..])
  }

  function LinesIn(text: string): seq<string> {
    Select(Split(text, NewLine()), NonEmpty())
  }

  /** The last lines of the tail of the file; the tail's first line may be cut, so it is dropped. */
  function RecentLines(text: string, tail: nat): seq<string> {
    var lines := LinesIn(text[if tail < |text| then |text| - tail else 0..]);
    LastLines(if tail < |text| && lines != [] then lines[1..] else lines)
  }

  lemma LineHasNoBreak(e: LogEntry)
    requires IsWritable(e)
    ensures FormatLogLine(e) != "" && Free(FormatLogLine(e), NewLine())
  {
    WordsForAreWords(e);
    SpacedIsOneLine(WordsFor(e));
  }

  lemma {:induction false} SpacedIsOneLine(words: seq<string>)
    requires words != [] && forall i :: 0 <= i < |words| ==> IsWord(words[i])
    ensures Spaced(words) != "" && Free(Spaced(words), NewLine())
  {
    assert IsWord(words[0]);
    assert forall i :: 0 <= i < |words[0]| ==> !IsSpace(words[0][i]);
    if |words| > 1 {
      SpacedIsOneLine(words[1..]);
    }
  }

  /** A cut inside a line leaves what follows it, before the lines after it. */
  lemma LinesAfterCut(first: string, more: string, cut: nat)
    requires cut <= |first| && Free(first, NewLine())
    ensures LinesIn((first + "\n" + more)[cut..]) == (if cut == |first| then [] else [first[cut..]]) + LinesIn(more)
  {
    var part, pieces := first[cut..], Split(more, NewLine());
    assert (first + "\n" + more)[cut..] == part + ['\n'] + more;
    SplitFirst(part, '\n', more, NewLine());
    assert ([part] + pieces)[1..] == pieces;
  }

  ghost predicate IsLine(s: string) {
    s != "" && Free(s, NewLine())
  }

  /** The lines of a file from any cut: whole lines, behind what the cut left of one. */
  lemma {:induction false} LinesFromCut(lines: seq<string>, cut: nat) returns (k: nat, rest: seq<string>)
    requires forall i :: 0 <= i < |lines| ==> IsLine(lines[i])
    requires cut <= |FileOf(lines)|
    ensures k <= |lines| && |rest| <= 1 && (cut == 0 ==> rest == [] && k == 0)
    ensures LinesIn(FileOf(lines)[cut..]) == rest + lines[k..]
    decreases |lines|
  {
    if lines == [] {
      return 0, [];
    }
    var first, more := lines[0], FileOf(lines[1..]);
    assert IsLine(first);
    if cut <= |first| {
      var _, _ := LinesFromCut(lines[1..], 0);
      assert more[0..] == more && lines[1..][0..] == lines[1..];
      LinesAfterCut(first, more, cut);
      if cut == 0 {
        assert first[0..] == first && lines[0..] == lines;
        return 0, [];
      }
      k, rest := 1, if cut == |first| then [] else [first[cut..]];
    } else {
      k, rest := LinesFromCut(lines[1..], cut - |first| - 1);
      assert FileOf(lines)[cut..] == more[cut - |first| - 1..];
      assert lines[k + 1..] == lines[1..][k..];
      k := k + 1;
    }
  }

  /** However the file's tail is cut, the lines shown are the log's last ones, in order and whole. */
  lemma RecentLinesEndTheLog(log: seq<LogEntry>, tail: nat)
    requires forall i :: 0 <= i < |log| ==> IsWritable(log[i])
    ensures exists k :: 0 <= k <= |log| && RecentLines(FileOf(Lines(log)), tail) == Lines(log)[k..]
    ensures tail >= |FileOf(Lines(log))| ==>
      |RecentLines(FileOf(Lines(log)), tail)| == if |log| < RECENT_LINES then |log| else RECENT_LINES
  {
    var lines := Lines(log);
    forall i | 0 <= i < |lines| ensures IsLine(lines[i]) {
      LineHasNoBreak(log[i]);
    }
    RecentOfLines(lines, tail);
  }

  lemma RecentOfLines(lines: seq<string>, tail: nat)
    requires forall i :: 0 <= i < |lines| ==> IsLine(lines[i])
    ensures exists k :: 0 <= k <= |lines| && RecentLines(FileOf(lines), tail) == lines[k..]
    ensures tail >= |FileOf(lines)| ==> |RecentLines(FileOf(lines), tail)| == if |lines| < RECENT_LINES then |lines| else RECENT_LINES
  {
    var text := FileOf(lines);
    var cut := if tail < |text| then |text| - tail else 0;
    var k, rest := LinesFromCut(lines, cut);
    var found := LinesIn(text[cut..]);
    ChosenLines(lines, rest, k, cut > 0);
    assert found == rest + lines[k..];
  }

  /** What is shown of the lines found behind a cut. */
  lemma ChosenLines(lines: seq<string>, rest: seq<string>, k: nat, isCut: bool)
    requires k <= |lines| && |rest| <= 1 && (!isCut ==> rest == [] && k == 0)
    ensures
      var found := rest + lines[k..];
      var shown := LastLines(if isCut && found != [] then found[1..] else found);
      (exists i :: 0 <= i <= |lines| && shown == lines[i..]) &&
      (!isCut ==> |shown| == if |lines| < RECENT_LINES then |lines| else RECENT_LINES)
  {
    var found := rest + lines[k..];
    var k1 := if isCut && found != [] && rest == [] then k + 1 else k;
    assert (if isCut && found != [] then found[1..] else found) == lines[k1..];
    LastTen(lines, k1);
  }

  function LastLines(lines: seq<string>): seq<string> {
    if |lines| > RECENT_LINES then lines[|lines| - RECENT_LINES..] else lines
  }

  lemma LastTen(lines: seq<string>, k: nat)
    requires k <= |lines|
    ensures exists i :: 0 <= i <= |lines| && LastLines(lines[k..]) == lines[i..]
    ensures k == 0 ==> |LastLines(lines[k..])| == if |lines| < RECENT_LINES then |lines| else RECENT_LINES
  {
    var i := if |lines| - k > RECENT_LINES then |lines| - RECENT_LINES else k;
    assert LastLines(lines[k..]) == lines[i..];
  }
}
