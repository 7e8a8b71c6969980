/** The header of a skill file: `key: value` lines between two `---` lines, then the body. */
module Frontmatter {
  import opened Common
  import opened PyText

  const BOM := '\U{FEFF}'
  const FENCE := "\n---"

  function WithoutBom(s: string): string {
    if s != "" && s[0] == BOM then WithoutBom(s[1..]) else s
  }

  /** Both line-ending replacements: first CR LF, then any CR left. */
  function UnixLines(s: string): string {
    if s == "" then ""
    else if s[0] != '\r' then [s[0]] + UnixLines(s[1..])
    else if |s| > 1 && s[1] == '\n' then "\n" + UnixLines(s[2..])
    else "\n" + UnixLines(s[1..])
  }

  // ----- the closing delimiter

  predicate FenceAt(t: string, i: nat) {
    i + |FENCE| <= |t| && t[i..i + |FENCE|] == FENCE
  }

  /** `t.find(FENCE, from)`. */
  function Find(t: string, from: nat): Option<nat>
    decreases |t| - from
  {
    if from + |FENCE| > |t| then None else if FenceAt(t, from) then Some(from) else Find(t, from + 1)
  }

  lemma {:induction false} FindIsFirst(t: string, from: nat)
    ensures match Find(t, from)
            case None => forall j :: from <= j ==> !FenceAt(t, j)
            case Some(i) => from <= i && FenceAt(t, i) && forall j :: from <= j < i ==> !FenceAt(t, j)
    decreases |t| - from
  {
    if from + |FENCE| <= |t| && !FenceAt(t, from) {
      FindIsFirst(t, from + 1);
    }
  }

  /** A line that is exactly `---` starts right after position `i`. */
  predicate ClosesAt(t: string, i: nat) {
    FenceAt(t, i) && (i + |FENCE| >= |t| || t[i + |FENCE|] == '\n')
  }

  /** The closing delimiter is the first such line, not counting the line right after the opening one. */
  method FindClose(t: string) returns (close: Option<nat>)
    ensures match close
            case None => forall j :: 4 <= j ==> !ClosesAt(t, j)
            case Some(i) => 4 <= i && ClosesAt(t, i) && forall j :: 4 <= j < i ==> !ClosesAt(t, j)
  {
    var from := 4;
    while true
      invariant 4 <= from
      invariant forall j :: 4 <= j < from ==> !ClosesAt(t, j)
      decreases |t| - from
    {
      var idx := Find(t, from);
      FindIsFirst(t, from);
      if idx.None? {
        return None;
      }
      var after := idx.value + |FENCE|;
      if after >= |t| || t[after] == '\n' {
        return idx;
      }
      from := idx.value + 1;
    }
  }

  /** The least position from `from` on that closes the header. */
  function CloseFrom(t: string, from: nat): Option<nat>
    decreases |t| - from
  {
    if from > |t| then None else if ClosesAt(t, from) then Some(from) else CloseFrom(t, from + 1)
  }

  lemma {:induction false} CloseIs(t: string, from: nat, close: Option<nat>)
    requires match close
             case None => forall j :: from <= j ==> !ClosesAt(t, j)
             case Some(i) => from <= i && ClosesAt(t, i) && forall j :: from <= j < i ==> !ClosesAt(t, j)
    ensures CloseFrom(t, from) == close
    decreases |t| - from
  {
    if from <= |t| && close != Some(from) {
      CloseIs(t, from + 1, close);
    }
  }

  // ----- the fields

  /** Line boundaries of `str.splitlines`, apart from CR, which is gone by then. */
  predicate IsBreak(c: char) {
    c == '\n' || c == '\U{B}' || c == '\U{C}' || '\U{1C}' <= c <= '\U{1E}' || c == '\U{85}' || c == '\U{2028}' || c == '\U{2029}'
  }

  /** By code point: line feed, the vertical and page breaks, the three separators, next line, and the Unicode line and paragraph separators. */
  lemma BreakCodes(c: char)
    ensures IsBreak(c) <==> (c as int) in {0x0A, 0x0B, 0x0C, 0x1C, 0x1D, 0x1E, 0x85, 0x2028, 0x2029}
  {
  }

  function SplitLines(s: string): seq<string>
    decreases |s|
  {
    if s == "" then [] else
      var n := LineLength(s);
      [s[..n]] + SplitLines(if n < |s| then s[n + 1..] else "")
  }

  function LineLength(s: string): (n: nat)
    ensures n <= |s|
  {
    if s == "" || IsBreak(s[0]) then 0 else 1 + LineLength(s[1..])
  }

  predicate IsLetter(c: char) {
    'a' <= c <= 'z' || 'A' <= c <= 'Z'
  }

  predicate KeyChar(c: char) {
    IsLetter(c) || '0' <= c <= '9' || c == '_' || c == '-'
  }

  function KeyLength(s: string): (n: nat)
    ensures n <= |s|
  {
    if s == "" || !KeyChar(s[0]) then 0 else 1 + KeyLength(s[1..])
  }

  function Unquote(v: string): string {
    if |v| >= 2 && v[0] == v[|v| - 1] && (v[0] == '"' || v[0] == '\'') then v[1..|v| - 1] else v
  }

  datatype Field = Field(key: string, value: string)

  function ParseLine(line: string): Option<Field> {
    var n := KeyLength(line);
    if n == 0 || !IsLetter(line[0]) || n >= |line| || line[n] != ':' then None
    else Some(Field(line[..n], Unquote(Strip(line[n + 1..]))))
  }

  function FieldsOf(acc: map<string, string>, lines: seq<string>): map<string, string>
    decreases lines
  {
    if lines == [] then acc else
      match ParseLine(lines[0])
      case None => FieldsOf(acc, lines[1..])
      case Some(f) => FieldsOf(acc[f.key := f.value], lines[1..])
  }

  // ----- parsing

  function WithoutNewlines(s: string): string {
    if s != "" && s[0] == '\n' then WithoutNewlines(s[1..]) else s
  }

  datatype Parsed = Parsed(fields: map<string, string>, body: string)

  function ParseUnix(t: string): Parsed {
    if !("---\n" <= t) then Parsed(map[], t) else
      match CloseFrom(t, 4)
      case None => Parsed(map[], t)
      case Some(close) =>
        if 4 <= close && close + |FENCE| <= |t| then
          Parsed(FieldsOf(map[], SplitLines(t[4..close])), WithoutNewlines(t[close + |FENCE|..]))
        else Parsed(map[], t)
  }

  function Parse(text: string): Parsed {
    ParseUnix(UnixLines(WithoutBom(text)))
  }

  method ParseFrontmatter(text: string) returns (r: Parsed)
    ensures r == Parse(text)
  {
    var t := UnixLines(WithoutBom(text));
    if !("---\n" <= t) {
      return Parsed(map[], t);
    }
    var close := FindClose(t);
    CloseIs(t, 4, close);
    if close.None? {
      return Parsed(map[], t);
    }
    var lines := SplitLines(t[4..close.value]);
    var fields: map<string, string> := map[];
    for i := 0 to |lines|
      invariant FieldsOf(fields, lines[i..]) == FieldsOf(map[], lines)
    {
      assert lines[i..][1..] == lines[i + 1..];
      var f := ParseLine(lines[i]);
      if f.None? {
        continue;
      }
      fields := fields[f.value.key := f.value.value];
    }
    r := Parsed(fields, WithoutNewlines(t[close.value + |FENCE|..]));
  }

  // ----- line endings and byte order marks do not matter

  function CrlfLines(s: string): string {
    if s == "" then "" else (if s[0] == '\n' then "\r\n" else [s[0]]) + CrlfLines(s[1..])
  }

  lemma {:induction false} UnixLinesKeeps(s: string)
    requires '\r' !in s
    ensures UnixLines(s) == s
  {
    if s != "" {
      assert s[0] in s;
      UnixLinesKeeps(s[1..]);
      assert s == [s[0]] + s[1..];
    }
  }

  lemma {:induction false} UnixLinesUndoesCrlf(s: string)
    requires '\r' !in s
    ensures UnixLines(CrlfLines(s)) == s
  {
    if s != "" {
      assert s[0] in s;
      UnixLinesUndoesCrlf(s[1..]);
      assert s == [s[0]] + s[1..];
      var rest := CrlfLines(s[1..]);
      if s[0] == '\n' {
        assert ("\r\n" + rest)[2..] == rest;
      } else {
        assert ([s[0]] + rest)[1..] == rest;
      }
    }
  }

  /** Old Macintosh line endings. */
  function CrLines(s: string): string {
    if s == "" then "" else [if s[0] == '\n' then '\r' else s[0]] + CrLines(s[1..])
  }

  lemma {:induction false} UnixLinesUndoesCr(s: string)
    requires '\r' !in s
    ensures UnixLines(CrLines(s)) == s && '\n' !in CrLines(s)
  {
    if s != "" {
      assert s[0] in s;
      UnixLinesUndoesCr(s[1..]);
      var rest := CrLines(s[1..]);
      assert CrLines(s)[1..] == rest;
      assert rest != "" ==> rest[0] in rest;
      assert s == [s[0]] + s[1..];
    }
  }

  /** A file saved with CR LF or CR line endings, with or without byte order marks, parses like the plain one. */
  lemma EncodingIsIrrelevant(text: string)
    requires '\r' !in text && (text != "" ==> text[0] != BOM)
    ensures Parse(CrlfLines(text)) == Parse(text) && Parse(CrLines(text)) == Parse(text)
    ensures Parse([BOM] + text) == Parse(text)
  {
    UnixLinesUndoesCrlf(text);
    UnixLinesUndoesCr(text);
    UnixLinesKeeps(text);
    assert ([BOM] + text)[1..] == text;
    assert WithoutBom(CrlfLines(text)) == CrlfLines(text) && WithoutBom(CrLines(text)) == CrLines(text);
  }

  /** A text that does not open a header, or never closes it, is all body. */
  lemma NoHeaderIsBody(text: string)
    requires '\r' !in text && (text != "" ==> text[0] != BOM)
    requires "---\n" <= text ==> forall j :: 4 <= j ==> !ClosesAt(text, j)
    ensures Parse(text) == Parsed(map[], text)
  {
    UnixLinesKeeps(text);
    if "---\n" <= text {
      CloseIs(text, 4, None);
    }
  }

  // ----- reading one line

  predicate GoodKey(k: string) {
    k != "" && IsLetter(k[0]) && forall i :: 0 <= i < |k| ==> KeyChar(k[i])
  }

  lemma {:induction false} KeyLengthIs(k: string, rest: string)
    requires (forall i :: 0 <= i < |k| ==> KeyChar(k[i])) && (rest == "" || !KeyChar(rest[0]))
    ensures KeyLength(k + rest) == |k|
  {
    var s := k + rest;
    if k == "" {
      assert s == rest;
    } else {
      assert s[1..] == k[1..] + rest;
      KeyLengthIs(k[1..], rest);
    }
  }

  /** A matching pair of quotes around the text. */
  predicate Enclosed(v: string) {
    |v| >= 2 && ((v[0] == '"' && v[|v| - 1] == '"') || (v[0] == '\'' && v[|v| - 1] == '\''))
  }

  lemma LineIs(key: string, left: string, v: string, right: string)
    requires GoodKey(key) && Blank(left) && Blank(right) && Trimmed(v)
    ensures ParseLine(key + ":" + (left + v + right)) == Some(Field(key, Unquote(v)))
  {
    var rest := ":" + (left + v + right);
    var line := key + ":" + (left + v + right);
    assert line == key + rest;
    KeyLengthIs(key, rest);
    assert line[..|key|] == key;
    assert line[|key| + 1..] == left + v + right;
    StripsBlanks(left, v, right);
  }

  /** White space around a value does not matter; a value reads as itself exactly when no pair of quotes encloses it. */
  lemma BareReadsIff(key: string, left: string, v: string, right: string)
    requires GoodKey(key) && Blank(left) && Blank(right) && Trimmed(v)
    ensures ParseLine(key + ":" + (left + v + right)) == Some(Field(key, v)) <==> !Enclosed(v)
    ensures Enclosed(v) ==> ParseLine(key + ":" + (left + v + right)) == Some(Field(key, v[1..|v| - 1]))
  {
    LineIs(key, left, v, right);
    if Enclosed(v) {
      assert |v[1..|v| - 1]| < |v|;
    }
  }

  /** With either quote around it, any text reads as itself. */
  lemma QuotedReads(key: string, left: string, q: char, v: string, right: string)
    requires GoodKey(key) && Blank(left) && Blank(right) && (q == '"' || q == '\'')
    ensures ParseLine(key + ":" + (left + ([q] + v + [q]) + right)) == Some(Field(key, v))
  {
    var quoted := [q] + v + [q];
    assert quoted[0] == q && quoted[|quoted| - 1] == q && quoted[1..|quoted| - 1] == v;
    LineIs(key, left, quoted, right);
  }

  /** A line is no field exactly when it does not start with a key and a colon. */
  lemma NoFieldIff(line: string)
    ensures ParseLine(line) == None <==> forall n :: 0 < n < |line| && line[n] == ':' ==> !GoodKey(line[..n])
  {
    KeyLengthStops(line);
    var n := KeyLength(line);
    if ParseLine(line).Some? {
      assert GoodKey(line[..n]);
    } else {
      forall m | 0 < m < |line| && line[m] == ':' ensures !GoodKey(line[..m]) {
        if GoodKey(line[..m]) {
          KeyThenColon(line, m);
        }
      }
    }
  }

  lemma KeyThenColon(line: string, m: nat)
    requires 0 < m < |line| && line[m] == ':' && GoodKey(line[..m])
    ensures ParseLine(line).Some?
  {
    assert line == line[..m] + line[m..];
    KeyLengthIs(line[..m], line[m..]);
    assert line[..m][0] == line[0];
  }

  lemma {:induction false} KeyLengthStops(s: string)
    ensures forall i :: 0 <= i < KeyLength(s) ==> KeyChar(s[i])
    ensures KeyLength(s) < |s| ==> !KeyChar(s[KeyLength(s)])
  {
    if s != "" && KeyChar(s[0]) {
      KeyLengthStops(s[1..]);
    }
  }

  // ----- printing

  datatype Form = Bare | SingleQuoted | DoubleQuoted

  /** A header line: a field in one of three forms with white space around it, or anything that is no field. */
  datatype Line = Entry(key: string, left: string, value: string, form: Form, right: string) | Other(text: string)

  predicate SingleLine(v: string) {
    forall i :: 0 <= i < |v| ==> !IsBreak(v[i]) && v[i] != '\r'
  }

  ghost predicate GoodLine(l: Line) {
    match l
    case Entry(key, left, value, form, right) =>
      && GoodKey(key) && SingleLine(value) && Blank(left) && SingleLine(left) && Blank(right) && SingleLine(right)
      && (form == Bare ==> Trimmed(value) && !Enclosed(value))
    case Other(text) => SingleLine(text) && ParseLine(text) == None
  }

  function Written(value: string, form: Form): string {
    match form
    case Bare => value
    case SingleQuoted => "'" + value + "'"
    case DoubleQuoted => "\"" + value + "\""
  }

  function TextOf(l: Line): string {
    match l
    case Entry(key, left, value, form, right) => key + ":" + (left + Written(value, form) + right)
    case Other(text) => text
  }

  function Texts(lines: seq<Line>): seq<string> {
    if lines == [] then [] else [TextOf(lines[0])] + Texts(lines[1..])
  }

  /** Each line followed by a newline. */
  function Header(texts: seq<string>): string {
    if texts == [] then "" else texts[0] + "\n" + Header(texts[1..])
  }

  function PrintTexts(texts: seq<string>, body: string): string {
    "---\n" + Header(texts) + "---\n" + body
  }

  function Print(lines: seq<Line>, body: string): string {
    PrintTexts(Texts(lines), body)
  }

  /** The dictionary of the fields, the last one for a key winning and other lines saying nothing. */
  function Meaning(acc: map<string, string>, lines: seq<Line>): map<string, string>
    decreases lines
  {
    if lines == [] then acc
    else Meaning(if lines[0].Entry? then acc[lines[0].key := lines[0].value] else acc, lines[1..])
  }

  /** Lines that can stand in a header: after the first, none is the delimiter itself. */
  ghost predicate Printable(texts: seq<string>) {
    && (forall i :: 0 <= i < |texts| ==> SingleLine(texts[i]))
    && (forall i :: 1 <= i < |texts| ==> texts[i] != "---")
  }

  ghost predicate GoodLines(lines: seq<Line>) {
    && (forall i :: 0 <= i < |lines| ==> GoodLine(lines[i]))
    && (forall i :: 1 <= i < |lines| ==> lines[i] != Other("---"))
  }

  /** A printed line reads back as its field, or as none. */
  lemma LineReadsBack(l: Line)
    requires GoodLine(l)
    ensures ParseLine(TextOf(l)) == if l.Entry? then Some(Field(l.key, l.value)) else None
  {
    match l
    case Entry(key, left, value, form, right) =>
      match form {
        case Bare => BareReadsIff(key, left, value, right);
        case SingleQuoted =>
          assert "'" == ['\''];
          QuotedReads(key, left, '\'', value, right);
        case DoubleQuoted =>
          assert "\"" == ['"'];
          QuotedReads(key, left, '"', value, right);
      }
    case Other(text) =>
  }

  lemma EntryIsSingleLine(l: Line)
    requires GoodLine(l) && l.Entry?
    ensures SingleLine(TextOf(l)) && TextOf(l) != "---"
  {
    var t := TextOf(l);
    var w := Written(l.value, l.form);
    forall i | 0 <= i < |w| ensures !IsBreak(w[i]) && w[i] != '\r' {
      if l.form != Bare && 0 < i < |w| - 1 {
        assert w[i] == l.value[i - 1];
      }
    }
    SingleConcat(l.left, w);
    SingleConcat(l.left + w, l.right);
    KeyIsSingleLine(l.key);
    SingleConcat(l.key, ":");
    SingleConcat(l.key + ":", l.left + w + l.right);
    assert t[0] == l.key[0];
  }

  lemma KeyIsSingleLine(key: string)
    requires GoodKey(key)
    ensures SingleLine(key)
  {
    forall i | 0 <= i < |key| ensures !IsBreak(key[i]) && key[i] != '\r' {
      assert KeyChar(key[i]);
    }
  }

  lemma SingleConcat(a: string, b: string)
    requires SingleLine(a) && SingleLine(b)
    ensures SingleLine(a + b)
  {
  }

  lemma {:induction false} TextsAre(lines: seq<Line>)
    ensures |Texts(lines)| == |lines| && forall i :: 0 <= i < |lines| ==> Texts(lines)[i] == TextOf(lines[i])
  {
    if lines != [] {
      TextsAre(lines[1..]);
    }
  }

  lemma GoodIsPrintable(lines: seq<Line>)
    requires GoodLines(lines)
    ensures Printable(Texts(lines)) && |Texts(lines)| == |lines|
  {
    TextsAre(lines);
    forall i | 0 <= i < |lines| ensures SingleLine(TextOf(lines[i])) && (i > 0 ==> TextOf(lines[i]) != "---") {
      assert GoodLine(lines[i]);
      if lines[i].Entry? {
        EntryIsSingleLine(lines[i]);
      }
    }
  }

  // ----- the block of lines

  lemma {:induction false} LineLengthIs(line: string, rest: string)
    requires SingleLine(line) && (rest == "" || IsBreak(rest[0]))
    ensures LineLength(line + rest) == |line|
  {
    var s := line + rest;
    if line == "" {
      assert s == rest;
    } else {
      assert s[0] == line[0];
      assert s[1..] == line[1..] + rest;
      LineLengthIs(line[1..], rest);
    }
  }

  /** The header without its last newline. */
  function Block(texts: seq<string>): string {
    if texts == [] then "" else if |texts| == 1 then texts[0]
    else texts[0] + ("\n" + Block(texts[1..]))
  }

  lemma {:induction false} HeaderIsBlock(texts: seq<string>)
    requires texts != []
    ensures Header(texts) == Block(texts) + "\n"
  {
    if |texts| > 1 {
      HeaderIsBlock(texts[1..]);
    } else {
      assert Header(texts[1..]) == "";
    }
  }

  /** The lines without an empty last one. */
  function Chopped(texts: seq<string>): seq<string> {
    if texts != [] && texts[|texts| - 1] == "" then texts[..|texts| - 1] else texts
  }

  lemma ChoppedCons(line: string, rest: seq<string>)
    requires rest != []
    ensures Chopped([line] + rest) == [line] + Chopped(rest)
  {
    assert ([line] + rest)[|rest|] == rest[|rest| - 1] && ([line] + rest)[..|rest|] == [line] + rest[..|rest| - 1];
  }

  /** Splitting the block gives the lines back, except that an empty last line goes unnoticed. */
  lemma {:induction false} BlockSplits(texts: seq<string>)
    requires texts != [] && forall i :: 0 <= i < |texts| ==> SingleLine(texts[i])
    ensures SplitLines(Block(texts)) == Chopped(texts)
  {
    assert SingleLine(texts[0]);
    if |texts| == 1 {
      OneLineSplits(texts[0]);
      assert texts == [texts[0]];
    } else {
      BlockSplits(texts[1..]);
      NextLineSplits(texts[0], Block(texts[1..]));
      ChoppedCons(texts[0], texts[1..]);
      assert texts == [texts[0]] + texts[1..];
    }
  }

  lemma OneLineSplits(line: string)
    requires SingleLine(line)
    ensures SplitLines(line) == Chopped([line])
  {
    if line != "" {
      FirstLineSplits(line, "");
      assert line + "" == line && [line] + [] == [line];
    }
  }

  lemma NextLineSplits(line: string, block: string)
    requires SingleLine(line)
    ensures SplitLines(line + ("\n" + block)) == [line] + SplitLines(block)
  {
    FirstLineSplits(line, "\n" + block);
    assert ("\n" + block)[1..] == block;
  }

  lemma FirstLineSplits(line: string, rest: string)
    requires line + rest != "" && SingleLine(line) && (rest == "" || IsBreak(rest[0]))
    ensures SplitLines(line + rest) == [line] + SplitLines(if rest == "" then "" else rest[1..])
  {
    LineLengthIs(line, rest);
    var s := line + rest;
    assert s[..|line|] == line;
    if rest != "" {
      assert s[|line| + 1..] == rest[1..];
    }
  }

  lemma {:induction false} HeaderHasNoCr(texts: seq<string>)
    requires forall i :: 0 <= i < |texts| ==> SingleLine(texts[i])
    ensures '\r' !in Header(texts)
    ensures texts != [] ==> Header(texts) != "" && Header(texts)[|Header(texts)| - 1] == '\n'
  {
    if texts != [] {
      assert SingleLine(texts[0]);
      HeaderHasNoCr(texts[1..]);
    }
  }

  /** Three dashes and a newline from `i` on. */
  predicate DashLineAt(s: string, i: nat) {
    i + 3 < |s| && s[i] == '-' && s[i + 1] == '-' && s[i + 2] == '-' && s[i + 3] == '\n'
  }

  lemma FirstLineIsDashes(line: string, rest: string)
    requires SingleLine(line) && DashLineAt(line + "\n" + rest, 0)
    ensures line == "---"
  {
    var s := line + "\n" + rest;
    assert s[|line|] == '\n';
    assert forall k :: 0 <= k < |line| ==> s[k] == line[k];
    assert |line| == 3;
    assert line[0] == s[0] && line[1] == s[1] && line[2] == s[2];
  }

  /** No line of the header after the first is the delimiter. */
  lemma {:induction false} NoDashLine(texts: seq<string>, i: nat)
    requires Printable(texts) && i < |Header(texts)| && Header(texts)[i] == '\n'
    ensures !DashLineAt(Header(texts), i + 1)
  {
    var line, more := texts[0], Header(texts[1..]);
    var h := line + "\n" + more;
    assert SingleLine(line);
    assert forall k :: 0 <= k < |line| ==> h[k] == line[k];
    if i == |line| {
      DashLineShifts(line, more, 0);
      if DashLineAt(more, 0) {
        FirstLineIsDashes(texts[1], Header(texts[1..][1..]));
      }
    } else {
      var k := i - |line| - 1;
      assert h[i] == more[k];
      assert Printable(texts[1..]);
      NoDashLine(texts[1..], k);
      DashLineShifts(line, more, k + 1);
    }
  }

  lemma DashLineShifts(line: string, more: string, k: nat)
    ensures DashLineAt(line + "\n" + more, |line| + 1 + k) <==> DashLineAt(more, k)
  {
    var h, i := line + "\n" + more, |line| + 1 + k;
    assert |h| == |line| + 1 + |more|;
    if k + 3 < |more| {
      assert h[i] == more[k] && h[i + 1] == more[k + 1] && h[i + 2] == more[k + 2] && h[i + 3] == more[k + 3];
    }
  }

  // ----- the whole file

  lemma NotFence(t: string, j: nat)
    ensures FenceAt(t, j) ==> t[j] == '\n' && t[j + 1] == '-' && t[j + 2] == '-' && t[j + 3] == '-'
  {
    if FenceAt(t, j) {
      var f := t[j..j + 4];
      assert f[0] == t[j] && f[1] == t[j + 1] && f[2] == t[j + 2] && f[3] == t[j + 3];
    }
  }

  lemma NoEarlyClose(texts: seq<string>, body: string, j: nat)
    requires Printable(texts) && texts != [] && 4 <= j < 3 + |Header(texts)|
    ensures !ClosesAt(PrintTexts(texts, body), j)
  {
    var h, t := Header(texts), PrintTexts(texts, body);
    HeaderHasNoCr(texts);
    assert forall i :: 4 <= i < 4 + |h| ==> t[i] == h[i - 4];
    NotFence(t, j);
    if h[j - 4] == '\n' {
      NoDashLine(texts, j - 4);
    }
    if ClosesAt(t, j) {
      InsideHeader(h, t, j);
    }
  }

  /** A delimiter line that starts inside the header also ends inside it. */
  lemma InsideHeader(h: string, t: string, j: nat)
    requires h != "" && h[|h| - 1] == '\n' && 4 <= j < 3 + |h| && 4 + |h| <= |t|
    requires forall i :: 4 <= i < 4 + |h| ==> t[i] == h[i - 4]
    requires ClosesAt(t, j)
    ensures h[j - 4] == '\n' && DashLineAt(h, j - 3)
  {
    NotFence(t, j);
    assert t[3 + |h|] == '\n';
    assert j + 4 <= 3 + |h|;
  }

  /** The closing delimiter of a printed file is the one that was printed. */
  lemma PrintedCloses(texts: seq<string>, body: string)
    requires Printable(texts) && texts != []
    ensures CloseFrom(PrintTexts(texts, body), 4) == Some(3 + |Header(texts)|)
  {
    var h, t := Header(texts), PrintTexts(texts, body);
    var at := 3 + |h|;
    HeaderHasNoCr(texts);
    assert t[at] == '\n' && t[at + 1] == '-' && t[at + 2] == '-' && t[at + 3] == '-' && t[at + 4] == '\n';
    assert t[at..at + |FENCE|] == FENCE;
    forall j | 4 <= j < at ensures !ClosesAt(t, j) {
      NoEarlyClose(texts, body, j);
    }
    CloseIs(t, 4, Some(at));
  }

  ghost predicate GoodBody(body: string) {
    '\r' !in body && (body != "" ==> body[0] != '\n')
  }

  lemma PrintedIsUnix(texts: seq<string>, body: string)
    requires Printable(texts) && '\r' !in body
    ensures UnixLines(WithoutBom(PrintTexts(texts, body))) == PrintTexts(texts, body)
  {
    HeaderHasNoCr(texts);
    var t := PrintTexts(texts, body);
    assert t[0] == '-';
    UnixLinesKeeps(t);
  }

  lemma PrintedParts(h: string, block: string, body: string)
    requires h == block + "\n"
    ensures var t := "---\n" + h + "---\n" + body;
            && "---\n" <= t && 4 <= 3 + |h| && 3 + |h| + |FENCE| <= |t|
            && t[4..3 + |h|] == block && t[3 + |h| + |FENCE|..] == "\n" + body
  {
    var t := "---\n" + h + "---\n" + body;
    assert t == "---\n" + block + ("\n---" + ("\n" + body));
  }

  lemma ClosedParses(h: string, block: string, body: string)
    requires h == block + "\n" && GoodBody(body)
    requires CloseFrom("---\n" + h + "---\n" + body, 4) == Some(3 + |h|)
    ensures ParseUnix("---\n" + h + "---\n" + body) == Parsed(FieldsOf(map[], SplitLines(block)), body)
  {
    PrintedParts(h, block, body);
    ParseUnixAt("---\n" + h + "---\n" + body, 3 + |h|, block, "\n" + body);
    LeadingNewline(body);
  }

  lemma ParseUnixAt(t: string, close: nat, block: string, rest: string)
    requires "---\n" <= t && 4 <= close && close + |FENCE| <= |t| && CloseFrom(t, 4) == Some(close)
    requires t[4..close] == block && t[close + |FENCE|..] == rest
    ensures ParseUnix(t) == Parsed(FieldsOf(map[], SplitLines(block)), WithoutNewlines(rest))
  {
  }

  lemma LeadingNewline(body: string)
    requires GoodBody(body)
    ensures WithoutNewlines("\n" + body) == body
  {
    assert ("\n" + body)[1..] == body;
  }

  lemma {:induction false} FieldsOfLast(acc: map<string, string>, texts: seq<string>)
    requires texts != [] && texts[|texts| - 1] == ""
    ensures FieldsOf(acc, texts[..|texts| - 1]) == FieldsOf(acc, texts)
    decreases texts
  {
    if |texts| == 1 {
      assert texts[..0] == [] && texts[1..] == [];
      assert ParseLine("") == None;
    } else {
      assert texts[..|texts| - 1][1..] == texts[1..][..|texts[1..]| - 1];
      assert texts[..|texts| - 1][0] == texts[0];
      var f := ParseLine(texts[0]);
      FieldsOfLast(if f.None? then acc else acc[f.value.key := f.value.value], texts[1..]);
    }
  }

  /** Any printable lines: the header reads as what the lines say one by one, the body as it was. */
  lemma PrintedTextsReadBack(texts: seq<string>, body: string)
    requires Printable(texts) && texts != [] && GoodBody(body)
    ensures Parse(PrintTexts(texts, body)) == Parsed(FieldsOf(map[], texts), body)
  {
    PrintedIsUnix(texts, body);
    PrintedCloses(texts, body);
    HeaderIsBlock(texts);
    ClosedParses(Header(texts), Block(texts), body);
    BlockSplits(texts);
    if texts[|texts| - 1] == "" {
      FieldsOfLast(map[], texts);
    }
  }

  lemma {:induction false} FieldsReadBack(acc: map<string, string>, lines: seq<Line>)
    requires forall i :: 0 <= i < |lines| ==> GoodLine(lines[i])
    ensures FieldsOf(acc, Texts(lines)) == Meaning(acc, lines)
    decreases lines
  {
    if lines != [] {
      assert GoodLine(lines[0]);
      LineReadsBack(lines[0]);
      assert Texts(lines)[1..] == Texts(lines[1..]);
      FieldsReadBack(if lines[0].Entry? then acc[lines[0].key := lines[0].value] else acc, lines[1..]);
    }
  }

  // ----- when reading back fails

  lemma {:induction false} WithoutNewlinesIsSuffix(s: string)
    ensures |WithoutNewlines(s)| <= |s| && WithoutNewlines(s) == s[|s| - |WithoutNewlines(s)|..]
    ensures WithoutNewlines(s) != "" ==> WithoutNewlines(s)[0] != '\n'
  {
    if s != "" && s[0] == '\n' {
      WithoutNewlinesIsSuffix(s[1..]);
    }
  }

  lemma {:induction false} UnixLinesHasNoCr(s: string)
    ensures '\r' !in UnixLines(s)
    decreases |s|
  {
    if s != "" {
      UnixLinesHasNoCr(if s[0] == '\r' && |s| > 1 && s[1] == '\n' then s[2..] else s[1..]);
    }
  }

  /** A text that opens a header gives a body without CR and without leading newlines. */
  lemma ParsedBodyIsGood(t: string)
    requires '\r' !in t && "---\n" <= t
    ensures GoodBody(ParseUnix(t).body)
  {
    assert t[0] == '-';
    if CloseFrom(t, 4).Some? {
      var close := CloseFrom(t, 4).value;
      CloseFromIsLate(t, 4);
      WithoutNewlinesIsSuffix(t[close + 4..]);
    }
  }

  lemma PrintedBodyIsGood(texts: seq<string>, body: string)
    ensures GoodBody(Parse(PrintTexts(texts, body)).body)
  {
    var t := PrintTexts(texts, body);
    assert t == "---\n" + (Header(texts) + "---\n" + body);
    assert WithoutBom(t) == t;
    UnixLinesHasNoCr(t);
    UnixLinesSkips("---\n", Header(texts) + "---\n" + body);
    ParsedBodyIsGood(UnixLines(t));
  }

  lemma {:induction false} UnixLinesSkips(a: string, s: string)
    requires '\r' !in a
    ensures UnixLines(a + s) == a + UnixLines(s)
  {
    if a == "" {
      assert a + s == s;
    } else {
      assert a[0] in a;
      assert (a + s)[1..] == a[1..] + s;
      UnixLinesSkips(a[1..], s);
      ConcatAssociates([a[0]], a[1..], UnixLines(s));
      assert a == [a[0]] + a[1..];
    }
  }

  /** A second line that starts with a dash cannot be closed by the first fence position. */
  lemma DashLineLosesText(t: string)
    requires "---\n" <= t && |t| >= 8 && t[4] == '-'
    ensures |ParseUnix(t).body| != |t| - 8
  {
    NotFence(t, 4);
    if CloseFrom(t, 4).Some? {
      var close := CloseFrom(t, 4).value;
      CloseFromIsLate(t, 4);
      WithoutNewlinesIsSuffix(t[close + 4..]);
    }
  }

  /** An empty header is never recognised: the search starts past the line that would close it. */
  lemma EmptyHeaderIsLost(body: string)
    ensures Parse(PrintTexts([], body)).body != body
  {
    PrintedBodyIsGood([], body);
    if '\r' !in body {
      PrintedIsUnix([], body);
      DashLineLosesText(PrintTexts([], body));
    }
  }

  lemma {:induction false} CloseFromIsLate(t: string, from: nat)
    ensures CloseFrom(t, from).Some? ==>
              CloseFrom(t, from).value >= from && ClosesAt(t, CloseFrom(t, from).value)
    decreases |t| - from
  {
    if from <= |t| && !ClosesAt(t, from) {
      CloseFromIsLate(t, from + 1);
    }
  }

  /**
   Printing and parsing recovers fields and body, whatever form each field is written in and whatever
   other lines stand between, exactly when there is a line to print and the body has no CR and no
   leading newline.
   */
  lemma RoundTripIff(lines: seq<Line>, body: string)
    requires GoodLines(lines)
    ensures Parse(Print(lines, body)) == Parsed(Meaning(map[], lines), body) <==> lines != [] && GoodBody(body)
  {
    PrintedBodyIsGood(Texts(lines), body);
    GoodIsPrintable(lines);
    if lines == [] {
      EmptyHeaderIsLost(body);
    } else if GoodBody(body) {
      PrintedTextsReadBack(Texts(lines), body);
      FieldsReadBack(map[], lines);
    }
  }
}
