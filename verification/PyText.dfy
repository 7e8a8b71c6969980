/** The Python string operations the dashboard code relies on. */
module PyText {

  /** `str.isspace` for one character. */
  predicate IsSpace(c: char) {
    || '\U{9}' <= c <= '\U{D}' || '\U{1C}' <= c <= '\U{20}' || c == '\U{85}' || c == '\U{A0}' || c == '\U{1680}'
    || '\U{2000}' <= c <= '\U{200A}' || c == '\U{2028}' || c == '\U{2029}' || c == '\U{202F}' || c == '\U{205F}'
    || c == '\U{3000}'
  }

  /** By code point. */
  lemma SpaceCodes(c: char)
    ensures IsSpace(c) <==>
            var n := c as int;
            9 <= n <= 13 || 28 <= n <= 32 || 0x2000 <= n <= 0x200A || n in {0x85, 0xA0, 0x1680, 0x2028, 0x2029, 0x202F, 0x205F, 0x3000}
  {
  }

  function LStrip(s: string): string {
    if s != [] && IsSpace(s[0]) then LStrip(s[1..]) else s
  }

  function RStrip(s: string): string {
    if s != [] && IsSpace(s[|s| - 1]) then RStrip(s[..|s| - 1]) else s
  }

  function Strip(s: string): string {
    RStrip(LStrip(s))
  }

  predicate Trimmed(s: string) {
    s == [] || (!IsSpace(s[0]) && !IsSpace(s[|s| - 1]))
  }

  lemma {:induction false} LStripStarts(s: string)
    ensures LStrip(s) != [] ==> !IsSpace(LStrip(s)[0])
  {
    if s != [] && IsSpace(s[0]) {
      LStripStarts(s[1..]);
    }
  }

  lemma {:induction false} RStripEnds(s: string)
    ensures RStrip(s) != [] ==> !IsSpace(RStrip(s)[|RStrip(s)| - 1])
    ensures RStrip(s) <= s
  {
    if s != [] && IsSpace(s[|s| - 1]) {
      RStripEnds(s[..|s| - 1]);
    }
  }

  lemma StripIsTrimmed(s: string)
    ensures Trimmed(Strip(s))
  {
    LStripStarts(s);
    RStripEnds(LStrip(s));
  }

  lemma TrimmedIsStripped(s: string)
    requires Trimmed(s)
    ensures Strip(s) == s
  {
  }

  lemma StripTwice(s: string)
    ensures Strip(Strip(s)) == Strip(s)
  {
    StripIsTrimmed(s);
    TrimmedIsStripped(Strip(s));
  }

  lemma {:induction false} RStripKeepsFirst(s: string)
    requires s != [] && !IsSpace(s[0])
    ensures RStrip(s) != [] && RStrip(s)[0] == s[0]
  {
    if IsSpace(s[|s| - 1]) {
      RStripKeepsFirst(s[..|s| - 1]);
    }
  }

  /** A string that starts with a visible character still starts with it after stripping. */
  lemma StripKeepsFirst(s: string)
    requires s != [] && !IsSpace(s[0])
    ensures Strip(s) != [] && Strip(s)[0] == s[0]
  {
    RStripKeepsFirst(s);
  }

  predicate Blank(s: string) {
    forall i :: 0 <= i < |s| ==> IsSpace(s[i])
  }

  /** Stripping takes white space off both ends of a trimmed text, and nothing else. */
  lemma StripsBlanks(a: string, t: string, b: string)
    requires Blank(a) && Blank(b) && Trimmed(t)
    ensures Strip(a + t + b) == t
  {
    LStripSkips(a, t + b);
    assert a + (t + b) == a + t + b;
    if t == "" {
      assert t + b == b;
      LStripSkips(b, "");
      assert b + "" == b;
    } else {
      assert (t + b)[0] == t[0];
      RStripSkips(t, b);
    }
  }

  lemma {:induction false} LStripSkips(a: string, t: string)
    requires Blank(a)
    ensures LStrip(a + t) == LStrip(t)
  {
    if a == "" {
      assert a + t == t;
    } else {
      assert (a + t)[0] == a[0] && (a + t)[1..] == a[1..] + t;
      LStripSkips(a[1..], t);
    }
  }

  lemma {:induction false} RStripSkips(t: string, b: string)
    requires Blank(b)
    ensures RStrip(t + b) == RStrip(t)
  {
    if b == "" {
      assert t + b == t;
    } else {
      var last := |b| - 1;
      assert (t + b)[|t + b| - 1] == b[last] && (t + b)[..|t + b| - 1] == t + b[..last];
      RStripSkips(t, b[..last]);
    }
  }

  // ----- decimal numerals

  function Digit(d: nat): char
    requires d < 10
  {
    '0' + d as char
  }

  /** `str` of a non-negative integer. */
  function Decimal(n: nat): string {
    if n < 10 then [Digit(n)] else Decimal(n / 10) + [Digit(n % 10)]
  }

  predicate IsDigit(c: char) {
    '0' <= c <= '9'
  }

  lemma {:induction false} DecimalIsDigits(n: nat)
    ensures Decimal(n) != [] && forall i :: 0 <= i < |Decimal(n)| ==> IsDigit(Decimal(n)[i])
  {
    if n >= 10 {
      DecimalIsDigits(n / 10);
    }
  }

  /** The number a string of digits denotes. */
  function Value(s: string): int {
    if s == "" then 0 else 10 * Value(s[..|s| - 1]) + (s[|s| - 1] as int - '0' as int)
  }

  /** A numeral denotes the number it was written for. */
  lemma {:induction false} DecimalDenotes(n: nat)
    ensures Value(Decimal(n)) == n
  {
    if n < 10 {
      assert Decimal(n)[..0] == "";
    } else {
      var s := Decimal(n);
      assert s[..|s| - 1] == Decimal(n / 10);
      DecimalDenotes(n / 10);
    }
  }

  lemma DecimalIsTrimmed(n: nat)
    ensures Decimal(n) != [] && IsDigit(Decimal(n)[0]) && Strip(Decimal(n)) == Decimal(n)
  {
    DecimalIsDigits(n);
    TrimmedIsStripped(Decimal(n));
  }

  // ----- splitting and joining on a separator

  /** `s.split(sep)` for a non-empty separator: leftmost, non-overlapping. */
  function Split(s: string, sep: string): seq<string>
    requires sep != ""
    ensures Split(s, sep) != []
    decreases |s|
  {
    if s == "" then [""]
    else if sep <= s then [""] + Split(s[|sep|..], sep)
    else
      var rest := Split(s[1..], sep);
      [[s[0]] + rest[0]] + rest[1..]
  }

  function Join(parts: seq<string>, sep: string): string {
    if parts == [] then "" else if |parts| == 1 then parts[0] else parts[0] + sep + Join(parts[1..], sep)
  }

  lemma {:induction false} SplitWithout(n: string, c: char)
    requires c !in n
    ensures Split(n, [c]) == [n]
  {
    if n != "" {
      assert n[0] in n;
      SplitWithout(n[1..], c);
      assert [n[0]] + n[1..] == n;
    }
  }

  lemma {:induction false} SplitAtFirst(n: string, c: char, rest: string)
    requires c !in n
    ensures Split(n + [c] + rest, [c]) == [n] + Split(rest, [c])
  {
    var s := n + [c] + rest;
    if n == "" {
      assert s[1..] == rest;
    } else {
      assert n[0] in n;
      assert s[1..] == n[1..] + [c] + rest;
      SplitAtFirst(n[1..], c, rest);
      assert [n[0]] + n[1..] == n;
      assert ([n[1..]] + Split(rest, [c]))[1..] == Split(rest, [c]);
    }
  }
}
