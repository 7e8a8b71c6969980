/**
 Streamed text completions: `data:` lines, arriving in chunks that may end anywhere,
 up to a `[DONE]` line. A subset of the line framing of section 9.2 (server-sent
 events) of the WHATWG HTML standard.
 */
module SseStream {
  import opened Common
  import opened PyText

  /** White space for `trim` and for `\s`. */
  predicate JsSpace(c: char) {
    || '\U{9}' <= c <= '\U{D}' || c == ' ' || c == '\U{A0}' || c == '\U{1680}' || '\U{2000}' <= c <= '\U{200A}'
    || c == '\U{2028}' || c == '\U{2029}' || c == '\U{202F}' || c == '\U{205F}' || c == '\U{3000}' || c == '\U{FEFF}'
  }

  function TrimStart(s: string): string {
    if s != [] && JsSpace(s[0]) then TrimStart(s[1..]) else s
  }

  function TrimEnd(s: string): string {
    if s != [] && JsSpace(s[|s| - 1]) then TrimEnd(s[..|s| - 1]) else s
  }

  datatype Event = Skip | Done | Data(json: string)

  function Classify(line: string): Event {
    var trimmed := TrimEnd(TrimStart(line));
    if !("data:" <= trimmed) then Skip else
      var json := TrimStart(trimmed[|"data:"|..]);
      if json == "[DONE]" then Done else Data(json)
  }

  /** The content of a payload, empty if it has none; no value if it does not parse. */
  type Parser = string -> Option<string>

  // ----- what the client does

  datatype Progress = Progress(shown: seq<string>, buffer: string, done: bool)

  /** The lines of one read; a payload that does not parse is put back in front of the buffer. */
  function Handle(parse: Parser, p: Progress, lines: seq<string>): Progress
    decreases lines
  {
    if lines == [] || p.done then p
    else Handle(parse, HandleLine(parse, p, lines[0]), lines[1..])
  }

  function HandleLine(parse: Parser, p: Progress, line: string): Progress {
    match Classify(line)
    case Skip => p
    case Done => p.(done := true)
    case Data(json) =>
      match parse(json)
      case None => p.(buffer := json + p.buffer)
      case Some(content) => if content == "" then p else p.(shown := p.shown + [content])
  }

  function Read(parse: Parser, p: Progress, chunk: string): Progress {
    var lines := Split(p.buffer + chunk, "\n");
    Handle(parse, Progress(p.shown, lines[|lines| - 1], p.done), lines[..|lines| - 1])
  }

  function ReadAll(parse: Parser, p: Progress, chunks: seq<string>): Progress
    decreases chunks
  {
    if chunks == [] || p.done then p else ReadAll(parse, Read(parse, p, chunks[0]), chunks[1..])
  }

  const START := Progress([], "", false)

  /** The read loop of the client, on the text chunks of the response. */
  method StreamText(parse: Parser, chunks: seq<string>) returns (shown: seq<string>)
    ensures shown == ReadAll(parse, START, chunks).shown
  {
    shown := [];
    var buffer := "";
    for i := 0 to |chunks|
      invariant ReadAll(parse, Progress(shown, buffer, false), chunks[i..]) == ReadAll(parse, START, chunks)
    {
      assert chunks[i..][1..] == chunks[i + 1..];
      ghost var before := Progress(shown, buffer, false);
      buffer := buffer + chunks[i];
      var lines := Split(buffer, "\n");
      buffer := lines[|lines| - 1];
      lines := lines[..|lines| - 1];
      ghost var after := Read(parse, before, chunks[i]);
      for j := 0 to |lines|
        invariant Handle(parse, Progress(shown, buffer, false), lines[j..]) == after
      {
        assert lines[j..][1..] == lines[j + 1..];
        var event := Classify(lines[j]);
        if event.Skip? {
          continue;
        }
        if event.Done? {
          return;
        }
        var content := parse(event.json);
        if content.None? {
          buffer := event.json + buffer;
        } else if content.value != "" {
          shown := shown + [content.value];
        }
      }
    }
  }

  // ----- what the whole text says

  function Contribution(parse: Parser, line: string): seq<string> {
    match Classify(line)
    case Data(json) => (match parse(json) case Some(content) => if content == "" then [] else [content] case None => [])
    case _ => []
  }

  /** What is shown for a list of complete lines, up to the first `[DONE]`. */
  function Shown(parse: Parser, lines: seq<string>): seq<string> {
    if lines == [] || Classify(lines[0]) == Done then []
    else Contribution(parse, lines[0]) + Shown(parse, lines[1..])
  }

  predicate EndsIn(lines: seq<string>) {
    lines != [] && (Classify(lines[0]) == Done || EndsIn(lines[1..]))
  }

  /** Every payload before the first `[DONE]` parses, or is empty: putting nothing back changes nothing. */
  predicate AllParse(parse: Parser, lines: seq<string>) {
    lines == [] ||
    match Classify(lines[0])
    case Skip => AllParse(parse, lines[1..])
    case Done => true
    case Data(json) => (json == "" || parse(json).Some?) && AllParse(parse, lines[1..])
  }

  /** The newline-terminated lines of a text. */
  function Complete(text: string): seq<string> {
    var lines := Split(text, "\n");
    lines[..|lines| - 1]
  }

  function Rest(text: string): string {
    var lines := Split(text, "\n");
    lines[|lines| - 1]
  }

  function ConsHead(c: char, ls: seq<string>): seq<string>
    requires ls != []
  {
    [[c] + ls[0]] + ls[1..]
  }

  lemma SplitStep(c: char, tail: string)
    ensures Split([c] + tail, "\n") == if c == '\n' then [""] + Split(tail, "\n") else ConsHead(c, Split(tail, "\n"))
  {
    var s := [c] + tail;
    assert s[1..] == tail && s[0] == c;
    assert "\n" <= s <==> c == '\n' by {
      assert "\n"[0] == '\n' && "\n" == ['\n'];
      assert s[..1] == [c];
    }
  }

  lemma {:induction false} SplitSingle(s: string)
    requires |Split(s, "\n")| == 1
    ensures Split(s, "\n")[0] == s
  {
    if s != "" {
      assert s == [s[0]] + s[1..];
      SplitStep(s[0], s[1..]);
      SplitSingle(s[1..]);
    }
  }

  lemma ConsHeadKeepsLast(c: char, init: seq<string>, last: string, more: seq<string>)
    requires init != [] && more != []
    ensures ConsHead(c, init + [last]) == ConsHead(c, init) + [last]
    ensures ConsHead(c, init + more) == ConsHead(c, init) + more
  {
    assert (init + [last])[1..] == init[1..] + [last];
    assert (init + more)[1..] == init[1..] + more;
  }

  lemma SplitShape(text: string)
    ensures Split(text, "\n") == Complete(text) + [Rest(text)]
  {
  }

  lemma LastSplits(text: string, init: seq<string>, last: string)
    requires Split(text, "\n") == init + [last]
    ensures Complete(text) == init && Rest(text) == last
  {
    assert (init + [last])[..|init|] == init;
  }

  /** When more text arrives, complete lines stay as they are; only the unfinished one grows. */
  lemma {:induction false} SplitConcat(a: string, b: string)
    ensures Split(a + b, "\n") == Complete(a) + Split(Rest(a) + b, "\n")
    decreases |a|
  {
    if a == "" {
      assert a + b == b;
      LastSplits(a, [], "");
      assert [] + Split(b, "\n") == Split(b, "\n");
    } else {
      var c, tail := a[0], a[1..];
      assert a == [c] + tail;
      assert a + b == [c] + (tail + b);
      SplitConcat(tail, b);
      SplitStep(c, tail);
      SplitStep(c, tail + b);
      SplitShape(tail);
      SplitConcatStep(a, b, c, tail);
    }
  }

  lemma SplitConcatStep(a: string, b: string, c: char, tail: string)
    requires a == [c] + tail
    requires Split(tail + b, "\n") == Complete(tail) + Split(Rest(tail) + b, "\n")
    requires Split(a, "\n") == if c == '\n' then [""] + Split(tail, "\n") else ConsHead(c, Split(tail, "\n"))
    requires Split(a + b, "\n") == if c == '\n' then [""] + Split(tail + b, "\n") else ConsHead(c, Split(tail + b, "\n"))
    requires Split(tail, "\n") == Complete(tail) + [Rest(tail)]
    ensures Split(a + b, "\n") == Complete(a) + Split(Rest(a) + b, "\n")
  {
    var init, last, more := Complete(tail), Rest(tail), Split(Rest(tail) + b, "\n");
    if c == '\n' {
      ConcatAssociates([""], init, [last]);
      LastSplits(a, [""] + init, last);
      ConcatAssociates([""], init, more);
    } else if init != [] {
      ConsHeadKeepsLast(c, init, last, more);
      LastSplits(a, ConsHead(c, init), last);
    } else {
      assert [] + [last] == [last];
      SplitSingle(tail);
      LastSplits(a, [], [c] + last);
      assert [] + Split(a + b, "\n") == Split(a + b, "\n");
    }
  }

  lemma CompleteConcat(a: string, b: string)
    ensures Complete(a + b) == Complete(a) + Complete(Rest(a) + b)
  {
    SplitConcat(a, b);
    SplitShape(Rest(a) + b);
    ConcatAssociates(Complete(a), Complete(Rest(a) + b), [Rest(Rest(a) + b)]);
    LastSplits(a + b, Complete(a) + Complete(Rest(a) + b), Rest(Rest(a) + b));
  }

  // ----- the two agree

  lemma {:induction false} HandleGoodLines(parse: Parser, p: Progress, lines: seq<string>)
    requires !p.done && AllParse(parse, lines)
    ensures var q := Handle(parse, p, lines);
            q.shown == p.shown + Shown(parse, lines) && q.buffer == p.buffer && (q.done <==> EndsIn(lines))
    decreases lines
  {
    if lines == [] {
      assert p.shown + [] == p.shown;
    } else {
      var next := HandleLine(parse, p, lines[0]);
      if Classify(lines[0]) == Done {
        assert Handle(parse, next, lines[1..]) == next;
        assert p.shown + [] == p.shown;
      } else {
        HandleGoodLines(parse, next, lines[1..]);
        var own := Contribution(parse, lines[0]);
        assert next.shown == p.shown + own && next.buffer == p.buffer;
        ConcatAssociates(p.shown, own, Shown(parse, lines[1..]));
      }
    }
  }

  lemma {:induction false} ShownConcat(parse: Parser, a: seq<string>, b: seq<string>)
    ensures Shown(parse, a + b) == Shown(parse, a) + (if EndsIn(a) then [] else Shown(parse, b))
    ensures AllParse(parse, a + b) <==> AllParse(parse, a) && (EndsIn(a) || AllParse(parse, b))
  {
    if a == [] {
      assert a + b == b;
    } else {
      assert (a + b)[1..] == a[1..] + b && (a + b)[0] == a[0];
      ShownConcat(parse, a[1..], b);
      ConcatAssociates(Contribution(parse, a[0]), Shown(parse, a[1..]), if EndsIn(a[1..]) then [] else Shown(parse, b));
    }
  }

  lemma {:induction false} ReadAllShows(parse: Parser, p: Progress, chunks: seq<string>)
    requires !p.done && AllParse(parse, Complete(p.buffer + Flatten(chunks))) && Complete(p.buffer) == []
    ensures ReadAll(parse, p, chunks).shown == p.shown + Shown(parse, Complete(p.buffer + Flatten(chunks)))
    decreases chunks
  {
    if chunks == [] {
      assert p.buffer + [] == p.buffer;
      assert p.shown + [] == p.shown;
    } else {
      var rest := Flatten(chunks[1..]);
      var text := p.buffer + chunks[0];
      ConcatAssociates(p.buffer, chunks[0], rest);
      CompleteConcat(text, rest);
      var first := Complete(text);
      ShownConcat(parse, first, Complete(Rest(text) + rest));
      HandleGoodLines(parse, Progress(p.shown, Rest(text), p.done), first);
      var next := Read(parse, p, chunks[0]);
      if next.done {
        assert Shown(parse, first) + [] == Shown(parse, first);
      } else {
        RestIsUnfinished(text);
        ReadAllShows(parse, next, chunks[1..]);
        ConcatAssociates(p.shown, Shown(parse, first), Shown(parse, Complete(Rest(text) + rest)));
      }
    }
  }

  lemma RestIsUnfinished(text: string)
    ensures Complete(Rest(text)) == []
  {
    SplitConcat(text, "");
    assert text + "" == text && Rest(text) + "" == Rest(text);
    assert |Split(text, "\n")| == |Complete(text)| + 1;
  }

  /** If every non-empty payload parses, what is shown does not depend on how the text was split into chunks. */
  lemma ChunkingIsIrrelevant(parse: Parser, chunks: seq<string>)
    requires AllParse(parse, Complete(Flatten(chunks)))
    ensures ReadAll(parse, START, chunks).shown == Shown(parse, Complete(Flatten(chunks)))
  {
    var text := Flatten(chunks);
    assert "" + text == text;
    RestIsUnfinished("");
    ReadAllShows(parse, START, chunks);
    assert [] + Shown(parse, Complete(text)) == Shown(parse, Complete(text));
  }

  // ----- what a line says

  predicate JsBlank(s: string) {
    forall i :: 0 <= i < |s| ==> JsSpace(s[i])
  }

  predicate JsTrimmed(s: string) {
    s == "" || (!JsSpace(s[0]) && !JsSpace(s[|s| - 1]))
  }

  lemma {:induction false} TrimStartSkips(a: string, t: string)
    requires JsBlank(a) && (t == "" || !JsSpace(t[0]))
    ensures TrimStart(a + t) == t
  {
    if a == "" {
      assert a + t == t;
    } else {
      assert (a + t)[0] == a[0] && (a + t)[1..] == a[1..] + t;
      TrimStartSkips(a[1..], t);
    }
  }

  lemma {:induction false} TrimEndSkips(t: string, b: string)
    requires JsBlank(b) && (t == "" || !JsSpace(t[|t| - 1]))
    ensures TrimEnd(t + b) == t
  {
    if b == "" {
      assert t + b == t;
    } else {
      var last := |b| - 1;
      assert (t + b)[|t + b| - 1] == b[last] && (t + b)[..|t + b| - 1] == t + b[..last];
      TrimEndSkips(t, b[..last]);
    }
  }

  /** A `data:` line with any white space around its payload carries that payload, or ends the stream if it is `[DONE]`. */
  lemma DataLineReads(w: string, x: string, json: string, y: string)
    requires JsBlank(w) && JsBlank(x) && JsBlank(y) && JsTrimmed(json)
    ensures Classify(w + ("data:" + (x + json) + y)) == if json == "[DONE]" then Done else Data(json)
  {
    var start := "data:" + (x + json) + y;
    assert start[0] == 'd';
    TrimStartSkips(w, start);
    if json == "" {
      assert x + json == x;
      assert start == "data:" + (x + y);
      assert "data:"[4] == ':';
      TrimEndSkips("data:", x + y);
      assert "data:"[5..] == "";
    } else {
      var kept := "data:" + (x + json);
      assert kept[|kept| - 1] == json[|json| - 1];
      TrimEndSkips(kept, y);
      assert "data:" <= kept && kept[5..] == x + json;
      TrimStartSkips(x, json);
    }
  }

  /** Anything else is skipped. */
  lemma OtherLineIsSkipped(w: string, t: string, y: string)
    requires JsBlank(w) && JsBlank(y) && JsTrimmed(t) && !("data:" <= t)
    ensures Classify(w + (t + y)) == Skip
  {
    if t == "" {
      assert w + (t + y) == (w + y) + "";
      TrimStartSkips(w + y, "");
    } else {
      assert (t + y)[0] == t[0];
      TrimStartSkips(w, t + y);
      TrimEndSkips(t, y);
    }
  }
}
