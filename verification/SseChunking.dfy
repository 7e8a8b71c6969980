/**
 Texts for which what is shown is independent of how the network splits the stream: a payload
 that does not parse is put back in front of the buffer, where it spoils whichever line
 happens to come first in the next chunk, so nothing may be left to show by then.
 */
module SseChunking {
  import opened Common
  import opened PyText
  import opened SseStream

  // ----- what is put back

  function PutBack(parse: Parser, line: string): string {
    match Classify(line)
    case Data(json) => if parse(json).None? then json else ""
    case _ => ""
  }

  /** What the lines of one chunk leave in front of the buffer: the last rejected payload first. */
  function Pending(parse: Parser, lines: seq<string>): string {
    if lines == [] then "" else Pending(parse, lines[1..]) + PutBack(parse, lines[0])
  }

  // ----- the condition

  /**
   However the lines are cut, nothing is shown: no line shows anything up to the first
   `[DONE]`, nor after it if a rejected payload, pending as `armed` says, can swallow it.
   */
  predicate Silent(parse: Parser, lines: seq<string>, armed: bool)
    decreases lines
  {
    lines == [] ||
    match Classify(lines[0])
    case Skip => Silent(parse, lines[1..], armed)
    case Done => armed ==> Silent(parse, lines[1..], false)
    case Data(json) => Contribution(parse, lines[0]) == [] && Silent(parse, lines[1..], armed || PutBack(parse, lines[0]) != "")
  }

  /** Before the first `[DONE]`, nothing is left to show after a rejected payload. */
  predicate Safe(parse: Parser, lines: seq<string>) {
    lines == [] ||
    match Classify(lines[0])
    case Skip => Safe(parse, lines[1..])
    case Done => true
    case Data(json) =>
      if PutBack(parse, lines[0]) == "" then Safe(parse, lines[1..]) else Silent(parse, lines[1..], true)
  }

  /** A text that is no beginning of a `data:` line, whatever follows it. */
  predicate Leads(b: string) {
    b != "" && !JsSpace(b[0]) && !(b <= "data:") && !("data:" <= b)
  }

  /** No rejected payload can itself be taken for the beginning of a `data:` line. */
  ghost predicate PlainPayloads(parse: Parser, lines: seq<string>) {
    forall i :: 0 <= i < |lines| ==> PutBack(parse, lines[i]) == "" || Leads(PutBack(parse, lines[i]))
  }

  ghost predicate Clean(lines: seq<string>) {
    forall i :: 0 <= i < |lines| ==> '\n' !in lines[i]
  }

  // ----- spoiled lines

  lemma PrefixesCompare(b: string, x: string, d: string)
    ensures b + x <= d ==> b <= d
    ensures d <= b + x ==> d <= b || b <= d
  {
    var s := b + x;
    assert b <= s;
    if d <= s && |d| <= |b| {
      assert d == s[..|d|] == b[..|d|];
    }
    if d <= s && |b| <= |d| {
      assert b == s[..|b|] == d[..|b|];
    }
  }

  lemma LeadsExtends(b: string, x: string)
    requires Leads(b)
    ensures Leads(b + x)
  {
    PrefixesCompare(b, x, "data:");
    assert (b + x)[0] == b[0];
  }

  lemma {:induction false} TrimEndIsPrefix(s: string)
    ensures TrimEnd(s) <= s
  {
    if s != [] && JsSpace(s[|s| - 1]) {
      TrimEndIsPrefix(s[..|s| - 1]);
    }
  }

  lemma PrefixTransitive(a: string, b: string, c: string)
    requires b <= c
    ensures a <= b ==> a <= c
  {
    if a <= b {
      assert c[..|a|] == b[..|a|];
    }
  }

  /** A line with something put back in front of it is skipped. */
  lemma SpoiledIsSkipped(b: string, line: string)
    requires Leads(b)
    ensures Classify(b + line) == Skip
  {
    LeadsExtends(b, line);
    var s := b + line;
    assert TrimStart(s) == s;
    TrimEndIsPrefix(s);
    PrefixTransitive("data:", TrimEnd(s), s);
  }

  lemma {:induction false} PendingLeads(parse: Parser, lines: seq<string>)
    requires PlainPayloads(parse, lines)
    ensures Pending(parse, lines) == "" || Leads(Pending(parse, lines))
  {
    if lines != [] {
      PendingLeads(parse, lines[1..]);
      var rest, own := Pending(parse, lines[1..]), PutBack(parse, lines[0]);
      if rest != "" {
        LeadsExtends(rest, own);
      } else {
        assert rest + own == own;
      }
    }
  }

  lemma {:induction false} PendingAppend(parse: Parser, lines: seq<string>, last: string)
    ensures Pending(parse, lines + [last]) == PutBack(parse, last) + Pending(parse, lines)
  {
    if lines == [] {
      assert lines + [last] == [last] && [last][1..] == [];
    } else {
      assert (lines + [last])[1..] == lines[1..] + [last];
      PendingAppend(parse, lines[1..], last);
      ConcatAssociates(PutBack(parse, last), Pending(parse, lines[1..]), PutBack(parse, lines[0]));
    }
  }

  // ----- newlines

  lemma {:induction false} TrimKeepsClean(s: string)
    requires '\n' !in s
    ensures '\n' !in TrimStart(s) && '\n' !in TrimEnd(s)
    decreases |s|
  {
    if s != [] {
      TrimKeepsClean(s[1..]);
      TrimKeepsClean(s[..|s| - 1]);
    }
  }

  lemma PutBackIsClean(parse: Parser, line: string)
    requires '\n' !in line
    ensures '\n' !in PutBack(parse, line)
  {
    var trimmed := TrimEnd(TrimStart(line));
    TrimKeepsClean(line);
    TrimKeepsClean(TrimStart(line));
    if "data:" <= trimmed {
      TrimKeepsClean(trimmed[|"data:"|..]);
    }
  }

  lemma {:induction false} PendingIsClean(parse: Parser, lines: seq<string>)
    requires Clean(lines)
    ensures '\n' !in Pending(parse, lines)
  {
    if lines != [] {
      PendingIsClean(parse, lines[1..]);
      PutBackIsClean(parse, lines[0]);
    }
  }

  lemma {:induction false} SplitIsClean(text: string)
    ensures Clean(Split(text, "\n"))
  {
    if text != "" {
      var c, tail := text[0], text[1..];
      assert text == [c] + tail;
      SplitStep(c, tail);
      SplitIsClean(tail);
      var ls := Split(tail, "\n");
      assert '\n' !in ls[0];
    }
  }

  lemma LinesAreClean(text: string)
    ensures Clean(Complete(text)) && '\n' !in Rest(text)
  {
    SplitIsClean(text);
    var lines := Split(text, "\n");
    assert '\n' !in lines[|lines| - 1];
  }

  /** Text without a newline in front of other text only changes its first piece. */
  lemma {:induction false} SplitWithPrefix(b: string, t: string)
    requires '\n' !in b
    ensures Split(b + t, "\n") == [b + Split(t, "\n")[0]] + Split(t, "\n")[1..]
  {
    var pieces := Split(t, "\n");
    if b == "" {
      assert b + t == t && b + pieces[0] == pieces[0];
    } else {
      assert b[0] in b;
      assert b == [b[0]] + b[1..];
      ConcatAssociates([b[0]], b[1..], t);
      SplitStep(b[0], b[1..] + t);
      SplitWithPrefix(b[1..], t);
      ConsHeadIs(b[0], b[1..] + pieces[0], pieces[1..]);
      ConcatAssociates([b[0]], b[1..], pieces[0]);
    }
  }

  lemma ConsHeadIs(c: char, first: string, rest: seq<string>)
    ensures ConsHead(c, [first] + rest) == [[c] + first] + rest
  {
    assert ([first] + rest)[1..] == rest;
  }

  /** The lines seen when `b` is put back in front of a text. */
  function Fronted(b: string, lines: seq<string>): seq<string> {
    if lines == [] then [] else [b + lines[0]] + lines[1..]
  }

  lemma CompleteWithPrefix(b: string, t: string)
    requires '\n' !in b
    ensures Complete(b + t) == Fronted(b, Complete(t))
  {
    SplitWithPrefix(b, t);
    SplitShape(t);
    var lines := Complete(t);
    if lines != [] {
      LastSplits(b + t, Fronted(b, lines), Rest(t));
    } else {
      LastSplits(b + t, [], b + Rest(t));
    }
  }

  // ----- one chunk

  /** What handling any lines shows, and what it leaves in the buffer unless it stops. */
  lemma {:induction false} HandleLines(parse: Parser, p: Progress, lines: seq<string>)
    requires !p.done
    ensures var q := Handle(parse, p, lines);
            && q.shown == p.shown + Shown(parse, lines)
            && (q.done <==> EndsIn(lines))
            && (!q.done ==> q.buffer == Pending(parse, lines) + p.buffer)
    decreases lines
  {
    if lines == [] {
      assert p.shown + [] == p.shown && "" + p.buffer == p.buffer;
    } else {
      var next := HandleLine(parse, p, lines[0]);
      if Classify(lines[0]) == Done {
        assert Handle(parse, next, lines[1..]) == next;
        assert p.shown + [] == p.shown;
      } else {
        HandleLines(parse, next, lines[1..]);
        var own := Contribution(parse, lines[0]);
        assert next.shown == p.shown + own && next.buffer == PutBack(parse, lines[0]) + p.buffer;
        ConcatAssociates(p.shown, own, Shown(parse, lines[1..]));
        ConcatAssociates(Pending(parse, lines[1..]), PutBack(parse, lines[0]), p.buffer);
      }
    }
  }

  // ----- safe texts

  lemma {:induction false} SilentShowsNothing(parse: Parser, lines: seq<string>, armed: bool)
    requires Silent(parse, lines, armed)
    ensures Shown(parse, lines) == [] && Silent(parse, lines, false) && Safe(parse, lines)
    decreases lines
  {
    if lines != [] && Classify(lines[0]) != Done {
      SilentShowsNothing(parse, lines[1..], armed || PutBack(parse, lines[0]) != "");
      if armed && PutBack(parse, lines[0]) != "" {
        assert Silent(parse, lines[1..], true);
      }
    }
  }

  /** Swallowing the first line of a silent text leaves a silent text. */
  lemma SilentAfterSwallow(parse: Parser, lines: seq<string>, b: string)
    requires Silent(parse, lines, true) && Leads(b)
    ensures Silent(parse, Fronted(b, lines), false)
  {
    if lines != [] {
      SpoiledIsSkipped(b, lines[0]);
      assert Fronted(b, lines)[1..] == lines[1..];
      if Classify(lines[0]) != Done {
        SilentShowsNothing(parse, lines[1..], true);
      }
    }
  }

  /** What is known of the lines to come once some have been handled. */
  lemma {:induction false} SilentSplits(parse: Parser, a: seq<string>, b: seq<string>, armed: bool)
    requires Silent(parse, a + b, armed) && !EndsIn(a)
    ensures Silent(parse, b, armed || Pending(parse, a) != "")
    decreases a
  {
    if a == [] {
      assert a + b == b;
    } else {
      assert (a + b)[1..] == a[1..] + b && (a + b)[0] == a[0];
      SilentSplits(parse, a[1..], b, armed || PutBack(parse, a[0]) != "");
    }
  }

  lemma {:induction false} SafeSplits(parse: Parser, a: seq<string>, b: seq<string>)
    requires Safe(parse, a + b) && !EndsIn(a)
    ensures if Pending(parse, a) == "" then Safe(parse, b) else Silent(parse, b, true)
  {
    if a == [] {
      assert a + b == b;
    } else {
      assert (a + b)[1..] == a[1..] + b && (a + b)[0] == a[0];
      if PutBack(parse, a[0]) == "" {
        SafeSplits(parse, a[1..], b);
      } else {
        SilentSplits(parse, a[1..], b, true);
      }
    }
  }

  lemma PlainSplits(parse: Parser, a: seq<string>, b: seq<string>)
    requires PlainPayloads(parse, a + b)
    ensures PlainPayloads(parse, a) && PlainPayloads(parse, b)
  {
    assert forall i :: 0 <= i < |a| ==> a[i] == (a + b)[i];
    assert forall i :: 0 <= i < |b| ==> b[i] == (a + b)[|a| + i];
  }

  /** After a chunk the lines to come are as safe as before, and show what is still missing. */
  lemma StillSafe(parse: Parser, first: seq<string>, later: seq<string>)
    requires Safe(parse, first + later) && PlainPayloads(parse, first + later) && !EndsIn(first)
    ensures var seen := Fronted(Pending(parse, first), later);
            && Safe(parse, seen) && PlainPayloads(parse, seen)
            && Shown(parse, first + later) == Shown(parse, first) + Shown(parse, seen)
  {
    var b := Pending(parse, first);
    SafeSplits(parse, first, later);
    PlainSplits(parse, first, later);
    PendingLeads(parse, first);
    ShownConcat(parse, first, later);
    if b == "" {
      FrontedByNothing(later);
    } else {
      SwallowedIsSafe(parse, later, b);
    }
  }

  lemma FrontedByNothing(lines: seq<string>)
    ensures Fronted("", lines) == lines
  {
    assert lines != [] ==> "" + lines[0] == lines[0];
  }

  lemma SwallowedIsSafe(parse: Parser, lines: seq<string>, b: string)
    requires Silent(parse, lines, true) && Leads(b) && PlainPayloads(parse, lines)
    ensures Safe(parse, Fronted(b, lines)) && PlainPayloads(parse, Fronted(b, lines))
    ensures Shown(parse, lines) == [] && Shown(parse, Fronted(b, lines)) == []
  {
    SilentAfterSwallow(parse, lines, b);
    SilentShowsNothing(parse, lines, true);
    SilentShowsNothing(parse, Fronted(b, lines), false);
    if lines != [] {
      SpoiledIsSkipped(b, lines[0]);
    }
  }

  lemma {:induction false} SafeReadAll(parse: Parser, p: Progress, chunks: seq<string>)
    requires !p.done && Complete(p.buffer) == []
    requires Safe(parse, Complete(p.buffer + Flatten(chunks))) && PlainPayloads(parse, Complete(p.buffer + Flatten(chunks)))
    ensures ReadAll(parse, p, chunks).shown == p.shown + Shown(parse, Complete(p.buffer + Flatten(chunks)))
    decreases chunks
  {
    if chunks == [] {
      assert p.buffer + [] == p.buffer && p.shown + [] == p.shown;
    } else {
      var rest, text := Flatten(chunks[1..]), p.buffer + chunks[0];
      var first, later := Complete(text), Complete(Rest(text) + rest);
      ConcatAssociates(p.buffer, chunks[0], rest);
      CompleteConcat(text, rest);
      ShownConcat(parse, first, later);
      HandleLines(parse, Progress(p.shown, Rest(text), p.done), first);
      var next := Read(parse, p, chunks[0]);
      if next.done {
        assert Shown(parse, first) + [] == Shown(parse, first);
      } else {
        var b := Pending(parse, first);
        StillSafe(parse, first, later);
        NextBuffer(parse, text, rest);
        SafeReadAll(parse, next, chunks[1..]);
        ConcatAssociates(p.shown, Shown(parse, first), Shown(parse, Fronted(b, later)));
      }
    }
  }

  /** The buffer after a chunk is unfinished, and shows the lines to come behind what was put back. */
  lemma NextBuffer(parse: Parser, text: string, rest: string)
    ensures var b := Pending(parse, Complete(text));
            && Complete(b + Rest(text)) == []
            && Complete(b + Rest(text) + rest) == Fronted(b, Complete(Rest(text) + rest))
  {
    var b := Pending(parse, Complete(text));
    LinesAreClean(text);
    PendingIsClean(parse, Complete(text));
    RestIsUnfinished(text);
    CompleteWithPrefix(b, Rest(text));
    ConcatAssociates(b, Rest(text), rest);
    CompleteWithPrefix(b, Rest(text) + rest);
  }

  // ----- every text

  /** The lines before the first rejected payload. */
  function BeforeRejected(parse: Parser, lines: seq<string>): seq<string> {
    if lines == [] || PutBack(parse, lines[0]) != "" then [] else [lines[0]] + BeforeRejected(parse, lines[1..])
  }

  lemma {:induction false} BeforeRejectedConcat(parse: Parser, a: seq<string>, b: seq<string>)
    ensures BeforeRejected(parse, a) <= a
    ensures BeforeRejected(parse, a + b) ==
            if Pending(parse, a) == "" then a + BeforeRejected(parse, b) else BeforeRejected(parse, a)
  {
    if a == [] {
      assert a + b == b && [] + BeforeRejected(parse, b) == BeforeRejected(parse, b);
    } else {
      assert (a + b)[1..] == a[1..] + b && (a + b)[0] == a[0];
      BeforeRejectedConcat(parse, a[1..], b);
      assert a == [a[0]] + a[1..];
      ConcatAssociates([a[0]], a[1..], BeforeRejected(parse, b));
    }
  }

  lemma ShownGrows(parse: Parser, a: seq<string>, b: seq<string>)
    requires a <= b
    ensures Shown(parse, a) <= Shown(parse, b)
  {
    assert b == a + b[|a|..];
    ShownConcat(parse, a, b[|a|..]);
  }

  lemma ReadShows(parse: Parser, p: Progress, chunk: string)
    requires !p.done
    ensures var lines, q := Complete(p.buffer + chunk), Read(parse, p, chunk);
            && q.shown == p.shown + Shown(parse, lines)
            && (q.done <==> EndsIn(lines))
            && (!q.done ==> q.buffer == Pending(parse, lines) + Rest(p.buffer + chunk))
  {
    HandleLines(parse, Progress(p.shown, Rest(p.buffer + chunk), p.done), Complete(p.buffer + chunk));
  }

  lemma {:induction false} ReadAllExtends(parse: Parser, p: Progress, chunks: seq<string>)
    ensures p.shown <= ReadAll(parse, p, chunks).shown
    decreases chunks
  {
    if chunks != [] && !p.done {
      ReadShows(parse, p, chunks[0]);
      ReadAllExtends(parse, Read(parse, p, chunks[0]), chunks[1..]);
    }
  }

  lemma PrefixChain<T>(a: seq<T>, b: seq<T>, c: seq<T>, d: seq<T>)
    requires b <= c && a + c <= d
    ensures a + b <= d
  {
    assert (a + c)[..|a + b|] == a + b;
    assert d[..|a + b|] == (a + c)[..|a + b|];
  }

  lemma {:induction false} StartIsShownFrom(parse: Parser, p: Progress, chunks: seq<string>)
    requires !p.done && Complete(p.buffer) == []
    ensures p.shown + Shown(parse, BeforeRejected(parse, Complete(p.buffer + Flatten(chunks)))) <= ReadAll(parse, p, chunks).shown
    decreases chunks
  {
    if chunks == [] {
      assert p.buffer + [] == p.buffer && p.shown + [] == p.shown;
    } else {
      var rest, text := Flatten(chunks[1..]), p.buffer + chunks[0];
      var first, later := Complete(text), Complete(Rest(text) + rest);
      var next := Read(parse, p, chunks[0]);
      ConcatAssociates(p.buffer, chunks[0], rest);
      CompleteConcat(text, rest);
      BeforeRejectedConcat(parse, first, later);
      ReadShows(parse, p, chunks[0]);
      ReadAllExtends(parse, next, chunks[1..]);
      if Pending(parse, first) != "" {
        ShownGrows(parse, BeforeRejected(parse, first), first);
        PrefixChain(p.shown, Shown(parse, BeforeRejected(parse, first)), Shown(parse, first), ReadAll(parse, p, chunks).shown);
      } else {
        ShownConcat(parse, first, BeforeRejected(parse, later));
        if next.done {
          assert Shown(parse, first) + [] == Shown(parse, first);
        } else {
          RestIsUnfinished(text);
          assert "" + Rest(text) == Rest(text);
          StartIsShownFrom(parse, next, chunks[1..]);
          ConcatAssociates(p.shown, Shown(parse, first), Shown(parse, BeforeRejected(parse, later)));
        }
      }
    }
  }

  /** For every text, whatever its payloads: each split shows at least what the lines before the first rejected payload show. */
  lemma EverySplitShowsStart(parse: Parser, chunks: seq<string>)
    ensures Shown(parse, BeforeRejected(parse, Complete(Flatten(chunks)))) <= ReadAll(parse, START, chunks).shown
  {
    assert "" + Flatten(chunks) == Flatten(chunks);
    RestIsUnfinished("");
    StartIsShownFrom(parse, START, chunks);
    var start := Shown(parse, BeforeRejected(parse, Complete(Flatten(chunks))));
    assert [] + start == start;
  }
}
