/** For all other texts, a split that shows something else; and so the exact condition. */
module SseSplits {
  import opened Common
  import opened PyText
  import opened SseStream
  import opened SseChunking

  // ----- lines as text

  function Text(lines: seq<string>): string {
    if lines == [] then "" else lines[0] + "\n" + Text(lines[1..])
  }

  lemma {:induction false} TextSplits(lines: seq<string>, r: string)
    requires Clean(lines) && '\n' !in r
    ensures Split(Text(lines) + r, "\n") == lines + [r]
    ensures Complete(Text(lines) + r) == lines && Rest(Text(lines) + r) == r
  {
    if lines == [] {
      SplitWithout(r, '\n');
      assert ['\n'] == "\n" && "" + r == r;
      assert [] + [r] == [r];
    } else {
      assert Text(lines) + r == lines[0] + "\n" + (Text(lines[1..]) + r);
      assert ['\n'] == "\n";
      SplitAtFirst(lines[0], '\n', Text(lines[1..]) + r);
      TextSplits(lines[1..], r);
      ConcatAssociates([lines[0]], lines[1..], [r]);
      assert lines == [lines[0]] + lines[1..];
    }
    LastSplits(Text(lines) + r, lines, r);
  }

  lemma {:induction false} TextConcat(a: seq<string>, b: seq<string>)
    ensures Text(a + b) == Text(a) + Text(b)
  {
    if a == [] {
      assert a + b == b && "" + Text(b) == Text(b);
    } else {
      assert (a + b)[1..] == a[1..] + b;
      TextConcat(a[1..], b);
      ConcatAssociates(a[0] + "\n", Text(a[1..]), Text(b));
    }
  }

  lemma {:induction false} TextOfComplete(t: string)
    ensures Text(Complete(t)) + Rest(t) == t
  {
    if t == "" {
      assert Split(t, "\n") == [""];
    } else {
      var c, tail := t[0], t[1..];
      assert t == [c] + tail;
      TextOfComplete(tail);
      if c == '\n' {
        TextAfterNewline(tail);
      } else {
        TextAfterChar(c, tail);
      }
    }
  }

  lemma TextAfterNewline(tail: string)
    ensures Text(Complete("\n" + tail)) + Rest("\n" + tail) == "\n" + (Text(Complete(tail)) + Rest(tail))
  {
    var lines, last := Complete(tail), Rest(tail);
    SplitStep('\n', tail);
    SplitShape(tail);
    assert ['\n'] == "\n";
    ConcatAssociates([""], lines, [last]);
    LastSplits("\n" + tail, [""] + lines, last);
    assert ([""] + lines)[1..] == lines;
    assert Text([""] + lines) == "\n" + Text(lines);
    ConcatAssociates("\n", Text(lines), last);
  }

  lemma TextAfterChar(c: char, tail: string)
    requires c != '\n'
    ensures Text(Complete([c] + tail)) + Rest([c] + tail) == [c] + (Text(Complete(tail)) + Rest(tail))
  {
    var lines, last := Complete(tail), Rest(tail);
    SplitStep(c, tail);
    SplitShape(tail);
    if lines == [] {
      assert [] + [last] == [last];
      LastSplits([c] + tail, [], [c] + last);
      assert "" + last == last && "" + ([c] + last) == [c] + last;
    } else {
      ConsHeadKeepsLast(c, lines, last, [last]);
      LastSplits([c] + tail, ConsHead(c, lines), last);
      TextConsHead(c, lines);
      ConcatAssociates([c], Text(lines), last);
    }
  }

  lemma TextConsHead(c: char, lines: seq<string>)
    requires lines != []
    ensures Text(ConsHead(c, lines)) == [c] + Text(lines)
  {
    assert ConsHead(c, lines)[1..] == lines[1..];
    assert [c] + lines[0] + "\n" + Text(lines[1..]) == [c] + (lines[0] + "\n" + Text(lines[1..]));
  }

  /** Reading whole lines, the first of them behind what is in the buffer. */
  lemma ReadLines(parse: Parser, p: Progress, lines: seq<string>, r: string)
    requires !p.done && Clean(lines) && '\n' !in r && '\n' !in p.buffer && lines != []
    ensures Read(parse, p, Text(lines) + r) == Handle(parse, Progress(p.shown, r, false), Fronted(p.buffer, lines))
  {
    TextSplits(lines, r);
    SplitWithPrefix(p.buffer, Text(lines) + r);
    var seen := Fronted(p.buffer, lines);
    assert [p.buffer + (lines + [r])[0]] + (lines + [r])[1..] == seen + [r];
    assert (seen + [r])[..|seen|] == seen;
  }

  lemma ReadFreshLines(parse: Parser, p: Progress, lines: seq<string>, r: string)
    requires !p.done && p.buffer == "" && Clean(lines) && '\n' !in r && lines != []
    ensures Read(parse, p, Text(lines) + r) == Handle(parse, Progress(p.shown, r, false), lines)
  {
    ReadLines(parse, p, lines, r);
    assert "" + lines[0] == lines[0];
    assert Fronted("", lines) == lines;
  }

  /** Lines that leave something pending, and then one chunk with more lines: the first of these is swallowed. */
  lemma Swallow(parse: Parser, p: Progress, before: seq<string>, lines: seq<string>, r: string)
    requires !p.done && p.buffer == "" && Clean(before) && Clean(lines) && '\n' !in r && lines != []
    requires !EndsIn(before) && Leads(Pending(parse, before))
    ensures var next := Read(parse, p, Text(before));
            && !next.done
            && Read(parse, next, Text(lines) + r) ==
               Handle(parse, Progress(p.shown + Shown(parse, before), r, false), lines[1..])
  {
    var b := Pending(parse, before);
    assert Text(before) + "" == Text(before);
    ReadFreshLines(parse, p, before, "");
    HandleLines(parse, Progress(p.shown, "", false), before);
    assert b + "" == b;
    PendingIsClean(parse, before);
    ReadLines(parse, Progress(p.shown + Shown(parse, before), b, false), lines, r);
    SpoiledIsSkipped(b, lines[0]);
    assert Fronted(b, lines)[1..] == lines[1..];
  }

  lemma FlattenPair<T>(a: seq<T>, b: seq<T>, rest: seq<seq<T>>)
    ensures ([a, b] + rest)[1..] == [b] + rest && ([b] + rest)[1..] == rest
    ensures Flatten([a, b] + rest) == a + (b + Flatten(rest))
  {
    assert ([a, b] + rest)[1..] == [b] + rest && ([b] + rest)[1..] == rest;
  }

  lemma FlattenOne<T>(a: seq<T>)
    ensures Flatten([a]) == a
  {
    assert [a][1..] == [] && a + [] == a;
  }

  /** A swallowed line in a chunk of its own leaves the client as fresh as at the start. */
  lemma SwallowOne(parse: Parser, p: Progress, before: seq<string>, line: string, rest: seq<string>)
    requires !p.done && p.buffer == "" && Clean(before) && '\n' !in line
    requires !EndsIn(before) && Leads(Pending(parse, before))
    ensures ReadAll(parse, p, [Text(before), Text([line])] + rest) ==
            ReadAll(parse, Progress(p.shown + Shown(parse, before), "", false), rest)
  {
    Swallow(parse, p, before, [line], "");
    assert Text([line]) + "" == Text([line]) && [line][1..] == [];
    FlattenPair(Text(before), Text([line]), rest);
  }

  ghost predicate Readable(parse: Parser, lines: seq<string>, r: string) {
    Clean(lines) && '\n' !in r && PlainPayloads(parse, lines)
  }

  lemma ReadableSplits(parse: Parser, a: seq<string>, b: seq<string>, r: string)
    requires Readable(parse, a + b, r)
    ensures Readable(parse, a, r) && Readable(parse, b, r)
  {
    assert forall i :: 0 <= i < |a| ==> a[i] == (a + b)[i];
    assert forall i :: 0 <= i < |b| ==> b[i] == (a + b)[|a| + i];
  }

  lemma TailIsReadable(parse: Parser, lines: seq<string>, r: string)
    requires Readable(parse, lines, r) && lines != []
    ensures [] + lines[1..] == lines[1..] && Readable(parse, lines[1..], r)
  {
  }

  lemma MoveOne<T>(before: seq<T>, lines: seq<T>)
    requires lines != []
    ensures before + [lines[0]] + lines[1..] == before + lines
  {
  }

  /** Moving a line that ends nothing over to the lines already passed. */
  lemma PassOne(parse: Parser, before: seq<string>, l: string)
    requires !EndsIn(before) && Classify(l) != Done
    ensures !EndsIn(before + [l])
    ensures Shown(parse, before + [l]) == Shown(parse, before) + Contribution(parse, l)
    ensures Pending(parse, before + [l]) == PutBack(parse, l) + Pending(parse, before)
  {
    PendingAppend(parse, before, l);
    ShownConcat(parse, before, [l]);
    EndsInConcat(before, [l]);
    ShownOne(parse, l);
  }

  lemma ShownOne(parse: Parser, l: string)
    requires Classify(l) != Done
    ensures Shown(parse, [l]) == Contribution(parse, l) && !EndsIn([l])
  {
    assert [l][1..] == [] && Contribution(parse, l) + [] == Contribution(parse, l);
  }

  lemma {:induction false} EndsInConcat(a: seq<string>, b: seq<string>)
    ensures EndsIn(a + b) <==> EndsIn(a) || EndsIn(b)
  {
    if a == [] {
      assert a + b == b;
    } else {
      assert (a + b)[1..] == a[1..] + b;
      EndsInConcat(a[1..], b);
    }
  }

  /** The chunks that swallow the line after `before` and go on with `rest`. */
  lemma SwallowText(before: seq<string>, lines: seq<string>, r: string, rest: seq<string>)
    requires lines != [] && Flatten(rest) == Text(lines[1..]) + r
    ensures Flatten([Text(before), Text([lines[0]])] + rest) == Text(before + lines) + r
  {
    FlattenPair(Text(before), Text([lines[0]]), rest);
    TextConcat(before, lines);
    TextConcat([lines[0]], lines[1..]);
    assert lines == [lines[0]] + lines[1..];
    ConcatAssociates(Text([lines[0]]), Text(lines[1..]), r);
    ConcatAssociates(Text(before), Text(lines), r);
  }

  /** Swallowing a line and going on with chunks that show something shows more than the lines before it. */
  lemma SwallowThenShow(parse: Parser, p: Progress, before: seq<string>, lines: seq<string>, r: string, rest: seq<string>)
    requires !p.done && p.buffer == "" && Readable(parse, before, r) && Clean(lines) && lines != []
    requires !EndsIn(before) && Pending(parse, before) != "" && Flatten(rest) == Text(lines[1..]) + r
    requires |ReadAll(parse, Progress(p.shown + Shown(parse, before), "", false), rest).shown| > |p.shown + Shown(parse, before)|
    ensures var chunks := [Text(before), Text([lines[0]])] + rest;
            && Flatten(chunks) == Text(before + lines) + r
            && |ReadAll(parse, p, chunks).shown| > |p.shown + Shown(parse, before)|
  {
    PendingLeads(parse, before);
    SwallowText(before, lines, r, rest);
    SwallowOne(parse, p, before, lines[0], rest);
  }

  /** In one chunk, all lines show what they say. */
  lemma ShownAtOnce(parse: Parser, p: Progress, lines: seq<string>, r: string)
    requires !p.done && p.buffer == "" && Clean(lines) && '\n' !in r && lines != []
    ensures ReadAll(parse, p, [Text(lines) + r]).shown == p.shown + Shown(parse, lines)
  {
    ReadFreshLines(parse, p, lines, r);
    HandleLines(parse, Progress(p.shown, r, false), lines);
    assert [Text(lines) + r][1..] == [];
  }

  /** Lines that are not silent can be cut so that something is shown. */
  lemma {:induction false} SilenceBreaks(parse: Parser, p: Progress, before: seq<string>, lines: seq<string>, r: string)
    returns (chunks: seq<string>)
    requires !p.done && p.buffer == "" && Readable(parse, before + lines, r)
    requires !EndsIn(before) && Shown(parse, before) == [] && !Silent(parse, lines, Pending(parse, before) != "")
    ensures Flatten(chunks) == Text(before + lines) + r
    ensures |ReadAll(parse, p, chunks).shown| > |p.shown|
    decreases lines
  {
    ReadableSplits(parse, before, lines, r);
    if Classify(lines[0]) == Done {
      TailIsReadable(parse, lines, r);
      var rest := SilenceBreaks(parse, Progress(p.shown + Shown(parse, before), "", false), [], lines[1..], r);
      chunks := [Text(before), Text([lines[0]])] + rest;
      SwallowThenShow(parse, p, before, lines, r, rest);
    } else if Contribution(parse, lines[0]) != [] {
      chunks := [Text(before + lines) + r];
      FlattenOne(Text(before + lines) + r);
      ShownAtOnce(parse, p, before + lines, r);
      ShownConcat(parse, before, lines);
    } else {
      MoveOne(before, lines);
      PassOne(parse, before, lines[0]);
      chunks := SilenceBreaks(parse, p, before + [lines[0]], lines[1..], r);
    }
  }

  /** With something pending, lines that are not silent can be cut so that the wrong thing is shown. */
  lemma {:induction false} ArmedDepends(parse: Parser, before: seq<string>, lines: seq<string>, r: string)
    returns (chunks: seq<string>)
    requires Readable(parse, before + lines, r)
    requires !EndsIn(before) && Pending(parse, before) != "" && !Silent(parse, lines, true)
    ensures Flatten(chunks) == Text(before + lines) + r
    ensures ReadAll(parse, START, chunks).shown != Shown(parse, before + lines)
    decreases lines
  {
    ReadableSplits(parse, before, lines, r);
    PendingLeads(parse, before);
    ShownConcat(parse, before, lines);
    if Classify(lines[0]) == Done {
      TailIsReadable(parse, lines, r);
      var rest := SilenceBreaks(parse, Progress(START.shown + Shown(parse, before), "", false), [], lines[1..], r);
      chunks := [Text(before), Text([lines[0]])] + rest;
      SwallowThenShow(parse, START, before, lines, r, rest);
    } else if Contribution(parse, lines[0]) != [] {
      chunks := [Text(before), Text(lines) + r];
      TextConcat(before, lines);
      FlattenOne(Text(lines) + r);
      assert chunks[1..] == [Text(lines) + r];
      ConcatAssociates(Text(before), Text(lines), r);
      LosesFirst(parse, before, lines, r);
    } else {
      MoveOne(before, lines);
      PassOne(parse, before, lines[0]);
      chunks := ArmedDepends(parse, before + [lines[0]], lines[1..], r);
    }
  }

  /** A cut in front of a line that shows something loses what it shows. */
  lemma LosesFirst(parse: Parser, before: seq<string>, lines: seq<string>, r: string)
    requires Clean(before) && Clean(lines) && '\n' !in r && !EndsIn(before) && Leads(Pending(parse, before))
    requires lines != [] && Contribution(parse, lines[0]) != []
    ensures |ReadAll(parse, START, [Text(before), Text(lines) + r]).shown| < |Shown(parse, before + lines)|
  {
    Swallow(parse, START, before, lines, r);
    HandleLines(parse, Progress(START.shown + Shown(parse, before), r, false), lines[1..]);
    ReadTwo(parse, START, Text(before), Text(lines) + r);
    ShownConcat(parse, before, lines);
  }

  lemma ReadTwo(parse: Parser, p: Progress, a: string, b: string)
    requires !p.done && !Read(parse, p, a).done
    ensures ReadAll(parse, p, [a, b]) == Read(parse, Read(parse, p, a), b)
  {
    var next := Read(parse, p, a);
    assert [a, b][1..] == [b] && [b][1..] == [];
    assert ReadAll(parse, next, [b]) == ReadAll(parse, Read(parse, next, b), []);
  }

  lemma {:induction false} UnsafeDepends(parse: Parser, before: seq<string>, lines: seq<string>, r: string)
    returns (chunks: seq<string>)
    requires Readable(parse, before + lines, r)
    requires !EndsIn(before) && Pending(parse, before) == "" && !Safe(parse, lines)
    ensures Flatten(chunks) == Text(before + lines) + r
    ensures ReadAll(parse, START, chunks).shown != Shown(parse, before + lines)
    decreases lines
  {
    MoveOne(before, lines);
    PassOne(parse, before, lines[0]);
    if PutBack(parse, lines[0]) == "" {
      chunks := UnsafeDepends(parse, before + [lines[0]], lines[1..], r);
    } else {
      chunks := ArmedDepends(parse, before + [lines[0]], lines[1..], r);
    }
  }

  // ----- the exact condition

  /**
   What is shown is that of the whole text for every way of splitting it, if and only if
   nothing is left to show after a rejected payload.
   */
  lemma ChunkingIsIrrelevantIff(parse: Parser, text: string)
    requires PlainPayloads(parse, Complete(text))
    ensures (forall chunks :: Flatten(chunks) == text ==> ReadAll(parse, START, chunks).shown == Shown(parse, Complete(text)))
            <==> Safe(parse, Complete(text))
  {
    var lines := Complete(text);
    if Safe(parse, lines) {
      forall chunks | Flatten(chunks) == text ensures ReadAll(parse, START, chunks).shown == Shown(parse, lines) {
        assert "" + text == text;
        RestIsUnfinished("");
        SafeReadAll(parse, START, chunks);
        assert [] + Shown(parse, lines) == Shown(parse, lines);
      }
    } else {
      LinesAreClean(text);
      TextOfComplete(text);
      assert [] + lines == lines;
      var chunks := UnsafeDepends(parse, [], lines, Rest(text));
    }
  }

  // ----- examples

  /** Only the payload "1" parses. */
  function OnlyOne(json: string): Option<string> {
    if json == "1" then Some("1") else None
  }

  lemma Classified()
    ensures Classify("data:x") == Data("x") && Classify("data:1") == Data("1")
    ensures Classify("data:data:1") == Data("data:1") && Classify("") == Skip
  {
    assert "data:x"[5..] == "x" && "data:1"[5..] == "1" && "data:data:1"[5..] == "data:1";
  }

  /** The shortest failing texts: a line whose payload is rejected, then a line that shows something. */
  lemma UnparsableDependsOnChunking(parse: Parser, bad: string, good: string)
    requires '\n' !in bad && '\n' !in good && Leads(PutBack(parse, bad)) && Contribution(parse, good) != []
    ensures ReadAll(parse, START, [Text([bad, good])]).shown == Contribution(parse, good)
    ensures ReadAll(parse, START, [Text([bad]), Text([good])]).shown == []
  {
    TwoLines(parse, bad, good);
    assert [bad] + [good] == [bad, good];
    assert Text([bad, good]) + "" == Text([bad, good]) && Text([good]) + "" == Text([good]);
    ShownAtOnce(parse, START, [bad, good], "");
    LosesFirst(parse, [bad], [good], "");
  }

  lemma TwoLines(parse: Parser, bad: string, good: string)
    requires PutBack(parse, bad) != "" && Contribution(parse, good) != []
    ensures Pending(parse, [bad]) == PutBack(parse, bad) && !EndsIn([bad])
    ensures Shown(parse, [bad, good]) == Contribution(parse, good) && |Contribution(parse, good)| == 1
  {
    ShownConcat(parse, [bad], [good]);
    assert [bad] + [good] == [bad, good];
    ShownOne(parse, bad);
    ShownOne(parse, good);
    RejectedShowsNothing(parse, bad);
    assert [] + Contribution(parse, good) == Contribution(parse, good);
  }

  lemma RejectedShowsNothing(parse: Parser, bad: string)
    requires PutBack(parse, bad) != ""
    ensures Contribution(parse, bad) == [] && Pending(parse, [bad]) == PutBack(parse, bad)
  {
    assert [bad][1..] == [] && "" + PutBack(parse, bad) == PutBack(parse, bad);
  }

  /** Such lines exist: the put-back "x" swallows the line that would show "1". */
  lemma SpoiledExample()
    ensures ReadAll(OnlyOne, START, [Text(["data:x", "data:1"])]).shown == ["1"]
    ensures ReadAll(OnlyOne, START, [Text(["data:x"]), Text(["data:1"])]).shown == []
  {
    Classified();
    assert "x"[0] == 'x' && "data:"[0] == 'd';
    UnparsableDependsOnChunking(OnlyOne, "data:x", "data:1");
  }

  /** A rejected payload that itself reads as a `data:` line is read again, so the condition is not enough for it. */
  lemma RereadExample()
    ensures var lines := ["data:data:1", ""];
            && Safe(OnlyOne, lines) && Shown(OnlyOne, lines) == []
            && ReadAll(OnlyOne, START, [Text(["data:data:1"]), Text([""])]).shown == ["1"]
  {
    RereadIsSafe();
    Reread();
    ReadTwo(OnlyOne, START, Text(["data:data:1"]), Text([""]));
  }

  lemma RereadIsSafe()
    ensures Safe(OnlyOne, ["data:data:1", ""]) && Shown(OnlyOne, ["data:data:1", ""]) == []
  {
    Classified();
    var lines := ["data:data:1", ""];
    assert lines[1..] == [""] && [""][1..] == [];
  }

  lemma Reread()
    ensures Read(OnlyOne, START, Text(["data:data:1"])) == Progress([], "data:1", false)
    ensures Read(OnlyOne, Progress([], "data:1", false), Text([""])) == Progress(["1"], "", false)
  {
    Classified();
    ReadLine(OnlyOne, START, "data:data:1");
    ReadLine(OnlyOne, Progress([], "data:1", false), "");
    assert "" + "data:data:1" == "data:data:1" && "data:1" + "" == "data:1";
  }

  lemma ReadLine(parse: Parser, p: Progress, line: string)
    requires !p.done && '\n' !in p.buffer && '\n' !in line
    ensures Read(parse, p, Text([line])) == HandleLine(parse, Progress(p.shown, "", false), p.buffer + line)
  {
    assert Text([line]) + "" == Text([line]);
    ReadLines(parse, p, [line], "");
    var seen := p.buffer + line;
    assert Fronted(p.buffer, [line]) == [seen] && [seen][1..] == [];
    var next := HandleLine(parse, Progress(p.shown, "", false), seen);
    assert Handle(parse, next, []) == next;
  }
}
