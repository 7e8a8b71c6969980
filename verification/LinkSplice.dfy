/** Replacing the local links of a Markdown line, last link first, so that earlier positions stay valid. */
module LinkSplice {
  import opened Common

  /** A matched link `line[start..end]` and the text to put in its place. */
  datatype Link = Link(start: nat, end: nat, text: string)

  /** The links lie from `pos` on, left to right, without overlap. */
  ghost predicate InOrder(line: string, pos: nat, links: seq<Link>)
    decreases links
  {
    if links == [] then pos <= |line|
    else pos <= links[0].start <= links[0].end && InOrder(line, links[0].end, links[1..])
  }

  lemma {:induction false} InOrderFits(line: string, pos: nat, links: seq<Link>)
    requires InOrder(line, pos, links)
    ensures pos <= |line|
    decreases links
  {
    if links != [] {
      InOrderFits(line, links[0].end, links[1..]);
    }
  }

  /** The line from `pos` on, read left to right: text between links is copied, each link gives its replacement. */
  ghost function Rewritten(line: string, pos: nat, links: seq<Link>): string
    requires InOrder(line, pos, links)
    decreases links
  {
    InOrderFits(line, pos, links);
    if links == [] then line[pos..]
    else
      InOrderFits(line, links[0].end, links[1..]);
      line[pos..links[0].start] + (links[0].text + Rewritten(line, links[0].end, links[1..]))
  }

  /** Where the text before link `i` begins. */
  function From(links: seq<Link>, i: nat): nat
    requires i <= |links|
  {
    if i == 0 then 0 else links[i - 1].end
  }

  lemma {:induction false} InOrderAt(line: string, pos: nat, links: seq<Link>, i: nat)
    requires InOrder(line, pos, links) && i < |links|
    ensures (if i == 0 then pos else From(links, i)) <= links[i].start <= links[i].end
    ensures InOrder(line, links[i].end, links[i + 1..])
    decreases links
  {
    if i > 0 {
      InOrderAt(line, links[0].end, links[1..], i - 1);
      assert links[1..][i..] == links[i + 1..];
    }
  }

  lemma FromInOrder(line: string, links: seq<Link>, i: nat)
    requires InOrder(line, 0, links) && i <= |links|
    ensures InOrder(line, From(links, i), links[i..])
  {
    if i > 0 {
      InOrderAt(line, 0, links, i - 1);
    } else {
      assert links[0..] == links;
    }
  }

  /** Splicing one link into a line whose later links are done. */
  lemma SpliceStep(line: string, from: nat, links: seq<Link>, result: string)
    requires links != [] && InOrder(line, from, links) && links[0].end <= |line|
    requires result == line[..links[0].end] + Rewritten(line, links[0].end, links[1..])
    ensures result[..links[0].start] + links[0].text + result[links[0].end..] == line[..from] + Rewritten(line, from, links)
  {
    var l, rest := links[0], Rewritten(line, links[0].end, links[1..]);
    assert result[l.end..] == rest;
    InOrderFits(line, l.end, links[1..]);
    assert result[..l.start] == line[..l.start] == line[..from] + line[from..l.start];
    ConcatAssociates(line[..from] + line[from..l.start], l.text, rest);
    ConcatAssociates(line[..from], line[from..l.start], l.text + rest);
  }

  /** Splicing from the right gives the left-to-right rewriting of the whole line. */
  method Splice(line: string, links: seq<Link>) returns (result: string)
    requires InOrder(line, 0, links)
    ensures result == Rewritten(line, 0, links)
  {
    result := line;
    var i := |links|;
    FromInOrder(line, links, i);
    InOrderFits(line, From(links, i), links[i..]);
    assert result == line[..From(links, i)] + line[From(links, i)..];
    while i > 0
      invariant 0 <= i <= |links|
      invariant InOrder(line, From(links, i), links[i..]) && From(links, i) <= |line|
      invariant result == line[..From(links, i)] + Rewritten(line, From(links, i), links[i..])
    {
      i := i - 1;
      var l := links[i];
      FromInOrder(line, links, i);
      InOrderFits(line, From(links, i), links[i..]);
      assert links[i..][0] == l && links[i..][1..] == links[i + 1..];
      SpliceStep(line, From(links, i), links[i..], result);
      result := result[..l.start] + l.text + result[l.end..];
    }
    assert links[0..] == links;
  }

  /** If every link is replaced by its own text the line is unchanged, so nothing outside the links is touched. */
  lemma {:induction false} SelfReplacementIsIdentity(line: string, pos: nat, links: seq<Link>)
    requires InOrder(line, pos, links)
    requires forall i :: 0 <= i < |links| ==> links[i].start <= links[i].end <= |line| && links[i].text == line[links[i].start..links[i].end]
    ensures pos <= |line| && Rewritten(line, pos, links) == line[pos..]
    decreases links
  {
    InOrderFits(line, pos, links);
    if links != [] {
      SelfReplacementIsIdentity(line, links[0].end, links[1..]);
      var l := links[0];
      assert line[pos..] == line[pos..l.start] + (line[l.start..l.end] + line[l.end..]);
    }
  }
}
