/** Command-line token lists: removing, reading and replacing named arguments. */
module Commands {
  import opened Common
  import opened PyText

  /** `--flag=value` in one token. */
  predicate Joined(token: string, flag: string) {
    flag + "=" <= token
  }

  predicate Names(token: string, flag: string) {
    token == flag || Joined(token, flag)
  }

  /** No token mentions the flag. */
  ghost predicate Free(cmds: seq<string>, flag: string) {
    forall i :: 0 <= i < |cmds| ==> !Names(cmds[i], flag)
  }

  // ----- removing arguments

  /** Drop every mention of either flag; a bare flag takes the following token with it. */
  function StripArgs(cmds: seq<string>, f: string, g: string): seq<string>
    decreases |cmds|
  {
    if cmds == [] then []
    else if cmds[0] == f || cmds[0] == g then StripArgs(if |cmds| >= 2 then cmds[2..] else [], f, g)
    else if Joined(cmds[0], f) || Joined(cmds[0], g) then StripArgs(cmds[1..], f, g)
    else [cmds[0]] + StripArgs(cmds[1..], f, g)
  }

  method StripNamedArgs(cmds: seq<string>, f: string, g: string) returns (filtered: seq<string>)
    ensures filtered == StripArgs(cmds, f, g)
  {
    filtered := [];
    var i := 0;
    while i < |cmds|
      invariant 0 <= i
      invariant filtered + StripArgs(if i <= |cmds| then cmds[i..] else [], f, g) == StripArgs(cmds, f, g)
    {
      var token := cmds[i];
      assert i + 1 < |cmds| ==> cmds[i..][2..] == cmds[i + 2..];
      assert cmds[i..][1..] == cmds[i + 1..];
      if token == f || token == g {
        i := i + 2;
        continue;
      }
      if Joined(token, f) || Joined(token, g) {
        i := i + 1;
        continue;
      }
      filtered := filtered + [token];
      i := i + 1;
    }
  }

  /** The result mentions neither flag and invents no token. */
  lemma {:induction false} StripArgsIsFree(cmds: seq<string>, f: string, g: string)
    ensures Free(StripArgs(cmds, f, g), f) && Free(StripArgs(cmds, f, g), g)
    ensures forall t :: t in StripArgs(cmds, f, g) ==> t in cmds
    decreases |cmds|
  {
    if cmds != [] {
      if cmds[0] == f || cmds[0] == g {
        StripArgsIsFree(if |cmds| >= 2 then cmds[2..] else [], f, g);
      } else {
        StripArgsIsFree(cmds[1..], f, g);
      }
    }
  }

  lemma {:induction false} StripArgsSkips(a: seq<string>, b: seq<string>, f: string, g: string)
    requires Free(a, f) && Free(a, g)
    ensures StripArgs(a + b, f, g) == a + StripArgs(b, f, g)
  {
    if a == [] {
      assert a + b == b;
    } else {
      assert (a + b)[1..] == a[1..] + b;
      assert !Names(a[0], f) && !Names(a[0], g);
      StripArgsSkips(a[1..], b, f, g);
    }
  }

  lemma StripArgsKeepsFree(a: seq<string>, f: string, g: string)
    requires Free(a, f) && Free(a, g)
    ensures StripArgs(a, f, g) == a
  {
    StripArgsSkips(a, [], f, g);
    assert a + [] == a;
  }

  // ----- reading an argument

  /** Everything after the first '='; only asked of tokens that have one. */
  function AfterEquals(token: string): string {
    if token == "" then "" else if token[0] == '=' then token[1..] else AfterEquals(token[1..])
  }

  lemma {:induction false} AfterEqualsOfJoined(flag: string, v: string)
    requires '=' !in flag
    ensures AfterEquals(flag + "=" + v) == v
  {
    var t := flag + "=" + v;
    if flag == "" {
      assert t[1..] == v;
    } else {
      assert t[1..] == flag[1..] + "=" + v;
      assert t[0] == flag[0];
      AfterEqualsOfJoined(flag[1..], v);
    }
  }

  function Parse(cmds: seq<string>, flag: string): string {
    if cmds == [] then ""
    else if cmds[0] == flag then (if |cmds| >= 2 then Strip(cmds[1]) else "")
    else if Joined(cmds[0], flag) then Strip(AfterEquals(cmds[0]))
    else Parse(cmds[1..], flag)
  }

  method ParseNamedArg(cmds: seq<string>, flag: string) returns (value: string)
    ensures value == Parse(cmds, flag)
  {
    var i := 0;
    while i < |cmds|
      invariant 0 <= i <= |cmds|
      invariant Parse(cmds[i..], flag) == Parse(cmds, flag)
    {
      var token := cmds[i];
      assert cmds[i..][1..] == cmds[i + 1..];
      if token == flag {
        if i + 1 < |cmds| {
          return Strip(cmds[i + 1]);
        }
        return "";
      }
      if Joined(token, flag) {
        return Strip(AfterEquals(token));
      }
      i := i + 1;
    }
    return "";
  }

  lemma {:induction false} ParseSkips(a: seq<string>, b: seq<string>, flag: string)
    requires Free(a, flag)
    ensures Parse(a + b, flag) == Parse(b, flag)
  {
    if a == [] {
      assert a + b == b;
    } else {
      assert (a + b)[1..] == a[1..] + b;
      assert !Names(a[0], flag);
      ParseSkips(a[1..], b, flag);
    }
  }

  /** Reading takes the first mention: the next token of a bare flag, what follows the '=' of a joined one, and nothing without either. */
  lemma ParseReadsFirst(a: seq<string>, flag: string, v: string, b: seq<string>)
    requires Free(a, flag) && '=' !in flag
    ensures Parse(a, flag) == "" && Parse(a + [flag], flag) == ""
    ensures Parse(a + ([flag, v] + b), flag) == Strip(v) && Parse(a + ([flag + "=" + v] + b), flag) == Strip(v)
  {
    ParseSkips(a, [], flag);
    assert a + [] == a;
    ParseSkips(a, [flag], flag);
    ParseSkips(a, [flag, v] + b, flag);
    ParseSkips(a, [flag + "=" + v] + b, flag);
    AfterEqualsOfJoined(flag, v);
    assert ([flag, v] + b)[1] == v && Joined(flag + "=" + v, flag) && |flag + "=" + v| > |flag|;
  }

  // ----- replacing an argument

  /** The first mention takes the new value in its own form, later mentions go, and none means append. */
  function Upsert(cmds: seq<string>, flag: string, v: string): seq<string> {
    if cmds == [] then [flag, v]
    else if cmds[0] == flag then [flag, v] + StripArgs(if |cmds| >= 2 then cmds[2..] else [], flag, flag)
    else if Joined(cmds[0], flag) then [flag + "=" + v] + StripArgs(cmds[1..], flag, flag)
    else [cmds[0]] + Upsert(cmds[1..], flag, v)
  }

  /** What the loop still has to produce. */
  function Pending(cmds: seq<string>, flag: string, v: string, inserted: bool): seq<string> {
    if inserted then StripArgs(cmds, flag, flag) else Upsert(cmds, flag, v)
  }

  /** What one turn of the loop emits, and what it leaves to do. */
  lemma PendingStep(cmds: seq<string>, flag: string, v: string, inserted: bool)
    requires cmds != []
    ensures var token := cmds[0];
            var emitted :=
              if token == flag then (if inserted then [] else [flag, v])
              else if Joined(token, flag) then (if inserted then [] else [flag + "=" + v])
              else [token];
            var width := if token == flag && |cmds| >= 2 then 2 else 1;
            Pending(cmds, flag, v, inserted) == emitted + Pending(cmds[width..], flag, v, inserted || Names(token, flag))
  {
    if cmds[0] == flag && |cmds| == 1 {
      assert cmds[1..] == [];
    }
  }

  method UpsertNamedArg(cmds: seq<string>, flag: string, value: string) returns (r: Result<seq<string>>)
    ensures r == if Strip(value) == "" then Err else Ok(Upsert(cmds, flag, Strip(value)))
  {
    var v := Strip(value);
    if v == "" {
      return Err;
    }
    var merged: seq<string> := [];
    var inserted := false;
    var i := 0;
    while i < |cmds|
      invariant 0 <= i <= |cmds|
      invariant merged + Pending(cmds[i..], flag, v, inserted) == Upsert(cmds, flag, v)
    {
      var token := cmds[i];
      assert i + 1 < |cmds| ==> cmds[i..][2..] == cmds[i + 2..];
      assert cmds[i..][1..] == cmds[i + 1..];
      var emitted, width := [token], 1;
      if token == flag {
        emitted := if inserted then [] else [flag, v];
        width := if i + 1 < |cmds| then 2 else 1;
      } else if Joined(token, flag) {
        emitted := if inserted then [] else [flag + "=" + v];
      }
      ghost var rest := Pending(cmds[i + width..], flag, v, inserted || Names(token, flag));
      PendingStep(cmds[i..], flag, v, inserted);
      ConcatAssociates(merged, emitted, rest);
      merged := merged + emitted;
      inserted := inserted || Names(token, flag);
      i := i + width;
    }
    assert cmds[i..] == [];
    assert inserted ==> merged + [] == merged;
    if !inserted {
      merged := merged + [flag, v];
    }
    return Ok(merged);
  }

  lemma {:induction false} UpsertSkips(a: seq<string>, b: seq<string>, flag: string, v: string)
    requires Free(a, flag)
    ensures Upsert(a + b, flag, v) == a + Upsert(b, flag, v)
  {
    if a == [] {
      assert a + b == b;
    } else {
      assert (a + b)[1..] == a[1..] + b;
      assert !Names(a[0], flag);
      UpsertSkips(a[1..], b, flag, v);
    }
  }

  /** Put-get: what was written is what is read back. */
  lemma {:induction false} UpsertThenParse(cmds: seq<string>, flag: string, v: string)
    requires '=' !in flag
    ensures Parse(Upsert(cmds, flag, v), flag) == Strip(v)
  {
    if cmds != [] && cmds[0] != flag {
      if Joined(cmds[0], flag) {
        AfterEqualsOfJoined(flag, v);
      } else {
        UpsertThenParse(cmds[1..], flag, v);
        assert ([cmds[0]] + Upsert(cmds[1..], flag, v))[1..] == Upsert(cmds[1..], flag, v);
      }
    }
  }

  /** A replacement does not bring in another flag, unless the new tokens mention it. */
  lemma {:induction false} UpsertStaysFree(cmds: seq<string>, flag: string, v: string, other: string)
    requires Free(cmds, other) && !Names(flag, other) && !Names(v, other) && !Names(flag + "=" + v, other)
    ensures Free(Upsert(cmds, flag, v), other)
  {
    if cmds != [] {
      assert !Names(cmds[0], other);
      if Names(cmds[0], flag) {
        var rest := if cmds[0] == flag then (if |cmds| >= 2 then cmds[2..] else []) else cmds[1..];
        StripKeepsFreedom(rest, flag, other);
      } else {
        UpsertStaysFree(cmds[1..], flag, v, other);
      }
    }
  }

  lemma {:induction false} StripKeepsFreedom(cmds: seq<string>, flag: string, other: string)
    requires Free(cmds, other)
    ensures Free(StripArgs(cmds, flag, flag), other)
    decreases |cmds|
  {
    if cmds != [] {
      assert !Names(cmds[0], other);
      StripKeepsFreedom(if cmds[0] == flag then (if |cmds| >= 2 then cmds[2..] else []) else cmds[1..], flag, other);
    }
  }

  /** Put-put: a second replacement makes the first one irrelevant. */
  lemma {:induction false} UpsertTwice(cmds: seq<string>, flag: string, v: string, w: string)
    ensures Upsert(Upsert(cmds, flag, v), flag, w) == Upsert(cmds, flag, w)
  {
    if cmds == [] {
      assert [flag, v][2..] == [];
    } else if cmds[0] == flag {
      var rest := if |cmds| >= 2 then cmds[2..] else [];
      var kept := StripArgs(rest, flag, flag);
      StripArgsIsFree(rest, flag, flag);
      StripArgsKeepsFree(kept, flag, flag);
      assert ([flag, v] + kept)[2..] == kept;
    } else if Joined(cmds[0], flag) {
      var kept := StripArgs(cmds[1..], flag, flag);
      StripArgsIsFree(cmds[1..], flag, flag);
      StripArgsKeepsFree(kept, flag, flag);
      assert ([flag + "=" + v] + kept)[1..] == kept;
    } else {
      UpsertTwice(cmds[1..], flag, v, w);
      assert ([cmds[0]] + Upsert(cmds[1..], flag, v))[1..] == Upsert(cmds[1..], flag, v);
    }
  }

  /** Replacing an argument leaves all the others alone, in order. */
  lemma UpsertKeepsOthers(cmds: seq<string>, flag: string, v: string)
    ensures StripArgs(Upsert(cmds, flag, v), flag, flag) == StripArgs(cmds, flag, flag)
    decreases |cmds|
  {
    if cmds == [] {
      assert StripArgs([flag, v], flag, flag) == [];
    } else if cmds[0] == flag {
      var rest := if |cmds| >= 2 then cmds[2..] else [];
      var kept := StripArgs(rest, flag, flag);
      StripArgsIsFree(rest, flag, flag);
      StripArgsKeepsFree(kept, flag, flag);
      assert ([flag, v] + kept)[2..] == kept;
    } else if Joined(cmds[0], flag) {
      var kept := StripArgs(cmds[1..], flag, flag);
      StripArgsIsFree(cmds[1..], flag, flag);
      StripArgsKeepsFree(kept, flag, flag);
      assert ([flag + "=" + v] + kept)[1..] == kept;
    } else {
      UpsertKeepsOthers(cmds[1..], flag, v);
      assert ([cmds[0]] + Upsert(cmds[1..], flag, v))[1..] == Upsert(cmds[1..], flag, v);
    }
  }

  function Mentions(cmds: seq<string>, flag: string): nat {
    if cmds == [] then 0 else (if Names(cmds[0], flag) then 1 else 0) + Mentions(cmds[1..], flag)
  }

  lemma {:induction false} MentionsConcat(a: seq<string>, b: seq<string>, flag: string)
    ensures Mentions(a + b, flag) == Mentions(a, flag) + Mentions(b, flag)
  {
    if a == [] {
      assert a + b == b;
    } else {
      assert (a + b)[1..] == a[1..] + b;
      MentionsConcat(a[1..], b, flag);
    }
  }

  lemma {:induction false} FreeHasNoMentions(a: seq<string>, flag: string)
    requires Free(a, flag)
    ensures Mentions(a, flag) == 0
  {
    if a != [] {
      assert !Names(a[0], flag);
      FreeHasNoMentions(a[1..], flag);
    }
  }

  /** After a replacement by a value that is not itself a mention, exactly one mention is left. */
  lemma {:induction false} UpsertLeavesOneMention(cmds: seq<string>, flag: string, v: string)
    requires !Names(v, flag)
    ensures Mentions(Upsert(cmds, flag, v), flag) == 1
  {
    if cmds == [] {
      assert [flag, v][1..] == [v];
      assert Mentions([v], flag) == 0;
    } else if Names(cmds[0], flag) {
      var rest := if cmds[0] == flag then (if |cmds| >= 2 then cmds[2..] else []) else cmds[1..];
      StripArgsIsFree(rest, flag, flag);
      var kept := StripArgs(rest, flag, flag);
      FreeHasNoMentions(kept, flag);
      var head := if cmds[0] == flag then [flag, v] else [flag + "=" + v];
      MentionsConcat(head, kept, flag);
      assert [flag, v][1..] == [v];
      assert Mentions([v], flag) == 0;
    } else {
      UpsertLeavesOneMention(cmds[1..], flag, v);
      assert ([cmds[0]] + Upsert(cmds[1..], flag, v))[1..] == Upsert(cmds[1..], flag, v);
    }
  }
}
