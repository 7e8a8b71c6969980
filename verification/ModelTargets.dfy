/** Which model a command list serves: the effective targets it names. */
module ModelTargets {
  import opened Common
  import opened PyText
  import opened Commands

  const MODEL := "--model"

  // ----- normal form of a target

  function NonEmpty(parts: seq<string>): seq<string> {
    if parts == [] then [] else (if parts[0] != "" then [parts[0]] else []) + NonEmpty(parts[1..])
  }

  function StripAll(parts: seq<string>): seq<string> {
    if parts == [] then [] else [Strip(parts[0])] + StripAll(parts[1..])
  }

  /** The repository named by a Hugging Face cache path ".../models--org--name/snapshots/revision...". */
  function SnapshotRepo(parts: seq<string>): Option<string> {
    if parts == [] then None
    else if "models--" <= parts[0] && |parts| >= 3 && parts[1] == "snapshots" then
      var names := NonEmpty(StripAll(Split(Strip(parts[0][|"models--"|..]), "--")));
      if names != [] then Some(Join(names, "/")) else SnapshotRepo(parts[1..])
    else SnapshotRepo(parts[1..])
  }

  function Normalize(value: string): string {
    var s := Strip(value);
    if s == "" then "" else
      match SnapshotRepo(NonEmpty(Split(s, "/")))
      case Some(repo) => repo
      case None => s
  }

  lemma {:induction false} NonEmptyMembers(parts: seq<string>)
    ensures "" !in NonEmpty(parts)
  {
    if parts != [] {
      NonEmptyMembers(parts[1..]);
    }
  }

  lemma {:induction false} SnapshotRepoIsNonempty(parts: seq<string>)
    ensures SnapshotRepo(parts).Some? ==> SnapshotRepo(parts).value != ""
  {
    if parts != [] {
      SnapshotRepoIsNonempty(parts[1..]);
      if "models--" <= parts[0] && |parts| >= 3 && parts[1] == "snapshots" {
        var names := NonEmpty(StripAll(Split(Strip(parts[0][|"models--"|..]), "--")));
        NonEmptyMembers(StripAll(Split(Strip(parts[0][|"models--"|..]), "--")));
        if names != [] {
          var first := names[0];
          assert first in names;
          assert first <= Join(names, "/");
        }
      }
    }
  }

  lemma NormalizeIsNonempty(value: string)
    requires Strip(value) != ""
    ensures Normalize(value) != ""
  {
    SnapshotRepoIsNonempty(NonEmpty(Split(Strip(value), "/")));
  }

  // ----- where targets are named

  predicate IsAlnum(c: char) {
    'a' <= c <= 'z' || 'A' <= c <= 'Z' || '0' <= c <= '9'
  }

  predicate RepoSegment(s: string) {
    s != "" && IsAlnum(s[0]) && forall i :: 0 <= i < |s| ==> IsAlnum(s[i]) || s[i] in {'.', '_', '-'}
  }

  /** At least two repository segments joined by '/'; this also rules out paths and URLs. */
  predicate LooksLikeRepo(s: string) {
    var segments := Split(s, "/");
    |segments| >= 2 && forall i :: 0 <= i < |segments| ==> RepoSegment(segments[i])
  }

  /** A token that is neither blank nor a flag. */
  predicate IsWord(token: string) {
    Strip(token) != "" && !("-" <= Strip(token))
  }

  /** A leading repository name, unless a further word follows it. */
  function Positional(cmds: seq<string>): seq<string> {
    if cmds != [] && LooksLikeRepo(Strip(cmds[0])) && !(|cmds| >= 2 && IsWord(cmds[1]))
    then [Normalize(cmds[0])] else []
  }

  predicate StartsServe(cmds: seq<string>) {
    |cmds| >= 2 && cmds[0] == "vllm" && cmds[1] == "serve"
  }

  /** `vllm serve MODEL`. */
  function Served(cmds: seq<string>): Result<seq<string>> {
    if !StartsServe(cmds) then Ok([])
    else if |cmds| < 3 || !IsWord(cmds[2]) then Err
    else Ok([Normalize(cmds[2])])
  }

  /** Every `--model` argument, in order. */
  function ModelArgs(cmds: seq<string>): Result<seq<string>>
    decreases |cmds|
  {
    if cmds == [] then Ok([])
    else if cmds[0] == MODEL then
      if |cmds| < 2 || Strip(cmds[1]) == "" then Err else Prepend(Normalize(cmds[1]), ModelArgs(cmds[2..]))
    else if Joined(cmds[0], MODEL) then
      if Strip(AfterEquals(cmds[0])) == "" then Err else Prepend(Normalize(AfterEquals(cmds[0])), ModelArgs(cmds[1..]))
    else ModelArgs(cmds[1..])
  }

  function Prepend(t: string, r: Result<seq<string>>): Result<seq<string>> {
    match r
    case Ok(ts) => Ok([t] + ts)
    case Err => Err
  }

  /** All targets named, repetitions included. */
  function AllTargets(cmds: seq<string>): Result<seq<string>> {
    match (Served(cmds), ModelArgs(cmds))
    case (Ok(served), Ok(args)) => Ok(Positional(cmds) + served + args)
    case _ => Err
  }

  function AddTarget(values: seq<string>, t: string): seq<string> {
    if t == "" || t in values then values else values + [t]
  }

  function AddTargets(values: seq<string>, ts: seq<string>): seq<string>
    decreases ts
  {
    if ts == [] then values else AddTargets(AddTarget(values, ts[0]), ts[1..])
  }

  function FindTargets(cmds: seq<string>): Result<seq<string>> {
    match AllTargets(cmds)
    case Ok(ts) => Ok(AddTargets([], ts))
    case Err => Err
  }

  lemma {:induction false} AddTargetsConcat(values: seq<string>, a: seq<string>, b: seq<string>)
    ensures AddTargets(values, a + b) == AddTargets(AddTargets(values, a), b)
    decreases a
  {
    if a == [] {
      assert a + b == b;
    } else {
      assert (a + b)[1..] == a[1..] + b;
      AddTargetsConcat(AddTarget(values, a[0]), a[1..], b);
    }
  }

  method FindEffectiveTargets(cmds: seq<string>) returns (r: Result<seq<string>>)
    ensures r == FindTargets(cmds)
  {
    ghost var named := Positional(cmds);
    var values := AddTargets([], Positional(cmds));
    if StartsServe(cmds) {
      if |cmds| < 3 || !IsWord(cmds[2]) {
        return Err;
      }
      values := AddTarget(values, Normalize(cmds[2]));
      named := named + [Normalize(cmds[2])];
      AddTargetsConcat([], Positional(cmds), [Normalize(cmds[2])]);
    }
    assert Served(cmds).Ok? && named == Positional(cmds) + Served(cmds).value;
    assert values == AddTargets([], named);
    ghost var goal := ModelArgs(cmds);
    var i := 0;
    while i < |cmds|
      invariant 0 <= i <= |cmds|
      invariant ModelArgs(cmds[i..]).Ok? <==> goal.Ok?
      invariant goal.Ok? ==> AddTargets(values, ModelArgs(cmds[i..]).value) == AddTargets(AddTargets([], named), goal.value)
    {
      var token := cmds[i];
      assert i + 1 < |cmds| ==> cmds[i..][2..] == cmds[i + 2..];
      assert cmds[i..][1..] == cmds[i + 1..];
      if token == MODEL {
        if i + 1 >= |cmds| || Strip(cmds[i + 1]) == "" {
          return Err;
        }
        values := AddTarget(values, Normalize(cmds[i + 1]));
        i := i + 2;
        continue;
      }
      if Joined(token, MODEL) {
        if Strip(AfterEquals(token)) == "" {
          return Err;
        }
        values := AddTarget(values, Normalize(AfterEquals(token)));
      }
      i := i + 1;
    }
    AddTargetsConcat([], named, goal.value);
    r := Ok(values);
  }

  // ----- lists that name one target only

  ghost predicate OnlyOne(ts: seq<string>, x: string) {
    ts != [] && forall i :: 0 <= i < |ts| ==> ts[i] == x
  }

  lemma {:induction false} AddTargetsKeeps(values: seq<string>, ts: seq<string>)
    ensures values <= AddTargets(values, ts)
    decreases ts
  {
    if ts != [] {
      AddTargetsKeeps(AddTarget(values, ts[0]), ts[1..]);
    }
  }

  lemma {:induction false} AddTargetsAddsNoBlank(values: seq<string>, ts: seq<string>)
    requires "" !in values
    ensures "" !in AddTargets(values, ts)
    decreases ts
  {
    if ts != [] {
      AddTargetsAddsNoBlank(AddTarget(values, ts[0]), ts[1..]);
    }
  }

  lemma {:induction false} AddTargetsContains(values: seq<string>, ts: seq<string>, i: nat)
    requires i < |ts| && ts[i] != ""
    ensures ts[i] in AddTargets(values, ts)
    decreases ts
  {
    var next := AddTarget(values, ts[0]);
    if i == 0 {
      AddTargetsKeeps(next, ts[1..]);
      assert ts[0] in next;
    } else {
      AddTargetsContains(next, ts[1..], i - 1);
    }
  }

  lemma {:induction false} AddTargetsSame(ts: seq<string>, x: string)
    requires x != "" && forall i :: 0 <= i < |ts| ==> ts[i] == x
    ensures AddTargets([x], ts) == [x]
    decreases ts
  {
    if ts != [] {
      assert ts[0] == x;
      AddTargetsSame(ts[1..], x);
    }
  }

  /** The list of distinct targets is `[x]` exactly when nothing but `x` is named. */
  lemma OneTargetIff(ts: seq<string>, x: string)
    requires x != "" && "" !in ts
    ensures AddTargets([], ts) == [x] <==> OnlyOne(ts, x)
  {
    if AddTargets([], ts) == [x] {
      forall i | 0 <= i < |ts| ensures ts[i] == x {
        assert ts[i] in ts;
        AddTargetsContains([], ts, i);
      }
    }
    if OnlyOne(ts, x) {
      assert ts[0] == x;
      AddTargetsSame(ts[1..], x);
      assert AddTarget([], x) == [x];
    }
  }

  lemma {:induction false} ModelArgsAreNonempty(cmds: seq<string>)
    ensures ModelArgs(cmds).Ok? ==> "" !in ModelArgs(cmds).value
    decreases |cmds|
  {
    if cmds != [] {
      if cmds[0] == MODEL {
        if |cmds| >= 2 && Strip(cmds[1]) != "" {
          NormalizeIsNonempty(cmds[1]);
          ModelArgsAreNonempty(cmds[2..]);
        }
      } else {
        if Joined(cmds[0], MODEL) && Strip(AfterEquals(cmds[0])) != "" {
          NormalizeIsNonempty(AfterEquals(cmds[0]));
        }
        ModelArgsAreNonempty(cmds[1..]);
      }
    }
  }

  lemma LooksLikeRepoIsNonempty(s: string)
    requires LooksLikeRepo(s)
    ensures s != "" && IsAlnum(s[0])
  {
    var segments := Split(s, "/");
    assert RepoSegment(segments[0]);
    assert s != "";
    assert !("/" <= s);
    var rest := Split(s[1..], "/");
    assert segments[0] == [s[0]] + rest[0];
  }

  lemma AllTargetsAreNonempty(cmds: seq<string>)
    ensures AllTargets(cmds).Ok? ==> "" !in AllTargets(cmds).value
  {
    ModelArgsAreNonempty(cmds);
    if Positional(cmds) != [] {
      LooksLikeRepoIsNonempty(Strip(cmds[0]));
      NormalizeIsNonempty(cmds[0]);
    }
    if StartsServe(cmds) && |cmds| >= 3 && IsWord(cmds[2]) {
      NormalizeIsNonempty(cmds[2]);
    }
  }

  /** A list has the single effective target `x` exactly when every place that names a target names `x`. */
  lemma FindTargetsIsSingleIff(cmds: seq<string>, x: string)
    requires x != ""
    ensures FindTargets(cmds) == Ok([x]) <==> AllTargets(cmds).Ok? && OnlyOne(AllTargets(cmds).value, x)
  {
    if AllTargets(cmds).Ok? {
      AllTargetsAreNonempty(cmds);
      OneTargetIff(AllTargets(cmds).value, x);
    }
  }

  // ----- lists without model arguments

  lemma {:induction false} ModelArgsSkips(a: seq<string>, b: seq<string>)
    requires Free(a, MODEL)
    ensures ModelArgs(a + b) == ModelArgs(b)
  {
    if a == [] {
      assert a + b == b;
    } else {
      assert (a + b)[1..] == a[1..] + b;
      assert !Names(a[0], MODEL);
      ModelArgsSkips(a[1..], b);
    }
  }

  lemma FreeHasNoModelArgs(a: seq<string>)
    requires Free(a, MODEL)
    ensures ModelArgs(a) == Ok([])
  {
    ModelArgsSkips(a, []);
    assert a + [] == a;
  }
}
