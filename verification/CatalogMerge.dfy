/**
 Merging a customer's submitted commands into a catalog entry's base commands: the
 base keeps its leading words and its model argument, the customer edits the rest.
 */
module CatalogMerge {
  import opened Common
  import opened PyText
  import opened Commands
  import opened ModelTargets

  const TP := "--tensor-parallel-size"
  const TRUST := "--trust-remote-code"
  const OMNI := "--omni"

  datatype Mode = Basic | Advanced

  predicate IsOmniImage(image: string) {
    "vllm/vllm-omni:" <= image
  }

  predicate IsOmniToken(token: string) {
    token == TRUST || token == OMNI
  }

  function StripOmni(cmds: seq<string>): seq<string> {
    if cmds == [] then [] else (if IsOmniToken(cmds[0]) then [] else [cmds[0]]) + StripOmni(cmds[1..])
  }

  function OmniTokens(cmds: seq<string>): seq<string> {
    if cmds == [] then [] else (if IsOmniToken(cmds[0]) then [cmds[0]] else []) + OmniTokens(cmds[1..])
  }

  function LeadingWords(cmds: seq<string>): seq<string> {
    if cmds == [] || "-" <= cmds[0] then [] else [cmds[0]] + LeadingWords(cmds[1..])
  }

  function LockedPrefix(base: seq<string>): seq<string> {
    if |base| >= 3 && StartsServe(base) then base[..3] else LeadingWords(base)
  }

  function LockedModel(base: seq<string>): seq<string> {
    if base == [] then []
    else if base[0] == MODEL then (if |base| >= 2 then base[..2] else base)
    else if Joined(base[0], MODEL) then [base[0]]
    else LockedModel(base[1..])
  }

  function StripPrefix(cmds: seq<string>, prefix: seq<string>): seq<string> {
    if prefix <= cmds then cmds[|prefix|..] else cmds
  }

  function NamedTokens(cmds: seq<string>, flag: string): seq<string>
    decreases |cmds|
  {
    if cmds == [] then []
    else if cmds[0] == flag then
      (if |cmds| >= 2 then cmds[..2] + NamedTokens(cmds[2..], flag) else cmds)
    else if Joined(cmds[0], flag) then [cmds[0]] + NamedTokens(cmds[1..], flag)
    else NamedTokens(cmds[1..], flag)
  }

  /** What the customer may edit: the submission without the locked parts. */
  function Editable(base: seq<string>, submitted: seq<string>, omni: bool, mode: Mode): seq<string> {
    var rest := StripPrefix(submitted, LockedPrefix(base));
    var plain := if omni then StripOmni(rest) else rest;
    if mode == Basic then StripArgs(plain, MODEL, TP) else StripArgs(plain, MODEL, MODEL)
  }

  function Kept(base: seq<string>, omni: bool): seq<string> {
    if omni then OmniTokens(base) else []
  }

  function Unsynced(base: seq<string>, submitted: seq<string>, omni: bool, mode: Mode): seq<string> {
    LockedPrefix(base) + LockedModel(base) + (Kept(base, omni) + Editable(base, submitted, omni, mode))
  }

  /** The merge on already normalised lists, with the tensor-parallel argument synced to `n` GPUs. */
  function Synced(base: seq<string>, submitted: seq<string>, omni: bool, n: nat, mode: Mode): seq<string> {
    Upsert(Unsynced(base, submitted, omni, mode), TP, Decimal(n))
  }

  /** Tensor-parallel tokens to carry over: the customer's if there are any, else the base's. */
  function Inherited(base: seq<string>, submitted: seq<string>): seq<string> {
    var own := NamedTokens(submitted, TP);
    if own != [] then own else NamedTokens(base, TP)
  }

  /** The merge on already normalised lists, with the tensor-parallel argument left as somebody gave it. */
  function Preserved(base: seq<string>, submitted: seq<string>, omni: bool, mode: Mode): seq<string> {
    var merged := Unsynced(base, submitted, omni, mode);
    if mode == Basic && NamedTokens(merged, TP) == [] then merged + Inherited(base, submitted) else merged
  }

  // ----- JSON-valued flags

  const JSON_FLAGS := [
    "--attention-config", "--compilation-config", "--ec-transfer-config", "--hf-overrides", "--ir-op-priority",
    "--kernel-config", "--kv-events-config", "--kv-transfer-config", "--limit-mm-per-prompt", "--mamba-config",
    "--media-io-kwargs", "--mm-processor-kwargs", "--model-loader-extra-config", "--override-generation-config",
    "--pooler-config", "--quantization-config", "--reasoning-config", "--speculative-config", "-ac", "-cc", "-sc"]

  function MatchedFlag(token: string, flags: seq<string>): Option<string> {
    if flags == [] then None else if Names(token, flags[0]) then Some(flags[0]) else MatchedFlag(token, flags[1..])
  }

  /** Normalises one value of a JSON-valued flag, or rejects it. */
  type JsonNormalizer = (string, string) -> Option<string>

  function NormalizeJson(norm: JsonNormalizer, flags: seq<string>, cmds: seq<string>): Result<seq<string>>
    decreases |cmds|
  {
    if cmds == [] then Ok([]) else
      var token := Strip(cmds[0]);
      match MatchedFlag(token, flags)
      case None => Extend([cmds[0]], NormalizeJson(norm, flags, cmds[1..]))
      case Some(flag) =>
        if token == flag then
          if |cmds| < 2 then Err else
            match norm(flag, cmds[1])
            case None => Err
            case Some(v) => Extend([flag, v], NormalizeJson(norm, flags, cmds[2..]))
        else
          match norm(flag, AfterEquals(token))
          case None => Err
          case Some(v) => Extend([flag + "=" + v], NormalizeJson(norm, flags, cmds[1..]))
  }

  function Extend(ts: seq<string>, r: Result<seq<string>>): Result<seq<string>> {
    match r
    case Ok(rest) => Ok(ts + rest)
    case Err => Err
  }

  ghost predicate NoJson(flags: seq<string>, cmds: seq<string>) {
    forall i :: 0 <= i < |cmds| ==> MatchedFlag(Strip(cmds[i]), flags) == None
  }

  lemma {:induction false} NoJsonIsUnchanged(norm: JsonNormalizer, flags: seq<string>, cmds: seq<string>)
    requires NoJson(flags, cmds)
    ensures NormalizeJson(norm, flags, cmds) == Ok(cmds)
  {
    if cmds != [] {
      assert MatchedFlag(Strip(cmds[0]), flags) == None;
      NoJsonIsUnchanged(norm, flags, cmds[1..]);
      assert cmds == [cmds[0]] + cmds[1..];
    }
  }

  lemma {:induction false} NormalizeJsonSkips(norm: JsonNormalizer, flags: seq<string>, a: seq<string>, b: seq<string>)
    requires NoJson(flags, a)
    ensures NormalizeJson(norm, flags, a + b) == Extend(a, NormalizeJson(norm, flags, b))
  {
    if a == [] {
      assert a + b == b;
      assert NormalizeJson(norm, flags, b).Ok? ==> [] + NormalizeJson(norm, flags, b).value == NormalizeJson(norm, flags, b).value;
    } else {
      assert (a + b)[0] == a[0] && (a + b)[1..] == a[1..] + b;
      assert MatchedFlag(Strip(a[0]), flags) == None;
      NormalizeJsonSkips(norm, flags, a[1..], b);
      var rest := NormalizeJson(norm, flags, b);
      if rest.Ok? {
        ConcatAssociates([a[0]], a[1..], rest.value);
        assert a == [a[0]] + a[1..];
      }
    }
  }

  /** The value of a JSON-valued flag is replaced by its normal form in either form of the argument; a rejected or missing value is an error. */
  lemma JsonValueIsNormalized(norm: JsonNormalizer, flags: seq<string>, a: seq<string>, flag: string, v: string, b: seq<string>)
    requires NoJson(flags, a) && Strip(flag) == flag && '=' !in flag && MatchedFlag(flag, flags) == Some(flag)
    requires Strip(flag + "=" + v) == flag + "=" + v && MatchedFlag(flag + "=" + v, flags) == Some(flag)
    ensures NormalizeJson(norm, flags, a + [flag]) == Err
    ensures NormalizeJson(norm, flags, a + ([flag, v] + b)) ==
            match norm(flag, v) case None => Err case Some(w) => Extend(a, Extend([flag, w], NormalizeJson(norm, flags, b)))
    ensures NormalizeJson(norm, flags, a + ([flag + "=" + v] + b)) ==
            match norm(flag, v) case None => Err case Some(w) => Extend(a, Extend([flag + "=" + w], NormalizeJson(norm, flags, b)))
  {
    NormalizeJsonSkips(norm, flags, a, [flag]);
    NormalizeJsonSkips(norm, flags, a, [flag, v] + b);
    NormalizeJsonSkips(norm, flags, a, [flag + "=" + v] + b);
    AfterEqualsOfJoined(flag, v);
    assert ([flag, v] + b)[2..] == b && ([flag, v] + b)[1] == v;
    assert ([flag + "=" + v] + b)[1..] == b && |flag + "=" + v| > |flag|;
  }

  method NormalizeJsonArgs(norm: JsonNormalizer, flags: seq<string>, cmds: seq<string>) returns (r: Result<seq<string>>)
    ensures r == NormalizeJson(norm, flags, cmds)
  {
    var done: seq<string> := [];
    ghost var goal := NormalizeJson(norm, flags, cmds);
    assert goal.Ok? ==> [] + goal.value == goal.value;
    var i := 0;
    while i < |cmds|
      invariant 0 <= i <= |cmds|
      invariant Extend(done, NormalizeJson(norm, flags, cmds[i..])) == goal
    {
      var token := Strip(cmds[i]);
      var emitted, width := [cmds[i]], 1;
      var flag := MatchedFlag(token, flags);
      if flag.Some? {
        if token == flag.value && i + 1 >= |cmds| {
          return Err;
        }
        var bare := token == flag.value;
        var value := norm(flag.value, if bare then cmds[i + 1] else AfterEquals(token));
        if value.None? {
          return Err;
        }
        emitted := if bare then [flag.value, value.value] else [flag.value + "=" + value.value];
        width := if bare then 2 else 1;
      }
      ghost var rest := NormalizeJson(norm, flags, cmds[i + width..]);
      assert cmds[i..][width..] == cmds[i + width..];
      assert NormalizeJson(norm, flags, cmds[i..]) == Extend(emitted, rest);
      if rest.Ok? {
        ConcatAssociates(done, emitted, rest.value);
      }
      done := done + emitted;
      i := i + width;
    }
    assert cmds[i..] == [];
    assert done + [] == done;
    r := Ok(done);
  }

  // ----- the merge itself

  function Merge(norm: JsonNormalizer, base: seq<string>, submitted: seq<string>, image: string, gpuCount: int,
                 mode: Mode, sync: bool): Result<seq<string>> {
    match (NormalizeJson(norm, JSON_FLAGS, base), NormalizeJson(norm, JSON_FLAGS, submitted))
    case (Ok(b), Ok(s)) =>
      var omni := IsOmniImage(image);
      if sync then
        if gpuCount <= 0 then Err else Ok(Synced(b, s, omni, gpuCount, mode))
      else
        Ok(Preserved(b, s, omni, mode))
    case _ => Err
  }

  method LockedPrefixTokens(base: seq<string>) returns (prefix: seq<string>)
    ensures prefix == LockedPrefix(base)
  {
    if |base| >= 3 && base[0] == "vllm" && base[1] == "serve" {
      return base[..3];
    }
    prefix := [];
    for i := 0 to |base|
      invariant prefix + LeadingWords(base[i..]) == LeadingWords(base)
    {
      assert base[i..][1..] == base[i + 1..];
      if base[i] == MODEL || Joined(base[i], MODEL) {
        break;
      }
      if "-" <= base[i] {
        break;
      }
      prefix := prefix + [base[i]];
    }
  }

  method LockedModelTokens(base: seq<string>) returns (locked: seq<string>)
    ensures locked == LockedModel(base)
  {
    var i := 0;
    while i < |base|
      invariant 0 <= i <= |base|
      invariant LockedModel(base[i..]) == LockedModel(base)
    {
      var token := base[i];
      assert base[i..][1..] == base[i + 1..];
      if token == MODEL {
        if i + 1 < |base| {
          return [token, base[i + 1]];
        }
        return [token];
      }
      if Joined(token, MODEL) {
        return [token];
      }
      i := i + 1;
    }
    return [];
  }

  method NamedArgTokens(cmds: seq<string>, flag: string) returns (matched: seq<string>)
    ensures matched == NamedTokens(cmds, flag)
  {
    matched := [];
    var i := 0;
    while i < |cmds|
      invariant 0 <= i <= |cmds|
      invariant matched + NamedTokens(cmds[i..], flag) == NamedTokens(cmds, flag)
    {
      var token := cmds[i];
      assert i + 1 < |cmds| ==> cmds[i..][2..] == cmds[i + 2..];
      assert cmds[i..][1..] == cmds[i + 1..];
      if token == flag {
        matched := matched + [token];
        if i + 1 < |cmds| {
          matched := matched + [cmds[i + 1]];
          i := i + 2;
          continue;
        }
        i := i + 1;
        continue;
      }
      if Joined(token, flag) {
        matched := matched + [token];
      }
      i := i + 1;
    }
  }

  /** The tokens of an argument are taken at each mention, with the next token after a bare one. */
  lemma {:induction false} NamedTokensAt(a: seq<string>, flag: string, v: string, b: seq<string>)
    requires Free(a, flag)
    ensures NamedTokens(a, flag) == []
    ensures NamedTokens(a + ([flag, v] + b), flag) == [flag, v] + NamedTokens(b, flag)
    ensures NamedTokens(a + ([flag + "=" + v] + b), flag) == [flag + "=" + v] + NamedTokens(b, flag)
  {
    if a == [] {
      var bare, joined := [flag, v] + b, [flag + "=" + v] + b;
      assert a + bare == bare && a + joined == joined;
      assert bare[2..] == b && bare[..2] == [flag, v] && joined[1..] == b && Joined(joined[0], flag) && |joined[0]| > |flag|;
    } else {
      assert !Names(a[0], flag);
      assert (a + ([flag, v] + b))[1..] == a[1..] + ([flag, v] + b);
      assert (a + ([flag + "=" + v] + b))[1..] == a[1..] + ([flag + "=" + v] + b);
      NamedTokensAt(a[1..], flag, v, b);
    }
  }

  method StripOmniArgs(cmds: seq<string>) returns (filtered: seq<string>)
    ensures filtered == StripOmni(cmds)
  {
    filtered := [];
    for i := 0 to |cmds|
      invariant filtered + StripOmni(cmds[i..]) == StripOmni(cmds)
    {
      assert cmds[i..][1..] == cmds[i + 1..];
      if cmds[i] == TRUST || cmds[i] == OMNI {
        continue;
      }
      filtered := filtered + [cmds[i]];
    }
  }

  method KeepOmniArgs(cmds: seq<string>) returns (kept: seq<string>)
    ensures kept == OmniTokens(cmds)
  {
    kept := [];
    for i := 0 to |cmds|
      invariant kept + OmniTokens(cmds[i..]) == OmniTokens(cmds)
    {
      assert cmds[i..][1..] == cmds[i + 1..];
      if cmds[i] == TRUST || cmds[i] == OMNI {
        kept := kept + [cmds[i]];
      }
    }
  }

  method SyncTensorParallel(cmds: seq<string>, gpuCount: int) returns (r: Result<seq<string>>)
    ensures r == if gpuCount <= 0 then Err else Ok(Upsert(cmds, TP, Decimal(gpuCount)))
  {
    if gpuCount <= 0 {
      return Err;
    }
    DecimalIsTrimmed(gpuCount);
    r := UpsertNamedArg(cmds, TP, Decimal(gpuCount));
  }

  method EditableTokens(base: seq<string>, submitted: seq<string>, omni: bool, mode: Mode) returns (tokens: seq<string>)
    ensures tokens == Editable(base, submitted, omni, mode)
  {
    var prefix := LockedPrefixTokens(base);
    tokens := submitted;
    if prefix <= submitted {
      tokens := submitted[|prefix|..];
    }
    if omni {
      tokens := StripOmniArgs(tokens);
    }
    if mode == Basic {
      tokens := StripNamedArgs(tokens, MODEL, TP);
    } else {
      tokens := StripNamedArgs(tokens, MODEL, MODEL);
    }
  }

  method MergeCommands(norm: JsonNormalizer, base: seq<string>, submitted: seq<string>, image: string, gpuCount: int,
                       mode: Mode, sync: bool) returns (r: Result<seq<string>>)
    ensures r == Merge(norm, base, submitted, image, gpuCount, mode, sync)
  {
    var b := NormalizeJsonArgs(norm, JSON_FLAGS, base);
    var s := NormalizeJsonArgs(norm, JSON_FLAGS, submitted);
    if b.Err? || s.Err? {
      return Err;
    }
    var omni := IsOmniImage(image);
    var prefix := LockedPrefixTokens(b.value);
    var locked := LockedModelTokens(b.value);
    var edited := EditableTokens(b.value, s.value, omni, mode);
    var kept: seq<string> := [];
    if omni {
      kept := KeepOmniArgs(b.value);
    }
    var merged := prefix + locked + (kept + edited);
    if sync {
      r := SyncTensorParallel(merged, gpuCount);
      return;
    }
    if mode == Basic {
      var current := NamedArgTokens(merged, TP);
      if current == [] {
        var own := NamedArgTokens(s.value, TP);
        var inherited := NamedArgTokens(b.value, TP);
        return Ok(merged + if own != [] then own else inherited);
      }
    }
    return Ok(merged);
  }
}
