/** Inputs at which the editor's round trip and the model lock fail, and inputs at which they hold. */
module EditorExamples {
  import opened Common
  import opened PyText
  import opened Commands
  import opened ModelTargets
  import opened CatalogMerge
  import opened ModelLock
  import opened EditorCommands
  import opened EnvMerge
  import opened JsonDiff
  import opened SpecEditor
  import opened SpecJson
  import opened EditorFixpoint
  import opened TargetNormalForm
  import opened CachePaths
  import PolicyOverlay

  const CFG := Config(["i"], map[1 := Row(1, 1)], [])

  /** A one-GPU submission without arguments. */
  function Sub(envs: seq<EnvItem>, policy: Option<PolicyOverlay.Policy>): Submission {
    Submission("i", [], 1, 1, envs, policy, None)
  }

  function Keep(flag: string, value: string): Option<string> {
    Some(value)
  }

  lemma SubValidates(envs: seq<EnvItem>)
    requires AllWellFormed(envs) && WithoutReserved(envs) == envs
    ensures Validate(CFG, Keep, Sub(envs, None), 0, 0, false) == Ok(Sub(envs, None))
  {
    assert Strip("i") == "i";
    assert StripArgs([], MODEL, TP) == [];
    assert "i" in CFG.whitelist by { assert CFG.whitelist[0] == "i"; }
  }

  lemma NameIsWord()
    ensures IsWord("m") && Normalize("m") == "m" && !IsOmniImage("i")
  {
    assert "m"[0] == 'm' && Strip("m") == "m";
    NoSlashIsNormal("m");
  }

  lemma TwiceIsNotReserved(v: string, w: string)
    ensures AllWellFormed([Pair("K", v), Pair("K", w)])
    ensures WithoutReserved([Pair("K", v), Pair("K", w)]) == [Pair("K", v), Pair("K", w)]
    ensures Keys([Pair("K", v), Pair("K", w)]) == ["K", "K"]
  {
    var envs := [Pair("K", v), Pair("K", w)];
    assert "K"[0] == 'K' && "LD_LIBRARY_PATH"[0] == 'L' && "VLLM_CUDART_SO_PATH"[0] == 'V';
    assert "K" !in RESERVED_ENV_KEYS;
    assert envs[1..] == [Pair("K", w)] && [Pair("K", w)][1..] == [];
    assert WithoutReserved([Pair("K", w)]) == [Pair("K", w)] + WithoutReserved([]) && Keys([Pair("K", w)]) == ["K"] + Keys([]);
  }

  /** An environment key given twice: the spec is produced, and its own editor does not reproduce it. */
  lemma RepeatedKeyIsUnsupported(round: Rounding) returns (s: Spec)
    ensures var raw := Sub([Pair("K", "1"), Pair("K", "2")], None);
            Produced(CFG, Keep, "m", raw, 0, 0, false, raw, s) && !BasicSupported(round, CFG, Keep, s)
  {
    var raw := Sub([Pair("K", "1"), Pair("K", "2")], None);
    TwiceIsNotReserved("1", "2");
    SubValidates(raw.envs);
    NameIsWord();
    s := Build(CFG, "m", raw, false).value;
    OrdinaryIsSupportedIff(round, CFG, Keep, "m", raw, 0, 0, false, raw, s);
    assert ["K", "K"][0] == ["K", "K"][1];
  }

  /** Without it the spec is reproduced. */
  lemma PlainSpecIsSupported(round: Rounding) returns (s: Spec)
    ensures Produced(CFG, Keep, "m", Sub([], None), 0, 0, false, Sub([], None), s) && BasicSupported(round, CFG, Keep, s)
  {
    SubValidates([]);
    NameIsWord();
    s := Build(CFG, "m", Sub([], None), false).value;
    OrdinaryIsSupportedIff(round, CFG, Keep, "m", Sub([], None), 0, 0, false, Sub([], None), s);
  }

  /** The snapshot of a repository in the Hugging Face cache. */
  const CACHE_PATH := CachePath(["a"], "c")

  lemma CachePathIsNotNormal()
    ensures IsWord(CACHE_PATH) && Normalize(CACHE_PATH) == "a" && CACHE_PATH != "a"
  {
    SingleLetterIsName("a");
    SingleLetterIsName("c");
    assert AreNames(["a"]);
    CachePathNamesRepo(["a"], "c");
    CachePathIsTrimmed(["a"], "c");
    assert Join(["a"], "/") == "a";
  }

  lemma SingleLetterIsName(n: string)
    requires |n| == 1 && 'a' <= n[0] <= 'z'
    ensures IsName(n) && n[|n| - 1] != '-'
  {
    forall i | 0 <= i <= |n| ensures !("--" <= n[i..]) {
    }
  }

  /** A cache path as model name comes back as the repository it names, so the spec is not reproduced either. */
  lemma CachePathIsUnsupported(round: Rounding) returns (s: Spec)
    ensures Produced(CFG, Keep, CACHE_PATH, Sub([], None), 0, 0, false, Sub([], None), s) && !BasicSupported(round, CFG, Keep, s)
  {
    SubValidates([]);
    CachePathIsNotNormal();
    s := Build(CFG, CACHE_PATH, Sub([], None), false).value;
    OrdinaryIsSupportedIff(round, CFG, Keep, CACHE_PATH, Sub([], None), 0, 0, false, Sub([], None), s);
  }

  // ----- arguments that are not settled

  const OMNI_IMAGE := "vllm/vllm-omni:x"
  const OMNI_CFG := Config([OMNI_IMAGE], map[1 := Row(1, 1)], [])

  /** An omni flag as the value of a JSON-valued flag. */
  function OmniSub(): Submission {
    Submission(OMNI_IMAGE, [OVERRIDES, OMNI], 1, 1, [], None, None)
  }

  const OVERRIDES := "--hf-overrides"

  lemma OverridesMatch()
    ensures MatchedFlag(Strip(OVERRIDES), JSON_FLAGS) == Some(OVERRIDES)
  {
    var f := JSON_FLAGS;
    StripOverrides();
    assert OVERRIDES[2] == 'h';
    assert f[0][2] == 'a' && f[1][2] == 'c' && f[2][2] == 'e' && f[3] == OVERRIDES;
    assert f[1..][0] == f[1] && f[1..][1..] == f[2..] && f[2..][0] == f[2] && f[2..][1..] == f[3..] && f[3..][0] == f[3];
    assert MatchedFlag(OVERRIDES, f[3..]) == Some(OVERRIDES);
    assert MatchedFlag(OVERRIDES, f[2..]) == Some(OVERRIDES);
    assert MatchedFlag(OVERRIDES, f[1..]) == Some(OVERRIDES);
  }

  lemma OverridesAreFree()
    ensures Free([OVERRIDES, OMNI], MODEL) && Free([OVERRIDES, OMNI], TP) && !IsOmniToken(OVERRIDES)
  {
    assert OVERRIDES[2] == 'h' && TRUST[2] == 't' && OMNI[2] == 'o';
    NamedLetters(OVERRIDES);
    OmniIsNeither(OMNI);
  }

  lemma OverridesNormalize()
    ensures NormalizeJson(Keep, JSON_FLAGS, [OVERRIDES, OMNI]) == Ok([OVERRIDES, OMNI])
    ensures NormalizeJson(Keep, JSON_FLAGS, [OVERRIDES]) == Err
  {
    OverridesMatch();
    StripOverrides();
    assert [OVERRIDES, OMNI][2..] == [];
    assert NormalizeJson(Keep, JSON_FLAGS, []) == Ok([]);
    assert [OVERRIDES, OMNI] + [] == [OVERRIDES, OMNI];
  }

  lemma StripOverrides()
    ensures Strip(OVERRIDES) == OVERRIDES
  {
    assert OVERRIDES[0] == '-' && OVERRIDES[|OVERRIDES| - 1] == 's';
    TrimmedIsStripped(OVERRIDES);
  }

  lemma OmniSubValidates()
    ensures Validate(OMNI_CFG, Keep, OmniSub(), 0, 0, false) == Ok(OmniSub())
  {
    OverridesNormalize();
    OverridesAreFree();
    StripArgsKeepsFree([OVERRIDES, OMNI], MODEL, TP);
    assert OMNI_IMAGE[0] == 'v' && OMNI_IMAGE[|OMNI_IMAGE| - 1] == 'x';
    TrimmedIsStripped(OMNI_IMAGE);
    assert OMNI_IMAGE in OMNI_CFG.whitelist by { assert OMNI_CFG.whitelist[0] == OMNI_IMAGE; }
  }

  lemma OmniValueIsDropped()
    ensures Own(OMNI_IMAGE, [OVERRIDES, OMNI]) == [OVERRIDES]
  {
    OverridesAreFree();
    StripArgsKeepsFree([OVERRIDES, OMNI], MODEL, TP);
    assert [OVERRIDES, OMNI] == [OVERRIDES] + [OMNI] && [OMNI] == [OMNI] + [];
    StripOmniSkips([OVERRIDES], [OMNI]);
    StripOmniDrops([OMNI], []);
  }

  /** Validation keeps both tokens, generation drops the value, and the recovered flag has none. */
  lemma UnsettledIsUnsupported(round: Rounding) returns (s: Spec)
    ensures Produced(OMNI_CFG, Keep, "m", OmniSub(), 0, 0, false, OmniSub(), s) && !BasicSupported(round, OMNI_CFG, Keep, s)
  {
    OmniSubValidates();
    OmniValueIsDropped();
    OverridesNormalize();
    assert "m"[0] == 'm' && "m" != TP;
    s := Build(OMNI_CFG, "m", OmniSub(), false).value;
    ProducedIsSupportedIff(round, OMNI_CFG, Keep, "m", OmniSub(), 0, 0, false, OmniSub(), s);
  }

  /** A non-admin save without a policy drops the replica count an admin has set. */
  lemma ReplicaIsLost() returns (saved: Spec, after: Spec)
    ensures ReplicaOf(saved.policy) == Some(2)
    ensures Rebuild(CFG, Keep, "m", Sub([], None), saved, 0, 0, false) == Ok(after)
    ensures ReplicaOf(after.policy) == None
  {
    SubValidates([]);
    var built := Build(CFG, "m", Sub([], None), false).value;
    saved := built.(policy := Some(PolicyOverlay.DEFAULTS.(nvidiaReplica := Some(2))));
    after := Rebuild(CFG, Keep, "m", Sub([], None), saved, 0, 0, false).value;
    ReplicaKeptIff(CFG, Keep, "m", Sub([], None), saved, 0, 0);
  }

  /** A base whose model value is a tensor-parallel token: syncing to one GPU rewrites it, and the target with it. */
  lemma TensorParallelModelIsHijacked()
    ensures var base := [MODEL, TpJoined(2)];
            && FindTargets(base) == Ok([TpJoined(2)])
            && Hijacked(base, 1, TpJoined(2))
            && FindTargets(Synced(base, [], false, 1, Basic)) != Ok([TpJoined(2)])
  {
    var base := [MODEL, TpJoined(2)];
    TpJoinedIsNormal(1);
    TpJoinedIsNormal(2);
    assert base + [] == base;
    PlainTargets(TpJoined(2), []);
    OneTargetIff([TpJoined(2)], TpJoined(2));
    assert Decimal(1) == "1" && Decimal(2) == "2";
    assert TpJoined(1)[|TP| + 1] == '1' && TpJoined(2)[|TP| + 1] == '2';
    assert LockedModel(base) == base;
    SyncedTargetIff(base, [], false, 1, Basic, TpJoined(2));
  }
}
