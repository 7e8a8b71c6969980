/** What saving an edit stores, field by field, in terms of what was submitted and what was stored before. */
module EditorSave {
  import opened Common
  import opened PyText
  import opened Commands
  import opened ModelTargets
  import opened CatalogMerge
  import opened EnvMerge
  import opened JsonDiff
  import opened SpecEditor
  import opened EditorCommands
  import opened PolicyOverlay
  import EditorFixpoint
  import ModelLock
  import CatalogNoOp
  import TensorParallel

  // ----- policies

  /** The first of three that is given. */
  function First<T>(a: Option<T>, b: Option<T>, c: T): Option<T> {
    match (a, b)
    case (Some(_), _) => a
    case (None, Some(_)) => b
    case (None, None) => Some(c)
  }

  /** Each field of `r` is the one of `a` if given, else that of `b`, else the default; the replica count of the backend has none. */
  ghost predicate Layered(r: Policy, a: Policy, b: Policy) {
    && r.minReplica == First(a.minReplica, b.minReplica, 0)
    && r.maxReplica == First(a.maxReplica, b.maxReplica, 1)
    && r.standbyPerNode == First(a.standbyPerNode, b.standbyPerNode, 1)
    && r.parallel == First(a.parallel, b.parallel, 50)
    && r.queueLen == First(a.queueLen, b.queueLen, 100)
    && r.queueTimeout == First(a.queueTimeout, b.queueTimeout, 30.0)
    && r.scaleinTimeout == First(a.scaleinTimeout, b.scaleinTimeout, 1.0)
    && r.waitRatio == First(a.waitRatio, b.waitRatio, 0.1)
    && r.runtimeConfig == First(a.runtimeConfig, b.runtimeConfig, Some(false))
    && (a.nvidiaReplica.Some? ==> r.nvidiaReplica == a.nvidiaReplica)
    && (a.nvidiaReplica.None? ==> r.nvidiaReplica == b.nvidiaReplica)
  }

  /** Every given count and time is large enough, and a given maximum is not below a given minimum. */
  ghost predicate Sound(p: Policy) {
    && (p.nvidiaReplica.Some? ==> p.nvidiaReplica.value >= 0)
    && (p.minReplica.Some? ==> p.minReplica.value >= 0)
    && (p.maxReplica.Some? ==> p.maxReplica.value >= 0)
    && (p.standbyPerNode.Some? ==> p.standbyPerNode.value >= 0)
    && (p.parallel.Some? ==> p.parallel.value >= 1)
    && (p.queueLen.Some? ==> p.queueLen.value >= 1)
    && (p.queueTimeout.Some? ==> p.queueTimeout.value >= 0.0)
    && (p.scaleinTimeout.Some? ==> p.scaleinTimeout.value >= 0.0)
    && (p.waitRatio.Some? ==> p.waitRatio.value >= 0.0)
    && (p.minReplica.Some? && p.maxReplica.Some? ==> p.minReplica.value <= p.maxReplica.value)
  }

  /** What a submitter may set: without admin rights the backend's replica count is ignored. */
  ghost predicate Allowed(given: Policy, admin: bool, p: Policy) {
    && p == given.(nvidiaReplica := p.nvidiaReplica)
    && p.nvidiaReplica == if admin then given.nvidiaReplica else None
  }

  /** Normalising accepts exactly the policies whose allowed part is sound, and keeps that part. */
  lemma NormalizeMeaning(given: Policy, admin: bool, p: Policy)
    requires Allowed(given, admin, p)
    ensures PolicyOverlay.Normalize(given, admin) == if Sound(p) then Ok(p) else Err
  {
  }

  /** A built policy: submitted fields over defaults. */
  lemma BuildMeaning(given: Policy, admin: bool, p: Policy)
    requires Allowed(given, admin, p) && BuildFull(given, admin).Ok?
    ensures Layered(BuildFull(given, admin).value, p, PolicyOverlay.EMPTY) && Sound(BuildFull(given, admin).value)
  {
    BuildFullIsFixpoint(given, admin);
  }

  /** A saved policy: submitted fields over the stored ones over defaults; without a submission the stored policy goes. */
  lemma SavedPolicyMeaning(saved: Option<Policy>, submitted: Option<Policy>, admin: bool)
    requires SavedPolicy(saved, submitted, admin).Ok?
    ensures var r := SavedPolicy(saved, submitted, admin).value;
            match submitted
            case None => r == None
            case Some(p) =>
              && r.Some? && Sound(r.value)
              && (saved.Some? ==> Layered(r.value, p, saved.value))
              && (saved.None? ==> Layered(r.value, Visible(p, admin), PolicyOverlay.EMPTY))
  {
    if submitted.Some? {
      var p := submitted.value;
      if saved.Some? {
        BuildFullIsFixpoint(Overlay(saved.value, p), true);
      } else {
        BuildFullIsFixpoint(p, admin);
        BuildFullIsFixpoint(BuildFull(p, admin).value, admin);
      }
    }
  }

  /** What the editor passes on of a submitted policy: its allowed part, unless nothing is left. */
  lemma NormalizedPolicyMeaning(given: Option<Policy>, admin: bool)
    requires NormalizedPolicy(given, admin).Ok?
    ensures var q := NormalizedPolicy(given, admin).value;
            match given
            case None => q == None
            case Some(g) =>
              var p := g.(nvidiaReplica := if admin then g.nvidiaReplica else None);
              Sound(p) && q == if p == PolicyOverlay.EMPTY then None else Some(p)
  {
    if given.Some? {
      var g := given.value;
      NormalizeMeaning(g, admin, g.(nvidiaReplica := if admin then g.nvidiaReplica else None));
    }
  }

  // ----- validation

  /** A submission is accepted exactly when each of its parts is, and the accepted one differs in what is trimmed, stripped or normalised. */
  lemma ValidateMeaning(cfg: Config, norm: JsonNormalizer, s: Submission, maxVRam: int, maxCount: int, admin: bool)
    ensures var r := Validate(cfg, norm, s, maxVRam, maxCount, admin);
            && (r.Ok? <==>
                  && Strip(s.image) != "" && Strip(s.image) in cfg.whitelist
                  && s.count in cfg.rows && (maxCount <= 0 || s.count <= maxCount)
                  && s.vRam > 0 && (maxVRam <= 0 || s.vRam <= maxVRam)
                  && (forall i :: 0 <= i < |s.envs| ==> s.envs[i].Pair?)
                  && NormalizedPolicy(s.policy, admin).Ok?
                  && NormalizeJson(norm, JSON_FLAGS, StripArgs(s.commands, MODEL, TP)).Ok?)
            && (r.Ok? ==>
                  && r.value.image == Strip(s.image) && r.value.count == s.count && r.value.vRam == s.vRam
                  && r.value.sampleQuery == s.sampleQuery
                  && Ok(r.value.commands) == NormalizeJson(norm, JSON_FLAGS, StripArgs(s.commands, MODEL, TP))
                  && Ok(r.value.policy) == NormalizedPolicy(s.policy, admin))
  {
  }

  /** Reserved keys and malformed entries are dropped, and everything else stays, in order. */
  lemma {:induction false} WithoutReservedMeaning(envs: seq<EnvItem>, k: string)
    ensures Has(WithoutReserved(envs), k) <==> Has(envs, k) && k != "LD_LIBRARY_PATH" && k != "VLLM_CUDART_SO_PATH"
    ensures Has(WithoutReserved(envs), k) ==> LastValue(WithoutReserved(envs), k) == LastValue(envs, k)
    ensures AllPairs(WithoutReserved(envs))
  {
    if envs != [] {
      WithoutReservedMeaning(envs[1..], k);
      var rest := WithoutReserved(envs[1..]);
      if envs[0].Pair? && envs[0].key !in RESERVED_ENV_KEYS {
        assert ([envs[0]] + rest)[1..] == rest;
      } else {
        assert WithoutReserved(envs) == rest;
      }
    }
  }

  // ----- saving

  /** Image, sizes and the resource row come from the submission; what the editor does not show stays as stored. */
  lemma RebuildResources(cfg: Config, norm: JsonNormalizer, hfModel: string, sub: Submission, saved: Spec, maxVRam: int, maxCount: int,
                         admin: bool)
    requires Rebuild(cfg, norm, hfModel, sub, saved, maxVRam, maxCount, admin).Ok?
    ensures var r := Rebuild(cfg, norm, hfModel, sub, saved, maxVRam, maxCount, admin).value;
            && r.image == Strip(sub.image) && r.count == sub.count && r.vRam == sub.vRam && r.gpuType == "Any"
            && sub.count in cfg.rows && sub.count > 0
            && r.cpu == cfg.rows[sub.count].cpu && r.mem == cfg.rows[sub.count].mem
            && r.endpoint == saved.endpoint && r.standby == saved.standby
  {
  }

  /** The saved commands carry the submitted count, serve the model, and give back the submitted arguments. */
  lemma RebuildCommands(cfg: Config, norm: JsonNormalizer, hfModel: string, sub: Submission, saved: Spec, maxVRam: int, maxCount: int,
                        admin: bool)
    requires Rebuild(cfg, norm, hfModel, sub, saved, maxVRam, maxCount, admin).Ok?
    ensures sub.count > 0 && NormalizeJson(norm, JSON_FLAGS, StripArgs(sub.commands, MODEL, TP)).Ok?
    ensures var r := Rebuild(cfg, norm, hfModel, sub, saved, maxVRam, maxCount, admin).value;
            var own := Own(r.image, NormalizeJson(norm, JSON_FLAGS, StripArgs(sub.commands, MODEL, TP)).value);
            && Value(Parse(r.commands, TP)) == sub.count
            && (Openable(hfModel, r.image) ==>
                  && FindTargets(r.commands) == Ok([ModelTargets.Normalize(StoredModel(hfModel, sub.count))])
                  && Recovered(r.image, r.commands) == StoredOwn(hfModel, sub.count, own))
  {
    var p := Validate(cfg, norm, sub, maxVRam, maxCount, admin).value;
    RebuildResources(cfg, norm, hfModel, sub, saved, maxVRam, maxCount, admin);
    TensorParallel.GeneratedCarriesCount(hfModel, p.image, p.count, p.commands);
    if Openable(hfModel, p.image) {
      EditorFixpoint.StoredCommandsOpen(hfModel, p.image, p.count, p.commands);
    }
  }

  lemma DefaultsHave(k: string)
    ensures Has(DEFAULT_ENVS, k) <==> k == "LD_LIBRARY_PATH" || k == "VLLM_CUDART_SO_PATH"
  {
    assert DEFAULT_ENVS[1..][1..] == [];
  }

  lemma {:induction false} HasConcat(a: seq<EnvItem>, b: seq<EnvItem>, k: string)
    ensures Has(a + b, k) <==> Has(a, k) || Has(b, k)
    ensures Has(b, k) ==> LastValue(a + b, k) == LastValue(b, k)
    ensures !Has(b, k) ==> LastValue(a + b, k) == LastValue(a, k)
  {
    if a == [] {
      assert a + b == b;
      NotHasIsBlank(b, k);
    } else {
      assert (a + b)[0] == a[0] && (a + b)[1..] == a[1..] + b;
      HasConcat(a[1..], b, k);
    }
  }

  lemma {:induction false} NotHasIsBlank(b: seq<EnvItem>, k: string)
    ensures !Has(b, k) ==> LastValue(b, k) == ""
  {
  }

  /**
   A reserved key keeps its stored value, or gets the default if it has none; any other key
   takes the submitted value if there is one, else keeps the stored one. No other key appears.
   */
  lemma RebuildEnvs(cfg: Config, norm: JsonNormalizer, hfModel: string, sub: Submission, saved: Spec, maxVRam: int, maxCount: int,
                    admin: bool, k: string)
    requires Rebuild(cfg, norm, hfModel, sub, saved, maxVRam, maxCount, admin).Ok?
    ensures var r := Rebuild(cfg, norm, hfModel, sub, saved, maxVRam, maxCount, admin).value;
            var reserved := k == "LD_LIBRARY_PATH" || k == "VLLM_CUDART_SO_PATH";
            && Distinct(Keys(r.envs))
            && (Has(r.envs, k) <==> reserved || Has(saved.envs, k) || Has(sub.envs, k))
            && (reserved ==> LastValue(r.envs, k) == if Has(saved.envs, k) then LastValue(saved.envs, k) else LastValue(DEFAULT_ENVS, k))
            && (!reserved && Has(r.envs, k) ==>
                  LastValue(r.envs, k) == if Has(sub.envs, k) then LastValue(sub.envs, k) else LastValue(saved.envs, k))
  {
    var own := WithoutReserved(sub.envs);
    WithoutReservedMeaning(sub.envs, k);
    DefaultsHave(k);
    HasConcat(DEFAULT_ENVS, own, k);
    MergeMeaning(saved.envs, DEFAULT_ENVS + own, RESERVED_ENV_KEYS, k);
    assert k in RESERVED_ENV_KEYS <==> k == "LD_LIBRARY_PATH" || k == "VLLM_CUDART_SO_PATH";
  }

  /** A submitted query is stored with the model put in; without one the stored query stays. */
  lemma RebuildQuery(cfg: Config, norm: JsonNormalizer, hfModel: string, sub: Submission, saved: Spec, maxVRam: int, maxCount: int,
                     admin: bool)
    requires Rebuild(cfg, norm, hfModel, sub, saved, maxVRam, maxCount, admin).Ok?
    ensures var r := Rebuild(cfg, norm, hfModel, sub, saved, maxVRam, maxCount, admin).value;
            match sub.sampleQuery
            case None => r.sampleQuery == saved.sampleQuery
            case Some(q) =>
              && (Strip(hfModel) == "" ==> r.sampleQuery == q)
              && (Strip(hfModel) != "" ==>
                    && "body" in r.sampleQuery && BodyOf(r.sampleQuery) == BodyOf(q)["model" := Str(Strip(hfModel))]
                    && r.sampleQuery.Keys == q.Keys + {"body"}
                    && forall f :: f in q && f != "body" ==> r.sampleQuery[f] == q[f])
  {
    RebuiltQuery(cfg, norm, hfModel, sub, saved, maxVRam, maxCount, admin);
    if sub.sampleQuery.Some? {
      ResolvedQuery(cfg, hfModel, sub.sampleQuery.value);
    }
  }

  lemma RebuiltQuery(cfg: Config, norm: JsonNormalizer, hfModel: string, sub: Submission, saved: Spec, maxVRam: int, maxCount: int,
                     admin: bool)
    requires Rebuild(cfg, norm, hfModel, sub, saved, maxVRam, maxCount, admin).Ok?
    ensures Rebuild(cfg, norm, hfModel, sub, saved, maxVRam, maxCount, admin).value.sampleQuery ==
            if sub.sampleQuery.Some? then ResolvedSampleQuery(cfg, hfModel, sub.sampleQuery) else saved.sampleQuery
  {
  }

  /** A given query with the model put in at body.model, and everything else as given. */
  lemma ResolvedQuery(cfg: Config, hfModel: string, q: Fields)
    ensures var r := ResolvedSampleQuery(cfg, hfModel, Some(q));
            && (Strip(hfModel) == "" ==> r == q)
            && (Strip(hfModel) != "" ==>
                  && "body" in r && BodyOf(r) == BodyOf(q)["model" := Str(Strip(hfModel))]
                  && r.Keys == q.Keys + {"body"}
                  && forall f :: f in q && f != "body" ==> r[f] == q[f])
  {
  }

  /** The saved policy, in terms of what was submitted and stored. */
  lemma RebuildPolicy(cfg: Config, norm: JsonNormalizer, hfModel: string, sub: Submission, saved: Spec, maxVRam: int, maxCount: int,
                      admin: bool)
    requires Rebuild(cfg, norm, hfModel, sub, saved, maxVRam, maxCount, admin).Ok?
    ensures var r := Rebuild(cfg, norm, hfModel, sub, saved, maxVRam, maxCount, admin).value;
            match sub.policy
            case None => r.policy == None
            case Some(g) =>
              var p := g.(nvidiaReplica := if admin then g.nvidiaReplica else None);
              if p == PolicyOverlay.EMPTY then r.policy == None
              else && r.policy.Some? && Sound(r.policy.value)
                   && Layered(r.policy.value, p, if saved.policy.Some? then saved.policy.value else PolicyOverlay.EMPTY)
  {
    var v := Validate(cfg, norm, sub, maxVRam, maxCount, admin).value;
    NormalizedPolicyMeaning(sub.policy, admin);
    SavedPolicyMeaning(saved.policy, v.policy, admin);
  }

  // ----- building

  /** A new spec: the submitted sizes, the row for them, and the fixed parts. */
  lemma BuildResources(cfg: Config, hfModel: string, p: Submission, admin: bool)
    requires Build(cfg, hfModel, p, admin).Ok?
    ensures var r := Build(cfg, hfModel, p, admin).value;
            && p.count in cfg.rows && p.count > 0
            && r.image == p.image && r.count == p.count && r.vRam == p.vRam && r.gpuType == "Any"
            && r.cpu == cfg.rows[p.count].cpu && r.mem == cfg.rows[p.count].mem
            && r.envs == [Pair("LD_LIBRARY_PATH", "/usr/local/lib/python3.12/dist-packages/nvidia/cuda_nvrtc/lib/:$LD_LIBRARY_PATH"),
                          Pair("VLLM_CUDART_SO_PATH", "/usr/local/cuda-12.1/targets/x86_64-linux/lib/libcudart.so.12")] + p.envs
            && r.endpoint == map["port" := Num(8000.0), "schema" := Str("Http"), "probe" := Str("/health")]
            && r.standby == map["gpu" := Str("File"), "pageable" := Str("File"), "pinned" := Str("File")]
            && Value(Parse(r.commands, TP)) == p.count
            && (match p.policy case None => r.policy == None case Some(q) => r.policy.Some? && Layered(r.policy.value, Visible(q, admin), PolicyOverlay.EMPTY))
  {
    TensorParallel.GeneratedCarriesCount(hfModel, p.image, p.count, p.commands);
    if p.policy.Some? {
      BuildMeaning(p.policy.value, admin, Visible(p.policy.value, admin));
    }
  }

  /** Without a submitted query a new spec gets one that asks the model for a text completion. */
  lemma BuildQuery(cfg: Config, hfModel: string, p: Submission, admin: bool)
    requires Build(cfg, hfModel, p, admin).Ok? && Strip(hfModel) != ""
    ensures var q := Build(cfg, hfModel, p, admin).value.sampleQuery;
            match p.sampleQuery
            case Some(given) =>
              && q.Keys == given.Keys + {"body"} && (forall f :: f in given && f != "body" ==> q[f] == given[f])
              && "body" in q && BodyOf(q) == BodyOf(given)["model" := Str(Strip(hfModel))]
            case None =>
              && q.Keys == {"apiType", "prompt", "prompts", "path", "body"}
              && q["apiType"] == Str("text2text") && q["path"] == Str("v1/chat/completions") && q["prompts"] == Arr(cfg.prompts)
              && q["prompt"] == Str("write a quick sort algorithm.")
              && q["body"] == Obj(map["model" := Str(Strip(hfModel)), "max_tokens" := Str("1000"), "temperature" := Str("0"),
                                      "stream" := Str("true"),
                                      "messages" := Arr([Obj(map["role" := Str("user"), "content" := q["prompt"]])])])
  {
  }

  /** Commands generated for an omni image carry its two flags, in order. */
  lemma OmniFlagsAreGenerated(hfModel: string, image: string, n: nat, partial: seq<string>)
    requires IsOmniImage(image) && IsWord(hfModel)
    ensures OmniTokens(GeneratedSynced(hfModel, image, n, partial)) == ["--trust-remote-code", "--omni"]
  {
    var own := Own(image, partial);
    var rest := own + [TP, Decimal(n)];
    WordIsNoFlag(hfModel);
    PlainShape(hfModel, image, n, partial);
    OwnIsFree(image, partial);
    OmniTail(own, n);
    OmniHead(hfModel, rest);
  }

  lemma OmniTail(own: seq<string>, n: nat)
    requires ModelLock.OmniFree(own)
    ensures OmniTokens(own + [TP, Decimal(n)]) == []
  {
    ModelLock.NumeralIsNoFlag(n);
    ModelLock.TpIsNotOmni("");
    var rest := own + [TP, Decimal(n)];
    assert ModelLock.OmniFree(rest);
    assert rest + [] == rest;
    CatalogNoOp.OmniTokensSkips(rest, []);
  }

  lemma OmniHead(hfModel: string, rest: seq<string>)
    requires IsWord(hfModel) && OmniTokens(rest) == []
    ensures OmniTokens(["vllm", "serve", hfModel, TRUST, OMNI] + rest) == [TRUST, OMNI]
  {
    var words := ["vllm", "serve", hfModel];
    assert "vllm"[0] == 'v' && "serve"[0] == 's' && TRUST[0] == '-' && OMNI[0] == '-';
    WordIsNoFlag(hfModel);
    assert ModelLock.OmniFree(words);
    assert ["vllm", "serve", hfModel, TRUST, OMNI] + rest == words + ([TRUST, OMNI] + rest);
    CatalogNoOp.OmniTokensSkips(words, [TRUST, OMNI] + rest);
    CatalogNoOp.OmniTokensKeeps([TRUST, OMNI], rest);
  }

  // ----- opening

  /** What opening shows: the only target, or that of the sample query if the commands name none; several are an error. */
  lemma ProjectMeaning(cfg: Config, s: Spec)
    ensures match Project(cfg, s)
            case Err =>
              || FindTargets(s.commands).Err? || |FindTargets(s.commands).value| > 1
              || (s.policy.Some? && BuildFull(s.policy.value, true).Err?)
            case Ok(r) =>
              && FindTargets(s.commands).Ok? && |FindTargets(s.commands).value| <= 1
              && (|FindTargets(s.commands).value| == 1 ==> r.hfModel == Strip(FindTargets(s.commands).value[0]))
              && (|FindTargets(s.commands).value| == 0 ==> r.hfModel == Strip(SampleTarget(s.sampleQuery)))
              && r.basic.image == (if s.image != "" || cfg.whitelist == [] then s.image else cfg.whitelist[0])
              && r.basic.commands == Recovered(r.basic.image, s.commands)
              && r.basic.count == s.count && r.basic.vRam == s.vRam && r.basic.envs == WithoutReserved(s.envs)
              && r.basic.sampleQuery == Some(s.sampleQuery)
              && (r.basic.policy.None? <==> s.policy.None? || s.policy.value == PolicyOverlay.EMPTY)
              && (r.basic.policy.Some? ==> Layered(r.basic.policy.value, s.policy.value, PolicyOverlay.EMPTY))
  {
    if s.policy.Some? {
      BuildFullIsFixpoint(s.policy.value, true);
    }
  }

  /** A sample query names a model by the text at body.model, in normal form, and nothing otherwise. */
  lemma SampleTargetMeaning(q: Fields)
    ensures SampleTarget(q) ==
            if "body" in q && q["body"].Obj? && "model" in q["body"].fields && q["body"].fields["model"].Str?
            then ModelTargets.Normalize(q["body"].fields["model"].s) else ""
  {
  }

  // ----- a policy edit is stored

  /** A stored policy with the default maximum, and an edit that only raises it. */
  lemma RaisedMaximumIsStored(saved: Policy, admin: bool)
    requires SavedPolicy(Some(saved), Some(PolicyOverlay.EMPTY.(maxReplica := Some(5))), admin).Ok?
    ensures SavedPolicy(Some(saved), Some(PolicyOverlay.EMPTY.(maxReplica := Some(5))), admin).value.value.maxReplica == Some(5)
  {
    SavedPolicyMeaning(Some(saved), Some(PolicyOverlay.EMPTY.(maxReplica := Some(5))), admin);
  }
}
