/** What the basic editor builds, it can open and save again without changing anything. */
module EditorFixpoint {
  import opened Common
  import opened PyText
  import opened Commands
  import opened ModelTargets
  import opened CatalogMerge
  import opened ModelLock
  import opened EditorCommands
  import opened EnvMerge
  import opened JsonDiff
  import opened SpecEditor
  import opened SpecJson
  import PolicyOverlay
  import TargetNormalForm

  // ----- environment variables

  lemma {:induction false} WithoutReservedIsClean(envs: seq<EnvItem>)
    ensures AllPairs(WithoutReserved(envs))
    ensures forall k :: k in Keys(WithoutReserved(envs)) ==> k !in RESERVED_ENV_KEYS
    ensures WithoutReserved(WithoutReserved(envs)) == WithoutReserved(envs)
  {
    if envs != [] {
      WithoutReservedIsClean(envs[1..]);
      var rest := WithoutReserved(envs[1..]);
      if envs[0].Pair? && envs[0].key !in RESERVED_ENV_KEYS {
        assert ([envs[0]] + rest)[1..] == rest;
      } else {
        assert WithoutReserved(envs) == rest;
      }
    }
  }

  lemma DefaultsAreRemoved(envs: seq<EnvItem>)
    ensures WithoutReserved(DEFAULT_ENVS + envs) == WithoutReserved(envs)
    ensures Keys(DEFAULT_ENVS + envs) == ["LD_LIBRARY_PATH", "VLLM_CUDART_SO_PATH"] + Keys(envs)
  {
    var all := DEFAULT_ENVS + envs;
    assert all[1..] == [DEFAULT_ENVS[1]] + envs;
    assert all[1..][1..] == envs;
    assert Keys(all[1..]) == ["VLLM_CUDART_SO_PATH"] + Keys(envs);
    assert WithoutReserved(all[1..]) == WithoutReserved(envs);
  }

  /** Keys of the built environment repeat exactly when the customer's do. */
  lemma BuiltKeysDistinctIff(envs: seq<EnvItem>)
    requires forall k :: k in Keys(envs) ==> k !in RESERVED_ENV_KEYS
    ensures Distinct(Keys(DEFAULT_ENVS + envs)) <==> Distinct(Keys(envs))
  {
    DefaultsAreRemoved(envs);
    var own, head := Keys(envs), ["LD_LIBRARY_PATH", "VLLM_CUDART_SO_PATH"];
    var all := head + own;
    if Distinct(own) {
      forall i, j | 0 <= i < j < |all| ensures all[i] != all[j] {
        if j >= 2 {
          var k := own[j - 2];
          assert k in own;
        }
      }
    }
    if Distinct(all) {
      forall i, j | 0 <= i < j < |own| ensures own[i] != own[j] {
        assert own[i] == all[i + 2] && own[j] == all[j + 2];
      }
    }
  }

  /** Re-saving the built environment reproduces it exactly when no customer key repeats. */
  lemma EnvsSurviveIff(envs: seq<EnvItem>)
    requires AllPairs(envs) && forall k :: k in Keys(envs) ==> k !in RESERVED_ENV_KEYS
    ensures EnvMerge.Merge(DEFAULT_ENVS + envs, DEFAULT_ENVS + envs, RESERVED_ENV_KEYS) == DEFAULT_ENVS + envs
            <==> Distinct(Keys(envs))
  {
    BuiltKeysDistinctIff(envs);
    SelfMergeIff(DEFAULT_ENVS + envs, RESERVED_ENV_KEYS);
    assert AllPairs(DEFAULT_ENVS + envs);
  }

  // ----- sample query

  /** Resolving a resolved query for a model changes nothing exactly when it is the model it was resolved for. */
  lemma SampleQuerySurvivesIff(cfg: Config, hfModel: string, query: Option<Fields>, model: string)
    requires Strip(hfModel) != "" && Strip(model) != ""
    ensures var q := ResolvedSampleQuery(cfg, hfModel, query);
            ResolvedSampleQuery(cfg, model, Some(q)) == q <==> Strip(model) == Strip(hfModel)
  {
    var q := ResolvedSampleQuery(cfg, hfModel, query);
    var body := BodyOf(q);
    ResolvedNamesModel(cfg, hfModel, query);
    var after := q["body" := Obj(body["model" := Str(Strip(model))])];
    assert after["body"].fields["model"] == Str(Strip(model));
    if Strip(model) == Strip(hfModel) {
      assert body["model" := Str(Strip(model))] == body;
      assert q["body" := Obj(body)] == q;
    }
  }

  lemma ResolvedNamesModel(cfg: Config, hfModel: string, query: Option<Fields>)
    requires Strip(hfModel) != ""
    ensures var q := ResolvedSampleQuery(cfg, hfModel, query);
            && "body" in q && q["body"] == Obj(BodyOf(q))
            && "model" in BodyOf(q) && BodyOf(q)["model"] == Str(Strip(hfModel))
  {
  }

  // ----- policy

  ghost predicate Settled(policy: Option<PolicyOverlay.Policy>) {
    policy.Some? ==>
      && PolicyOverlay.Complete(policy.value)
      && PolicyOverlay.Normalize(policy.value, true) == Ok(policy.value)
      && PolicyOverlay.BuildFull(policy.value, true) == Ok(policy.value)
  }

  lemma BuiltPolicyIsSettled(policy: Option<PolicyOverlay.Policy>, admin: bool)
    ensures BuiltPolicy(policy, admin).Ok? ==> Settled(BuiltPolicy(policy, admin).value)
  {
    if policy.Some? {
      PolicyOverlay.BuildFullIsFixpoint(policy.value, admin);
    }
  }

  /** A settled policy passes through projection, validation, building and saving unchanged. */
  lemma SettledPolicySurvives(policy: Option<PolicyOverlay.Policy>)
    requires Settled(policy)
    ensures ProjectedPolicy(policy) == Ok(policy)
    ensures NormalizedPolicy(policy, true) == Ok(policy)
    ensures BuiltPolicy(policy, true) == Ok(policy)
    ensures SavedPolicy(policy, policy, true) == Ok(policy)
  {
    if policy.Some? {
      var f := policy.value;
      assert f != PolicyOverlay.EMPTY;
      assert PolicyOverlay.Overlay(f, f) == f;
    }
  }

  // ----- commands

  /** Reading the recovered arguments again, their JSON-valued flags included, gives the same arguments. */
  predicate SettledArgs(norm: JsonNormalizer, image: string, own: seq<string>) {
    match NormalizeJson(norm, JSON_FLAGS, own)
    case Err => false
    case Ok(again) => Own(image, again) == own
  }

  /** The model name comes back as it was given. */
  predicate NameSurvives(hfModel: string, image: string, n: nat) {
    Openable(hfModel, image) && if Joined(hfModel, TP) then Strip(hfModel) == TpJoined(n) else Normalize(hfModel) == hfModel
  }

  lemma StoredModelOrNormal(hfModel: string, image: string, n: nat)
    requires Openable(hfModel, image)
    ensures var m := StoredModel(hfModel, n);
            && Strip(Normalize(m)) == Normalize(m) != ""
            && StoredModel(m, n) == m
            && (Names(hfModel, TP) ==> Normalize(m) == m)
  {
    var m := StoredModel(hfModel, n);
    StoredIsOpenable(hfModel, image, n);
    NormalizeIsNonempty(m);
    TargetNormalForm.NormalizeTwice(m);
    TrimmedIsStripped(Normalize(m));
    TpJoinedIsNormal(n);
    TpIsNormal();
    BareIsNotJoined();
  }

  /** With the bare tensor-parallel flag as model, the count in front of the arguments survives normalising. */
  lemma CountStaysFirst(norm: JsonNormalizer, image: string, n: nat, tail: seq<string>)
    requires !IsOmniImage(image)
    ensures var r := NormalizeJson(norm, JSON_FLAGS, [Decimal(n)] + tail);
            r.Ok? ==> StoredOwn(TP, n, Own(image, r.value)) == Own(image, r.value)
  {
    var own, d := [Decimal(n)] + tail, Decimal(n);
    NumeralIsPlain(n);
    NumeralIsNoFlag(n);
    assert own[0] == d && own[1..] == tail;
    var rest := NormalizeJson(norm, JSON_FLAGS, tail);
    assert NormalizeJson(norm, JSON_FLAGS, own) == Extend([d], rest);
    if rest.Ok? {
      StripArgsSkips([d], rest.value, MODEL, TP);
      var kept := StripArgs(rest.value, MODEL, TP);
      assert ([d] + kept)[1..] == kept;
    }
  }

  /** The commands are regenerated exactly when the stored model is in normal form and the arguments are settled. */
  lemma RegeneratedIff(norm: JsonNormalizer, hfModel: string, image: string, n: nat, partial: seq<string>, again: seq<string>)
    requires Openable(hfModel, image)
    requires NormalizeJson(norm, JSON_FLAGS, StoredOwn(hfModel, n, Own(image, partial))) == Ok(again)
    ensures var m := StoredModel(hfModel, n);
            GeneratedSynced(Normalize(m), image, n, again) == GeneratedSynced(hfModel, image, n, partial) <==>
            Normalize(m) == m && Own(image, again) == StoredOwn(hfModel, n, Own(image, partial))
  {
    var m, own := StoredModel(hfModel, n), StoredOwn(hfModel, n, Own(image, partial));
    StoredModelOrNormal(hfModel, image, n);
    if Normalize(m) != m {
      OtherModelDiffers(hfModel, Normalize(m), image, n, partial, again);
    } else {
      StoredIsOpenable(hfModel, image, n);
      GeneratedShape(hfModel, image, n, partial);
      GeneratedShape(m, image, n, again);
      StoredOwnAgain(norm, hfModel, image, n, partial, again);
      if Laid(m, image, n, Own(image, again)) == Laid(m, image, n, own) {
        LaidIsInjective(m, image, n, Own(image, again), own);
      }
    }
  }

  lemma StoredOwnAgain(norm: JsonNormalizer, hfModel: string, image: string, n: nat, partial: seq<string>, again: seq<string>)
    requires Openable(hfModel, image)
    requires NormalizeJson(norm, JSON_FLAGS, StoredOwn(hfModel, n, Own(image, partial))) == Ok(again)
    ensures StoredOwn(StoredModel(hfModel, n), n, Own(image, again)) == Own(image, again)
  {
    TpJoinedIsNormal(n);
    BareIsNotJoined();
    if hfModel == TP {
      NamedIsDashed(TP);
      DashedIsNoWord(TP);
      var own := Own(image, partial);
      CountStaysFirst(norm, image, n, if own == [] then [] else own[1..]);
    }
  }

  // ----- the theorem

  /** A spec the basic editor produced: validated, then built. */
  ghost predicate Produced(cfg: Config, norm: JsonNormalizer, hfModel: string, raw: Submission, maxVRam: int, maxCount: int,
                           admin: bool, p: Submission, s: Spec) {
    && Validate(cfg, norm, raw, maxVRam, maxCount, admin) == Ok(p)
    && Build(cfg, hfModel, p, admin) == Ok(s)
  }

  /** What the stored spec opens as. */
  function Opened(p: Submission, s: Spec, commands: seq<string>): Submission {
    Submission(p.image, commands, p.count, p.vRam, p.envs, s.policy, Some(s.sampleQuery))
  }

  lemma ProducedCommands(cfg: Config, norm: JsonNormalizer, hfModel: string, raw: Submission, maxVRam: int, maxCount: int,
                         admin: bool, p: Submission, s: Spec)
    requires Produced(cfg, norm, hfModel, raw, maxVRam, maxCount, admin, p, s)
    ensures p.count > 0 && p.image != "" && s.image == p.image
    ensures s.commands == GeneratedSynced(hfModel, p.image, p.count, p.commands)
  {
  }

  /** Generated commands give back their stored model and the arguments stored with it. */
  lemma StoredCommandsOpen(hfModel: string, image: string, n: nat, partial: seq<string>)
    requires Openable(hfModel, image)
    ensures var commands := GeneratedSynced(hfModel, image, n, partial);
            && FindTargets(commands) == Ok([Normalize(StoredModel(hfModel, n))])
            && Recovered(image, commands) == StoredOwn(hfModel, n, Own(image, partial))
  {
    var m, own := StoredModel(hfModel, n), StoredOwn(hfModel, n, Own(image, partial));
    GeneratedShape(hfModel, image, n, partial);
    StoredIsOpenable(hfModel, image, n);
    OwnIsFree(image, partial);
    StoredOwnIsUnreserved(hfModel, image, n, Own(image, partial));
    LaidTarget(m, image, n, own);
    LaidIsRecovered(m, image, n, own);
  }

  lemma ProducedOpens(cfg: Config, norm: JsonNormalizer, hfModel: string, raw: Submission, maxVRam: int, maxCount: int,
                      admin: bool, p: Submission, s: Spec)
    requires Produced(cfg, norm, hfModel, raw, maxVRam, maxCount, admin, p, s)
    ensures Settled(s.policy)
    ensures Openable(hfModel, p.image) && p.count > 0 ==>
              Project(cfg, s) == Ok(Projection(Normalize(StoredModel(hfModel, p.count)), Opened(p, s, Recovered(p.image, s.commands))))
    ensures !Openable(hfModel, p.image) ==> Project(cfg, s) == Err
  {
    ProducedCommands(cfg, norm, hfModel, raw, maxVRam, maxCount, admin, p, s);
    BuiltPolicyIsSettled(p.policy, admin);
    SettledPolicySurvives(s.policy);
    DefaultsAreRemoved(p.envs);
    WithoutReservedIsClean(raw.envs);
    if Openable(hfModel, p.image) {
      var t := Normalize(StoredModel(hfModel, p.count));
      StoredCommandsOpen(hfModel, p.image, p.count, p.commands);
      StoredModelOrNormal(hfModel, p.image, p.count);
      assert [t][0] == t;
    } else {
      UnopenableHasNoTarget(hfModel, p.image, p.count, p.commands);
    }
  }

  /** Validating what was opened only normalises the JSON-valued flags among the arguments. */
  lemma OpenedValidates(cfg: Config, norm: JsonNormalizer, hfModel: string, raw: Submission, maxVRam: int, maxCount: int,
                        admin: bool, p: Submission, s: Spec, own: seq<string>)
    requires Produced(cfg, norm, hfModel, raw, maxVRam, maxCount, admin, p, s) && Settled(s.policy)
    requires Free(own, MODEL) && Free(own, TP)
    ensures Validate(cfg, norm, Opened(p, s, own), 0, 0, true) ==
            match NormalizeJson(norm, JSON_FLAGS, own)
            case Err => Err
            case Ok(again) => Ok(Opened(p, s, again))
  {
    StripArgsKeepsFree(own, MODEL, TP);
    SettledPolicySurvives(s.policy);
    WithoutReservedIsClean(raw.envs);
    StripTwice(raw.image);
  }

  /** Saving what was opened rebuilds everything but, possibly, commands, environment and sample query. */
  lemma ProducedRebuilds(cfg: Config, norm: JsonNormalizer, hfModel: string, raw: Submission, maxVRam: int, maxCount: int,
                         admin: bool, p: Submission, s: Spec, own: seq<string>, model: string)
    requires Produced(cfg, norm, hfModel, raw, maxVRam, maxCount, admin, p, s) && Settled(s.policy) && p.count > 0
    requires Free(own, MODEL) && Free(own, TP)
    ensures Rebuild(cfg, norm, model, Opened(p, s, own), s, 0, 0, true) ==
            match NormalizeJson(norm, JSON_FLAGS, own)
            case Err => Err
            case Ok(again) => Ok(Resaved(cfg, p, s, again, model))
  {
    OpenedValidates(cfg, norm, hfModel, raw, maxVRam, maxCount, admin, p, s, own);
    SettledPolicySurvives(s.policy);
  }

  function Resaved(cfg: Config, p: Submission, s: Spec, again: seq<string>, model: string): Spec
    requires p.count > 0
  {
    Spec(s.image, GeneratedSynced(model, p.image, p.count, again), s.cpu, s.mem, s.gpuType, s.count, s.vRam,
         EnvMerge.Merge(s.envs, s.envs, RESERVED_ENV_KEYS), s.endpoint, ResolvedSampleQuery(cfg, model, Some(s.sampleQuery)),
         s.standby, s.policy)
  }

  /** What was resaved is what was stored exactly when name, arguments and environment survive. */
  lemma ResavedIsSameIff(cfg: Config, norm: JsonNormalizer, hfModel: string, raw: Submission, maxVRam: int, maxCount: int,
                         admin: bool, p: Submission, s: Spec, again: seq<string>)
    requires Produced(cfg, norm, hfModel, raw, maxVRam, maxCount, admin, p, s)
    requires p.count > 0 && Openable(hfModel, p.image)
    requires NormalizeJson(norm, JSON_FLAGS, Recovered(p.image, s.commands)) == Ok(again)
    ensures Resaved(cfg, p, s, again, Normalize(StoredModel(hfModel, p.count))) == s <==>
            NameSurvives(hfModel, p.image, p.count) && Own(p.image, again) == Recovered(p.image, s.commands) && Distinct(Keys(p.envs))
  {
    var m := StoredModel(hfModel, p.count);
    ProducedCommands(cfg, norm, hfModel, raw, maxVRam, maxCount, admin, p, s);
    StoredCommandsOpen(hfModel, p.image, p.count, p.commands);
    StoredModelOrNormal(hfModel, p.image, p.count);
    RegeneratedIff(norm, hfModel, p.image, p.count, p.commands, again);
    WithoutReservedIsClean(raw.envs);
    EnvsSurviveIff(p.envs);
    OpenableIsNotBlank(hfModel, p.image);
    SampleQuerySurvivesIff(cfg, hfModel, p.sampleQuery, Normalize(m));
    TpJoinedIsNormal(p.count);
  }

  /** Up to rounding of numbers it is no different: whatever changes is text. */
  lemma ResavedIsAlikeIff(round: Rounding, cfg: Config, norm: JsonNormalizer, hfModel: string, raw: Submission, maxVRam: int, maxCount: int,
                          admin: bool, p: Submission, s: Spec, again: seq<string>)
    requires Produced(cfg, norm, hfModel, raw, maxVRam, maxCount, admin, p, s)
    requires p.count > 0 && Openable(hfModel, p.image)
    requires NormalizeJson(norm, JSON_FLAGS, Recovered(p.image, s.commands)) == Ok(again)
    ensures Alike(round, s, Resaved(cfg, p, s, again, Normalize(StoredModel(hfModel, p.count)))) <==>
            NameSurvives(hfModel, p.image, p.count) && Own(p.image, again) == Recovered(p.image, s.commands) && Distinct(Keys(p.envs))
  {
    var model := Normalize(StoredModel(hfModel, p.count));
    var t := Resaved(cfg, p, s, again, model);
    ResavedIsSameIff(cfg, norm, hfModel, raw, maxVRam, maxCount, admin, p, s, again);
    ProducedQuery(cfg, norm, hfModel, raw, maxVRam, maxCount, admin, p, s);
    StoredModelOrNormal(hfModel, p.image, p.count);
    OpenableIsNotBlank(hfModel, p.image);
    QueryRounds(round, cfg, hfModel, p.sampleQuery, model);
    AlikeIsSame(round, s, t);
  }

  lemma ProducedQuery(cfg: Config, norm: JsonNormalizer, hfModel: string, raw: Submission, maxVRam: int, maxCount: int,
                      admin: bool, p: Submission, s: Spec)
    requires Produced(cfg, norm, hfModel, raw, maxVRam, maxCount, admin, p, s)
    ensures s.sampleQuery == ResolvedSampleQuery(cfg, hfModel, p.sampleQuery)
  {
  }

  lemma AlikeIsSame(round: Rounding, s: Spec, t: Spec)
    requires t == s.(commands := t.commands, envs := t.envs, sampleQuery := t.sampleQuery)
    requires Rounded(round, Obj(s.sampleQuery)) == Rounded(round, Obj(t.sampleQuery)) ==> s.sampleQuery == t.sampleQuery
    ensures Alike(round, s, t) <==> t == s
  {
  }

  /** A resolved query and its resolution for another model differ in a text, so also up to rounding. */
  lemma QueryRounds(round: Rounding, cfg: Config, hfModel: string, query: Option<Fields>, model: string)
    requires Strip(hfModel) != "" && Strip(model) != ""
    ensures var q := ResolvedSampleQuery(cfg, hfModel, query);
            var t := ResolvedSampleQuery(cfg, model, Some(q));
            Rounded(round, Obj(q)) == Rounded(round, Obj(t)) ==> q == t
  {
    var q := ResolvedSampleQuery(cfg, hfModel, query);
    var t := ResolvedSampleQuery(cfg, model, Some(q));
    SampleQuerySurvivesIff(cfg, hfModel, query, model);
    if Rounded(round, Obj(q)) == Rounded(round, Obj(t)) {
      ResolvedNamesModel(cfg, hfModel, query);
      ResolvedNamesModel(cfg, model, Some(q));
      RoundedModel(round, q);
      RoundedModel(round, t);
    }
  }

  /** The model text of a query can be read off its rounded form. */
  lemma RoundedModel(round: Rounding, q: Fields)
    requires "body" in q && q["body"].Obj? && "model" in q["body"].fields && q["body"].fields["model"].Str?
    ensures var r := RoundedFields(round, Obj(q));
            && "body" in r && r["body"].Obj? && "model" in r["body"].fields
            && r["body"].fields["model"] == q["body"].fields["model"]
  {
    var body := q["body"];
    assert RoundedFields(round, Obj(q))["body"] == Rounded(round, body);
    assert RoundedFields(round, body)["model"] == Rounded(round, body.fields["model"]);
  }

  lemma OpenableIsNotBlank(hfModel: string, image: string)
    requires Openable(hfModel, image)
    ensures Strip(hfModel) != ""
  {
  }

  /**
   The basic editor's no-op test accepts a spec the basic editor produced exactly when the
   model name comes back as given, the arguments are settled, and no environment key repeats.
   */
  lemma ProducedIsSupportedIff(round: Rounding, cfg: Config, norm: JsonNormalizer, hfModel: string, raw: Submission, maxVRam: int, maxCount: int,
                               admin: bool, p: Submission, s: Spec)
    requires Produced(cfg, norm, hfModel, raw, maxVRam, maxCount, admin, p, s)
    ensures p.count > 0
    ensures BasicSupported(round, cfg, norm, s) <==>
            && NameSurvives(hfModel, p.image, p.count)
            && SettledArgs(norm, p.image, StoredOwn(hfModel, p.count, Own(p.image, p.commands)))
            && Distinct(Keys(p.envs))
  {
    var own := Recovered(p.image, s.commands);
    ProducedCommands(cfg, norm, hfModel, raw, maxVRam, maxCount, admin, p, s);
    ProducedOpens(cfg, norm, hfModel, raw, maxVRam, maxCount, admin, p, s);
    if Openable(hfModel, p.image) {
      var model := Normalize(StoredModel(hfModel, p.count));
      StoredCommandsOpen(hfModel, p.image, p.count, p.commands);
      StoredModelOrNormal(hfModel, p.image, p.count);
      RecoveredIsUnreserved(p.image, s.commands);
      ProducedRebuilds(cfg, norm, hfModel, raw, maxVRam, maxCount, admin, p, s, own, model);
      if NormalizeJson(norm, JSON_FLAGS, own).Ok? {
        var again := NormalizeJson(norm, JSON_FLAGS, own).value;
        ResavedIsAlikeIff(round, cfg, norm, hfModel, raw, maxVRam, maxCount, admin, p, s, again);
        NoDifferenceIff(round, s, Resaved(cfg, p, s, again, model));
      }
    }
  }

  // ----- without JSON-valued flags

  lemma ValidatedCommandsArePlain(cfg: Config, norm: JsonNormalizer, raw: Submission, maxVRam: int, maxCount: int,
                                  admin: bool, p: Submission)
    requires Validate(cfg, norm, raw, maxVRam, maxCount, admin) == Ok(p) && NoJson(JSON_FLAGS, raw.commands)
    ensures Plain(p.commands)
  {
    var kept := StripArgs(raw.commands, MODEL, TP);
    StripArgsIsFree(raw.commands, MODEL, TP);
    PlainIsNoJson(raw.commands);
    PlainSubset(kept, raw.commands);
    PlainIsNoJson(kept);
    NoJsonIsUnchanged(norm, JSON_FLAGS, kept);
  }

  lemma StoredOwnIsPlain(hfModel: string, image: string, n: nat, partial: seq<string>)
    requires Plain(partial)
    ensures Plain(StoredOwn(hfModel, n, Own(image, partial)))
  {
    var extra, own := StripArgs(partial, MODEL, TP), Own(image, partial);
    StripArgsIsFree(partial, MODEL, TP);
    OmniMembers(extra);
    PlainSubset(own, partial);
    if hfModel == TP {
      var tail := if own == [] then [] else own[1..];
      NumeralIsPlain(n);
      PlainSubset(tail, own);
      PlainConcat([Decimal(n)], tail);
    }
  }

  /** Submissions without JSON-valued flags are settled. */
  lemma PlainIsSettled(cfg: Config, norm: JsonNormalizer, hfModel: string, raw: Submission, maxVRam: int, maxCount: int,
                       admin: bool, p: Submission, s: Spec)
    requires Produced(cfg, norm, hfModel, raw, maxVRam, maxCount, admin, p, s)
    requires NoJson(JSON_FLAGS, raw.commands) && Openable(hfModel, p.image)
    ensures p.count > 0 && SettledArgs(norm, p.image, StoredOwn(hfModel, p.count, Own(p.image, p.commands)))
  {
    var own := Recovered(p.image, s.commands);
    ProducedCommands(cfg, norm, hfModel, raw, maxVRam, maxCount, admin, p, s);
    ValidatedCommandsArePlain(cfg, norm, raw, maxVRam, maxCount, admin, p);
    StoredCommandsOpen(hfModel, p.image, p.count, p.commands);
    StoredOwnIsPlain(hfModel, p.image, p.count, p.commands);
    PlainIsNoJson(own);
    NoJsonIsUnchanged(norm, JSON_FLAGS, own);
    RecoveredIsUnreserved(p.image, s.commands);
    UnreservedIsOwn(p.image, own);
  }

  /** The ordinary case: a word as model name, no JSON-valued flags. */
  lemma OrdinaryIsSupportedIff(round: Rounding, cfg: Config, norm: JsonNormalizer, hfModel: string, raw: Submission, maxVRam: int, maxCount: int,
                               admin: bool, p: Submission, s: Spec)
    requires Produced(cfg, norm, hfModel, raw, maxVRam, maxCount, admin, p, s)
    requires IsWord(hfModel) && NoJson(JSON_FLAGS, raw.commands)
    ensures BasicSupported(round, cfg, norm, s) <==> Normalize(hfModel) == hfModel && Distinct(Keys(p.envs))
  {
    ProducedIsSupportedIff(round, cfg, norm, hfModel, raw, maxVRam, maxCount, admin, p, s);
    PlainIsSettled(cfg, norm, hfModel, raw, maxVRam, maxCount, admin, p, s);
    WordIsNoFlag(hfModel);
  }

  // ----- the admin-only field

  function ReplicaOf(policy: Option<PolicyOverlay.Policy>): Option<int> {
    if policy.Some? then policy.value.nvidiaReplica else None
  }

  /**
   A save without admin rights keeps the admin-set replica count exactly when there was none
   or the submission carries some other policy field; otherwise the policy is dropped whole.
   */
  lemma ReplicaKeptIff(cfg: Config, norm: JsonNormalizer, hfModel: string, sub: Submission, saved: Spec, maxVRam: int, maxCount: int)
    requires Rebuild(cfg, norm, hfModel, sub, saved, maxVRam, maxCount, false).Ok?
    ensures var after := Rebuild(cfg, norm, hfModel, sub, saved, maxVRam, maxCount, false).value;
            ReplicaOf(after.policy) == ReplicaOf(saved.policy) <==>
            ReplicaOf(saved.policy) == None ||
            (sub.policy.Some? && PolicyOverlay.Visible(sub.policy.value, false) != PolicyOverlay.EMPTY)
  {
    var p := Validate(cfg, norm, sub, maxVRam, maxCount, false).value;
    PolicyReplicaKeptIff(saved.policy, sub.policy, p.policy);
  }

  lemma PolicyReplicaKeptIff(saved: Option<PolicyOverlay.Policy>, raw: Option<PolicyOverlay.Policy>, q: Option<PolicyOverlay.Policy>)
    requires NormalizedPolicy(raw, false) == Ok(q) && SavedPolicy(saved, q, false).Ok?
    ensures ReplicaOf(SavedPolicy(saved, q, false).value) == ReplicaOf(saved) <==>
            ReplicaOf(saved) == None || (raw.Some? && PolicyOverlay.Visible(raw.value, false) != PolicyOverlay.EMPTY)
  {
    if q.Some? {
      if saved.Some? {
        PolicyOverlay.BuildFullIsFixpoint(PolicyOverlay.Overlay(saved.value, q.value), true);
      } else {
        PolicyOverlay.BuildFullIsFixpoint(q.value, false);
        PolicyOverlay.BuildFullIsFixpoint(PolicyOverlay.BuildFull(q.value, false).value, false);
      }
    }
  }
}
