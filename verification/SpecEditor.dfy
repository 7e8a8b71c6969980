/**
 The basic editor of a function spec: a submission is validated and built into a full
 spec; a stored spec is projected back into a submission; saving an edit rebuilds it.
 */
module SpecEditor {
  import opened Common
  import opened PyText
  import opened Commands
  import opened ModelTargets
  import opened CatalogMerge
  import opened EnvMerge
  import opened JsonDiff
  import PolicyOverlay

  type Fields = map<string, Json>

  datatype Row = Row(cpu: int, mem: int)

  /** The deployment's settings: whitelisted images, resources per GPU count, sample prompts. */
  datatype Config = Config(whitelist: seq<string>, rows: map<int, Row>, prompts: seq<Json>)

  /** What the editor submits. */
  datatype Submission = Submission(image: string, commands: seq<string>, count: int, vRam: int, envs: seq<EnvItem>,
                                   policy: Option<PolicyOverlay.Policy>, sampleQuery: Option<Fields>)

  /** A stored function spec. */
  datatype Spec = Spec(image: string, commands: seq<string>, cpu: int, mem: int, gpuType: string, count: int, vRam: int,
                       envs: seq<EnvItem>, endpoint: Fields, sampleQuery: Fields, standby: Fields,
                       policy: Option<PolicyOverlay.Policy>)

  const DEFAULT_ENVS := [
    Pair("LD_LIBRARY_PATH", "/usr/local/lib/python3.12/dist-packages/nvidia/cuda_nvrtc/lib/:$LD_LIBRARY_PATH"),
    Pair("VLLM_CUDART_SO_PATH", "/usr/local/cuda-12.1/targets/x86_64-linux/lib/libcudart.so.12")]

  const RESERVED_ENV_KEYS := {"LD_LIBRARY_PATH", "VLLM_CUDART_SO_PATH"}

  const FIXED_ENDPOINT := map["port" := Num(8000.0), "schema" := Str("Http"), "probe" := Str("/health")]

  const FIXED_STANDBY := map["gpu" := Str("File"), "pageable" := Str("File"), "pinned" := Str("File")]

  // ----- commands

  /** The commands the basic editor generates around the customer's own arguments. */
  function Generated(hfModel: string, image: string, gpuCount: nat, partial: seq<string>): seq<string> {
    var extra := StripArgs(partial, MODEL, TP);
    if IsOmniImage(image) then ["vllm", "serve", hfModel, TRUST, OMNI] + StripOmni(extra)
    else [MODEL, hfModel] + extra + [TP + "=" + Decimal(gpuCount)]
  }

  function GeneratedSynced(hfModel: string, image: string, gpuCount: nat, partial: seq<string>): seq<string> {
    Upsert(Generated(hfModel, image, gpuCount, partial), TP, Decimal(gpuCount))
  }

  /** The customer's own arguments, recovered from stored commands. */
  function Recovered(image: string, commands: seq<string>): seq<string> {
    if IsOmniImage(image) then
      StripArgs(StripOmni(if |commands| >= 3 && StartsServe(commands) then commands[3..] else commands), MODEL, TP)
    else StripArgs(commands, MODEL, TP)
  }

  // ----- sample query

  function DefaultSampleQuery(cfg: Config, hfModel: string): Fields {
    var prompt := Str("write a quick sort algorithm.");
    map["apiType" := Str("text2text"), "prompt" := prompt, "prompts" := Arr(cfg.prompts),
        "path" := Str("v1/chat/completions"),
        "body" := Obj(map["model" := Str(hfModel), "max_tokens" := Str("1000"), "temperature" := Str("0"),
                          "stream" := Str("true"),
                          "messages" := Arr([Obj(map["role" := Str("user"), "content" := prompt])])])]
  }

  function BodyOf(query: Fields): Fields {
    if "body" in query && query["body"].Obj? then query["body"].fields else map[]
  }

  function ResolvedSampleQuery(cfg: Config, hfModel: string, query: Option<Fields>): Fields {
    var model := Strip(hfModel);
    match query
    case None => if model == "" then map[] else DefaultSampleQuery(cfg, model)
    case Some(q) => if model == "" then q else q["body" := Obj(BodyOf(q)["model" := Str(model)])]
  }

  /** The target a sample query names, used when the commands name none. */
  function SampleTarget(query: Fields): string {
    var body := BodyOf(query);
    if "model" in body && body["model"].Str? then Normalize(body["model"].s) else ""
  }

  // ----- validation and building

  function WithoutReserved(envs: seq<EnvItem>): seq<EnvItem> {
    if envs == [] then []
    else (if envs[0].Pair? && envs[0].key !in RESERVED_ENV_KEYS then [envs[0]] else []) + WithoutReserved(envs[1..])
  }

  function NormalizedPolicy(policy: Option<PolicyOverlay.Policy>, admin: bool): Result<Option<PolicyOverlay.Policy>> {
    match policy
    case None => Ok(None)
    case Some(p) =>
      match PolicyOverlay.Normalize(p, admin)
      case Err => Err
      case Ok(q) => Ok(if q == PolicyOverlay.EMPTY then None else Some(q))
  }

  predicate AllWellFormed(envs: seq<EnvItem>) {
    forall i :: 0 <= i < |envs| ==> envs[i].Pair?
  }

  /** `validate_partial_spec` in basic mode; node limits of zero mean no limit. */
  function Validate(cfg: Config, norm: JsonNormalizer, s: Submission, maxVRam: int, maxCount: int, admin: bool): Result<Submission> {
    var image := Strip(s.image);
    var policy := NormalizedPolicy(s.policy, admin);
    var commands := NormalizeJson(norm, JSON_FLAGS, StripArgs(s.commands, MODEL, TP));
    if || image == "" || image !in cfg.whitelist
       || s.count !in cfg.rows || (maxCount > 0 && s.count > maxCount)
       || s.vRam <= 0 || (maxVRam > 0 && s.vRam > maxVRam)
       || !AllWellFormed(s.envs) || policy.Err? || commands.Err?
    then Err
    else Ok(Submission(image, commands.value, s.count, s.vRam, WithoutReserved(s.envs), policy.value, s.sampleQuery))
  }

  function BuiltPolicy(policy: Option<PolicyOverlay.Policy>, admin: bool): Result<Option<PolicyOverlay.Policy>> {
    match policy
    case None => Ok(None)
    case Some(p) =>
      match PolicyOverlay.BuildFull(p, admin)
      case Err => Err
      case Ok(f) => Ok(Some(f))
  }

  /** `build_full_spec` in basic mode, on a validated submission. */
  function Build(cfg: Config, hfModel: string, p: Submission, admin: bool): Result<Spec> {
    if p.count !in cfg.rows || p.count <= 0 then Err else
      match BuiltPolicy(p.policy, admin)
      case Err => Err
      case Ok(policy) =>
        Ok(Spec(p.image, GeneratedSynced(hfModel, p.image, p.count, p.commands), cfg.rows[p.count].cpu, cfg.rows[p.count].mem,
                "Any", p.count, p.vRam, DEFAULT_ENVS + p.envs, FIXED_ENDPOINT,
                ResolvedSampleQuery(cfg, hfModel, p.sampleQuery), FIXED_STANDBY, policy))
  }

  // ----- saving an edit

  /** The policy of the saved result, given the saved one and the submitted (normalised) one. */
  function SavedPolicy(saved: Option<PolicyOverlay.Policy>, submitted: Option<PolicyOverlay.Policy>, admin: bool)
    : Result<Option<PolicyOverlay.Policy>>
  {
    match submitted
    case None => Ok(None)
    case Some(p) =>
      if saved.Some? then BuiltPolicy(Some(PolicyOverlay.Overlay(saved.value, p)), true)
      else
        match PolicyOverlay.BuildFull(p, admin)
        case Err => Err
        case Ok(f) => BuiltPolicy(Some(f), admin)
  }

  /** `build_updated_full_spec_from_saved_spec` in basic mode. */
  function Rebuild(cfg: Config, norm: JsonNormalizer, hfModel: string, s: Submission, saved: Spec, maxVRam: int, maxCount: int,
                   admin: bool): Result<Spec> {
    match Validate(cfg, norm, s, maxVRam, maxCount, admin)
    case Err => Err
    case Ok(p) =>
      match Build(cfg, hfModel, p, admin)
      case Err => Err
      case Ok(full) =>
        match SavedPolicy(saved.policy, p.policy, admin)
        case Err => Err
        case Ok(policy) =>
          Ok(Spec(full.image, full.commands, full.cpu, full.mem, full.gpuType, full.count, full.vRam,
                  EnvMerge.Merge(saved.envs, full.envs, RESERVED_ENV_KEYS), saved.endpoint,
                  if p.sampleQuery.Some? then full.sampleQuery else saved.sampleQuery, saved.standby, policy))
  }

  // ----- opening a stored spec

  function ResolvedModel(s: Spec): Result<string> {
    match FindTargets(s.commands)
    case Err => Err
    case Ok(ts) => if |ts| > 1 then Err else if |ts| == 1 then Ok(ts[0]) else Ok(SampleTarget(s.sampleQuery))
  }

  datatype Projection = Projection(hfModel: string, basic: Submission)

  function ProjectedPolicy(policy: Option<PolicyOverlay.Policy>): Result<Option<PolicyOverlay.Policy>> {
    if policy.None? || policy.value == PolicyOverlay.EMPTY then Ok(None) else BuiltPolicy(policy, true)
  }

  /** `project_spec_for_editor`. */
  function Project(cfg: Config, s: Spec): Result<Projection> {
    var image := if s.image == "" && cfg.whitelist != [] then cfg.whitelist[0] else s.image;
    match (ResolvedModel(s), ProjectedPolicy(s.policy))
    case (Ok(model), Ok(policy)) =>
      Ok(Projection(Strip(model), Submission(image, Recovered(image, s.commands), s.count, s.vRam,
                                             WithoutReserved(s.envs), policy, Some(s.sampleQuery))))
    case _ => Err
  }

  // ----- the loops

  method StripReservedEnvs(envs: seq<EnvItem>) returns (filtered: seq<EnvItem>)
    ensures filtered == WithoutReserved(envs)
  {
    filtered := [];
    for i := 0 to |envs|
      invariant filtered + WithoutReserved(envs[i..]) == WithoutReserved(envs)
    {
      assert envs[i..][1..] == envs[i + 1..];
      var pair := envs[i];
      if !pair.Pair? || pair.key in RESERVED_ENV_KEYS {
        continue;
      }
      filtered := filtered + [pair];
    }
  }
}
