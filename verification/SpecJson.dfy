/** The JSON form in which the run-time test compares a saved spec with a rebuilt one. */
module SpecJson {
  import opened Common
  import opened EnvMerge
  import opened JsonDiff
  import opened SpecEditor
  import PolicyOverlay
  import CatalogMerge

  // ----- objects with optional members

  /** The object with the named members, each there only when its value is. */
  function Members(names: seq<string>, values: seq<Option<Json>>): Fields
    requires |names| == |values|
  {
    if names == [] then map[]
    else
      var rest := Members(names[1..], values[1..]);
      if values[0].Some? then rest[names[0] := values[0].value] else rest
  }

  lemma {:induction false} MembersAt(names: seq<string>, values: seq<Option<Json>>, i: nat)
    requires |names| == |values| && i < |names| && Distinct(names)
    ensures values[i] == if names[i] in Members(names, values) then Some(Members(names, values)[names[i]]) else None
  {
    if i > 0 {
      assert names[0] != names[i];
      TailIsDistinct(names);
      MembersAt(names[1..], values[1..], i - 1);
    } else {
      MembersAreNamed(names[1..], values[1..]);
      HeadIsNew(names);
    }
  }

  lemma {:induction false} MembersAreNamed(names: seq<string>, values: seq<Option<Json>>)
    requires |names| == |values|
    ensures forall k :: k in Members(names, values) ==> k in names
  {
    if names != [] {
      MembersAreNamed(names[1..], values[1..]);
    }
  }

  lemma TailIsDistinct(names: seq<string>)
    requires names != [] && Distinct(names)
    ensures Distinct(names[1..])
  {
    var tail := names[1..];
    forall i, j | 0 <= i < j < |tail| ensures tail[i] != tail[j] {
      assert names[i + 1] != names[j + 1];
    }
  }

  lemma HeadIsNew(names: seq<string>)
    requires names != [] && Distinct(names)
    ensures names[0] !in names[1..]
  {
    var tail := names[1..];
    forall i | 0 <= i < |tail| ensures tail[i] != names[0] {
      assert names[0] != names[i + 1];
    }
  }

  lemma MembersInjective(names: seq<string>, v: seq<Option<Json>>, w: seq<Option<Json>>)
    requires |names| == |v| == |w| && Distinct(names)
    requires Members(names, v) == Members(names, w)
    ensures v == w
  {
    forall i | 0 <= i < |v| ensures v[i] == w[i] {
      MembersAt(names, v, i);
      MembersAt(names, w, i);
    }
  }

  // ----- rounding

  function RoundedOption(round: Rounding, v: Option<Json>): Option<Json> {
    if v.Some? then Some(Rounded(round, v.value)) else None
  }

  function RoundedAll(round: Rounding, values: seq<Option<Json>>): (r: seq<Option<Json>>)
    ensures |r| == |values| && forall i :: 0 <= i < |values| ==> r[i] == RoundedOption(round, values[i])
  {
    if values == [] then [] else [RoundedOption(round, values[0])] + RoundedAll(round, values[1..])
  }

  /** Rounding an object rounds its members. */
  lemma {:induction false} RoundedMembers(round: Rounding, names: seq<string>, values: seq<Option<Json>>)
    requires |names| == |values|
    ensures Rounded(round, Obj(Members(names, values))) == Obj(Members(names, RoundedAll(round, values)))
  {
    var all := Members(names, values);
    if names == [] {
      assert RoundedFields(round, Obj(all)) == map[];
    } else {
      var rest := Members(names[1..], values[1..]);
      RoundedMembers(round, names[1..], values[1..]);
      assert RoundedAll(round, values)[1..] == RoundedAll(round, values[1..]);
      if values[0].Some? {
        RoundedPut(round, rest, names[0], values[0].value);
      }
    }
  }

  lemma RoundedPut(round: Rounding, m: Fields, k: string, v: Json)
    ensures RoundedFields(round, Obj(m[k := v])) == RoundedFields(round, Obj(m))[k := Rounded(round, v)]
  {
  }

  /** So two objects with the same distinct names agree up to rounding exactly when their members do. */
  lemma MembersRound(round: Rounding, names: seq<string>, v: seq<Option<Json>>, w: seq<Option<Json>>)
    requires |names| == |v| == |w| && Distinct(names)
    ensures Rounded(round, Obj(Members(names, v))) == Rounded(round, Obj(Members(names, w))) <==>
            forall i :: 0 <= i < |v| ==> RoundedOption(round, v[i]) == RoundedOption(round, w[i])
  {
    var a, b := RoundedAll(round, v), RoundedAll(round, w);
    RoundedMembers(round, names, v);
    RoundedMembers(round, names, w);
    if Members(names, a) == Members(names, b) {
      MembersInjective(names, a, b);
    }
    if forall i :: 0 <= i < |v| ==> RoundedOption(round, v[i]) == RoundedOption(round, w[i]) {
      assert a == b;
    }
  }

  // ----- the parts of a spec

  function Texts(ts: seq<string>): (j: Json)
    ensures j.Arr? && |j.items| == |ts| && forall i :: 0 <= i < |ts| ==> j.items[i] == Str(ts[i])
  {
    Arr(seq(|ts|, i requires 0 <= i < |ts| => Str(ts[i])))
  }

  function EnvJson(e: EnvItem): Json {
    match e
    case Pair(k, v) => Arr([Str(k), Str(v)])
    case Malformed => Null
  }

  function EnvsJson(es: seq<EnvItem>): (j: Json)
    ensures j.Arr? && |j.items| == |es| && forall i :: 0 <= i < |es| ==> j.items[i] == EnvJson(es[i])
  {
    Arr(seq(|es|, i requires 0 <= i < |es| => EnvJson(es[i])))
  }

  function IntJson(v: Option<int>): Option<Json> {
    if v.Some? then Some(Num(v.value as real)) else None
  }

  function RealJson(v: Option<real>): Option<Json> {
    if v.Some? then Some(Num(v.value)) else None
  }

  function RatioJson(v: Option<real>): Option<Json> {
    if v.Some? then Some(Obj(map["WaitQueueRatio" := Obj(map["wait_ratio" := Num(v.value)])])) else None
  }

  function RuntimeJson(v: Option<Option<bool>>): Option<Json> {
    if v.None? then None
    else Some(Obj(if v.value.Some? then map["graph_sync" := Bool(v.value.value)] else map[]))
  }

  const POLICY_NAMES := ["nvidia_replica", "min_replica", "max_replica", "standby_per_node", "parallel", "queue_len",
                         "queue_timeout", "scalein_timeout", "scaleout_policy", "runtime_config"]

  function PolicyValues(p: PolicyOverlay.Policy): (v: seq<Option<Json>>)
    ensures |v| == 10
  {
    [IntJson(p.nvidiaReplica), IntJson(p.minReplica), IntJson(p.maxReplica), IntJson(p.standbyPerNode),
     IntJson(p.parallel), IntJson(p.queueLen), RealJson(p.queueTimeout), RealJson(p.scaleinTimeout),
     RatioJson(p.waitRatio), RuntimeJson(p.runtimeConfig)]
  }

  function PolicyJson(p: Option<PolicyOverlay.Policy>): Option<Json> {
    if p.None? then None else Some(Obj(map["Obj" := Obj(Members(POLICY_NAMES, PolicyValues(p.value)))]))
  }

  const GPU_NAMES := ["Type", "Count", "vRam"]

  function GpuJson(s: Spec): Json {
    Obj(Members(GPU_NAMES, [Some(Str(s.gpuType)), Some(Num(s.count as real)), Some(Num(s.vRam as real))]))
  }

  const RESOURCE_NAMES := ["CPU", "Mem", "GPU"]

  function ResourcesJson(s: Spec): Json {
    Obj(Members(RESOURCE_NAMES, [Some(Num(s.cpu as real)), Some(Num(s.mem as real)), Some(GpuJson(s))]))
  }

  const SPEC_NAMES := ["image", "commands", "resources", "envs", "endpoint", "sample_query", "standby", "policy"]

  function SpecValues(s: Spec): (v: seq<Option<Json>>)
    ensures |v| == 8
  {
    [Some(Str(s.image)), Some(Texts(s.commands)), Some(ResourcesJson(s)), Some(EnvsJson(s.envs)), Some(Obj(s.endpoint)),
     Some(Obj(s.sampleQuery)), Some(Obj(s.standby)), PolicyJson(s.policy)]
  }

  function ToJson(s: Spec): Json {
    Obj(Members(SPEC_NAMES, SpecValues(s)))
  }

  // ----- the run-time test

  /** Is a no-op basic save of this spec really a no-op? */
  predicate BasicSupported(round: Rounding, cfg: Config, norm: CatalogMerge.JsonNormalizer, saved: Spec) {
    match Project(cfg, saved)
    case Err => false
    case Ok(p) =>
      match Rebuild(cfg, norm, p.hfModel, p.basic, saved, 0, 0, true)
      case Err => false
      case Ok(rebuilt) => p.hfModel != "" && Diff(round, ToJson(saved), ToJson(rebuilt)) == None
  }

  // ----- what the comparison sees

  function RoundedInt(round: Rounding, v: Option<int>): Option<real> {
    if v.Some? then Some(round(v.value as real)) else None
  }

  function RoundedReal(round: Rounding, v: Option<real>): Option<real> {
    if v.Some? then Some(round(v.value)) else None
  }

  predicate SamePolicy(round: Rounding, a: PolicyOverlay.Policy, b: PolicyOverlay.Policy) {
    && RoundedInt(round, a.nvidiaReplica) == RoundedInt(round, b.nvidiaReplica)
    && RoundedInt(round, a.minReplica) == RoundedInt(round, b.minReplica)
    && RoundedInt(round, a.maxReplica) == RoundedInt(round, b.maxReplica)
    && RoundedInt(round, a.standbyPerNode) == RoundedInt(round, b.standbyPerNode)
    && RoundedInt(round, a.parallel) == RoundedInt(round, b.parallel)
    && RoundedInt(round, a.queueLen) == RoundedInt(round, b.queueLen)
    && RoundedReal(round, a.queueTimeout) == RoundedReal(round, b.queueTimeout)
    && RoundedReal(round, a.scaleinTimeout) == RoundedReal(round, b.scaleinTimeout)
    && RoundedReal(round, a.waitRatio) == RoundedReal(round, b.waitRatio)
    && a.runtimeConfig == b.runtimeConfig
  }

  predicate SameResources(round: Rounding, a: Spec, b: Spec) {
    && a.gpuType == b.gpuType
    && round(a.cpu as real) == round(b.cpu as real) && round(a.mem as real) == round(b.mem as real)
    && round(a.count as real) == round(b.count as real) && round(a.vRam as real) == round(b.vRam as real)
  }

  /** Equal texts, lists and flags, and numbers equal after rounding. */
  predicate Alike(round: Rounding, a: Spec, b: Spec) {
    && a.image == b.image && a.commands == b.commands && a.envs == b.envs
    && SameResources(round, a, b)
    && Rounded(round, Obj(a.endpoint)) == Rounded(round, Obj(b.endpoint))
    && Rounded(round, Obj(a.sampleQuery)) == Rounded(round, Obj(b.sampleQuery))
    && Rounded(round, Obj(a.standby)) == Rounded(round, Obj(b.standby))
    && (a.policy.None? <==> b.policy.None?)
    && (a.policy.Some? && b.policy.Some? ==> SamePolicy(round, a.policy.value, b.policy.value))
  }

  lemma TextsRound(round: Rounding, a: seq<string>, b: seq<string>)
    ensures Rounded(round, Texts(a)) == Rounded(round, Texts(b)) <==> a == b
  {
    var x, y := Rounded(round, Texts(a)).items, Rounded(round, Texts(b)).items;
    forall i | 0 <= i < |a| ensures x[i] == Str(a[i]) {
      assert x[i] == Rounded(round, Str(a[i]));
    }
    forall i | 0 <= i < |b| ensures y[i] == Str(b[i]) {
      assert y[i] == Rounded(round, Str(b[i]));
    }
    if x == y {
      forall i | 0 <= i < |a| ensures a[i] == b[i] {
        assert x[i] == y[i];
      }
    }
  }

  lemma EnvRound(round: Rounding, e: EnvItem)
    ensures Rounded(round, EnvJson(e)) == EnvJson(e)
  {
    if e.Pair? {
      var items := Rounded(round, EnvJson(e)).items;
      assert items[0] == Rounded(round, Str(e.key)) && items[1] == Rounded(round, Str(e.value));
      assert items == [Str(e.key), Str(e.value)];
    }
  }

  lemma EnvInjective(a: EnvItem, b: EnvItem)
    requires EnvJson(a) == EnvJson(b)
    ensures a == b
  {
    if a.Pair? && b.Pair? {
      assert EnvJson(a).items[0] == EnvJson(b).items[0] && EnvJson(a).items[1] == EnvJson(b).items[1];
    }
  }

  lemma EnvsRound(round: Rounding, a: seq<EnvItem>, b: seq<EnvItem>)
    ensures Rounded(round, EnvsJson(a)) == Rounded(round, EnvsJson(b)) <==> a == b
  {
    var x, y := Rounded(round, EnvsJson(a)).items, Rounded(round, EnvsJson(b)).items;
    forall i | 0 <= i < |a| ensures x[i] == EnvJson(a[i]) {
      EnvRound(round, a[i]);
    }
    forall i | 0 <= i < |b| ensures y[i] == EnvJson(b[i]) {
      EnvRound(round, b[i]);
    }
    if x == y {
      forall i | 0 <= i < |a| ensures a[i] == b[i] {
        assert x[i] == y[i];
        EnvInjective(a[i], b[i]);
      }
    }
  }

  lemma PolicyNamesDistinct()
    ensures Distinct(POLICY_NAMES)
  {
    var n := POLICY_NAMES;
    assert |n[0]| == |n[9]| == 14 && |n[1]| == |n[2]| == 11 && |n[3]| == 16 && |n[4]| == 8 && |n[5]| == 9 && |n[6]| == 13
           && |n[7]| == |n[8]| == 15;
    assert n[0][0] != n[9][0] && n[1][1] != n[2][1] && n[7][5] != n[8][5];
  }

  lemma SpecNamesDistinct()
    ensures Distinct(SPEC_NAMES) && Distinct(RESOURCE_NAMES) && Distinct(GPU_NAMES)
  {
    var n := SPEC_NAMES;
    assert |n[0]| == 5 && |n[1]| == |n[4]| == 8 && |n[2]| == 9 && |n[3]| == 4 && |n[5]| == 12 && |n[6]| == 7 && |n[7]| == 6;
    assert n[1][0] != n[4][0];
    var r, g := RESOURCE_NAMES, GPU_NAMES;
    assert r[0][0] == 'C' && r[1][0] == 'M' && r[2][0] == 'G';
    assert g[0][0] == 'T' && g[1][0] == 'C' && g[2][0] == 'v';
  }

  lemma OneMember(round: Rounding, k: string, a: Json, b: Json)
    ensures Rounded(round, Obj(map[k := a])) == Rounded(round, Obj(map[k := b])) <==> Rounded(round, a) == Rounded(round, b)
  {
    var x, y := RoundedFields(round, Obj(map[k := a])), RoundedFields(round, Obj(map[k := b]));
    assert x == map[k := Rounded(round, a)] && y == map[k := Rounded(round, b)];
    if x == y {
      assert x[k] == y[k];
    }
  }

  lemma IntRound(round: Rounding, a: Option<int>, b: Option<int>)
    ensures RoundedOption(round, IntJson(a)) == RoundedOption(round, IntJson(b)) <==> RoundedInt(round, a) == RoundedInt(round, b)
  {
  }

  lemma RealRound(round: Rounding, a: Option<real>, b: Option<real>)
    ensures RoundedOption(round, RealJson(a)) == RoundedOption(round, RealJson(b)) <==> RoundedReal(round, a) == RoundedReal(round, b)
  {
  }

  lemma RatioRound(round: Rounding, a: Option<real>, b: Option<real>)
    ensures RoundedOption(round, RatioJson(a)) == RoundedOption(round, RatioJson(b)) <==> RoundedReal(round, a) == RoundedReal(round, b)
  {
    if a.Some? && b.Some? {
      var x, y := Num(a.value), Num(b.value);
      OneMember(round, "wait_ratio", x, y);
      OneMember(round, "WaitQueueRatio", Obj(map["wait_ratio" := x]), Obj(map["wait_ratio" := y]));
    }
  }

  lemma RuntimeRound(round: Rounding, a: Option<Option<bool>>, b: Option<Option<bool>>)
    ensures RoundedOption(round, RuntimeJson(a)) == RoundedOption(round, RuntimeJson(b)) <==> a == b
  {
    if a.Some? && b.Some? {
      var x, y := RoundedFields(round, RuntimeJson(a).value), RoundedFields(round, RuntimeJson(b).value);
      assert a.value.Some? <==> "graph_sync" in x;
      assert b.value.Some? <==> "graph_sync" in y;
      if a.value.Some? && b.value.Some? {
        assert x["graph_sync"] == Rounded(round, Bool(a.value.value)) && y["graph_sync"] == Rounded(round, Bool(b.value.value));
      }
    }
  }

  lemma PolicyValuesRound(round: Rounding, a: PolicyOverlay.Policy, b: PolicyOverlay.Policy)
    ensures (forall i :: 0 <= i < |PolicyValues(a)| ==> RoundedOption(round, PolicyValues(a)[i]) == RoundedOption(round, PolicyValues(b)[i]))
            <==> SamePolicy(round, a, b)
  {
    IntRound(round, a.nvidiaReplica, b.nvidiaReplica);
    IntRound(round, a.minReplica, b.minReplica);
    IntRound(round, a.maxReplica, b.maxReplica);
    IntRound(round, a.standbyPerNode, b.standbyPerNode);
    IntRound(round, a.parallel, b.parallel);
    IntRound(round, a.queueLen, b.queueLen);
    RealRound(round, a.queueTimeout, b.queueTimeout);
    RealRound(round, a.scaleinTimeout, b.scaleinTimeout);
    RatioRound(round, a.waitRatio, b.waitRatio);
    RuntimeRound(round, a.runtimeConfig, b.runtimeConfig);
    TenMembers(round, PolicyValues(a), PolicyValues(b));
  }

  lemma TenMembers(round: Rounding, v: seq<Option<Json>>, w: seq<Option<Json>>)
    requires |v| == |w| == 10
    ensures (forall i :: 0 <= i < |v| ==> RoundedOption(round, v[i]) == RoundedOption(round, w[i])) <==>
            && RoundedOption(round, v[0]) == RoundedOption(round, w[0]) && RoundedOption(round, v[1]) == RoundedOption(round, w[1])
            && RoundedOption(round, v[2]) == RoundedOption(round, w[2]) && RoundedOption(round, v[3]) == RoundedOption(round, w[3])
            && RoundedOption(round, v[4]) == RoundedOption(round, w[4]) && RoundedOption(round, v[5]) == RoundedOption(round, w[5])
            && RoundedOption(round, v[6]) == RoundedOption(round, w[6]) && RoundedOption(round, v[7]) == RoundedOption(round, w[7])
            && RoundedOption(round, v[8]) == RoundedOption(round, w[8]) && RoundedOption(round, v[9]) == RoundedOption(round, w[9])
  {
  }

  lemma PolicyRound(round: Rounding, a: Option<PolicyOverlay.Policy>, b: Option<PolicyOverlay.Policy>)
    ensures RoundedOption(round, PolicyJson(a)) == RoundedOption(round, PolicyJson(b)) <==>
            (a.None? <==> b.None?) && (a.Some? && b.Some? ==> SamePolicy(round, a.value, b.value))
  {
    if a.Some? && b.Some? {
      var v, w := PolicyValues(a.value), PolicyValues(b.value);
      PolicyNamesDistinct();
      OneMember(round, "Obj", Obj(Members(POLICY_NAMES, v)), Obj(Members(POLICY_NAMES, w)));
      MembersRound(round, POLICY_NAMES, v, w);
      PolicyValuesRound(round, a.value, b.value);
    }
  }

  lemma GpuRound(round: Rounding, a: Spec, b: Spec)
    ensures Rounded(round, GpuJson(a)) == Rounded(round, GpuJson(b)) <==>
            a.gpuType == b.gpuType && round(a.count as real) == round(b.count as real) && round(a.vRam as real) == round(b.vRam as real)
  {
    SpecNamesDistinct();
    var v := [Some(Str(a.gpuType)), Some(Num(a.count as real)), Some(Num(a.vRam as real))];
    var w := [Some(Str(b.gpuType)), Some(Num(b.count as real)), Some(Num(b.vRam as real))];
    MembersRound(round, GPU_NAMES, v, w);
    ThreeMembers(round, v, w);
  }

  lemma ThreeMembers(round: Rounding, v: seq<Option<Json>>, w: seq<Option<Json>>)
    requires |v| == |w| == 3
    ensures (forall i :: 0 <= i < |v| ==> RoundedOption(round, v[i]) == RoundedOption(round, w[i])) <==>
            && RoundedOption(round, v[0]) == RoundedOption(round, w[0])
            && RoundedOption(round, v[1]) == RoundedOption(round, w[1])
            && RoundedOption(round, v[2]) == RoundedOption(round, w[2])
  {
  }

  lemma ResourcesRound(round: Rounding, a: Spec, b: Spec)
    ensures Rounded(round, ResourcesJson(a)) == Rounded(round, ResourcesJson(b)) <==> SameResources(round, a, b)
  {
    SpecNamesDistinct();
    GpuRound(round, a, b);
    var v := [Some(Num(a.cpu as real)), Some(Num(a.mem as real)), Some(GpuJson(a))];
    var w := [Some(Num(b.cpu as real)), Some(Num(b.mem as real)), Some(GpuJson(b))];
    MembersRound(round, RESOURCE_NAMES, v, w);
    ThreeMembers(round, v, w);
  }

  lemma EightMembers(round: Rounding, v: seq<Option<Json>>, w: seq<Option<Json>>)
    requires |v| == |w| == 8
    ensures (forall i :: 0 <= i < |v| ==> RoundedOption(round, v[i]) == RoundedOption(round, w[i])) <==>
            && RoundedOption(round, v[0]) == RoundedOption(round, w[0]) && RoundedOption(round, v[1]) == RoundedOption(round, w[1])
            && RoundedOption(round, v[2]) == RoundedOption(round, w[2]) && RoundedOption(round, v[3]) == RoundedOption(round, w[3])
            && RoundedOption(round, v[4]) == RoundedOption(round, w[4]) && RoundedOption(round, v[5]) == RoundedOption(round, w[5])
            && RoundedOption(round, v[6]) == RoundedOption(round, w[6]) && RoundedOption(round, v[7]) == RoundedOption(round, w[7])
  {
  }

  /** The difference search is silent exactly when the two specs are alike in every field. */
  lemma NoDifferenceIff(round: Rounding, a: Spec, b: Spec)
    ensures Diff(round, ToJson(a), ToJson(b)) == None <==> Alike(round, a, b)
  {
    var v, w := SpecValues(a), SpecValues(b);
    DiffIsExact(round, ToJson(a), ToJson(b));
    SpecNamesDistinct();
    MembersRound(round, SPEC_NAMES, v, w);
    EightMembers(round, v, w);
    TextsRound(round, a.commands, b.commands);
    EnvsRound(round, a.envs, b.envs);
    ResourcesRound(round, a, b);
    PolicyRound(round, a.policy, b.policy);
  }
}
