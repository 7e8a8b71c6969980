/** The GPU count in synced commands: that it denotes the number of GPUs, and when it is an argument of its own. */
module TensorParallel {
  import opened Common
  import opened PyText
  import opened Commands
  import opened ModelTargets
  import opened CatalogMerge
  import opened ModelLock
  import opened SpecEditor
  import MergeIdempotence

  lemma TpHasNoEquals()
    ensures '=' !in TP
  {
    assert forall i :: 0 <= i < |TP| ==> TP[i] != '=';
  }

  /** After syncing, the tensor-parallel argument reads as the number of GPUs, whatever the list. */
  lemma SyncingCarriesCount(cmds: seq<string>, n: nat)
    ensures Parse(Upsert(cmds, TP, Decimal(n)), TP) == Decimal(n)
    ensures Value(Parse(Upsert(cmds, TP, Decimal(n)), TP)) == n
  {
    TpHasNoEquals();
    UpsertThenParse(cmds, TP, Decimal(n));
    DecimalIsTrimmed(n);
    DecimalDenotes(n);
  }

  lemma SyncedCarriesCount(base: seq<string>, submitted: seq<string>, omni: bool, n: nat, mode: Mode)
    ensures Value(Parse(Synced(base, submitted, omni, n, mode), TP)) == n
  {
    SyncingCarriesCount(Unsynced(base, submitted, omni, mode), n);
  }

  /** The merge as stored and submitted: with syncing, success means that the result carries the count. */
  lemma MergeCarriesCount(norm: JsonNormalizer, base: seq<string>, submitted: seq<string>, image: string, gpuCount: int, mode: Mode)
    ensures var r := Merge(norm, base, submitted, image, gpuCount, mode, true);
            r.Ok? ==> gpuCount > 0 && Value(Parse(r.value, TP)) == gpuCount
  {
    var r := Merge(norm, base, submitted, image, gpuCount, mode, true);
    if r.Ok? {
      SyncedCarriesCount(NormalizeJson(norm, JSON_FLAGS, base).value, NormalizeJson(norm, JSON_FLAGS, submitted).value,
                         IsOmniImage(image), gpuCount, mode);
    }
  }

  /** And so do the commands of the basic editor. */
  lemma GeneratedCarriesCount(hfModel: string, image: string, n: nat, partial: seq<string>)
    ensures Value(Parse(GeneratedSynced(hfModel, image, n, partial), TP)) == n
  {
    SyncingCarriesCount(Generated(hfModel, image, n, partial), n);
  }

  // ----- an argument of its own

  /** The model value is a tensor-parallel token, which the count then belongs to. */
  predicate ModelTakesCount(base: seq<string>) {
    |LockedModel(base)| == 2 && Names(LockedModel(base)[1], TP)
  }

  lemma NoCountIsBlank(a: seq<string>, n: nat)
    requires Free(a, TP)
    ensures Parse(a, TP) != Decimal(n)
  {
    ParseSkips(a, [], TP);
    assert a + [] == a;
    DecimalIsDigits(n);
  }

  lemma StrippedBody(locked: seq<string>, tail: seq<string>, n: nat)
    requires (locked == [] || IsModelArg(locked)) && Free(tail, MODEL)
    ensures Parse(StripArgs(Upsert(locked + tail, TP, Decimal(n)), MODEL, MODEL), TP) == Decimal(n) <==>
            !(|locked| == 2 && Names(locked[1], TP))
  {
    var d := Decimal(n);
    if |locked| == 2 && Names(locked[1], TP) {
      assert locked == [MODEL, locked[1]];
      ValueIsLost(locked[1], tail, n);
    } else {
      var synced := Upsert(tail, TP, d);
      SyncedTailIsFree(tail, n);
      StripArgsKeepsFree(synced, MODEL, MODEL);
      SyncingCarriesCount(tail, n);
      if locked == [] {
        assert locked + tail == tail;
      } else {
        SyncAfterPlainArg(locked, tail, n);
        ModelArgIsRemoved(locked, synced, MODEL);
      }
    }
  }

  lemma ValueIsLost(v: string, tail: seq<string>, n: nat)
    requires Names(v, TP) && Free(tail, MODEL)
    ensures Parse(StripArgs(Upsert([MODEL, v] + tail, TP, Decimal(n)), MODEL, MODEL), TP) != Decimal(n)
  {
    var d := Decimal(n);
    if v == TP {
      var rest := if |tail| >= 1 then tail[1..] else [];
      var kept := StripArgs(rest, TP, TP);
      UpsertBareSecond(tail, d);
      StripArgsIsFree(rest, TP, TP);
      StripKeepsFreedom(rest, TP, MODEL);
      NumeralIsNoFlag(n);
      ModelArgIsRemoved([MODEL, TP], [d] + kept, MODEL);
      StripArgsKeepsFree([d] + kept, MODEL, MODEL);
      NoCountIsBlank([d] + kept, n);
    } else {
      var kept := StripArgs(tail, TP, TP);
      MergeIdempotence.JoinedBody(v, tail, n);
      StripArgsIsFree(tail, TP, TP);
      StripKeepsFreedom(tail, TP, MODEL);
      ModelArgIsRemoved([MODEL, TP + "=" + d], kept, MODEL);
      StripArgsKeepsFree(kept, MODEL, MODEL);
      NoCountIsBlank(kept, n);
    }
  }

  /**
   Besides its model argument, a synced merge carries the count exactly when the base's model
   value is not itself a tensor-parallel token.
   */
  lemma CountIsOwnIff(base: seq<string>, submitted: seq<string>, omni: bool, n: nat, mode: Mode)
    requires AllTargets(base).Ok?
    ensures var others := StripArgs(Synced(base, submitted, omni, n, mode), MODEL, MODEL);
            Parse(others, TP) == Decimal(n) <==> !ModelTakesCount(base)
  {
    var p, l, tail := LockedPrefix(base), LockedModel(base), Tail(base, submitted, omni, mode);
    var body := Upsert(l + tail, TP, Decimal(n));
    PrefixIsDashless(base);
    DashlessIsFree(p);
    LockedIsFirstArg(base);
    TailIsFree(base, submitted, omni, mode);
    SyncedIsPrefixed(base, tail, n);
    StripArgsSkips(p, body, MODEL, MODEL);
    ParseSkips(p, StripArgs(body, MODEL, MODEL), TP);
    StrippedBody(l, tail, n);
  }

  /** A catalog entry for `a/b`, nothing submitted, two GPUs. */
  lemma TwoGpus()
    ensures Synced(["--model", "a/b"], [], false, 2, Basic) == ["--model", "a/b", "--tensor-parallel-size", "2"]
  {
    var base := ["--model", "a/b"];
    assert MODEL[0] == '-' && "a/b"[0] == 'a';
    assert LockedPrefix(base) == [] && LockedModel(base) == base;
    assert StripPrefix([], []) == [] && StripArgs([], MODEL, TP) == [];
    assert Unsynced(base, [], false, Basic) == base;
    ModelOrTp(MODEL);
    NamedLetters("a/b");
    assert Free(base, TP);
    assert base + [] == base;
    UpsertSkips(base, [], TP, Decimal(2));
    assert Decimal(2) == "2";
  }
}
