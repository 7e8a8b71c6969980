/** The model lock over a history of edits: what one merge stores is the base of the next. */
module LockHistory {
  import opened Common
  import opened PyText
  import opened Commands
  import opened ModelTargets
  import opened CatalogMerge
  import opened ModelLock

  datatype Edit = Edit(submitted: seq<string>, image: string, gpuCount: int, mode: Mode)

  /** Each edit merged into the result of the previous one. */
  function MergeAll(norm: JsonNormalizer, base: seq<string>, edits: seq<Edit>): Result<seq<string>>
    decreases edits
  {
    if edits == [] then Ok(base)
    else match Merge(norm, base, edits[0].submitted, edits[0].image, edits[0].gpuCount, edits[0].mode, true)
      case Err => Err
      case Ok(next) => MergeAll(norm, next, edits[1..])
  }

  /** The base names its model by a model argument or by `vllm serve`, and not by a token that syncing rewrites. */
  predicate Named(base: seq<string>) {
    (LockedModel(base) != [] || StartsServe(base)) && !Overwritten(LockedModel(base))
  }

  // ----- a named base stays named

  lemma {:induction false} LockedModelSkips(a: seq<string>, b: seq<string>)
    requires Free(a, MODEL)
    ensures LockedModel(a + b) == LockedModel(b)
  {
    if a == [] {
      assert a + b == b;
    } else {
      assert !Names(a[0], MODEL);
      assert (a + b)[1..] == a[1..] + b;
      LockedModelSkips(a[1..], b);
    }
  }

  lemma LockedModelFirst(locked: seq<string>, rest: seq<string>)
    requires IsModelArg(locked)
    ensures LockedModel(locked + rest) == locked
  {
    var all := locked + rest;
    assert all[..|locked|] == locked && all[0] == locked[0];
    if |locked| == 1 {
      assert |MODEL + "="| > |MODEL|;
      assert locked == [locked[0]];
    }
  }

  lemma FreeHasNoLocked(a: seq<string>)
    requires Free(a, MODEL)
    ensures LockedModel(a) == []
  {
    assert a + [] == a;
    LockedModelSkips(a, []);
  }

  /** Syncing keeps the locked argument where it is, unless its value is a joined tensor-parallel token. */
  lemma SyncedLockedModel(locked: seq<string>, tail: seq<string>, n: nat)
    requires (locked == [] || IsModelArg(locked)) && !Overwritten(locked) && Free(tail, MODEL)
    ensures LockedModel(Upsert(locked + tail, TP, Decimal(n))) == locked
  {
    var d := Decimal(n);
    if locked == [] {
      assert locked + tail == tail;
      SyncedTailIsFree(tail, n);
      FreeHasNoLocked(Upsert(tail, TP, d));
    } else if |locked| == 2 && locked[1] == TP {
      assert locked == [MODEL, TP];
      UpsertBareSecond(tail, d);
      LockedModelFirst(locked, [d] + StripArgs(if |tail| >= 1 then tail[1..] else [], TP, TP));
    } else {
      SyncAfterPlainArg(locked, tail, n);
      LockedModelFirst(locked, Upsert(tail, TP, d));
    }
  }

  lemma StaysNamed(base: seq<string>, submitted: seq<string>, omni: bool, n: nat, mode: Mode)
    requires AllTargets(base).Ok? && Named(base)
    ensures Named(Synced(base, submitted, omni, n, mode))
    ensures LockedModel(Synced(base, submitted, omni, n, mode)) == LockedModel(base)
  {
    var p, l, tail := LockedPrefix(base), LockedModel(base), Tail(base, submitted, omni, mode);
    var rest := Upsert(l + tail, TP, Decimal(n));
    PrefixIsDashless(base);
    DashlessIsFree(p);
    LockedIsFirstArg(base);
    TailIsFree(base, submitted, omni, mode);
    SyncedIsPrefixed(base, tail, n);
    LockedModelSkips(p, rest);
    SyncedLockedModel(l, tail, n);
    if StartsServe(base) {
      assert (p + rest)[0] == base[0] && (p + rest)[1] == base[1];
    }
  }

  // ----- the target over every history

  /** On already normalised lists. */
  function SyncedAll(base: seq<string>, edits: seq<Edit>): seq<string>
    requires forall i :: 0 <= i < |edits| ==> edits[i].gpuCount > 0
    decreases edits
  {
    if edits == [] then base
    else SyncedAll(Synced(base, edits[0].submitted, IsOmniImage(edits[0].image), edits[0].gpuCount, edits[0].mode), edits[1..])
  }

  lemma NamedKeepsTarget(base: seq<string>, submitted: seq<string>, omni: bool, n: nat, mode: Mode, x: string)
    requires FindTargets(base) == Ok([x]) && Named(base)
    ensures FindTargets(Synced(base, submitted, omni, n, mode)) == Ok([x])
    ensures Named(Synced(base, submitted, omni, n, mode))
  {
    SyncedTargetIff(base, submitted, omni, n, mode, x);
    StaysNamed(base, submitted, omni, n, mode);
  }

  /** A named model survives every history of edits, whatever each of them submits. */
  lemma {:induction false} EveryHistoryKeepsTarget(base: seq<string>, edits: seq<Edit>, x: string)
    requires FindTargets(base) == Ok([x]) && Named(base)
    requires forall i :: 0 <= i < |edits| ==> edits[i].gpuCount > 0
    ensures FindTargets(SyncedAll(base, edits)) == Ok([x]) && Named(SyncedAll(base, edits))
    decreases edits
  {
    if edits != [] {
      var e := edits[0];
      NamedKeepsTarget(base, e.submitted, IsOmniImage(e.image), e.gpuCount, e.mode, x);
      EveryHistoryKeepsTarget(Synced(base, e.submitted, IsOmniImage(e.image), e.gpuCount, e.mode), edits[1..], x);
    }
  }

  ghost predicate PlainEdits(edits: seq<Edit>) {
    forall i :: 0 <= i < |edits| ==> edits[i].gpuCount > 0 && NoJson(JSON_FLAGS, edits[i].submitted)
  }

  lemma PlainMerge(norm: JsonNormalizer, base: seq<string>, e: Edit)
    requires NoJson(JSON_FLAGS, base) && NoJson(JSON_FLAGS, e.submitted) && e.gpuCount > 0
    ensures var next := Synced(base, e.submitted, IsOmniImage(e.image), e.gpuCount, e.mode);
            Merge(norm, base, e.submitted, e.image, e.gpuCount, e.mode, true) == Ok(next) && NoJson(JSON_FLAGS, next)
  {
    NoJsonIsUnchanged(norm, JSON_FLAGS, base);
    NoJsonIsUnchanged(norm, JSON_FLAGS, e.submitted);
    PlainIsNoJson(base);
    PlainIsNoJson(e.submitted);
    SyncedIsPlain(base, e.submitted, IsOmniImage(e.image), e.gpuCount, e.mode);
    PlainIsNoJson(Synced(base, e.submitted, IsOmniImage(e.image), e.gpuCount, e.mode));
  }

  lemma {:induction false} PlainHistory(norm: JsonNormalizer, base: seq<string>, edits: seq<Edit>)
    requires NoJson(JSON_FLAGS, base) && PlainEdits(edits)
    ensures MergeAll(norm, base, edits) == Ok(SyncedAll(base, edits))
    decreases edits
  {
    if edits != [] {
      PlainMerge(norm, base, edits[0]);
      PlainHistory(norm, Synced(base, edits[0].submitted, IsOmniImage(edits[0].image), edits[0].gpuCount, edits[0].mode), edits[1..]);
    }
  }

  /** The same from the lists as stored and submitted, without JSON-valued flags. */
  lemma EveryMergeHistoryKeepsTarget(norm: JsonNormalizer, base: seq<string>, edits: seq<Edit>, x: string)
    requires FindTargets(base) == Ok([x]) && Named(base) && NoJson(JSON_FLAGS, base) && PlainEdits(edits)
    ensures MergeAll(norm, base, edits).Ok? && FindTargets(MergeAll(norm, base, edits).value) == Ok([x])
  {
    PlainHistory(norm, base, edits);
    EveryHistoryKeepsTarget(base, edits, x);
  }
}
