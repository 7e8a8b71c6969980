/** Exactly when feeding merged and synced commands back as the submission changes nothing. */
module MergeIdempotence {
  import opened Common
  import opened PyText
  import opened Commands
  import opened ModelTargets
  import opened CatalogMerge
  import opened ModelLock

  /**
   For an omni image, a model value that the merge takes for one of its own tokens: an omni flag,
   or the bare tensor-parallel flag, which takes the first of the kept omni flags as its value.
   */
  predicate Confused(base: seq<string>, omni: bool) {
    && omni && |LockedModel(base)| == 2
    && (IsOmniToken(LockedModel(base)[1]) || (LockedModel(base)[1] == TP && OmniTokens(base) != []))
  }

  // ----- the part of a merged list behind the locked prefix

  function Body(base: seq<string>, edited: seq<string>, omni: bool, n: nat): seq<string> {
    Upsert(LockedModel(base) + (Kept(base, omni) + edited), TP, Decimal(n))
  }

  function Other(mode: Mode): string {
    if mode == Basic then TP else MODEL
  }

  /** What is editable when a list with that part is submitted again. */
  function Reread(body: seq<string>, omni: bool, mode: Mode): seq<string> {
    StripArgs(if omni then StripOmni(body) else body, MODEL, Other(mode))
  }

  lemma SyncedIsBody(base: seq<string>, submitted: seq<string>, omni: bool, n: nat, mode: Mode)
    requires Served(base).Ok?
    ensures Synced(base, submitted, omni, n, mode) == LockedPrefix(base) + Body(base, Editable(base, submitted, omni, mode), omni, n)
  {
    var p, l, rest := LockedPrefix(base), LockedModel(base), Kept(base, omni) + Editable(base, submitted, omni, mode);
    PrefixIsDashless(base);
    DashlessIsFree(p);
    ConcatAssociates(p, l, rest);
    UpsertSkips(p, l + rest, TP, Decimal(n));
  }

  lemma EditableOfPrefixed(base: seq<string>, body: seq<string>, omni: bool, mode: Mode)
    ensures Editable(base, LockedPrefix(base) + body, omni, mode) == Reread(body, omni, mode)
  {
    assert (LockedPrefix(base) + body)[|LockedPrefix(base)|..] == body;
  }

  /** Merging again changes nothing exactly when the part behind the prefix is reproduced from what is reread. */
  lemma TwiceIffBody(base: seq<string>, submitted: seq<string>, omni: bool, n: nat, mode: Mode)
    requires Served(base).Ok?
    ensures var once := Synced(base, submitted, omni, n, mode);
            var body := Body(base, Editable(base, submitted, omni, mode), omni, n);
            Synced(base, once, omni, n, mode) == once <==> Body(base, Reread(body, omni, mode), omni, n) == body
  {
    var once, p := Synced(base, submitted, omni, n, mode), LockedPrefix(base);
    var body := Body(base, Editable(base, submitted, omni, mode), omni, n);
    SyncedIsBody(base, submitted, omni, n, mode);
    EditableOfPrefixed(base, body, omni, mode);
    SyncedIsBody(base, once, omni, n, mode);
    CancelPrefix(p, Body(base, Reread(body, omni, mode), omni, n), body);
  }

  // ----- edited arguments

  /** What every edited part is: free of the model flag, in basic mode of the tensor-parallel flag, for omni images of omni flags. */
  ghost predicate Editing(e: seq<string>, omni: bool, mode: Mode) {
    Free(e, MODEL) && (mode == Basic ==> Free(e, TP)) && (omni ==> OmniFree(e))
  }

  lemma EditableIsEditing(base: seq<string>, submitted: seq<string>, omni: bool, mode: Mode)
    ensures Editing(Editable(base, submitted, omni, mode), omni, mode)
  {
    EditableIsFree(base, submitted, omni, mode);
    if omni {
      EditableIsOmniFree(base, submitted, mode);
    }
  }

  /** Arguments that contain nothing locked pass through a merge as they are, with or without the locked prefix in front. */
  lemma CustomersArgumentsPass(base: seq<string>, e: seq<string>, omni: bool, mode: Mode)
    requires Editing(e, omni, mode)
    ensures Editable(base, LockedPrefix(base) + e, omni, mode) == e
    ensures !(LockedPrefix(base) <= e) ==> Editable(base, e, omni, mode) == e
  {
    assert (LockedPrefix(base) + e)[|LockedPrefix(base)|..] == e;
    if omni {
      OmniFreeIsUnchanged(e);
    }
    StripArgsKeepsFree(e, MODEL, Other(mode));
  }

  lemma WithoutTp(e: seq<string>, omni: bool, mode: Mode)
    requires Editing(e, omni, mode)
    ensures var f := StripArgs(e, TP, TP);
            Free(f, MODEL) && Free(f, TP) && (omni ==> OmniFree(f)) && StripArgs(f, MODEL, Other(mode)) == f
  {
    var f := StripArgs(e, TP, TP);
    StripArgsIsFree(e, TP, TP);
    StripKeepsFreedom(e, TP, MODEL);
    if omni {
      OmniFreeFromMembers(f, e);
    }
    StripArgsKeepsFree(f, MODEL, Other(mode));
  }

  // ----- the model value is a joined tensor-parallel token: it is rewritten, and nothing else changes

  lemma JoinedBody(v: string, rest: seq<string>, n: nat)
    requires Joined(v, TP)
    ensures Upsert([MODEL, v] + rest, TP, Decimal(n)) == [MODEL, TP + "=" + Decimal(n)] + StripArgs(rest, TP, TP)
  {
    var w, kept := TP + "=" + Decimal(n), StripArgs(rest, TP, TP);
    ModelOrTp(MODEL);
    assert [MODEL, v] + rest == [MODEL] + ([v] + rest);
    UpsertSkips([MODEL], [v] + rest, TP, Decimal(n));
    assert ([v] + rest)[1..] == rest;
    assert |TP + "="| > |TP|;
    assert [MODEL] + ([w] + kept) == [MODEL, w] + kept;
  }

  lemma JoinedTwice(base: seq<string>, e: seq<string>, omni: bool, n: nat, mode: Mode)
    requires |LockedModel(base)| == 2 && LockedModel(base)[0] == MODEL && Joined(LockedModel(base)[1], TP)
    requires Editing(e, omni, mode)
    ensures Body(base, Reread(Body(base, e, omni, n), omni, mode), omni, n) == Body(base, e, omni, n)
  {
    var v, k, w, f := LockedModel(base)[1], Kept(base, omni), TP + "=" + Decimal(n), StripArgs(e, TP, TP);
    assert LockedModel(base) == [MODEL, v];
    KeptIsFree(base, omni);
    JoinedBody(v, k + e, n);
    StripArgsSkips(k, e, TP, TP);
    WithoutTp(e, omni, mode);
    RereadBehindModel(base, w, f, omni, n, mode);
    JoinedBody(v, k + f, n);
    StripArgsSkips(k, f, TP, TP);
    StripArgsKeepsFree(f, TP, TP);
  }

  /** Rereading a model argument, the kept omni flags and settled arguments gives the arguments. */
  lemma RereadBehindModel(base: seq<string>, w: string, f: seq<string>, omni: bool, n: nat, mode: Mode)
    requires !IsOmniToken(w) || !omni
    requires (omni ==> OmniFree(f)) && StripArgs(f, MODEL, Other(mode)) == f
    ensures Reread([MODEL, w] + (Kept(base, omni) + f), omni, mode) == f
  {
    var k := Kept(base, omni);
    if omni {
      OmniTokensAreOmni(base);
      ModelIsNotOmni();
      StripOmniSkips([MODEL, w], k + f);
      StripOmniDrops(k, f);
      OmniFreeIsUnchanged(f);
    } else {
      assert k + f == f;
    }
    ModelArgIsRemoved([MODEL, w], f, Other(mode));
  }

  lemma ModelIsNotOmni()
    ensures !IsOmniToken(MODEL)
  {
    if IsOmniToken(MODEL) {
      OmniIsNeither(MODEL);
    }
  }

  // ----- the model value is the bare tensor-parallel flag

  lemma BareTwiceIff(base: seq<string>, e: seq<string>, omni: bool, n: nat, mode: Mode)
    requires LockedModel(base) == [MODEL, TP] && Editing(e, omni, mode)
    ensures Body(base, Reread(Body(base, e, omni, n), omni, mode), omni, n) == Body(base, e, omni, n) <==> Kept(base, omni) == []
  {
    var k, d := Kept(base, omni), Decimal(n);
    UpsertBareSecond(k + e, d);
    if k == [] {
      assert k + e == e;
      BareAlone(base, e, omni, n, mode);
    } else {
      BareBeforeKept(base, e, omni, n, mode);
    }
  }

  lemma BareAlone(base: seq<string>, e: seq<string>, omni: bool, n: nat, mode: Mode)
    requires LockedModel(base) == [MODEL, TP] && Kept(base, omni) == [] && Editing(e, omni, mode)
    ensures Body(base, Reread(Body(base, e, omni, n), omni, mode), omni, n) == Body(base, e, omni, n)
  {
    var d, tail := Decimal(n), if |e| >= 1 then e[1..] else [];
    var f := StripArgs(tail, TP, TP);
    assert [] + e == e;
    UpsertBareSecond(e, d);
    WithoutTp(tail, omni, mode);
    NumeralIsNoFlag(n);
    TpIsNotOmni("");
    RereadCount(base, f, omni, n, mode);
    assert [] + ([d] + f) == [d] + f && ([d] + f)[1..] == f;
    UpsertBareSecond([d] + f, d);
    StripArgsKeepsFree(f, TP, TP);
  }

  /** Rereading the count behind the bare flag keeps it, as an argument of its own. */
  lemma RereadCount(base: seq<string>, f: seq<string>, omni: bool, n: nat, mode: Mode)
    requires Free(f, MODEL) && (omni ==> OmniFree(f)) && StripArgs(f, MODEL, Other(mode)) == f
    ensures Reread([MODEL, TP] + ([Decimal(n)] + f), omni, mode) == [Decimal(n)] + f
  {
    var d := Decimal(n);
    NumeralIsNoFlag(n);
    TpIsNotOmni("");
    ModelIsNotOmni();
    if omni {
      StripOmniSkips([MODEL, TP], [d] + f);
      StripOmniSkips([d], f);
      OmniFreeIsUnchanged(f);
    }
    ModelArgIsRemoved([MODEL, TP], [d] + f, Other(mode));
    StripArgsSkips([d], f, MODEL, Other(mode));
  }

  lemma BareBeforeKept(base: seq<string>, e: seq<string>, omni: bool, n: nat, mode: Mode)
    requires LockedModel(base) == [MODEL, TP] && Kept(base, omni) != [] && Editing(e, omni, mode)
    ensures Body(base, Reread(Body(base, e, omni, n), omni, mode), omni, n) != Body(base, e, omni, n)
  {
    var k, d, f := Kept(base, omni), Decimal(n), StripArgs(e, TP, TP);
    WithoutTp(e, omni, mode);
    BodyBeforeKept(base, e, omni, n);
    RereadPastKept(base, f, omni, n, mode);
    BodyBeforeKept(base, [d] + f, omni, n);
    NumeralIsNoFlag(n);
    StripArgsSkips([d], f, TP, TP);
    StripArgsKeepsFree(f, TP, TP);
    assert |k[1..] + ([d] + f)| == |k[1..] + f| + 1;
  }

  lemma BodyBeforeKept(base: seq<string>, e: seq<string>, omni: bool, n: nat)
    requires LockedModel(base) == [MODEL, TP] && Kept(base, omni) != []
    ensures Body(base, e, omni, n) == [MODEL, TP] + ([Decimal(n)] + (Kept(base, omni)[1..] + StripArgs(e, TP, TP)))
  {
    var k := Kept(base, omni);
    UpsertBareSecond(k + e, Decimal(n));
    assert (k + e)[1..] == k[1..] + e;
    KeptIsFree(base, omni);
    assert Free(k[1..], TP) by {
      forall i | 0 <= i < |k[1..]| ensures !Names(k[1..][i], TP) { assert k[1..][i] == k[i + 1]; }
    }
    StripArgsSkips(k[1..], e, TP, TP);
  }

  lemma RereadPastKept(base: seq<string>, f: seq<string>, omni: bool, n: nat, mode: Mode)
    requires Kept(base, omni) != [] && Free(f, MODEL) && OmniFree(f) && StripArgs(f, MODEL, Other(mode)) == f
    ensures Reread([MODEL, TP] + ([Decimal(n)] + (Kept(base, omni)[1..] + f)), omni, mode) == [Decimal(n)] + f
  {
    var k, d := Kept(base, omni), Decimal(n);
    NumeralIsNoFlag(n);
    TpIsNotOmni("");
    ModelIsNotOmni();
    OmniTokensAreOmni(base);
    assert forall i :: 0 <= i < |k[1..]| ==> k[1..][i] == k[i + 1];
    StripOmniSkips([MODEL, TP], [d] + (k[1..] + f));
    StripOmniSkips([d], k[1..] + f);
    StripOmniDrops(k[1..], f);
    OmniFreeIsUnchanged(f);
    ModelArgIsRemoved([MODEL, TP], [d] + f, Other(mode));
    StripArgsSkips([d], f, MODEL, Other(mode));
  }

  // ----- the model value is an omni flag

  lemma PlainBody(base: seq<string>, e: seq<string>, omni: bool, n: nat)
    requires Free(LockedModel(base), TP)
    ensures Body(base, e, omni, n) == LockedModel(base) + (Kept(base, omni) + Upsert(e, TP, Decimal(n)))
  {
    var l, k := LockedModel(base), Kept(base, omni);
    KeptIsFree(base, omni);
    UpsertSkips(l, k + e, TP, Decimal(n));
    UpsertSkips(k, e, TP, Decimal(n));
  }

  lemma OmniValueIsFree(v: string)
    requires IsOmniToken(v)
    ensures Free([MODEL, v], TP)
  {
    OmniIsNeither(v);
    ModelOrTp(MODEL);
  }

  /** Rereading synced arguments gives them back, in basic mode without the synced argument. */
  lemma SyncedReread(e: seq<string>, omni: bool, n: nat, mode: Mode)
    requires Editing(e, omni, mode)
    ensures StripArgs(Upsert(e, TP, Decimal(n)), MODEL, Other(mode)) == if mode == Basic then e else Upsert(e, TP, Decimal(n))
  {
    if mode == Basic {
      AppendedTpIsRemoved(e, Decimal(n));
    } else {
      SyncedTailIsFree(e, n);
      StripArgsKeepsFree(Upsert(e, TP, Decimal(n)), MODEL, MODEL);
    }
  }

  lemma OmniValueWithoutOmni(base: seq<string>, e: seq<string>, n: nat, mode: Mode)
    requires |LockedModel(base)| == 2 && LockedModel(base)[0] == MODEL && IsOmniToken(LockedModel(base)[1])
    requires Editing(e, false, mode)
    ensures Body(base, Reread(Body(base, e, false, n), false, mode), false, n) == Body(base, e, false, n)
  {
    var v, d := LockedModel(base)[1], Decimal(n);
    assert LockedModel(base) == [MODEL, v];
    OmniValueIsFree(v);
    PlainBody(base, e, false, n);
    assert [] + Upsert(e, TP, d) == Upsert(e, TP, d);
    ModelArgIsRemoved([MODEL, v], Upsert(e, TP, d), Other(mode));
    SyncedReread(e, false, n, mode);
    PlainBody(base, Reread(Body(base, e, false, n), false, mode), false, n);
    UpsertTwice(e, TP, d, d);
  }

  /** Syncing all but the first token of a synced list never gives the list. */
  lemma ShorterDiffers(synced: seq<string>, d: string)
    requires synced != [] && Upsert(synced, TP, d) == synced && !Names(d, TP)
    ensures |Upsert(synced[1..], TP, d)| != |synced|
  {
    var first, rest := synced[0], synced[1..];
    if Names(first, TP) {
      assert |TP + "="| > |TP|;
      SyncedRestIsFree(synced, d);
      assert rest + [] == rest;
      UpsertSkips(rest, [], TP, d);
    } else {
      assert synced == [first] + Upsert(rest, TP, d);
    }
  }

  lemma SyncedRestIsFree(synced: seq<string>, d: string)
    requires synced != [] && Names(synced[0], TP) && Upsert(synced, TP, d) == synced && !Names(d, TP)
    ensures Free(synced[1..], TP)
  {
    if synced[0] == TP {
      var more := if |synced| >= 2 then synced[2..] else [];
      StripArgsIsFree(more, TP, TP);
      var kept := StripArgs(more, TP, TP);
      assert synced[1..] == ([TP, d] + kept)[1..] == [d] + kept;
    } else {
      StripArgsIsFree(synced[1..], TP, TP);
      assert synced == [TP + "=" + d] + StripArgs(synced[1..], TP, TP);
      assert synced[1..] == StripArgs(synced[1..], TP, TP);
    }
  }

  lemma OmniValueLosesToken(base: seq<string>, e: seq<string>, n: nat, mode: Mode)
    requires |LockedModel(base)| == 2 && LockedModel(base)[0] == MODEL && IsOmniToken(LockedModel(base)[1])
    requires Editing(e, true, mode)
    ensures Body(base, Reread(Body(base, e, true, n), true, mode), true, n) != Body(base, e, true, n)
  {
    var v, k, d := LockedModel(base)[1], Kept(base, true), Decimal(n);
    var synced := Upsert(e, TP, d);
    assert LockedModel(base) == [MODEL, v];
    OmniValueIsFree(v);
    PlainBody(base, e, true, n);
    UpsertStaysOmniFree(e, n);
    RereadLosesValue(base, v, synced, n, mode);
    var again := StripArgs(synced[1..], MODEL, Other(mode));
    PlainBody(base, again, true, n);
    LosesToken(e, n, mode);
    assert |[MODEL, v] + (k + Upsert(again, TP, d))| != |[MODEL, v] + (k + synced)|;
  }

  /** With the model value taken for an omni flag, the model flag takes the first argument instead. */
  lemma RereadLosesValue(base: seq<string>, v: string, synced: seq<string>, n: nat, mode: Mode)
    requires IsOmniToken(v) && OmniFree(synced) && synced != []
    ensures Reread([MODEL, v] + (Kept(base, true) + synced), true, mode) == StripArgs(synced[1..], MODEL, Other(mode))
  {
    OmniValueIsTakenOut(base, v, synced);
    FirstIsTakenAsValue(synced, Other(mode));
  }

  lemma OmniValueIsTakenOut(base: seq<string>, v: string, synced: seq<string>)
    requires IsOmniToken(v) && OmniFree(synced)
    ensures StripOmni([MODEL, v] + (Kept(base, true) + synced)) == [MODEL] + synced
  {
    var k := Kept(base, true);
    ModelIsNotOmni();
    OmniTokensAreOmni(base);
    ConcatAssociates([MODEL], [v], k + synced);
    assert [MODEL] + [v] == [MODEL, v];
    StripOmniSkips([MODEL], [v] + (k + synced));
    StripOmniDrops([v], k + synced);
    StripOmniDrops(k, synced);
    OmniFreeIsUnchanged(synced);
  }

  lemma FirstIsTakenAsValue(synced: seq<string>, g: string)
    requires synced != []
    ensures StripArgs([MODEL] + synced, MODEL, g) == StripArgs(synced[1..], MODEL, g)
  {
    assert ([MODEL] + synced)[2..] == synced[1..];
  }

  lemma LosesToken(e: seq<string>, n: nat, mode: Mode)
    requires Editing(e, true, mode)
    ensures var synced := Upsert(e, TP, Decimal(n));
            && synced != []
            && |Upsert(StripArgs(synced[1..], MODEL, Other(mode)), TP, Decimal(n))| != |synced|
  {
    var d := Decimal(n);
    var synced := Upsert(e, TP, d);
    UpsertHead(e, d);
    if mode == Advanced {
      SyncedTailIsFree(e, n);
      TailStaysFree(synced, MODEL);
      StripArgsKeepsFree(synced[1..], MODEL, MODEL);
      UpsertTwice(e, TP, d, d);
      NumeralIsNoFlag(n);
      ShorterDiffers(synced, d);
    } else {
      BasicLosesToken(e, n);
    }
  }

  lemma TailStaysFree(cmds: seq<string>, flag: string)
    requires cmds != [] && Free(cmds, flag)
    ensures Free(cmds[1..], flag)
  {
    forall i | 0 <= i < |cmds[1..]| ensures !Names(cmds[1..][i], flag) {
      assert cmds[1..][i] == cmds[i + 1];
    }
  }

  lemma BasicLosesToken(e: seq<string>, n: nat)
    requires Free(e, MODEL) && Free(e, TP)
    ensures var synced := Upsert(e, TP, Decimal(n));
            |synced| == |e| + 2 && |Upsert(StripArgs(synced[1..], MODEL, TP), TP, Decimal(n))| != |synced|
  {
    var d := Decimal(n);
    NumeralIsNoFlag(n);
    assert e + [] == e;
    UpsertSkips(e, [], TP, d);
    if e == [] {
      assert ([] + [TP, d])[1..] == [d];
      StripArgsKeepsFree([d], MODEL, TP);
      assert [d] + [] == [d];
      UpsertSkips([d], [], TP, d);
    } else {
      assert (e + [TP, d])[1..] == e[1..] + [TP, d];
      TailStaysFree(e, MODEL);
      TailStaysFree(e, TP);
      StripArgsSkips(e[1..], [TP, d], MODEL, TP);
      assert [TP, d][2..] == [];
      assert e[1..] + [] == e[1..];
      UpsertSkips(e[1..], [], TP, d);
    }
  }

  // ----- the exact condition

  /** For every base whose targets can be read: merging again changes nothing exactly when its model value is not confused. */
  lemma SyncedTwiceIff(base: seq<string>, submitted: seq<string>, omni: bool, n: nat, mode: Mode)
    requires AllTargets(base).Ok?
    ensures Synced(base, Synced(base, submitted, omni, n, mode), omni, n, mode) == Synced(base, submitted, omni, n, mode)
            <==> !Confused(base, omni)
  {
    var e, l := Editable(base, submitted, omni, mode), LockedModel(base);
    PrefixIsDashless(base);
    LockedIsFirstArg(base);
    if WellLocked(base) {
      assert Names(TP, TP);
      SyncedTwice(base, submitted, omni, n, mode);
    } else {
      EditableIsEditing(base, submitted, omni, mode);
      TwiceIffBody(base, submitted, omni, n, mode);
      BodyTwiceIff(base, e, omni, n, mode);
    }
  }

  lemma BodyTwiceIff(base: seq<string>, e: seq<string>, omni: bool, n: nat, mode: Mode)
    requires |LockedModel(base)| == 2 && LockedModel(base)[0] == MODEL && Editing(e, omni, mode)
    requires Names(LockedModel(base)[1], TP) || IsOmniToken(LockedModel(base)[1])
    ensures Body(base, Reread(Body(base, e, omni, n), omni, mode), omni, n) == Body(base, e, omni, n) <==> !Confused(base, omni)
  {
    var v := LockedModel(base)[1];
    if IsOmniToken(v) {
      if omni {
        OmniValueLosesToken(base, e, n, mode);
      } else {
        OmniValueWithoutOmni(base, e, n, mode);
      }
    } else if v == TP {
      assert LockedModel(base) == [MODEL, TP];
      BareTwiceIff(base, e, omni, n, mode);
    } else {
      JoinedTwice(base, e, omni, n, mode);
    }
  }

  /** The same from the lists as stored and submitted, when the merged list needs no further JSON normalising. */
  lemma MergeTwiceIff(norm: JsonNormalizer, base: seq<string>, submitted: seq<string>, image: string, gpuCount: nat, mode: Mode)
    requires NormalizeJson(norm, JSON_FLAGS, base).Ok? && AllTargets(NormalizeJson(norm, JSON_FLAGS, base).value).Ok?
    requires var once := Merge(norm, base, submitted, image, gpuCount, mode, true);
             once.Ok? && NormalizeJson(norm, JSON_FLAGS, once.value) == once
    ensures var once := Merge(norm, base, submitted, image, gpuCount, mode, true);
            Merge(norm, base, once.value, image, gpuCount, mode, true) == once <==>
            !Confused(NormalizeJson(norm, JSON_FLAGS, base).value, IsOmniImage(image))
  {
    SyncedTwiceIff(NormalizeJson(norm, JSON_FLAGS, base).value, NormalizeJson(norm, JSON_FLAGS, submitted).value,
                   IsOmniImage(image), gpuCount, mode);
  }

  /** For lists without JSON-valued flags. */
  lemma PlainMergeTwiceIff(norm: JsonNormalizer, base: seq<string>, submitted: seq<string>, image: string, gpuCount: nat, mode: Mode)
    requires NoJson(JSON_FLAGS, base) && NoJson(JSON_FLAGS, submitted) && gpuCount > 0 && AllTargets(base).Ok?
    ensures var once := Merge(norm, base, submitted, image, gpuCount, mode, true);
            once.Ok? &&
            (Merge(norm, base, once.value, image, gpuCount, mode, true) == once <==> !Confused(base, IsOmniImage(image)))
  {
    var omni := IsOmniImage(image);
    var once := Synced(base, submitted, omni, gpuCount, mode);
    PlainIsNoJson(base);
    PlainIsNoJson(submitted);
    PlainIsNoJson(once);
    SyncedIsPlain(base, submitted, omni, gpuCount, mode);
    NoJsonIsUnchanged(norm, JSON_FLAGS, base);
    NoJsonIsUnchanged(norm, JSON_FLAGS, submitted);
    NoJsonIsUnchanged(norm, JSON_FLAGS, once);
    MergeTwiceIff(norm, base, submitted, image, gpuCount, mode);
  }

  /** A model value that is an omni flag: with an omni image the customer's argument is lost the second time. */
  lemma OmniModelIsConfused()
    ensures var base := [MODEL, OMNI];
            && AllTargets(base).Ok?
            && Synced(base, Synced(base, ["a"], true, 1, Basic), true, 1, Basic) != Synced(base, ["a"], true, 1, Basic)
  {
    var base := [MODEL, OMNI];
    assert base[2..] == [] && ModelArgs([]) == Ok([]);
    assert OMNI[0] == '-' && MODEL[0] == '-';
    StripKeepsFirst(OMNI);
    DashedIsNoWord(MODEL);
    assert ModelArgs(base).Ok?;
    assert Served(base).Ok?;
    assert LockedModel(base) == base;
    SyncedTwiceIff(base, ["a"], true, 1, Basic);
  }
}
