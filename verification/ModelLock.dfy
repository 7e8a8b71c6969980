/** What a customer's edit cannot change: the model a catalog entry serves. */
module ModelLock {
  import opened Common
  import opened PyText
  import opened Commands
  import opened ModelTargets
  import opened CatalogMerge

  // ----- facts about the reserved flags

  lemma NamedLetters(t: string)
    ensures Names(t, MODEL) ==> |t| >= 4 && t[2] == 'm'
    ensures Names(t, TP) ==> |t| >= 4 && t[2] == 't' && t[3] == 'e'
  {
  }

  lemma ModelOrTp(t: string)
    ensures !(Names(t, MODEL) && Names(t, TP))
  {
    NamedLetters(t);
  }

  lemma NamedIsDashed(t: string)
    requires Names(t, MODEL) || Names(t, TP) || IsOmniToken(t)
    ensures "-" <= t
  {
    assert t[0] == '-';
  }

  lemma OmniIsNeither(t: string)
    requires IsOmniToken(t)
    ensures !Names(t, MODEL) && !Names(t, TP)
  {
    NamedLetters(t);
    assert TRUST[3] == 'r' && OMNI[2] == 'o';
  }

  lemma TpTokensAreNotModel(v: string)
    ensures Names(TP, TP) && Names(TP + "=" + v, TP)
    ensures !Names(TP, MODEL) && !Names(TP + "=" + v, MODEL)
  {
    assert Joined(TP + "=" + v, TP);
    ModelOrTp(TP);
    ModelOrTp(TP + "=" + v);
  }

  lemma NumeralIsNoFlag(n: nat)
    ensures !Names(Decimal(n), MODEL) && !Names(Decimal(n), TP) && !IsOmniToken(Decimal(n))
  {
    DecimalIsTrimmed(n);
    if Names(Decimal(n), MODEL) || Names(Decimal(n), TP) || IsOmniToken(Decimal(n)) {
      NamedIsDashed(Decimal(n));
    }
  }

  lemma DashedIsNoWord(t: string)
    requires "-" <= t
    ensures !IsWord(t) && !LooksLikeRepo(Strip(t))
  {
    assert t[0] == '-';
    StripKeepsFirst(t);
    assert "-" <= Strip(t);
    if LooksLikeRepo(Strip(t)) {
      LooksLikeRepoIsNonempty(Strip(t));
    }
  }

  // ----- the locked prefix

  ghost predicate Dashless(ts: seq<string>) {
    forall i :: 0 <= i < |ts| ==> !("-" <= ts[i])
  }

  lemma {:induction false} LeadingWordsShape(cmds: seq<string>)
    ensures LeadingWords(cmds) <= cmds && Dashless(LeadingWords(cmds))
    ensures |LeadingWords(cmds)| < |cmds| ==> "-" <= cmds[|LeadingWords(cmds)|]
  {
    if cmds != [] && !("-" <= cmds[0]) {
      LeadingWordsShape(cmds[1..]);
      assert cmds == [cmds[0]] + cmds[1..];
    }
  }

  lemma PrefixIsDashless(base: seq<string>)
    requires Served(base).Ok?
    ensures Dashless(LockedPrefix(base)) && LockedPrefix(base) <= base
  {
    LeadingWordsShape(base);
    if StartsServe(base) {
      if "-" <= base[2] {
        DashedIsNoWord(base[2]);
      }
      assert base[0][0] == 'v' && base[1][0] == 's';
    }
  }

  lemma DashlessIsFree(ts: seq<string>)
    requires Dashless(ts)
    ensures Free(ts, MODEL) && Free(ts, TP)
  {
    forall i | 0 <= i < |ts| ensures !Names(ts[i], MODEL) && !Names(ts[i], TP) {
      if Names(ts[i], MODEL) || Names(ts[i], TP) {
        NamedIsDashed(ts[i]);
      }
    }
  }

  // ----- the locked model argument

  ghost predicate IsModelArg(locked: seq<string>) {
    (|locked| == 2 && locked[0] == MODEL) || (|locked| == 1 && Joined(locked[0], MODEL))
  }

  lemma {:induction false} LockedIsFirstArg(base: seq<string>)
    requires ModelArgs(base).Ok?
    ensures LockedModel(base) == [] ==> ModelArgs(base).value == []
    ensures LockedModel(base) != [] ==>
              && IsModelArg(LockedModel(base))
              && ModelArgs(base).value != []
              && ModelArgs(LockedModel(base)) == Ok([ModelArgs(base).value[0]])
  {
    if base != [] && !Names(base[0], MODEL) {
      LockedIsFirstArg(base[1..]);
    } else if base != [] {
      assert ModelArgs([]) == Ok([]);
      var locked := LockedModel(base);
      if base[0] == MODEL {
        assert locked[0] == MODEL && locked[1] == base[1] && locked[2..] == [];
        var target := Normalize(base[1]);
        assert ModelArgs(locked) == Prepend(target, ModelArgs([]));
        assert [target] + [] == [target];
      } else {
        assert locked[0] == base[0] && locked[1..] == [];
        var target := Normalize(AfterEquals(base[0]));
        assert ModelArgs(locked) == Prepend(target, ModelArgs([]));
        assert [target] + [] == [target];
      }
    }
  }

  /** A `--model` value that reads as a tensor-parallel argument; syncing overwrites it. */
  predicate Overwritten(locked: seq<string>) {
    |locked| == 2 && Joined(locked[1], TP)
  }

  lemma SyncedTailIsFree(tail: seq<string>, n: nat)
    requires Free(tail, MODEL)
    ensures Free(Upsert(tail, TP, Decimal(n)), MODEL)
  {
    TpTokensAreNotModel(Decimal(n));
    NumeralIsNoFlag(n);
    UpsertStaysFree(tail, TP, Decimal(n), MODEL);
  }

  lemma ModelArgThenFree(locked: seq<string>, rest: seq<string>)
    requires IsModelArg(locked) && Free(rest, MODEL)
    ensures ModelArgs(locked + rest) == ModelArgs(locked)
  {
    FreeHasNoModelArgs(rest);
    assert ModelArgs([]) == Ok([]);
    if |locked| == 2 {
      assert (locked + rest)[2..] == rest && locked[2..] == [];
    } else {
      assert (locked + rest)[1..] == rest && locked[1..] == [];
      assert locked[0] != MODEL;
    }
  }

  lemma SyncAfterPlainArg(locked: seq<string>, tail: seq<string>, n: nat)
    requires IsModelArg(locked) && Free(tail, MODEL) && (|locked| == 2 ==> !Names(locked[1], TP))
    ensures Upsert(locked + tail, TP, Decimal(n)) == locked + Upsert(tail, TP, Decimal(n))
    ensures ModelArgs(Upsert(locked + tail, TP, Decimal(n))) == ModelArgs(locked)
  {
    forall i | 0 <= i < |locked| ensures !Names(locked[i], TP) {
      if i == 0 {
        ModelOrTp(locked[0]);
      }
    }
    UpsertSkips(locked, tail, TP, Decimal(n));
    SyncedTailIsFree(tail, n);
    ModelArgThenFree(locked, Upsert(tail, TP, Decimal(n)));
  }

  /** The value token is the tensor-parallel flag itself: it stays, followed by a numeral. */
  lemma SyncAfterBareValue(tail: seq<string>, n: nat)
    requires Free(tail, MODEL)
    ensures ModelArgs(Upsert([MODEL, TP] + tail, TP, Decimal(n))) == ModelArgs([MODEL, TP])
  {
    var kept := StripArgs(if |tail| >= 1 then tail[1..] else [], TP, TP);
    StripKeepsFreedom(if |tail| >= 1 then tail[1..] else [], TP, MODEL);
    UpsertBareSecond(tail, Decimal(n));
    NumeralIsNoFlag(n);
    ModelArgThenFree([MODEL, TP], [Decimal(n)] + kept);
  }

  lemma UpsertBareSecond(tail: seq<string>, v: string)
    ensures Upsert([MODEL, TP] + tail, TP, v) ==
            [MODEL, TP] + ([v] + StripArgs(if |tail| >= 1 then tail[1..] else [], TP, TP))
  {
    var kept := StripArgs(if |tail| >= 1 then tail[1..] else [], TP, TP);
    UpsertBareFirst(tail, v);
    assert [MODEL, TP] + tail == [MODEL] + ([TP] + tail);
    ModelOrTp(MODEL);
    UpsertSkips([MODEL], [TP] + tail, TP, v);
    Regroup(MODEL, TP, v, kept);
  }

  lemma Regroup(a: string, b: string, c: string, rest: seq<string>)
    ensures [a] + ([b, c] + rest) == [a, b] + ([c] + rest)
  {
  }

  lemma UpsertBareFirst(tail: seq<string>, v: string)
    ensures Upsert([TP] + tail, TP, v) == [TP, v] + StripArgs(if |tail| >= 1 then tail[1..] else [], TP, TP)
  {
    assert |tail| >= 1 ==> ([TP] + tail)[2..] == tail[1..];
  }

  lemma SyncAfterJoinedValue(v: string, tail: seq<string>, n: nat)
    requires Free(tail, MODEL) && Joined(v, TP)
    ensures ModelArgs(Upsert([MODEL, v] + tail, TP, Decimal(n))) == ModelArgs([MODEL, TP + "=" + Decimal(n)])
  {
    ModelOrTp(MODEL);
    assert v != TP;
    var kept := StripArgs(tail, TP, TP);
    StripKeepsFreedom(tail, TP, MODEL);
    assert [MODEL, v] + tail == [MODEL] + ([v] + tail);
    UpsertSkips([MODEL], [v] + tail, TP, Decimal(n));
    assert ([v] + tail)[1..] == tail;
    var w := TP + "=" + Decimal(n);
    assert Upsert([v] + tail, TP, Decimal(n)) == [w] + kept;
    assert [MODEL] + ([w] + kept) == [MODEL, w] + kept;
    ModelArgThenFree([MODEL, w], kept);
  }

  lemma SyncAfterNamedValue(v: string, tail: seq<string>, n: nat)
    requires Free(tail, MODEL) && Names(v, TP)
    ensures ModelArgs(Upsert([MODEL, v] + tail, TP, Decimal(n))) ==
            ModelArgs([MODEL, if Joined(v, TP) then TP + "=" + Decimal(n) else v])
  {
    if v == TP {
      assert !Joined(TP, TP);
      SyncAfterBareValue(tail, n);
    } else {
      SyncAfterJoinedValue(v, tail, n);
    }
  }

  /** After syncing, the model arguments are the locked one, as it was or overwritten. */
  lemma SyncedModelArgs(locked: seq<string>, tail: seq<string>, n: nat)
    requires locked == [] || IsModelArg(locked)
    requires Free(tail, MODEL)
    ensures ModelArgs(Upsert(locked + tail, TP, Decimal(n))) ==
            if Overwritten(locked) then ModelArgs([MODEL, TP + "=" + Decimal(n)]) else ModelArgs(locked)
  {
    if locked == [] {
      assert locked + tail == tail;
      SyncedTailIsFree(tail, n);
      FreeHasNoModelArgs(Upsert(tail, TP, Decimal(n)));
    } else if |locked| == 2 && Names(locked[1], TP) {
      var v := locked[1];
      assert locked == [MODEL, v];
      SyncAfterNamedValue(v, tail, n);
    } else {
      SyncAfterPlainArg(locked, tail, n);
    }
  }

  // ----- the merged list, piece by piece

  lemma {:induction false} OmniTokensAreOmni(cmds: seq<string>)
    ensures forall i :: 0 <= i < |OmniTokens(cmds)| ==> IsOmniToken(OmniTokens(cmds)[i])
  {
    if cmds != [] {
      OmniTokensAreOmni(cmds[1..]);
    }
  }

  lemma KeptIsFree(base: seq<string>, omni: bool)
    ensures Free(Kept(base, omni), MODEL) && Free(Kept(base, omni), TP)
  {
    OmniTokensAreOmni(base);
    forall i | 0 <= i < |Kept(base, omni)| ensures !Names(Kept(base, omni)[i], MODEL) && !Names(Kept(base, omni)[i], TP) {
      OmniIsNeither(Kept(base, omni)[i]);
    }
  }

  /** Everything after the locked parts, whatever was submitted, is free of model arguments. */
  function Tail(base: seq<string>, submitted: seq<string>, omni: bool, mode: Mode): seq<string> {
    Kept(base, omni) + Editable(base, submitted, omni, mode)
  }

  lemma TailIsFree(base: seq<string>, submitted: seq<string>, omni: bool, mode: Mode)
    ensures Free(Tail(base, submitted, omni, mode), MODEL)
  {
    KeptIsFree(base, omni);
    var rest := StripPrefix(submitted, LockedPrefix(base));
    var plain := if omni then StripOmni(rest) else rest;
    StripArgsIsFree(plain, MODEL, TP);
    StripArgsIsFree(plain, MODEL, MODEL);
  }

  lemma SyncedIsPrefixed(base: seq<string>, tail: seq<string>, n: nat)
    requires Served(base).Ok?
    ensures Upsert(LockedPrefix(base) + LockedModel(base) + tail, TP, Decimal(n)) ==
            LockedPrefix(base) + Upsert(LockedModel(base) + tail, TP, Decimal(n))
  {
    PrefixIsDashless(base);
    DashlessIsFree(LockedPrefix(base));
    ConcatAssociates(LockedPrefix(base), LockedModel(base), tail);
    UpsertSkips(LockedPrefix(base), LockedModel(base) + tail, TP, Decimal(n));
  }

  lemma UpsertHead(cmds: seq<string>, v: string)
    ensures Upsert(cmds, TP, v) != []
    ensures var head := Upsert(cmds, TP, v)[0];
            if cmds != [] && !Names(cmds[0], TP) then head == cmds[0] else Names(head, TP)
  {
    TpTokensAreNotModel(v);
  }

  /** The lock gives way when the model is only named positionally and a word can be slipped in after it. */
  predicate Loose(base: seq<string>, tail: seq<string>) {
    LockedModel(base) == [] && !StartsServe(base) && |LockedPrefix(base)| == 1 && tail != [] && IsWord(tail[0])
  }

  /** The second token of the merged list, when the prefix is one word, is a word only in the loose case. */
  lemma SecondToken(base: seq<string>, tail: seq<string>, n: nat)
    requires AllTargets(base).Ok? && !StartsServe(base) && |LockedPrefix(base)| == 1
    ensures var rest := Upsert(LockedModel(base) + tail, TP, Decimal(n));
            && rest != []
            && (IsWord(rest[0]) <==> Loose(base, tail))
            && (LockedModel(base) != [] ==> "-" <= rest[0])
  {
    var locked := LockedModel(base);
    var rest := Upsert(locked + tail, TP, Decimal(n));
    UpsertHead(locked + tail, Decimal(n));
    LockedIsFirstArg(base);
    if Names(rest[0], TP) {
      NamedIsDashed(rest[0]);
      DashedIsNoWord(rest[0]);
    }
    if locked != [] {
      assert Names(locked[0], MODEL);
      NamedIsDashed(locked[0]);
      DashedIsNoWord(locked[0]);
    } else {
      assert locked + tail == tail;
      if tail != [] && Names(tail[0], TP) {
        NamedIsDashed(tail[0]);
        DashedIsNoWord(tail[0]);
      }
    }
  }

  lemma ServeCaseKeepsNames(base: seq<string>, rest: seq<string>)
    requires AllTargets(base).Ok? && StartsServe(base)
    ensures Served(LockedPrefix(base) + rest) == Served(base)
    ensures Positional(LockedPrefix(base) + rest) == Positional(base) == []
  {
    assert LockedPrefix(base) == base[..3];
    var merged := base[..3] + rest;
    assert merged[0] == base[0] && merged[1] == base[1] && merged[2] == base[2];
    VllmIsNoRepo();
  }

  lemma VllmIsNoRepo()
    ensures !LooksLikeRepo(Strip("vllm"))
  {
    assert Strip("vllm") == "vllm";
    var s3 := Split("m", "/");
    assert "vllm"[1..] == "llm" && "llm"[1..] == "lm" && "lm"[1..] == "m" && "m"[1..] == "";
    assert Split("", "/") == [""];
    assert |s3| == 1;
    assert |Split("lm", "/")| == 1;
    assert |Split("llm", "/")| == 1;
    assert |Split("vllm", "/")| == 1;
  }

  /** Outside the `vllm serve` form, the merged list names the same positional target unless the lock is loose. */
  lemma WordCaseKeepsNames(base: seq<string>, tail: seq<string>, n: nat)
    requires AllTargets(base).Ok? && AllTargets(base).value != [] && !StartsServe(base)
    ensures var merged := LockedPrefix(base) + Upsert(LockedModel(base) + tail, TP, Decimal(n));
            && Served(merged) == Ok([])
            && Positional(merged) == if Loose(base, tail) then [] else Positional(base)
  {
    var prefix, locked := LockedPrefix(base), LockedModel(base);
    var rest := Upsert(locked + tail, TP, Decimal(n));
    var merged := prefix + rest;
    LeadingWordsShape(base);
    LockedIsFirstArg(base);
    if |prefix| >= 2 {
      assert merged[0] == base[0] && merged[1] == base[1];
    } else if |prefix| == 1 {
      SecondToken(base, tail, n);
      assert merged[0] == base[0] && merged[1] == rest[0];
      if |base| >= 2 {
        DashedIsNoWord(base[1]);
      }
      WordCaseIsNotServe(base, rest[0]);
    } else {
      DashedStartNamesNothing(base, locked, tail, n);
    }
  }

  lemma WordCaseIsNotServe(base: seq<string>, second: string)
    requires AllTargets(base).Ok? && AllTargets(base).value != [] && !StartsServe(base) && base != []
    requires LockedModel(base) != [] ==> "-" <= second
    ensures !(base[0] == "vllm" && second == "serve")
  {
    if LockedModel(base) == [] {
      OnlyPositional(base);
      VllmIsNoRepo();
    } else {
      assert second[0] == '-' && "serve"[0] == 's';
    }
  }

  lemma OnlyPositional(base: seq<string>)
    requires AllTargets(base).Ok? && AllTargets(base).value != [] && !StartsServe(base) && LockedModel(base) == []
    ensures base != [] && LooksLikeRepo(Strip(base[0]))
  {
    LockedIsFirstArg(base);
    assert Positional(base) + [] + [] == Positional(base);
  }

  lemma DashedStartNamesNothing(base: seq<string>, locked: seq<string>, tail: seq<string>, n: nat)
    requires AllTargets(base).Ok? && AllTargets(base).value != [] && !StartsServe(base)
    requires LockedPrefix(base) == [] && locked == LockedModel(base)
    ensures var rest := Upsert(locked + tail, TP, Decimal(n));
            Served([] + rest) == Ok([]) && Positional([] + rest) == [] == Positional(base)
  {
    var rest := Upsert(locked + tail, TP, Decimal(n));
    assert [] + rest == rest;
    LeadingWordsShape(base);
    LockedIsFirstArg(base);
    if base != [] {
      DashedIsNoWord(base[0]);
    }
    assert locked != [];
    assert Names(locked[0], MODEL);
    UpsertHead(locked + tail, Decimal(n));
    ModelOrTp(locked[0]);
    assert rest[0] == locked[0];
    NamedIsDashed(rest[0]);
    DashedIsNoWord(rest[0]);
    assert rest[0] != "vllm" by { assert rest[0][0] == '-'; }
  }

  // ----- the lock

  /** The tensor-parallel token that replaces an overwritten model value changes the target. */
  ghost predicate Hijacked(base: seq<string>, n: nat, x: string) {
    Overwritten(LockedModel(base)) && Normalize(TP + "=" + Decimal(n)) != x
  }

  lemma MergedTargets(base: seq<string>, tail: seq<string>, n: nat)
    requires AllTargets(base).Ok? && AllTargets(base).value != [] && Free(tail, MODEL)
    ensures var merged := LockedPrefix(base) + Upsert(LockedModel(base) + tail, TP, Decimal(n));
            && Served(merged) == Served(base)
            && Positional(merged) == (if Loose(base, tail) then [] else Positional(base))
            && ModelArgs(merged) ==
               if Overwritten(LockedModel(base)) then ModelArgs([MODEL, TP + "=" + Decimal(n)])
               else ModelArgs(LockedModel(base))
  {
    var rest := Upsert(LockedModel(base) + tail, TP, Decimal(n));
    PrefixIsDashless(base);
    DashlessIsFree(LockedPrefix(base));
    ModelArgsSkips(LockedPrefix(base), rest);
    LockedIsFirstArg(base);
    SyncedModelArgs(LockedModel(base), tail, n);
    if StartsServe(base) {
      ServeCaseKeepsNames(base, rest);
    } else {
      WordCaseKeepsNames(base, tail, n);
    }
  }

  lemma FoundTargetIsNonempty(cmds: seq<string>, x: string)
    requires FindTargets(cmds) == Ok([x])
    ensures x != "" && AllTargets(cmds).Ok? && OnlyOne(AllTargets(cmds).value, x)
  {
    AddTargetsAddsNoBlank([], AllTargets(cmds).value);
    assert x in [x];
    FindTargetsIsSingleIff(cmds, x);
  }

  lemma TpTarget(n: nat)
    ensures ModelArgs([MODEL, TP + "=" + Decimal(n)]) == Ok([Normalize(TP + "=" + Decimal(n))])
  {
    var v := TP + "=" + Decimal(n);
    assert v[0] == '-';
    StripKeepsFirst(v);
    assert [MODEL, v][2..] == [];
    assert ModelArgs([]) == Ok([]);
    assert [Normalize(v)] + [] == [Normalize(v)];
  }

  /** The merged and synced commands keep the base's only target exactly when the lock is neither loose nor hijacked. */
  lemma SyncedTargetIff(base: seq<string>, submitted: seq<string>, omni: bool, n: nat, mode: Mode, x: string)
    requires FindTargets(base) == Ok([x])
    ensures FindTargets(Synced(base, submitted, omni, n, mode)) == Ok([x]) <==>
            !Loose(base, Tail(base, submitted, omni, mode)) && !Hijacked(base, n, x)
  {
    var tail := Tail(base, submitted, omni, mode);
    var merged := LockedPrefix(base) + Upsert(LockedModel(base) + tail, TP, Decimal(n));
    FoundTargetIsNonempty(base, x);
    TailIsFree(base, submitted, omni, mode);
    SyncedIsPrefixed(base, tail, n);
    MergedTargets(base, tail, n);
    LockedIsFirstArg(base);
    TpTarget(n);
    FindTargetsIsSingleIff(merged, x);
    assert ModelArgs([]) == Ok([]);
    LockDecides(Positional(base), Served(base).value, ModelArgs(base).value, ModelArgs(merged).value, x,
                Loose(base, tail), Overwritten(LockedModel(base)), Normalize(TP + "=" + Decimal(n)));
  }

  ghost predicate Only(ts: seq<string>, x: string) {
    forall i :: 0 <= i < |ts| ==> ts[i] == x
  }

  lemma OnlyConcat(a: seq<string>, b: seq<string>, x: string)
    ensures Only(a + b, x) <==> Only(a, x) && Only(b, x)
  {
    if Only(a + b, x) {
      assert forall i :: 0 <= i < |a| ==> a[i] == (a + b)[i];
      assert forall i :: 0 <= i < |b| ==> b[i] == (a + b)[|a| + i];
    }
  }

  /** From the targets the base names to those the merged list names. */
  lemma LockDecides(pos: seq<string>, served: seq<string>, args: seq<string>, args': seq<string>, x: string,
                    loose: bool, overwritten: bool, y: string)
    requires OnlyOne(pos + served + args, x)
    requires loose ==> served == [] && args == []
    requires overwritten ==> args != []
    requires args' == if overwritten then [y] else if args == [] then [] else [args[0]]
    ensures OnlyOne((if loose then [] else pos) + served + args', x) <==> !loose && !(overwritten && y != x)
  {
    assert Only(pos + served + args, x);
    OnlyConcat(pos + served, args, x);
    OnlyConcat(pos, served, x);
    var pos' := if loose then [] else pos;
    OnlyConcat(pos' + served, args', x);
    OnlyConcat(pos', served, x);
    assert OnlyOne(pos' + served + args', x) <==> pos' + served + args' != [] && Only(pos' + served + args', x);
    assert Only([y], x) <==> y == x by {
      assert [y][0] == y;
    }
  }

  /** The same from the lists as stored and submitted, for the target the base names once its JSON-valued flags are normalised. */
  lemma MergeKeepsTargetIff(norm: JsonNormalizer, base: seq<string>, submitted: seq<string>, image: string,
                            gpuCount: nat, mode: Mode, x: string)
    requires NormalizeJson(norm, JSON_FLAGS, base).Ok? && NormalizeJson(norm, JSON_FLAGS, submitted).Ok? && gpuCount > 0
    requires FindTargets(NormalizeJson(norm, JSON_FLAGS, base).value) == Ok([x])
    ensures Merge(norm, base, submitted, image, gpuCount, mode, true).Ok?
    ensures var b, s := NormalizeJson(norm, JSON_FLAGS, base).value, NormalizeJson(norm, JSON_FLAGS, submitted).value;
            FindTargets(Merge(norm, base, submitted, image, gpuCount, mode, true).value) == Ok([x]) <==>
            !Loose(b, Tail(b, s, IsOmniImage(image), mode)) && !Hijacked(b, gpuCount, x)
  {
    SyncedTargetIff(NormalizeJson(norm, JSON_FLAGS, base).value, NormalizeJson(norm, JSON_FLAGS, submitted).value,
                    IsOmniImage(image), gpuCount, mode, x);
  }

  /**
   The model lock: when the base names its model through `--model` or `vllm serve`, by a value that is
   not a tensor-parallel argument, no submission, image, GPU count or editor mode changes the target.
   */
  lemma NamedModelIsLocked(norm: JsonNormalizer, base: seq<string>, submitted: seq<string>, image: string,
                           gpuCount: nat, mode: Mode, x: string)
    requires NormalizeJson(norm, JSON_FLAGS, base).Ok? && gpuCount > 0
    requires var b := NormalizeJson(norm, JSON_FLAGS, base).value;
             && FindTargets(b) == Ok([x])
             && (LockedModel(b) != [] || StartsServe(b))
             && !Overwritten(LockedModel(b))
    ensures Merge(norm, base, submitted, image, gpuCount, mode, true).Ok? ==>
              FindTargets(Merge(norm, base, submitted, image, gpuCount, mode, true).value) == Ok([x])
  {
    if NormalizeJson(norm, JSON_FLAGS, submitted).Ok? {
      MergeKeepsTargetIff(norm, base, submitted, image, gpuCount, mode, x);
    }
  }

  /** A model named only by position is not locked: one extra word hides it. */
  lemma PositionalModelIsNotLocked()
    ensures FindTargets(["a/b"]) == Ok(["a/b"])
    ensures FindTargets(Synced(["a/b"], ["a/b", "c"], false, 1, Basic)) != Ok(["a/b"])
  {
    SimpleRepoIsFound();
    SimpleTailIsLoose();
    SyncedTargetIff(["a/b"], ["a/b", "c"], false, 1, Basic, "a/b");
  }

  lemma SimpleRepoIsFound()
    ensures FindTargets(["a/b"]) == Ok(["a/b"])
  {
    var base := ["a/b"];
    SimpleRepo();
    assert Free(base, MODEL);
    FreeHasNoModelArgs(base);
    assert ["a/b"] + [] + [] == ["a/b"];
    OneTargetIff(["a/b"], "a/b");
  }

  lemma SimpleTailIsLoose()
    ensures Loose(["a/b"], Tail(["a/b"], ["a/b", "c"], false, Basic))
  {
    var base, submitted := ["a/b"], ["a/b", "c"];
    assert base[1..] == [] && base[0][0] == 'a';
    assert LeadingWords(base) == ["a/b"] + LeadingWords([]);
    assert LockedPrefix(base) == base;
    assert StripPrefix(submitted, base) == ["c"];
    assert Free(["c"], MODEL) && Free(["c"], TP);
    StripArgsKeepsFree(["c"], MODEL, TP);
    assert Tail(base, submitted, false, Basic) == ["c"];
    assert "c"[0] == 'c' && Strip("c") == "c";
  }

  lemma SimpleRepo()
    ensures LooksLikeRepo(Strip("a/b")) && Normalize("a/b") == "a/b"
  {
    assert Strip("a/b") == "a/b";
    assert Split("", "/") == [""];
    assert "b"[1..] == "" && "/b"[1..] == "b" && "a/b"[1..] == "/b";
    assert !("/" <= "b") && !("/" <= "a/b") && "/" <= "/b";
    assert ['b'] + "" == "b" && [""][1..] == [];
    assert Split("b", "/") == ["b"];
    assert Split("/b", "/") == ["", "b"];
    assert ['a'] + "" == "a" && ["", "b"][1..] == ["b"];
    assert Split("a/b", "/") == ["a", "b"];
    var parts := ["a", "b"];
    assert parts[1..] == ["b"] && ["b"][1..] == [];
    assert NonEmpty(["b"]) == ["b"];
    assert NonEmpty(parts) == parts;
    assert SnapshotRepo([]) == None && SnapshotRepo(["b"]) == None && SnapshotRepo(parts) == None;
  }

  // ----- merging twice

  /** The locked parts are leading words and a model argument whose value is none of the flags the merge handles. */
  ghost predicate WellLocked(base: seq<string>) {
    && Dashless(LockedPrefix(base))
    && (LockedModel(base) == [] || IsModelArg(LockedModel(base)))
    && (|LockedModel(base)| == 2 ==> !Names(LockedModel(base)[1], TP) && !IsOmniToken(LockedModel(base)[1]))
  }

  lemma LockedModelIsPlain(base: seq<string>)
    requires WellLocked(base)
    ensures Free(LockedModel(base), TP)
    ensures forall i :: 0 <= i < |LockedModel(base)| ==> !IsOmniToken(LockedModel(base)[i])
  {
    var locked := LockedModel(base);
    forall i | 0 <= i < |locked| ensures !Names(locked[i], TP) && !IsOmniToken(locked[i]) {
      if i == 0 {
        ModelOrTp(locked[0]);
        if IsOmniToken(locked[0]) {
          OmniIsNeither(locked[0]);
        }
      }
    }
  }

  /** A merged list is the locked parts followed by the edited part with its own argument synced. */
  lemma SyncedShape(base: seq<string>, submitted: seq<string>, omni: bool, n: nat, mode: Mode)
    requires WellLocked(base)
    ensures Synced(base, submitted, omni, n, mode) ==
            LockedPrefix(base) + (LockedModel(base) + (Kept(base, omni) + Upsert(Editable(base, submitted, omni, mode), TP, Decimal(n))))
  {
    var p, l, k, e := LockedPrefix(base), LockedModel(base), Kept(base, omni), Editable(base, submitted, omni, mode);
    DashlessIsFree(p);
    LockedModelIsPlain(base);
    KeptIsFree(base, omni);
    ConcatAssociates(p, l, k + e);
    UpsertSkips(p, l + (k + e), TP, Decimal(n));
    UpsertSkips(l, k + e, TP, Decimal(n));
    UpsertSkips(k, e, TP, Decimal(n));
  }

  lemma {:induction false} StripOmniSkips(a: seq<string>, b: seq<string>)
    requires forall i :: 0 <= i < |a| ==> !IsOmniToken(a[i])
    ensures StripOmni(a + b) == a + StripOmni(b)
  {
    if a == [] {
      assert a + b == b;
    } else {
      assert (a + b)[1..] == a[1..] + b;
      StripOmniSkips(a[1..], b);
    }
  }

  lemma {:induction false} StripOmniDrops(a: seq<string>, b: seq<string>)
    requires forall i :: 0 <= i < |a| ==> IsOmniToken(a[i])
    ensures StripOmni(a + b) == StripOmni(b)
  {
    if a == [] {
      assert a + b == b;
    } else {
      assert (a + b)[1..] == a[1..] + b;
      StripOmniDrops(a[1..], b);
    }
  }

  ghost predicate OmniFree(a: seq<string>) {
    forall i :: 0 <= i < |a| ==> !IsOmniToken(a[i])
  }

  lemma {:induction false} StripOmniIsOmniFree(cmds: seq<string>)
    ensures OmniFree(StripOmni(cmds))
  {
    if cmds != [] {
      StripOmniIsOmniFree(cmds[1..]);
    }
  }

  lemma OmniFreeIsUnchanged(a: seq<string>)
    requires OmniFree(a)
    ensures StripOmni(a) == a
  {
    StripOmniSkips(a, []);
    assert a + [] == a;
  }

  lemma OmniFreeFromMembers(a: seq<string>, b: seq<string>)
    requires OmniFree(b) && forall t :: t in a ==> t in b
    ensures OmniFree(a)
  {
    forall i | 0 <= i < |a| ensures !IsOmniToken(a[i]) {
      var t := a[i];
      assert t in a;
      assert t in b;
    }
  }

  lemma EditableIsOmniFree(base: seq<string>, submitted: seq<string>, mode: Mode)
    ensures OmniFree(Editable(base, submitted, true, mode))
  {
    var plain := StripOmni(StripPrefix(submitted, LockedPrefix(base)));
    StripOmniIsOmniFree(StripPrefix(submitted, LockedPrefix(base)));
    StripArgsIsFree(plain, MODEL, TP);
    StripArgsIsFree(plain, MODEL, MODEL);
    OmniFreeFromMembers(Editable(base, submitted, true, mode), plain);
  }

  lemma {:induction false} UpsertStaysOmniFree(cmds: seq<string>, n: nat)
    requires OmniFree(cmds)
    ensures OmniFree(Upsert(cmds, TP, Decimal(n)))
  {
    var d := Decimal(n);
    NumeralIsNoFlag(n);
    TpTokensAreNotModel(d);
    TpIsNotOmni(d);
    if cmds != [] {
      assert !IsOmniToken(cmds[0]);
      if Names(cmds[0], TP) {
        var rest := if cmds[0] == TP then (if |cmds| >= 2 then cmds[2..] else []) else cmds[1..];
        StripArgsIsFree(rest, TP, TP);
        assert forall t :: t in StripArgs(rest, TP, TP) ==> t in cmds;
        OmniFreeFromMembers(StripArgs(rest, TP, TP), cmds);
      } else {
        UpsertStaysOmniFree(cmds[1..], n);
      }
    }
  }

  lemma TpIsNotOmni(v: string)
    ensures !IsOmniToken(TP) && !IsOmniToken(TP + "=" + v)
  {
    assert Names(TP, TP) && Joined(TP + "=" + v, TP);
    if IsOmniToken(TP) { OmniIsNeither(TP); }
    if IsOmniToken(TP + "=" + v) { OmniIsNeither(TP + "=" + v); }
  }

  /** Submitting a merged list again, the locked parts are recognised and removed. */
  lemma LockedPartsAreRemoved(base: seq<string>, edited: seq<string>, omni: bool)
    requires WellLocked(base)
    ensures var again := LockedPrefix(base) + (LockedModel(base) + (Kept(base, omni) + edited));
            var rest := StripPrefix(again, LockedPrefix(base));
            (if omni then StripOmni(rest) else rest) == LockedModel(base) + if omni then StripOmni(edited) else edited
  {
    var l, k := LockedModel(base), Kept(base, omni);
    var again := LockedPrefix(base) + (l + (k + edited));
    assert StripPrefix(again, LockedPrefix(base)) == l + (k + edited);
    if omni {
      LockedModelIsPlain(base);
      OmniTokensAreOmni(base);
      StripOmniSkips(l, k + edited);
      StripOmniDrops(k, edited);
    } else {
      assert k + edited == edited;
    }
  }

  lemma ModelArgIsRemoved(locked: seq<string>, rest: seq<string>, other: string)
    requires (locked == [] || IsModelArg(locked)) && (other == MODEL || other == TP)
    ensures StripArgs(locked + rest, MODEL, other) == StripArgs(rest, MODEL, other)
  {
    if locked == [] {
      assert locked + rest == rest;
    } else if |locked| == 2 {
      assert (locked + rest)[2..] == rest;
    } else {
      ModelOrTp(locked[0]);
      assert (locked + rest)[1..] == rest;
    }
  }

  lemma EditableOfMerged(base: seq<string>, submitted: seq<string>, omni: bool, n: nat, mode: Mode)
    requires WellLocked(base)
    ensures var e := Editable(base, submitted, omni, mode);
            Editable(base, Synced(base, submitted, omni, n, mode), omni, mode) ==
            if mode == Basic then e else Upsert(e, TP, Decimal(n))
  {
    var e, d := Editable(base, submitted, omni, mode), Decimal(n);
    var edited := Upsert(e, TP, d);
    SyncedShape(base, submitted, omni, n, mode);
    if omni {
      EditableIsOmniFree(base, submitted, mode);
      UpsertStaysOmniFree(e, n);
      OmniFreeIsUnchanged(edited);
    }
    LockedPartsAreRemoved(base, edited, omni);
    ModelArgIsRemoved(LockedModel(base), edited, if mode == Basic then TP else MODEL);
    EditableIsFree(base, submitted, omni, mode);
    if mode == Basic {
      AppendedTpIsRemoved(e, d);
    } else {
      SyncedTailIsFree(e, n);
      StripArgsKeepsFree(edited, MODEL, MODEL);
    }
  }

  lemma AppendedTpIsRemoved(e: seq<string>, d: string)
    requires Free(e, MODEL) && Free(e, TP)
    ensures StripArgs(Upsert(e, TP, d), MODEL, TP) == e
  {
    assert e + [] == e;
    UpsertSkips(e, [], TP, d);
    StripArgsSkips(e, [TP, d], MODEL, TP);
    assert [TP, d][2..] == [];
  }

  lemma EditableIsFree(base: seq<string>, submitted: seq<string>, omni: bool, mode: Mode)
    ensures Free(Editable(base, submitted, omni, mode), MODEL)
    ensures mode == Basic ==> Free(Editable(base, submitted, omni, mode), TP)
  {
    var rest := StripPrefix(submitted, LockedPrefix(base));
    var plain := if omni then StripOmni(rest) else rest;
    StripArgsIsFree(plain, MODEL, TP);
    StripArgsIsFree(plain, MODEL, MODEL);
  }

  /** Feeding the merged commands back as the submission changes nothing. */
  lemma SyncedTwice(base: seq<string>, submitted: seq<string>, omni: bool, n: nat, mode: Mode)
    requires WellLocked(base)
    ensures Synced(base, Synced(base, submitted, omni, n, mode), omni, n, mode) == Synced(base, submitted, omni, n, mode)
  {
    var once := Synced(base, submitted, omni, n, mode);
    EditableOfMerged(base, submitted, omni, n, mode);
    SyncedShape(base, submitted, omni, n, mode);
    SyncedShape(base, once, omni, n, mode);
    UpsertTwice(Editable(base, submitted, omni, mode), TP, Decimal(n), Decimal(n));
  }

  // ----- merged lists bring in no JSON-valued flag

  ghost predicate PlainToken(t: string) {
    MatchedFlag(Strip(t), JSON_FLAGS) == None
  }

  ghost predicate Plain(ts: seq<string>) {
    forall t :: t in ts ==> PlainToken(t)
  }

  lemma {:induction false} UnmatchedFlag(token: string, flags: seq<string>)
    requires forall i :: 0 <= i < |flags| ==> !Names(token, flags[i])
    ensures MatchedFlag(token, flags) == None
  {
    if flags != [] {
      assert !Names(token, flags[0]);
      UnmatchedFlag(token, flags[1..]);
    }
  }

  lemma JsonFlagShape(i: nat)
    requires i < |JSON_FLAGS|
    ensures var f := JSON_FLAGS[i]; |f| >= 3 && f[0] == '-' && (f[1] != '-' || f[2] != 't')
  {
  }

  lemma DashTIsPlain(t: string)
    requires Trimmed(t) && |t| >= 3 && t[1] == '-' && t[2] == 't'
    ensures PlainToken(t)
  {
    TrimmedIsStripped(t);
    forall i | 0 <= i < |JSON_FLAGS| ensures !Names(t, JSON_FLAGS[i]) {
      JsonFlagShape(i);
      DashTNotNamed(t, JSON_FLAGS[i]);
    }
    UnmatchedFlag(t, JSON_FLAGS);
  }

  lemma DigitIsPlain(t: string)
    requires Trimmed(t) && t != [] && IsDigit(t[0])
    ensures PlainToken(t)
  {
    TrimmedIsStripped(t);
    forall i | 0 <= i < |JSON_FLAGS| ensures !Names(t, JSON_FLAGS[i]) {
      JsonFlagShape(i);
      DigitNotNamed(t, JSON_FLAGS[i]);
    }
    UnmatchedFlag(t, JSON_FLAGS);
  }

  lemma DashTNotNamed(t: string, f: string)
    requires |t| >= 3 && t[1] == '-' && t[2] == 't' && |f| >= 3 && (f[1] != '-' || f[2] != 't')
    ensures !Names(t, f)
  {
  }

  lemma DigitNotNamed(t: string, f: string)
    requires t != [] && IsDigit(t[0]) && f != [] && f[0] == '-'
    ensures !Names(t, f)
  {
  }

  lemma TpIsPlain()
    ensures PlainToken(TP)
  {
    assert TP[0] == '-' && TP[1] == '-' && TP[2] == 't' && TP[|TP| - 1] == 'e';
    DashTIsPlain(TP);
  }

  lemma NumeralIsPlain(n: nat)
    ensures PlainToken(Decimal(n))
  {
    DecimalIsDigits(n);
    DigitIsPlain(Decimal(n));
  }

  lemma JoinedTpIsPlain(d: string)
    requires d != [] && IsDigit(d[|d| - 1])
    ensures PlainToken(TP + "=" + d)
  {
    var joined := TP + "=" + d;
    assert joined[0] == '-' && joined[1] == '-' && joined[2] == 't' && joined[|joined| - 1] == d[|d| - 1];
    DashTIsPlain(joined);
  }

  lemma PlainSubset(a: seq<string>, b: seq<string>)
    requires Plain(b) && forall t :: t in a ==> t in b
    ensures Plain(a)
  {
  }

  lemma PlainConcat(a: seq<string>, b: seq<string>)
    requires Plain(a) && Plain(b)
    ensures Plain(a + b)
  {
  }

  lemma PlainIsNoJson(ts: seq<string>)
    ensures Plain(ts) <==> NoJson(JSON_FLAGS, ts)
  {
    if NoJson(JSON_FLAGS, ts) {
      forall t | t in ts ensures PlainToken(t) {
        var i :| 0 <= i < |ts| && ts[i] == t;
      }
    }
    if Plain(ts) {
      forall i | 0 <= i < |ts| ensures MatchedFlag(Strip(ts[i]), JSON_FLAGS) == None {
        var t := ts[i];
        assert t in ts;
        assert PlainToken(t);
      }
    }
  }

  lemma {:induction false} UpsertStaysPlain(cmds: seq<string>, n: nat)
    requires Plain(cmds)
    ensures Plain(Upsert(cmds, TP, Decimal(n)))
  {
    TpIsPlain();
    NumeralIsPlain(n);
    DecimalIsDigits(n);
    JoinedTpIsPlain(Decimal(n));
    if cmds != [] {
      var first := cmds[0];
      assert first in cmds;
      if Names(cmds[0], TP) {
        var rest := if cmds[0] == TP then (if |cmds| >= 2 then cmds[2..] else []) else cmds[1..];
        StripArgsIsFree(rest, TP, TP);
        PlainSubset(StripArgs(rest, TP, TP), cmds);
      } else {
        PlainSubset(cmds[1..], cmds);
        UpsertStaysPlain(cmds[1..], n);
      }
    }
  }

  lemma {:induction false} OmniMembers(cmds: seq<string>)
    ensures forall t :: t in OmniTokens(cmds) ==> t in cmds
    ensures forall t :: t in StripOmni(cmds) ==> t in cmds
  {
    if cmds != [] {
      OmniMembers(cmds[1..]);
    }
  }

  lemma {:induction false} LockedModelMembers(base: seq<string>)
    ensures forall t :: t in LockedModel(base) ==> t in base
  {
    if base != [] && !Names(base[0], MODEL) {
      LockedModelMembers(base[1..]);
    }
  }

  lemma EditableMembers(base: seq<string>, submitted: seq<string>, omni: bool, mode: Mode)
    ensures forall t :: t in Editable(base, submitted, omni, mode) ==> t in submitted
  {
    var rest := StripPrefix(submitted, LockedPrefix(base));
    OmniMembers(rest);
    var plain := if omni then StripOmni(rest) else rest;
    StripArgsIsFree(plain, MODEL, TP);
    StripArgsIsFree(plain, MODEL, MODEL);
  }

  lemma SyncedIsPlain(base: seq<string>, submitted: seq<string>, omni: bool, n: nat, mode: Mode)
    requires Plain(base) && Plain(submitted)
    ensures Plain(Synced(base, submitted, omni, n, mode))
  {
    LeadingWordsShape(base);
    LockedModelMembers(base);
    OmniMembers(base);
    EditableMembers(base, submitted, omni, mode);
    PlainSubset(LockedPrefix(base), base);
    PlainSubset(LockedModel(base), base);
    PlainSubset(Kept(base, omni), base);
    PlainSubset(Editable(base, submitted, omni, mode), submitted);
    PlainConcat(LockedPrefix(base), LockedModel(base));
    PlainConcat(Kept(base, omni), Editable(base, submitted, omni, mode));
    PlainConcat(LockedPrefix(base) + LockedModel(base), Kept(base, omni) + Editable(base, submitted, omni, mode));
    UpsertStaysPlain(Unsynced(base, submitted, omni, mode), n);
  }
}
