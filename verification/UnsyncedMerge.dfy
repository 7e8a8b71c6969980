/**
 The merge without syncing, used for a catalog entry that names no model: when the result
 still names none, and when merging again changes nothing.
 */
module UnsyncedMerge {
  import opened Common
  import opened PyText
  import opened Commands
  import opened ModelTargets
  import opened CatalogMerge
  import opened ModelLock

  // ----- lists that name no model

  lemma {:induction false} NoModelArgsIff(cmds: seq<string>)
    ensures ModelArgs(cmds) == Ok([]) <==> Free(cmds, MODEL)
  {
    if cmds != [] {
      NoModelArgsIff(cmds[1..]);
      if Names(cmds[0], MODEL) {
        assert ModelArgs(cmds) != Ok([]);
      } else {
        FreeCons(cmds, MODEL);
      }
    }
  }

  lemma FreeCons(cmds: seq<string>, flag: string)
    requires cmds != []
    ensures Free(cmds, flag) <==> !Names(cmds[0], flag) && Free(cmds[1..], flag)
  {
    if !Names(cmds[0], flag) && Free(cmds[1..], flag) {
      forall i | 0 <= i < |cmds| ensures !Names(cmds[i], flag) {
        if i > 0 {
          assert cmds[i] == cmds[1..][i - 1];
        }
      }
    }
    if Free(cmds, flag) {
      forall i | 0 <= i < |cmds| - 1 ensures !Names(cmds[1..][i], flag) {
        assert cmds[1..][i] == cmds[i + 1];
      }
    }
  }

  /** No effective target exactly when no place that could name one does. */
  lemma NoTargetIff(cmds: seq<string>)
    ensures FindTargets(cmds) == Ok([]) <==> Positional(cmds) == [] && !StartsServe(cmds) && Free(cmds, MODEL)
  {
    NoModelArgsIff(cmds);
    if AllTargets(cmds).Ok? {
      AllTargetsAreNonempty(cmds);
      var all := AllTargets(cmds).value;
      if all != [] {
        assert all[0] in all;
        AddTargetsContains([], all, 0);
      }
    }
  }

  // ----- the shape of the result

  lemma {:induction false} FreeHasNoTokens(cmds: seq<string>, rest: seq<string>)
    requires Free(cmds, TP)
    ensures NamedTokens(cmds + rest, TP) == NamedTokens(rest, TP)
  {
    if cmds == [] {
      assert cmds + rest == rest;
    } else {
      assert (cmds + rest)[1..] == cmds[1..] + rest;
      assert !Names(cmds[0], TP);
      FreeHasNoTokens(cmds[1..], rest);
    }
  }

  /** The tokens of a named argument are nothing but its tokens: reading them again gives them all, removing them leaves none. */
  lemma {:induction false} TokensAreTokens(cmds: seq<string>)
    ensures NamedTokens(NamedTokens(cmds, TP), TP) == NamedTokens(cmds, TP)
    ensures StripArgs(NamedTokens(cmds, TP), MODEL, TP) == []
    decreases |cmds|
  {
    if cmds != [] {
      if cmds[0] == TP && |cmds| >= 2 {
        var rest := NamedTokens(cmds[2..], TP);
        TokensAreTokens(cmds[2..]);
        var all := cmds[..2] + rest;
        assert all[0] == TP && all[2..] == rest && all[..2] == cmds[..2];
      } else if cmds[0] == TP {
        assert cmds == [TP];
      } else if Joined(cmds[0], TP) {
        var rest := NamedTokens(cmds[1..], TP);
        TokensAreTokens(cmds[1..]);
        ModelOrTp(cmds[0]);
        assert ([cmds[0]] + rest)[1..] == rest;
      } else {
        TokensAreTokens(cmds[1..]);
      }
    }
  }

  lemma InheritedIsTokens(base: seq<string>, submitted: seq<string>)
    ensures var tp := Inherited(base, submitted);
            NamedTokens(tp, TP) == tp && StripArgs(tp, MODEL, TP) == []
  {
    TokensAreTokens(base);
    TokensAreTokens(submitted);
  }

  /** The edited part of the result: in basic mode with the carried-over tokens behind it. */
  function Edited(base: seq<string>, submitted: seq<string>, omni: bool, mode: Mode): seq<string> {
    Editable(base, submitted, omni, mode) + if mode == Basic then Inherited(base, submitted) else []
  }

  lemma LockedIsFree(base: seq<string>, submitted: seq<string>, omni: bool, mode: Mode)
    requires WellLocked(base)
    ensures mode == Basic ==> Free(Unsynced(base, submitted, omni, mode), TP)
  {
    DashlessIsFree(LockedPrefix(base));
    LockedModelIsPlain(base);
    KeptIsFree(base, omni);
    EditableIsFree(base, submitted, omni, mode);
  }

  lemma PreservedShape(base: seq<string>, submitted: seq<string>, omni: bool, mode: Mode)
    requires WellLocked(base)
    ensures Preserved(base, submitted, omni, mode) ==
            LockedPrefix(base) + (LockedModel(base) + (Kept(base, omni) + Edited(base, submitted, omni, mode)))
  {
    var p, l, k, e := LockedPrefix(base), LockedModel(base), Kept(base, omni), Editable(base, submitted, omni, mode);
    var merged, tp := Unsynced(base, submitted, omni, mode), Inherited(base, submitted);
    LockedIsFree(base, submitted, omni, mode);
    ConcatAssociates(p, l, k + e);
    if mode == Basic {
      FreeHasNoTokens(merged, []);
      assert merged + [] == merged;
      Regroup(p, l, k, e, tp);
    } else {
      assert e + [] == e;
    }
  }

  lemma Regroup<T>(p: seq<T>, l: seq<T>, k: seq<T>, e: seq<T>, tp: seq<T>)
    ensures p + (l + (k + e)) + tp == p + (l + (k + (e + tp)))
  {
  }

  // ----- merging again

  /** Once the omni flags are taken out of them, the carried-over tokens are still recognised as such. */
  predicate StillTokens(base: seq<string>, submitted: seq<string>, omni: bool, mode: Mode) {
    mode == Basic && omni ==> StripArgs(StripOmni(Inherited(base, submitted)), MODEL, TP) == []
  }

  /** What of the carried-over tokens comes back as an editable argument. */
  function Residue(base: seq<string>, submitted: seq<string>, omni: bool, mode: Mode): seq<string> {
    if mode == Basic && omni then StripArgs(StripOmni(Inherited(base, submitted)), MODEL, TP) else []
  }

  lemma EditableAgain(base: seq<string>, submitted: seq<string>, omni: bool, mode: Mode)
    requires WellLocked(base)
    ensures Editable(base, Preserved(base, submitted, omni, mode), omni, mode) ==
            Editable(base, submitted, omni, mode) + Residue(base, submitted, omni, mode)
  {
    var l, e, tp := LockedModel(base), Editable(base, submitted, omni, mode), Inherited(base, submitted);
    var edited := Edited(base, submitted, omni, mode);
    PreservedShape(base, submitted, omni, mode);
    LockedPartsAreRemoved(base, edited, omni);
    EditableIsFree(base, submitted, omni, mode);
    if omni {
      EditableIsOmniFree(base, submitted, mode);
      StripOmniSkips(e, if mode == Basic then tp else []);
    }
    if mode == Basic {
      var seen := if omni then StripOmni(tp) else tp;
      ModelArgIsRemoved(l, e + seen, TP);
      StripArgsSkips(e, seen, MODEL, TP);
      InheritedIsTokens(base, submitted);
    } else {
      assert e + [] == e;
      ModelArgIsRemoved(l, e, MODEL);
      StripArgsKeepsFree(e, MODEL, MODEL);
    }
  }

  lemma InheritedAgain(base: seq<string>, submitted: seq<string>, omni: bool)
    requires WellLocked(base)
    ensures Inherited(base, Preserved(base, submitted, omni, Basic)) == Inherited(base, submitted)
  {
    var merged, tp := Unsynced(base, submitted, omni, Basic), Inherited(base, submitted);
    LockedIsFree(base, submitted, omni, Basic);
    FreeHasNoTokens(merged, []);
    assert merged + [] == merged;
    FreeHasNoTokens(merged, tp);
    InheritedIsTokens(base, submitted);
  }

  /** In basic mode the result carries the customer's tensor-parallel tokens if there are any, else the base's, and no other. */
  lemma CustomersTokensWin(base: seq<string>, submitted: seq<string>, omni: bool)
    requires WellLocked(base)
    ensures var own, carried := NamedTokens(submitted, TP), NamedTokens(Preserved(base, submitted, omni, Basic), TP);
            carried == if own != [] then own else NamedTokens(base, TP)
  {
    var merged, tp := Unsynced(base, submitted, omni, Basic), Inherited(base, submitted);
    LockedIsFree(base, submitted, omni, Basic);
    FreeHasNoTokens(merged, []);
    assert merged + [] == merged;
    FreeHasNoTokens(merged, tp);
    InheritedIsTokens(base, submitted);
  }

  /** Feeding the result back as the submission changes nothing exactly when the carried-over tokens leave no residue. */
  lemma PreservedTwiceIff(base: seq<string>, submitted: seq<string>, omni: bool, mode: Mode)
    requires WellLocked(base)
    ensures Preserved(base, Preserved(base, submitted, omni, mode), omni, mode) == Preserved(base, submitted, omni, mode)
            <==> StillTokens(base, submitted, omni, mode)
  {
    var once := Preserved(base, submitted, omni, mode);
    var p, l, k := LockedPrefix(base), LockedModel(base), Kept(base, omni);
    PreservedShape(base, submitted, omni, mode);
    PreservedShape(base, once, omni, mode);
    EditableAgain(base, submitted, omni, mode);
    var e, x := Editable(base, submitted, omni, mode), Residue(base, submitted, omni, mode);
    if mode == Basic {
      InheritedAgain(base, submitted, omni);
    }
    var tp := if mode == Basic then Inherited(base, submitted) else [];
    assert |p + (l + (k + (e + x + tp)))| == |p + (l + (k + (e + tp)))| + |x|;
    if x == [] {
      assert e + x == e;
    }
  }

  /** A tensor-parallel value that is an omni flag: taken out, it leaves the tokens behind it misread. */
  lemma OmniValueLeavesResidue()
    ensures var submitted := [TP, OMNI, TP, "2"];
            Preserved([], Preserved([], submitted, true, Basic), true, Basic) != Preserved([], submitted, true, Basic)
  {
    ResidueTokens();
    OmniIsTakenOut();
    ResidueIsLeft();
    PreservedTwiceIff([], [TP, OMNI, TP, "2"], true, Basic);
  }

  lemma ResidueTokens()
    ensures Inherited([], [TP, OMNI, TP, "2"]) == [TP, OMNI, TP, "2"]
  {
    var submitted, tail := [TP, OMNI, TP, "2"], [TP, "2"];
    assert submitted[2..] == tail && tail[2..] == [] && submitted[..2] == [TP, OMNI] && tail[..2] == tail;
    assert NamedTokens(tail, TP) == tail + NamedTokens([], TP);
  }

  lemma ResidueIsLeft()
    ensures StripArgs([TP, TP, "2"], MODEL, TP) == ["2"]
  {
    assert [TP, TP, "2"][2..] == ["2"];
    assert "2"[0] == '2' && TP[0] == '-' && MODEL[0] == '-';
    assert Free(["2"], MODEL) && Free(["2"], TP);
    StripArgsKeepsFree(["2"], MODEL, TP);
  }

  lemma OmniIsTakenOut()
    ensures StripOmni([TP, OMNI, TP, "2"]) == [TP, TP, "2"]
  {
    TpIsNotOmni("");
    assert "2"[0] == '2' && TRUST[0] == '-' && OMNI[0] == '-';
    assert [TP, OMNI, TP, "2"] == [TP] + ([OMNI] + [TP, "2"]);
    StripOmniSkips([TP], [OMNI] + [TP, "2"]);
    StripOmniDrops([OMNI], [TP, "2"]);
    OmniFreeIsUnchanged([TP, "2"]);
  }

  // ----- what the result names

  /** The customer's tokens give the result a target: as its first words, or behind a lone `vllm`, or as a tensor-parallel value. */
  ghost predicate Gains(base: seq<string>, rest: seq<string>) {
    || !Free(rest, MODEL)
    || (LockedPrefix(base) == [] && (Positional(rest) != [] || StartsServe(rest)))
    || (LockedPrefix(base) == ["vllm"] && rest != [] && rest[0] == "serve")
  }

  lemma NoTargetIsWellLocked(base: seq<string>)
    requires FindTargets(base) == Ok([])
    ensures WellLocked(base) && LockedModel(base) == [] && LockedPrefix(base) == LeadingWords(base)
  {
    NoTargetIff(base);
    NoModelArgsIff(base);
    PrefixIsDashless(base);
    LockedIsFirstArg(base);
  }

  lemma SecondIsDashed(base: seq<string>)
    requires FindTargets(base) == Ok([]) && |LeadingWords(base)| == 1
    ensures LeadingWords(base) == base[..1] && !LooksLikeRepo(Strip(base[0]))
  {
    NoTargetIff(base);
    LeadingWordsShape(base);
    if |base| >= 2 {
      DashedIsNoWord(base[1]);
    }
  }

  /** A base without a target, prefixed to other tokens, has one exactly in the cases listed. */
  lemma PrefixedTargetIff(base: seq<string>, rest: seq<string>)
    requires FindTargets(base) == Ok([])
    ensures FindTargets(LockedPrefix(base) + rest) == Ok([]) <==> !Gains(base, rest)
  {
    var p := LockedPrefix(base);
    var all := p + rest;
    NoTargetIsWellLocked(base);
    NoTargetIff(base);
    NoTargetIff(all);
    LeadingWordsShape(base);
    DashlessIsFree(p);
    FreeConcat(p, rest, MODEL);
    if p == [] {
      assert all == rest;
    } else if |p| == 1 {
      SecondIsDashed(base);
      assert all[0] == base[0] == p[0];
      assert rest != [] ==> all[1] == rest[0];
    } else {
      assert all[0] == base[0] && all[1] == base[1];
    }
  }

  lemma FreeConcat(a: seq<string>, b: seq<string>, flag: string)
    ensures Free(a + b, flag) <==> Free(a, flag) && Free(b, flag)
  {
    if Free(a + b, flag) {
      forall i | 0 <= i < |a| ensures !Names(a[i], flag) { assert a[i] == (a + b)[i]; }
      forall i | 0 <= i < |b| ensures !Names(b[i], flag) { assert b[i] == (a + b)[|a| + i]; }
    }
  }

  /** Merging into a base without a target gives a list without one exactly when the customer's tokens do not bring one in. */
  lemma StaysWithoutTargetIff(base: seq<string>, submitted: seq<string>, omni: bool, mode: Mode)
    requires FindTargets(base) == Ok([])
    ensures FindTargets(Preserved(base, submitted, omni, mode)) == Ok([]) <==>
            !Gains(base, Kept(base, omni) + Edited(base, submitted, omni, mode))
  {
    var rest := Kept(base, omni) + Edited(base, submitted, omni, mode);
    NoTargetIsWellLocked(base);
    PreservedShape(base, submitted, omni, mode);
    assert [] + rest == rest;
    PrefixedTargetIff(base, rest);
  }

  /** An empty base gains the repository a customer submits. */
  lemma EmptyBaseGainsTarget()
    ensures FindTargets([]) == Ok([])
    ensures FindTargets(Preserved([], ["a/b"], false, Advanced)) != Ok([])
  {
    NoTargetIff([]);
    StaysWithoutTargetIff([], ["a/b"], false, Advanced);
    SimpleRepo();
    var rest := Kept([], false) + Edited([], ["a/b"], false, Advanced);
    assert "a/b"[0] == 'a';
    assert Free(["a/b"], MODEL);
    StripArgsKeepsFree(["a/b"], MODEL, MODEL);
    assert StripPrefix(["a/b"], []) == ["a/b"];
    assert rest == ["a/b"];
    assert Positional(["a/b"]) == ["a/b"];
  }

  // ----- a base whose target comes from elsewhere is merged with syncing

  /** With syncing, commands without a target stay without one exactly when the synced tokens of the customer do not bring one in. */
  lemma SyncedStaysWithoutTargetIff(base: seq<string>, submitted: seq<string>, omni: bool, n: nat, mode: Mode)
    requires FindTargets(base) == Ok([])
    ensures FindTargets(Synced(base, submitted, omni, n, mode)) == Ok([]) <==>
            !Gains(base, Upsert(Tail(base, submitted, omni, mode), TP, Decimal(n)))
  {
    var tail := Tail(base, submitted, omni, mode);
    NoTargetIsWellLocked(base);
    NoTargetIff(base);
    SyncedIsPrefixed(base, tail, n);
    assert [] + tail == tail;
    PrefixedTargetIff(base, Upsert(tail, TP, Decimal(n)));
  }

  lemma SyncedEmptyBaseGainsTarget()
    ensures FindTargets([]) == Ok([])
    ensures FindTargets(Synced([], ["a/b"], false, 1, Advanced)) != Ok([])
  {
    NoTargetIff([]);
    SyncedStaysWithoutTargetIff([], ["a/b"], false, 1, Advanced);
    SimpleSyncedTail();
    SimpleSyncedTarget();
  }

  lemma SimpleSyncedTail()
    ensures Upsert(Tail([], ["a/b"], false, Advanced), TP, Decimal(1)) == ["a/b", TP, Decimal(1)]
  {
    assert "a/b"[0] == 'a';
    assert Free(["a/b"], MODEL) && Free(["a/b"], TP);
    StripArgsKeepsFree(["a/b"], MODEL, MODEL);
    assert StripPrefix(["a/b"], []) == ["a/b"];
    assert Tail([], ["a/b"], false, Advanced) == ["a/b"];
    assert ["a/b"] + [] == ["a/b"];
    UpsertSkips(["a/b"], [], TP, Decimal(1));
    assert ["a/b"] + [TP, Decimal(1)] == ["a/b", TP, Decimal(1)];
  }

  lemma SimpleSyncedTarget()
    ensures Positional(["a/b", TP, Decimal(1)]) == ["a/b"]
  {
    SimpleRepo();
    assert TP[0] == '-';
    DashedIsNoWord(TP);
  }
}
