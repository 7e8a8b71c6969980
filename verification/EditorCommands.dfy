/** The commands the basic editor generates, what they serve, and what is recovered from them. */
module EditorCommands {
  import opened Common
  import opened PyText
  import opened Commands
  import opened ModelTargets
  import opened CatalogMerge
  import opened ModelLock
  import opened SpecEditor

  /** The customer's own arguments among the submitted ones. */
  function Own(image: string, partial: seq<string>): seq<string> {
    var extra := StripArgs(partial, MODEL, TP);
    if IsOmniImage(image) then StripOmni(extra) else extra
  }

  /** What is generated before them. */
  function Opening(model: string, image: string): seq<string> {
    if IsOmniImage(image) then ["vllm", "serve", model, TRUST, OMNI] else [MODEL, model]
  }

  function TpJoined(n: nat): string {
    TP + "=" + Decimal(n)
  }

  /** What is generated after them; nothing if the model's place already holds a tensor-parallel token. */
  function Closing(model: string, image: string, n: nat): seq<string> {
    if Names(model, TP) then [] else if IsOmniImage(image) then [TP, Decimal(n)] else [TpJoined(n)]
  }

  function Laid(model: string, image: string, n: nat, own: seq<string>): seq<string> {
    Opening(model, image) + (own + Closing(model, image, n))
  }

  /** The token that ends up in the model's place: syncing rewrites a joined tensor-parallel token there. */
  function StoredModel(hfModel: string, n: nat): string {
    if Joined(hfModel, TP) then TpJoined(n) else hfModel
  }

  /** What ends up in the place of the customer's arguments: a bare tensor-parallel flag as model takes the first one as its value. */
  function StoredOwn(hfModel: string, n: nat, own: seq<string>): seq<string> {
    if hfModel == TP then [Decimal(n)] + (if own == [] then [] else own[1..]) else own
  }

  /** A model name that generated commands can be opened with again. */
  predicate Openable(hfModel: string, image: string) {
    if IsOmniImage(image) then IsWord(hfModel) else Strip(hfModel) != ""
  }

  // ----- the customer's arguments

  lemma OwnIsFree(image: string, partial: seq<string>)
    ensures Free(Own(image, partial), MODEL) && Free(Own(image, partial), TP)
    ensures IsOmniImage(image) ==> OmniFree(Own(image, partial))
  {
    var extra := StripArgs(partial, MODEL, TP);
    StripArgsIsFree(partial, MODEL, TP);
    if IsOmniImage(image) {
      StripOmniIsOmniFree(extra);
      OmniMembers(extra);
      FreeSubset(StripOmni(extra), extra, MODEL);
      FreeSubset(StripOmni(extra), extra, TP);
    }
  }

  lemma FreeSubset(a: seq<string>, b: seq<string>, flag: string)
    requires Free(b, flag) && forall t :: t in a ==> t in b
    ensures Free(a, flag)
  {
    forall i | 0 <= i < |a| ensures !Names(a[i], flag) {
      var t := a[i];
      assert t in a;
      assert t in b;
    }
  }

  /** Arguments that mention nothing generated, as all recovered arguments do. */
  ghost predicate Unreserved(image: string, own: seq<string>) {
    Free(own, MODEL) && Free(own, TP) && (IsOmniImage(image) ==> OmniFree(own))
  }

  lemma UnreservedIsOwn(image: string, own: seq<string>)
    requires Unreserved(image, own)
    ensures Own(image, own) == own
  {
    StripArgsKeepsFree(own, MODEL, TP);
    if IsOmniImage(image) {
      OmniFreeIsUnchanged(own);
    }
  }

  lemma StoredOwnIsUnreserved(hfModel: string, image: string, n: nat, own: seq<string>)
    requires Unreserved(image, own)
    ensures Unreserved(image, StoredOwn(hfModel, n, own))
  {
    NumeralIsNoFlag(n);
  }

  // ----- the shape of generated commands

  lemma NamedStartsWithDash(t: string)
    ensures Names(t, MODEL) || Names(t, TP) ==> t != [] && t[0] == '-'
  {
    if Names(t, MODEL) || Names(t, TP) {
      NamedIsDashed(t);
    }
  }

  lemma ServeWordsAreFree()
    ensures !Names("vllm", TP) && !Names("serve", TP) && !Names("vllm", MODEL) && !Names("serve", MODEL)
  {
    assert "vllm"[0] == 'v' && "serve"[0] == 's';
    NamedStartsWithDash("vllm");
    NamedStartsWithDash("serve");
  }

  lemma OpeningIsFree(hfModel: string, image: string)
    requires !Names(hfModel, TP)
    ensures Free(Opening(hfModel, image), TP)
  {
    ModelOrTp(MODEL);
    OmniIsNeither(TRUST);
    OmniIsNeither(OMNI);
    ServeWordsAreFree();
  }

  lemma JoinedStays(d: string)
    ensures Upsert([TP + "=" + d], TP, d) == [TP + "=" + d]
    ensures StripArgs([TP + "=" + d], MODEL, TP) == [] && StripArgs([TP + "=" + d], TP, TP) == []
  {
    var t := TP + "=" + d;
    assert Joined(t, TP) && t != TP;
    ModelOrTp(t);
    assert [t][1..] == [];
  }

  /** For an ordinary model name. */
  lemma PlainShape(hfModel: string, image: string, n: nat, partial: seq<string>)
    requires !Names(hfModel, TP)
    ensures GeneratedSynced(hfModel, image, n, partial) == Laid(hfModel, image, n, Own(image, partial))
  {
    var open, own, d := Opening(hfModel, image), Own(image, partial), Decimal(n);
    OpeningIsFree(hfModel, image);
    OwnIsFree(image, partial);
    if IsOmniImage(image) {
      UpsertSkips(open, own, TP, d);
      assert own + [] == own;
      UpsertSkips(own, [], TP, d);
    } else {
      var joined := [TpJoined(n)];
      assert open + own + joined == open + (own + joined);
      UpsertSkips(open, own + joined, TP, d);
      UpsertSkips(own, joined, TP, d);
      JoinedStays(d);
    }
  }

  lemma SyncAtModel(hfModel: string, rest: seq<string>, n: nat)
    ensures Upsert([MODEL, hfModel] + rest, TP, Decimal(n)) == [MODEL] + Upsert([hfModel] + rest, TP, Decimal(n))
  {
    ModelOrTp(MODEL);
    assert [MODEL, hfModel] + rest == [MODEL] + ([hfModel] + rest);
    UpsertSkips([MODEL], [hfModel] + rest, TP, Decimal(n));
  }

  lemma ClosingIsDropped(own: seq<string>, n: nat)
    requires Free(own, TP)
    ensures StripArgs(own + [TpJoined(n)], TP, TP) == own
  {
    StripArgsSkips(own, [TpJoined(n)], TP, TP);
    JoinedStays(Decimal(n));
    assert own + [] == own;
  }

  /** For a model name that is itself a joined tensor-parallel token: it is rewritten, and the generated one goes. */
  lemma JoinedShape(hfModel: string, image: string, n: nat, partial: seq<string>)
    requires Joined(hfModel, TP) && !IsOmniImage(image)
    ensures GeneratedSynced(hfModel, image, n, partial) == Laid(TpJoined(n), image, n, Own(image, partial))
  {
    var own := Own(image, partial);
    var rest := own + [TpJoined(n)];
    OwnIsFree(image, partial);
    GeneratedAtModel(hfModel, image, n, partial);
    SyncAtModel(hfModel, rest, n);
    assert ([hfModel] + rest)[1..] == rest;
    ClosingIsDropped(own, n);
    TpTokensAreNotModel(Decimal(n));
    assert own + [] == own;
    assert [MODEL] + ([TpJoined(n)] + own) == [MODEL, TpJoined(n)] + own;
  }

  /** For the bare tensor-parallel flag as model name: the count goes in after it, over the first argument. */
  lemma BareShape(image: string, n: nat, partial: seq<string>)
    requires !IsOmniImage(image)
    ensures GeneratedSynced(TP, image, n, partial) == Laid(TP, image, n, StoredOwn(TP, n, Own(image, partial)))
  {
    var own := Own(image, partial);
    OwnIsFree(image, partial);
    GeneratedAtModel(TP, image, n, partial);
    UpsertBareSecond(own + [TpJoined(n)], Decimal(n));
    FirstIsOverwritten(own, n);
    assert StoredOwn(TP, n, own) + [] == StoredOwn(TP, n, own);
  }

  lemma GeneratedAtModel(hfModel: string, image: string, n: nat, partial: seq<string>)
    requires !IsOmniImage(image)
    ensures Generated(hfModel, image, n, partial) == [MODEL, hfModel] + (Own(image, partial) + [TpJoined(n)])
  {
    ConcatAssociates([MODEL, hfModel], Own(image, partial), [TpJoined(n)]);
  }

  lemma FirstIsOverwritten(own: seq<string>, n: nat)
    requires Free(own, TP)
    ensures StripArgs((own + [TpJoined(n)])[1..], TP, TP) == if own == [] then [] else own[1..]
  {
    var rest := own + [TpJoined(n)];
    if own == [] {
      assert rest[1..] == [];
    } else {
      assert rest[1..] == own[1..] + [TpJoined(n)];
      ClosingIsDropped(own[1..], n);
    }
  }

  /** Generated and synced commands, for every model name that can be opened again. */
  lemma GeneratedShape(hfModel: string, image: string, n: nat, partial: seq<string>)
    requires Openable(hfModel, image)
    ensures GeneratedSynced(hfModel, image, n, partial) ==
            Laid(StoredModel(hfModel, n), image, n, StoredOwn(hfModel, n, Own(image, partial)))
  {
    if !Names(hfModel, TP) {
      PlainShape(hfModel, image, n, partial);
    } else {
      NamedIsDashed(hfModel);
      DashedIsNoWord(hfModel);
      if hfModel == TP {
        BareIsNotJoined();
        BareShape(image, n, partial);
      } else {
        JoinedShape(hfModel, image, n, partial);
      }
    }
  }

  lemma BareIsNotJoined()
    ensures !Joined(TP, TP)
  {
    assert |TP + "="| > |TP|;
  }

  // ----- what is recovered

  lemma ClosingIsStripped(own: seq<string>, model: string, image: string, n: nat)
    requires Free(own, MODEL) && Free(own, TP)
    ensures StripArgs(own + Closing(model, image, n), MODEL, TP) == own
  {
    var close := Closing(model, image, n);
    StripArgsSkips(own, close, MODEL, TP);
    JoinedStays(Decimal(n));
    assert [TP, Decimal(n)][2..] == [];
    assert StripArgs(close, MODEL, TP) == [];
    assert own + [] == own;
  }

  lemma ClosingIsOmniFree(model: string, image: string, n: nat)
    requires IsOmniImage(image)
    ensures StripOmni(Closing(model, image, n)) == Closing(model, image, n)
  {
    TpIsNotOmni("");
    NumeralIsNoFlag(n);
    OmniFreeIsUnchanged(Closing(model, image, n));
  }

  /** Opening stored commands recovers what stands in the place of the customer's arguments. */
  lemma LaidIsRecovered(model: string, image: string, n: nat, own: seq<string>)
    requires Unreserved(image, own)
    ensures Recovered(image, Laid(model, image, n, own)) == own
  {
    var close := Closing(model, image, n);
    ClosingIsStripped(own, model, image, n);
    if IsOmniImage(image) {
      ClosingIsOmniFree(model, image, n);
      OmniLaidIsRecovered(model, image, own, close);
    } else {
      ModelArgIsRemoved([MODEL, model], own + close, TP);
    }
  }

  lemma OmniLaidIsRecovered(model: string, image: string, own: seq<string>, close: seq<string>)
    requires IsOmniImage(image) && OmniFree(own) && StripOmni(close) == close
    ensures Recovered(image, ["vllm", "serve", model, TRUST, OMNI] + (own + close)) == StripArgs(own + close, MODEL, TP)
  {
    var commands := ["vllm", "serve", model, TRUST, OMNI] + (own + close);
    assert commands[3..] == [TRUST, OMNI] + (own + close);
    StripOmniDrops([TRUST, OMNI], own + close);
    StripOmniSkips(own, close);
  }

  /** Opening commands as generated recovers the customer's arguments, for every model name. */
  lemma GeneratedIsRecovered(hfModel: string, image: string, n: nat, partial: seq<string>)
    ensures Recovered(image, Generated(hfModel, image, n, partial)) == Own(image, partial)
  {
    var own := Own(image, partial);
    OwnIsFree(image, partial);
    if IsOmniImage(image) {
      OmniArgsAreRecovered(hfModel, image, own);
    } else {
      GeneratedAtModel(hfModel, image, n, partial);
      ModelArgIsRemoved([MODEL, hfModel], own + [TpJoined(n)], TP);
      JoinedIsStripped(own, n);
    }
  }

  lemma OmniArgsAreRecovered(hfModel: string, image: string, own: seq<string>)
    requires IsOmniImage(image) && Unreserved(image, own)
    ensures Recovered(image, ["vllm", "serve", hfModel, TRUST, OMNI] + own) == own
  {
    var commands := ["vllm", "serve", hfModel, TRUST, OMNI] + own;
    assert commands[3..] == [TRUST, OMNI] + own;
    StripOmniDrops([TRUST, OMNI], own);
    OmniFreeIsUnchanged(own);
    StripArgsKeepsFree(own, MODEL, TP);
  }

  lemma JoinedIsStripped(own: seq<string>, n: nat)
    requires Free(own, MODEL) && Free(own, TP)
    ensures StripArgs(own + [TpJoined(n)], MODEL, TP) == own
  {
    StripArgsSkips(own, [TpJoined(n)], MODEL, TP);
    JoinedStays(Decimal(n));
    assert own + [] == own;
  }

  // ----- what is served

  lemma WordIsNoFlag(t: string)
    requires IsWord(t)
    ensures !("-" <= t) && !Names(t, TP) && !Names(t, MODEL)
  {
    if "-" <= t {
      DashedIsNoWord(t);
    }
    NamedStartsWithDash(t);
  }

  lemma OmniTargets(hfModel: string, rest: seq<string>)
    requires IsWord(hfModel) && Free(rest, MODEL)
    ensures AllTargets(["vllm", "serve", hfModel, TRUST, OMNI] + rest) == Ok([Normalize(hfModel)])
  {
    var open := ["vllm", "serve", hfModel, TRUST, OMNI];
    var commands := open + rest;
    assert commands[0] == "vllm" && commands[1] == "serve" && commands[2] == hfModel;
    VllmIsNoRepo();
    ServeWordsAreFree();
    WordIsNoFlag(hfModel);
    OmniIsNeither(TRUST);
    OmniIsNeither(OMNI);
    assert Free(open, MODEL);
    ModelArgsSkips(open, rest);
    FreeHasNoModelArgs(rest);
    assert [] + [Normalize(hfModel)] + [] == [Normalize(hfModel)];
  }

  lemma PlainTargets(hfModel: string, rest: seq<string>)
    requires Strip(hfModel) != "" && Free(rest, MODEL)
    ensures AllTargets([MODEL, hfModel] + rest) == Ok([Normalize(hfModel)])
  {
    var commands := [MODEL, hfModel] + rest;
    assert commands[0] == MODEL && commands[1] == hfModel && MODEL[0] == '-';
    NamedIsDashed(MODEL);
    DashedIsNoWord(MODEL);
    FreeHasNoModelArgs(rest);
    assert commands[2..] == rest;
    assert [Normalize(hfModel)] + [] == [Normalize(hfModel)];
    assert [] + [] + [Normalize(hfModel)] == [Normalize(hfModel)];
  }

  lemma ClosingIsModelFree(model: string, image: string, n: nat)
    ensures Free(Closing(model, image, n), MODEL)
  {
    TpTokensAreNotModel(Decimal(n));
    NumeralIsNoFlag(n);
  }

  /** Stored commands serve the model in their model's place, in its normal form, and nothing else. */
  lemma LaidTarget(model: string, image: string, n: nat, own: seq<string>)
    requires Openable(model, image) && Free(own, MODEL)
    ensures FindTargets(Laid(model, image, n, own)) == Ok([Normalize(model)])
  {
    var close := Closing(model, image, n);
    ClosingIsModelFree(model, image, n);
    assert Free(own + close, MODEL);
    if IsOmniImage(image) {
      OmniTargets(model, own + close);
    } else {
      PlainTargets(model, own + close);
    }
    NormalizeIsNonempty(model);
    OneTargetIff([Normalize(model)], Normalize(model));
  }

  /** The token in the model's place is the model, or a tensor-parallel token that syncing put there. */
  lemma ModelPlace(hfModel: string, image: string, n: nat, partial: seq<string>)
    ensures var at := if IsOmniImage(image) then 2 else 1;
            var commands := GeneratedSynced(hfModel, image, n, partial);
            && |commands| > at
            && (if Names(hfModel, TP) then Names(commands[at], TP) else commands[at] == hfModel)
            && (if IsOmniImage(image) then commands[0] == "vllm" && commands[1] == "serve" else commands[0] == MODEL)
  {
    var d := Decimal(n);
    ServeWordsAreFree();
    ModelOrTp(MODEL);
    var head := if IsOmniImage(image) then ["vllm", "serve"] else [MODEL];
    var full := Generated(hfModel, image, n, partial);
    var rest := full[|head|..];
    assert full == head + rest && rest != [] && rest[0] == hfModel;
    assert Free(head, TP);
    UpsertSkips(head, rest, TP, d);
    UpsertHead(rest, d);
  }

  /** A model name that cannot be opened again: what was generated for it has no readable target. */
  lemma UnopenableHasNoTarget(hfModel: string, image: string, n: nat, partial: seq<string>)
    requires !Openable(hfModel, image)
    ensures FindTargets(GeneratedSynced(hfModel, image, n, partial)) == Err
  {
    ModelPlace(hfModel, image, n, partial);
    var commands := GeneratedSynced(hfModel, image, n, partial);
    if IsOmniImage(image) {
      if Names(hfModel, TP) {
        NamedIsDashed(commands[2]);
        DashedIsNoWord(commands[2]);
      }
      assert Served(commands) == Err;
    } else {
      BlankIsNoFlag(hfModel);
      assert ModelArgs(commands) == Err;
    }
  }

  lemma BlankIsNoFlag(t: string)
    requires Strip(t) == ""
    ensures !Names(t, TP)
  {
    if Names(t, TP) {
      NamedIsDashed(t);
      assert t[0] == '-';
      StripKeepsFirst(t);
    }
  }

  /** Regenerating for a model other than the stored one changes the commands. */
  lemma OtherModelDiffers(hfModel: string, other: string, image: string, n: nat, partial: seq<string>, partial': seq<string>)
    requires !Names(hfModel, TP) && other != hfModel
    ensures GeneratedSynced(other, image, n, partial') != GeneratedSynced(hfModel, image, n, partial)
  {
    ModelPlace(other, image, n, partial');
    ModelPlace(hfModel, image, n, partial);
  }

  /** In the place of the customer's arguments, different arguments give different commands. */
  lemma LaidIsInjective(model: string, image: string, n: nat, own: seq<string>, own': seq<string>)
    requires Laid(model, image, n, own) == Laid(model, image, n, own')
    ensures own == own'
  {
    Middle(Opening(model, image), own, Closing(model, image, n));
    Middle(Opening(model, image), own', Closing(model, image, n));
    assert |own| == |own'|;
  }

  lemma Middle<T>(a: seq<T>, b: seq<T>, c: seq<T>)
    ensures |a + (b + c)| == |a| + |b| + |c| && (a + (b + c))[|a|..|a| + |b|] == b
  {
  }

  // ----- a stored model is its own stored model

  lemma StoredIsOpenable(hfModel: string, image: string, n: nat)
    requires Openable(hfModel, image)
    ensures Openable(StoredModel(hfModel, n), image)
  {
    if Joined(hfModel, TP) {
      NamedIsDashed(hfModel);
      DashedIsNoWord(hfModel);
      TpJoinedIsNormal(n);
    }
  }

  lemma NoSlashIsNormal(t: string)
    requires '/' !in t && Strip(t) == t
    ensures Normalize(t) == t
  {
    if t != "" {
      SplitWithout(t, '/');
      assert ['/'] == "/";
      assert Split(t, "/") == [t];
      assert [t][1..] == [];
      assert NonEmpty([]) == [];
      assert NonEmpty([t]) == [t];
      assert SnapshotRepo([]) == None;
    }
  }

  lemma TpJoinedIsNormal(n: nat)
    ensures Strip(TpJoined(n)) == TpJoined(n) != "" && Normalize(TpJoined(n)) == TpJoined(n)
    ensures Joined(TpJoined(n), TP) && TpJoined(n) != TP
  {
    var t := TpJoined(n);
    DecimalIsDigits(n);
    assert t[0] == '-' && t[|t| - 1] == Decimal(n)[|Decimal(n)| - 1];
    TrimmedIsStripped(t);
    forall i | 0 <= i < |t| ensures t[i] != '/' {
      if i >= |TP| + 1 {
        assert t[i] == Decimal(n)[i - |TP| - 1];
      } else if i < |TP| {
        assert t[i] == TP[i];
        TpHasNoSlash(i);
      }
    }
    NoSlashIsNormal(t);
    assert Joined(t, TP);
  }

  lemma TpHasNoSlash(i: nat)
    requires i < |TP|
    ensures TP[i] != '/'
  {
  }

  lemma TpIsNormal()
    ensures Strip(TP) == TP != "" && Normalize(TP) == TP
  {
    assert TP[0] == '-' && TP[|TP| - 1] == 'e';
    TrimmedIsStripped(TP);
    forall i | 0 <= i < |TP| ensures TP[i] != '/' {
      TpHasNoSlash(i);
    }
    NoSlashIsNormal(TP);
  }

  // ----- the steps of the source

  /**
   `build_generated_runtime_commands`: opening the result gives back exactly the customer's
   arguments, and it serves the normal form of the model and nothing else.
   */
  method BuildGeneratedCommands(hfModel: string, image: string, gpuCount: nat, partial: seq<string>) returns (full: seq<string>)
    ensures full == Generated(hfModel, image, gpuCount, partial)
    ensures Recovered(image, full) == Own(image, partial)
    ensures Openable(hfModel, image) ==> FindTargets(full) == Ok([Normalize(hfModel)])
  {
    GeneratedIsRecovered(hfModel, image, gpuCount, partial);
    GeneratedServes(hfModel, image, gpuCount, partial);
    var extra := StripNamedArgs(partial, MODEL, TP);
    if IsOmniImage(image) {
      extra := StripOmniArgs(extra);
      return ["vllm", "serve", hfModel, TRUST, OMNI] + extra;
    }
    full := [MODEL, hfModel];
    full := full + extra;
    full := full + [TP + "=" + Decimal(gpuCount)];
  }

  lemma GeneratedServes(hfModel: string, image: string, n: nat, partial: seq<string>)
    ensures Openable(hfModel, image) ==> FindTargets(Generated(hfModel, image, n, partial)) == Ok([Normalize(hfModel)])
  {
    if Openable(hfModel, image) {
      var own := Own(image, partial);
      OwnIsFree(image, partial);
      TpTokensAreNotModel(Decimal(n));
      if IsOmniImage(image) {
        OmniTargets(hfModel, own);
      } else {
        assert Free(own + [TpJoined(n)], MODEL);
        assert [MODEL, hfModel] + own + [TpJoined(n)] == [MODEL, hfModel] + (own + [TpJoined(n)]);
        PlainTargets(hfModel, own + [TpJoined(n)]);
      }
      NormalizeIsNonempty(hfModel);
      OneTargetIff([Normalize(hfModel)], Normalize(hfModel));
    }
  }

  /** The command part of opening a spec: nothing generated is left, and of generated commands the customer's arguments are. */
  method RecoverCommands(image: string, commands: seq<string>) returns (clean: seq<string>)
    ensures clean == Recovered(image, commands)
    ensures Unreserved(image, clean)
    ensures forall hfModel, n, partial :: commands == Generated(hfModel, image, n, partial) ==> clean == Own(image, partial)
  {
    clean := commands;
    if IsOmniImage(image) {
      if |clean| >= 3 && clean[0] == "vllm" && clean[1] == "serve" {
        clean := clean[3..];
      }
      clean := StripOmniArgs(clean);
    }
    clean := StripNamedArgs(clean, MODEL, TP);
    RecoveredIsUnreserved(image, commands);
    forall hfModel, n, partial | commands == Generated(hfModel, image, n, partial) ensures clean == Own(image, partial) {
      GeneratedIsRecovered(hfModel, image, n, partial);
    }
  }

  lemma RecoveredIsUnreserved(image: string, commands: seq<string>)
    ensures Unreserved(image, Recovered(image, commands))
  {
    if IsOmniImage(image) {
      var rest := if |commands| >= 3 && StartsServe(commands) then commands[3..] else commands;
      var plain := StripOmni(rest);
      StripOmniIsOmniFree(rest);
      StripArgsIsFree(plain, MODEL, TP);
      OmniFreeFromMembers(StripArgs(plain, MODEL, TP), plain);
    } else {
      StripArgsIsFree(commands, MODEL, TP);
    }
  }
}
