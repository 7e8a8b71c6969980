/**
 The no-op test of a function that came from a catalog entry: its stored commands and
 environment are projected for the basic editor and merged into themselves.
 */
module CatalogNoOp {
  import opened Common
  import opened PyText
  import opened Commands
  import opened ModelTargets
  import opened CatalogMerge
  import opened ModelLock
  import opened EnvMerge
  import opened SpecEditor
  import opened EditorCommands
  import opened LockHistory

  // ----- commands

  /** Stored commands behind their locked prefix. */
  function Behind(m: seq<string>): seq<string> {
    if LockedPrefix(m) <= m then m[|LockedPrefix(m)|..] else m
  }

  /** The customer's arguments among them. */
  function Customers(image: string, m: seq<string>): seq<string> {
    StripArgs(if IsOmniImage(image) then StripOmni(Behind(m)) else Behind(m), MODEL, TP)
  }

  /** Locked prefix, model argument, omni flags, customer's arguments, and the count as two tokens: the order of a basic merge. */
  predicate InCatalogOrder(image: string, m: seq<string>, n: nat) {
    Behind(m) == LockedModel(m) + (Kept(m, IsOmniImage(image)) + (Customers(image, m) + [TP, Decimal(n)]))
  }

  /** For an omni image, customer's arguments that repeat the locked `vllm serve MODEL`, which is then taken off twice. */
  predicate Repeated(image: string, m: seq<string>) {
    IsOmniImage(image) && StartsServe(m) && LockedPrefix(m) <= Customers(image, m)
  }

  lemma Decomposes(m: seq<string>)
    requires AllTargets(m).Ok?
    ensures m == LockedPrefix(m) + Behind(m) && Dashless(LockedPrefix(m)) && (StartsServe(m) ==> |LockedPrefix(m)| == 3)
  {
    PrefixIsDashless(m);
  }

  lemma DashlessIsOmniFree(p: seq<string>)
    requires Dashless(p)
    ensures OmniFree(p)
  {
    forall i | 0 <= i < |p| ensures !IsOmniToken(p[i]) {
      if IsOmniToken(p[i]) {
        NamedIsDashed(p[i]);
      }
    }
  }

  /** What the basic editor shows of stored commands. */
  lemma RecoveredIs(image: string, m: seq<string>)
    requires AllTargets(m).Ok?
    ensures Recovered(image, m) ==
            (if IsOmniImage(image) && StartsServe(m) then [] else LockedPrefix(m)) + Customers(image, m)
  {
    var p, rest := LockedPrefix(m), Behind(m);
    Decomposes(m);
    DashlessIsFree(p);
    DashlessIsOmniFree(p);
    if IsOmniImage(image) {
      if StartsServe(m) {
        assert m[3..] == rest;
        assert [] + Customers(image, m) == Customers(image, m);
      } else {
        StripOmniSkips(p, rest);
        StripArgsSkips(p, StripOmni(rest), MODEL, TP);
      }
    } else {
      StripArgsSkips(p, rest, MODEL, TP);
    }
  }

  lemma CustomersAreUnreserved(image: string, m: seq<string>)
    ensures Unreserved(image, Customers(image, m))
  {
    var plain := if IsOmniImage(image) then StripOmni(Behind(m)) else Behind(m);
    StripArgsIsFree(plain, MODEL, TP);
    if IsOmniImage(image) {
      StripOmniIsOmniFree(Behind(m));
      OmniFreeFromMembers(Customers(image, m), plain);
    }
  }

  /** What of that is editable when it is merged into the stored commands. */
  function Edited(image: string, m: seq<string>): seq<string> {
    if Repeated(image, m) then Customers(image, m)[|LockedPrefix(m)|..] else Customers(image, m)
  }

  lemma EditableIs(image: string, m: seq<string>)
    requires AllTargets(m).Ok?
    ensures Editable(m, Recovered(image, m), IsOmniImage(image), Basic) == Edited(image, m)
  {
    var p, c, e := LockedPrefix(m), Customers(image, m), Edited(image, m);
    Decomposes(m);
    RecoveredIs(image, m);
    if IsOmniImage(image) && StartsServe(m) {
      assert [] + c == c;
    } else {
      assert (p + c)[|p|..] == c;
    }
    assert StripPrefix(Recovered(image, m), p) == e;
    EditedIsUnreserved(image, m);
    StripArgsKeepsFree(e, MODEL, TP);
    if IsOmniImage(image) {
      OmniFreeIsUnchanged(e);
    }
  }

  lemma EditedIsUnreserved(image: string, m: seq<string>)
    ensures Unreserved(image, Edited(image, m))
  {
    var c, p := Customers(image, m), LockedPrefix(m);
    CustomersAreUnreserved(image, m);
    if Repeated(image, m) {
      assert forall i :: 0 <= i < |c| - |p| ==> c[|p|..][i] == c[|p| + i];
    }
  }

  /** Merging stored commands into themselves writes them in catalog order. */
  lemma MergedIntoItself(image: string, m: seq<string>, n: nat)
    requires AllTargets(m).Ok? && WellLocked(m)
    ensures Synced(m, Recovered(image, m), IsOmniImage(image), n, Basic) ==
            LockedPrefix(m) + (LockedModel(m) + (Kept(m, IsOmniImage(image)) + (Edited(image, m) + [TP, Decimal(n)])))
  {
    var e := Edited(image, m);
    EditableIs(image, m);
    SyncedShape(m, Recovered(image, m), IsOmniImage(image), n, Basic);
    EditableIsFree(m, Recovered(image, m), IsOmniImage(image), Basic);
    assert e + [] == e;
    UpsertSkips(e, [], TP, Decimal(n));
  }

  /**
   A no-op save keeps the stored commands exactly when they are in catalog order and the
   customer's arguments do not repeat the locked prefix.
   */
  lemma CommandsSurviveIff(image: string, m: seq<string>, n: nat)
    requires AllTargets(m).Ok? && WellLocked(m)
    ensures Synced(m, Recovered(image, m), IsOmniImage(image), n, Basic) == m <==>
            InCatalogOrder(image, m, n) && !Repeated(image, m)
  {
    var p, l, k, e, t := LockedPrefix(m), LockedModel(m), Kept(m, IsOmniImage(image)), Edited(image, m), [TP, Decimal(n)];
    Decomposes(m);
    MergedIntoItself(image, m, n);
    CancelPrefix(p, l + (k + (e + t)), Behind(m));
    OrderedIsNotRepeated(image, m, n);
  }

  lemma OrderedIsNotRepeated(image: string, m: seq<string>, n: nat)
    requires AllTargets(m).Ok? && WellLocked(m)
    ensures Behind(m) == LockedModel(m) + (Kept(m, IsOmniImage(image)) + (Edited(image, m) + [TP, Decimal(n)])) ==> !Repeated(image, m)
  {
    if Behind(m) == LockedModel(m) + (Kept(m, IsOmniImage(image)) + (Edited(image, m) + [TP, Decimal(n)])) {
      EditedIsUnreserved(image, m);
      CustomersOfOrdered(image, m, Edited(image, m), n);
      Decomposes(m);
    }
  }

  /** Of commands in catalog order the customer's arguments are those in their place. */
  lemma CustomersOfOrdered(image: string, m: seq<string>, e: seq<string>, n: nat)
    requires WellLocked(m) && Unreserved(image, e)
    requires Behind(m) == LockedModel(m) + (Kept(m, IsOmniImage(image)) + (e + [TP, Decimal(n)]))
    ensures Customers(image, m) == e
  {
    var l, k, t := LockedModel(m), Kept(m, IsOmniImage(image)), [TP, Decimal(n)];
    NumeralIsNoFlag(n);
    TpIsNotOmni("");
    if IsOmniImage(image) {
      LockedModelIsPlain(m);
      OmniTokensAreOmni(m);
      StripOmniSkips(l, k + (e + t));
      StripOmniDrops(k, e + t);
      OmniFreeIsUnchanged(e + t);
    } else {
      assert k + (e + t) == e + t;
    }
    ModelArgIsRemoved(l, e + t, TP);
    StripArgsSkips(e, t, MODEL, TP);
    assert t[2..] == [] && e + [] == e;
  }

  // ----- what a merge has stored

  /** The edited part of a merged list, with its tensor-parallel argument synced. */
  function Synchronised(b: seq<string>, submitted: seq<string>, omni: bool, n: nat, mode: Mode): seq<string> {
    Upsert(Editable(b, submitted, omni, mode), TP, Decimal(n))
  }

  lemma KeptStays(b: seq<string>, rest: seq<string>, omni: bool)
    requires WellLocked(b) && (omni ==> OmniFree(rest))
    ensures Kept(LockedPrefix(b) + (LockedModel(b) + (Kept(b, omni) + rest)), omni) == Kept(b, omni)
  {
    if omni {
      var p, l, k := LockedPrefix(b), LockedModel(b), Kept(b, omni);
      DashlessIsOmniFree(p);
      LockedModelIsPlain(b);
      OmniTokensAreOmni(b);
      OmniTokensSkips(p, l + (k + rest));
      OmniTokensSkips(l, k + rest);
      OmniTokensKeeps(k, rest);
      assert rest + [] == rest;
      OmniTokensSkips(rest, []);
      assert k + [] == k;
    }
  }

  lemma {:induction false} OmniTokensSkips(a: seq<string>, b: seq<string>)
    requires OmniFree(a)
    ensures OmniTokens(a + b) == OmniTokens(b)
  {
    if a == [] {
      assert a + b == b;
    } else {
      assert (a + b)[1..] == a[1..] + b;
      OmniTokensSkips(a[1..], b);
    }
  }

  lemma {:induction false} OmniTokensKeeps(a: seq<string>, b: seq<string>)
    requires forall i :: 0 <= i < |a| ==> IsOmniToken(a[i])
    ensures OmniTokens(a + b) == a + OmniTokens(b)
  {
    if a == [] {
      assert a + b == b;
    } else {
      assert (a + b)[1..] == a[1..] + b;
      OmniTokensKeeps(a[1..], b);
      assert a == [a[0]] + a[1..];
    }
  }

  lemma {:induction false} LeadingWordsAre(p: seq<string>, rest: seq<string>)
    requires Dashless(p) && rest != [] && "-" <= rest[0]
    ensures LeadingWords(p + rest) == p
  {
    if p == [] {
      assert p + rest == rest;
    } else {
      assert (p + rest)[1..] == p[1..] + rest && (p + rest)[0] == p[0];
      assert !("-" <= p[0]);
      LeadingWordsAre(p[1..], rest);
      assert p == [p[0]] + p[1..];
    }
  }

  /** A merged list has the locked prefix of its base, when that names its model. */
  lemma PrefixStays(b: seq<string>, rest: seq<string>)
    requires AllTargets(b).Ok? && Named(b)
    ensures LockedPrefix(LockedPrefix(b) + (LockedModel(b) + rest)) == LockedPrefix(b)
  {
    var p, l := LockedPrefix(b), LockedModel(b);
    var m := p + (l + rest);
    PrefixIsDashless(b);
    LockedIsFirstArg(b);
    if StartsServe(b) {
      assert m[..3] == p;
    } else {
      NamedIsDashed(l[0]);
      assert (l + rest)[0] == l[0];
      LeadingWordsAre(p, l + rest);
      LeadingWordsShape(b);
      NotServing(b, l[0], m);
    }
  }

  lemma NotServing(b: seq<string>, dashed: string, m: seq<string>)
    requires !StartsServe(b) && LeadingWords(b) <= b && "-" <= dashed
    requires |m| > |LeadingWords(b)| && LeadingWords(b) <= m && m[|LeadingWords(b)|] == dashed
    ensures !StartsServe(m)
  {
    assert dashed[0] == '-' && "vllm"[0] == 'v' && "serve"[0] == 's';
  }

  /** What a merge has stored is in catalog order exactly when its tensor-parallel argument is the last and in two tokens. */
  lemma MergedIsOrderedIff(b: seq<string>, submitted: seq<string>, image: string, n: nat, mode: Mode)
    requires AllTargets(b).Ok? && WellLocked(b) && Named(b)
    ensures var m := Synced(b, submitted, IsOmniImage(image), n, mode);
            var e := Synchronised(b, submitted, IsOmniImage(image), n, mode);
            InCatalogOrder(image, m, n) <==> e == StripArgs(e, TP, TP) + [TP, Decimal(n)]
  {
    var omni := IsOmniImage(image);
    var m, e := Synced(b, submitted, omni, n, mode), Synchronised(b, submitted, omni, n, mode);
    var p, l, k := LockedPrefix(b), LockedModel(b), Kept(b, omni);
    SyncedShape(b, submitted, omni, n, mode);
    StaysNamed(b, submitted, omni, n, mode);
    PrefixStays(b, k + e);
    if omni {
      EditableIsOmniFree(b, submitted, mode);
      UpsertStaysOmniFree(Editable(b, submitted, omni, mode), n);
    }
    KeptStays(b, e, omni);
    assert m[|p|..] == l + (k + e);
    CustomersOfMerged(b, m, e, image, n, submitted, mode);
    CancelPrefix(l, k + e, k + (StripArgs(e, TP, TP) + [TP, Decimal(n)]));
    CancelPrefix(k, e, StripArgs(e, TP, TP) + [TP, Decimal(n)]);
  }

  lemma CustomersOfMerged(b: seq<string>, m: seq<string>, e: seq<string>, image: string, n: nat, submitted: seq<string>, mode: Mode)
    requires WellLocked(b) && Behind(m) == LockedModel(b) + (Kept(b, IsOmniImage(image)) + e)
    requires e == Synchronised(b, submitted, IsOmniImage(image), n, mode) && (IsOmniImage(image) ==> OmniFree(e))
    ensures Customers(image, m) == StripArgs(e, TP, TP)
  {
    var l, k := LockedModel(b), Kept(b, IsOmniImage(image));
    if IsOmniImage(image) {
      LockedModelIsPlain(b);
      OmniTokensAreOmni(b);
      StripOmniSkips(l, k + e);
      StripOmniDrops(k, e);
      OmniFreeIsUnchanged(e);
    } else {
      assert k + e == e;
    }
    ModelArgIsRemoved(l, e, TP);
    EditableIsFree(b, submitted, IsOmniImage(image), mode);
    SyncedTailIsFree(Editable(b, submitted, IsOmniImage(image), mode), n);
    ModelFreeStrip(e);
  }

  lemma {:induction false} ModelFreeStrip(e: seq<string>)
    requires Free(e, MODEL)
    ensures StripArgs(e, MODEL, TP) == StripArgs(e, TP, TP)
    decreases |e|
  {
    if e != [] {
      assert !Names(e[0], MODEL);
      if e[0] == TP {
        ModelFreeStrip(if |e| >= 2 then e[2..] else []);
      } else {
        ModelFreeStrip(e[1..]);
      }
    }
  }

  /** So what a basic merge has stored survives a no-op save, unless the customer's arguments repeat the locked prefix. */
  lemma BasicMergeSurvivesIff(b: seq<string>, submitted: seq<string>, image: string, n: nat, x: string)
    requires FindTargets(b) == Ok([x]) && WellLocked(b) && Named(b)
    ensures var m := Synced(b, submitted, IsOmniImage(image), n, Basic);
            Synced(m, Recovered(image, m), IsOmniImage(image), n, Basic) == m <==> !Repeated(image, m)
  {
    NamedKeepsTarget(b, submitted, IsOmniImage(image), n, Basic, x);
    var m := Synced(b, submitted, IsOmniImage(image), n, Basic);
    MergedIsOrderedIff(b, submitted, image, n, Basic);
    BasicPutsCountLast(b, submitted, IsOmniImage(image), n);
    MergedIsWellLocked(b, submitted, IsOmniImage(image), n, Basic);
    CommandsSurviveIff(image, m, n);
  }

  lemma BasicPutsCountLast(b: seq<string>, submitted: seq<string>, omni: bool, n: nat)
    ensures var e := Synchronised(b, submitted, omni, n, Basic); e == StripArgs(e, TP, TP) + [TP, Decimal(n)]
  {
    var e := Editable(b, submitted, omni, Basic);
    EditableIsFree(b, submitted, omni, Basic);
    assert e + [] == e;
    UpsertSkips(e, [], TP, Decimal(n));
    StripArgsSkips(e, [TP, Decimal(n)], TP, TP);
    assert [TP, Decimal(n)][2..] == [];
  }

  lemma MergedIsWellLocked(b: seq<string>, submitted: seq<string>, omni: bool, n: nat, mode: Mode)
    requires AllTargets(b).Ok? && WellLocked(b) && Named(b)
    ensures WellLocked(Synced(b, submitted, omni, n, mode))
  {
    SyncedShape(b, submitted, omni, n, mode);
    PrefixStays(b, Kept(b, omni) + Upsert(Editable(b, submitted, omni, mode), TP, Decimal(n)));
    StaysNamed(b, submitted, omni, n, mode);
  }

  // ----- environment

  /** The entries the editor shows: those that are pairs and not protected. */
  function Shown(items: seq<EnvItem>, keys: set<string>): seq<EnvItem> {
    if items == [] then []
    else (if items[0].Pair? && items[0].key !in keys then [items[0]] else []) + Shown(items[1..], keys)
  }

  lemma {:induction false} ShownMeaning(items: seq<EnvItem>, keys: set<string>, k: string)
    ensures Has(Shown(items, keys), k) <==> Has(items, k) && k !in keys
    ensures Has(Shown(items, keys), k) ==> LastValue(Shown(items, keys), k) == LastValue(items, k)
  {
    if items != [] {
      ShownMeaning(items[1..], keys, k);
      var rest := Shown(items[1..], keys);
      if items[0].Pair? && items[0].key !in keys {
        assert Shown(items, keys)[1..] == rest;
      } else {
        assert Shown(items, keys) == rest;
      }
    }
  }

  /** A no-op save keeps the stored environment exactly when it is well formed and repeats no key. */
  lemma EnvsSurviveIff(items: seq<EnvItem>, keys: set<string>)
    ensures EnvMerge.Merge(items, Shown(items, keys), keys) == items <==> AllPairs(items) && Distinct(Keys(items))
  {
    MergeIsPairs(items, Shown(items, keys), keys);
    MergeMeaning(items, Shown(items, keys), keys, "");
    if AllPairs(items) && Distinct(Keys(items)) {
      forall k | k in Keys(Shown(items, keys)) ensures k in Keys(items) {
        ShownMeaning(items, keys, k);
      }
      forall k | k in Keys(items) ensures Expected(items, Shown(items, keys), keys, k) == LastValue(items, k) {
        ShownMeaning(items, keys, k);
      }
      Absorbed(items, Shown(items, keys), keys);
    }
  }

  // ----- a save that is not a no-op

  /** A customer's tensor-parallel token, kept in its place by an advanced merge, is moved to the end by a basic save. */
  lemma JoinedCountIsMoved()
    ensures var b := [MODEL, "m"];
            var m := Synced(b, [TpJoined(2)], false, 1, Advanced);
            && FindTargets(b) == Ok(["m"]) && !IsOmniImage("i")
            && Synced(m, Recovered("i", m), false, 1, Basic) != m
  {
    var b := [MODEL, "m"];
    PlainNameIsNamed();
    var m := Synced(b, [TpJoined(2)], false, 1, Advanced);
    JoinedCountStays();
    MergedIsOrderedIff(b, [TpJoined(2)], "i", 1, Advanced);
    assert |[TpJoined(1)]| < |StripArgs([TpJoined(1)], TP, TP) + [TP, Decimal(1)]|;
    NamedKeepsTarget(b, [TpJoined(2)], false, 1, Advanced, "m");
    MergedIsWellLocked(b, [TpJoined(2)], false, 1, Advanced);
    CommandsSurviveIff("i", m, 1);
  }

  lemma PlainNameIsNamed()
    ensures var b := [MODEL, "m"]; FindTargets(b) == Ok(["m"]) && AllTargets(b).Ok? && WellLocked(b) && Named(b)
  {
    var b := [MODEL, "m"];
    assert "m"[0] == 'm' && MODEL[0] == '-' && TRUST[0] == '-' && OMNI[0] == '-' && Strip("m") == "m";
    NoSlashIsNormal("m");
    NamedStartsWithDash("m");
    PlainTargets("m", []);
    assert b + [] == b;
    OneTargetIff(["m"], "m");
    assert LockedModel(b) == b;
    assert LockedPrefix(b) == [];
  }

  lemma JoinedCountStays()
    ensures Synchronised([MODEL, "m"], [TpJoined(2)], false, 1, Advanced) == [TpJoined(1)]
  {
    TpJoinedIsNormal(2);
    ModelOrTp(TpJoined(2));
    assert Free([TpJoined(2)], MODEL);
    StripArgsKeepsFree([TpJoined(2)], MODEL, MODEL);
    assert LockedPrefix([MODEL, "m"]) == [] by { assert MODEL[0] == '-'; }
    assert StripPrefix([TpJoined(2)], []) == [TpJoined(2)];
    assert [TpJoined(2)][1..] == [];
    assert [TpJoined(1)] + [] == [TpJoined(1)];
  }
}
