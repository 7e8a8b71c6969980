/**
 The in-memory object index: objects stored under the key "tenant/namespace/name" in
 a sorted map, listed by walking the map from a start key until the prefix ends.
 */
module ObjectIndex {
  import opened Common
  import opened KeyOrder

  datatype DataObject<T> = DataObject(tenant: string, namespace: string, name: string, revision: int, object: T)

  datatype Id = Id(tenant: string, namespace: string, name: string)

  predicate NameChar(c: char) {
    'a' <= c <= 'z' || 'A' <= c <= 'Z' || '0' <= c <= '9' || c == '-' || c == '_' || c == '.'
  }

  /** By code point: digits, upper-case and lower-case letters, hyphen, full stop and underscore. */
  lemma NameCharCodes(c: char)
    ensures NameChar(c) <==> var n := c as int; 48 <= n <= 57 || 65 <= n <= 90 || 97 <= n <= 122 || n == 45 || n == 46 || n == 95
  {
  }

  /** `validate_name`: note that the empty name passes. */
  predicate ValidName(s: string) {
    forall i :: 0 <= i < |s| ==> NameChar(s[i])
  }

  predicate Validated<T>(o: DataObject<T>) {
    ValidName(o.tenant) && ValidName(o.namespace) && ValidName(o.name)
  }

  function KeyOf(tenant: string, namespace: string, name: string): string {
    tenant + "/" + namespace + "/" + name
  }

  function Key<T>(o: DataObject<T>): string {
    KeyOf(o.tenant, o.namespace, o.name)
  }

  function IdOf<T>(o: DataObject<T>): Id {
    Id(o.tenant, o.namespace, o.name)
  }

  // ----- keys and slashes

  function Slashes(s: string): nat {
    multiset(s)['/']
  }

  lemma SlashesConcat(a: string, b: string)
    ensures Slashes(a + b) == Slashes(a) + Slashes(b)
  {
  }

  lemma SlashesOfPrefix(p: string, k: string)
    requires p <= k
    ensures Slashes(p) <= Slashes(k)
  {
    assert k == p + k[|p|..];
  }

  lemma ValidNameHasNoSlash(s: string)
    requires ValidName(s)
    ensures Slashes(s) == 0
  {
    assert '/' !in s;
  }

  lemma SlashesOfKey(t: string, ns: string, n: string)
    ensures Slashes(KeyOf(t, ns, n)) == 2 + Slashes(t) + Slashes(ns) + Slashes(n)
  {
    assert Slashes("/") == 1;
    SlashesConcat(t, "/");
    SlashesConcat(t + "/", ns);
    SlashesConcat(t + "/" + ns, "/");
    SlashesConcat(t + "/" + ns + "/", n);
  }

  /** Two slash-free heads before a slash are compared independently of what follows. */
  lemma HeadSplits(a: string, x: string, b: string, y: string)
    requires Slashes(a) == 0 && Slashes(b) == 0
    ensures a + "/" + x <= b + "/" + y <==> a == b && x <= y
  {
    var p, k := a + "/" + x, b + "/" + y;
    assert '/' !in a && '/' !in b;
    if p <= k {
      assert p[|a|] == '/' && k[|b|] == '/';
      assert |a| == |b|;
      assert a == p[..|a|] && b == k[..|a|];
      assert x == p[|a| + 1..] && y == k[|a| + 1..];
    }
  }

  lemma KeyPrefixSplits(t: string, ns: string, np: string, t': string, ns': string, n': string)
    requires Slashes(t) == Slashes(ns) == Slashes(t') == Slashes(ns') == 0
    ensures KeyOf(t, ns, np) <= KeyOf(t', ns', n') <==> t == t' && ns == ns' && np <= n'
  {
    assert KeyOf(t, ns, np) == t + "/" + (ns + "/" + np);
    assert KeyOf(t', ns', n') == t' + "/" + (ns' + "/" + n');
    HeadSplits(t, ns + "/" + np, t', ns' + "/" + n');
    HeadSplits(ns, np, ns', n');
  }

  /** A key names one object only: whatever is asked for, its key equals a stored key only if the parts do. */
  lemma KeyNamesOneObject<T>(t: string, ns: string, n: string, o: DataObject<T>)
    requires Validated(o)
    ensures KeyOf(t, ns, n) == Key(o) <==> Id(t, ns, n) == IdOf(o)
  {
    if KeyOf(t, ns, n) == Key(o) {
      SlashesOfKey(t, ns, n);
      SlashesOfKey(o.tenant, o.namespace, o.name);
      ValidNameHasNoSlash(o.tenant);
      ValidNameHasNoSlash(o.namespace);
      ValidNameHasNoSlash(o.name);
      KeyPrefixSplits(t, ns, n, o.tenant, o.namespace, o.name);
      KeyPrefixSplits(o.tenant, o.namespace, o.name, t, ns, n);
    }
  }

  // ----- what a listing means

  /** The start key of a listing, also the prefix at which it stops. */
  function Start(tenant: string, namespace: string, nameprefix: string): string {
    if tenant == "" then "" else if namespace == "" then tenant + "/" else KeyOf(tenant, namespace, nameprefix)
  }

  /** The filter a listing stands for. */
  predicate Matches<T>(o: DataObject<T>, tenant: string, namespace: string, nameprefix: string) {
    tenant == "" ||
    (o.tenant == tenant && (namespace == "" || (o.namespace == namespace && nameprefix <= o.name)))
  }

  /** A tenant argument that reads as "tenant/namespace", with no namespace argument. */
  ghost predicate Ambiguous(tenant: string, namespace: string) {
    namespace == "" && exists a, b :: ValidName(a) && ValidName(b) && tenant == a + "/" + b
  }

  function FirstSlash(s: string): nat
    requires '/' in s
    ensures FirstSlash(s) < |s| && s[FirstSlash(s)] == '/' && '/' !in s[..FirstSlash(s)]
  {
    if s[0] == '/' then 0 else 1 + FirstSlash(s[1..])
  }

  lemma TenantPrefix<T>(o: DataObject<T>, tenant: string)
    requires Validated(o) && Slashes(tenant) == 0
    ensures tenant + "/" <= Key(o) <==> o.tenant == tenant
  {
    ValidNameHasNoSlash(o.tenant);
    assert tenant + "/" == tenant + "/" + "";
    assert Key(o) == o.tenant + "/" + (o.namespace + "/" + o.name);
    HeadSplits(tenant, "", o.tenant, o.namespace + "/" + o.name);
  }

  lemma CutAtSlash(s: string)
    requires '/' in s
    ensures var i := FirstSlash(s);
            && s == s[..i] + "/" + s[i + 1..]
            && Slashes(s[..i]) == 0 && Slashes(s) == 1 + Slashes(s[i + 1..])
  {
    var i := FirstSlash(s);
    var a, b := s[..i], s[i + 1..];
    assert s == a + "/" + b;
    SlashesConcat(a + "/", b);
    SlashesConcat(a, "/");
    assert Slashes("/") == 1;
  }

  lemma SlashedTenantPrefix<T>(o: DataObject<T>, tenant: string)
    requires Validated(o) && Slashes(tenant) > 0 && tenant + "/" <= Key(o)
    ensures Ambiguous(tenant, "")
  {
    ValidNameHasNoSlash(o.tenant);
    ValidNameHasNoSlash(o.namespace);
    ValidNameHasNoSlash(o.name);
    SlashesOfKey(o.tenant, o.namespace, o.name);
    SlashesOfPrefix(tenant + "/", Key(o));
    SlashesConcat(tenant, "/");
    assert Slashes("/") == 1;
    var i := FirstSlash(tenant);
    var a, b := tenant[..i], tenant[i + 1..];
    CutAtSlash(tenant);
    assert tenant + "/" == KeyOf(a, b, "");
    KeyPrefixSplits(a, b, "", o.tenant, o.namespace, o.name);
  }

  lemma FullPrefix<T>(o: DataObject<T>, tenant: string, namespace: string, nameprefix: string)
    requires Validated(o)
    ensures KeyOf(tenant, namespace, nameprefix) <= Key(o) <==>
            o.tenant == tenant && o.namespace == namespace && nameprefix <= o.name
  {
    ValidNameHasNoSlash(o.tenant);
    ValidNameHasNoSlash(o.namespace);
    ValidNameHasNoSlash(o.name);
    SlashesOfKey(o.tenant, o.namespace, o.name);
    SlashesOfKey(tenant, namespace, nameprefix);
    if KeyOf(tenant, namespace, nameprefix) <= Key(o) {
      SlashesOfPrefix(KeyOf(tenant, namespace, nameprefix), Key(o));
      KeyPrefixSplits(tenant, namespace, nameprefix, o.tenant, o.namespace, o.name);
    } else if o.tenant == tenant && o.namespace == namespace {
      KeyPrefixSplits(tenant, namespace, nameprefix, o.tenant, o.namespace, o.name);
    }
  }

  lemma PrefixMeansMatch<T>(o: DataObject<T>, tenant: string, namespace: string, nameprefix: string)
    requires Validated(o) && !Ambiguous(tenant, namespace)
    ensures Start(tenant, namespace, nameprefix) <= Key(o) <==> Matches(o, tenant, namespace, nameprefix)
  {
    if tenant != "" {
      if namespace != "" {
        FullPrefix(o, tenant, namespace, nameprefix);
      } else if Slashes(tenant) == 0 {
        TenantPrefix(o, tenant);
      } else {
        ValidNameHasNoSlash(o.tenant);
        if tenant + "/" <= Key(o) {
          SlashedTenantPrefix(o, tenant);
        }
      }
    }
  }

  // ----- the stored map

  /** Every object is stored under its own key, and was validated. */
  ghost predicate Consistent<T>(objs: map<string, DataObject<T>>) {
    forall k :: k in objs ==> k == Key(objs[k]) && Validated(objs[k])
  }

  function PrefixedKeys<T>(objs: map<string, DataObject<T>>, p: string): set<string> {
    set k | k in objs && p <= k
  }

  function KeysFrom<T>(objs: map<string, DataObject<T>>, start: string): set<string> {
    set k | k in objs && !Less(k, start)
  }

  function MatchingKeys<T>(objs: map<string, DataObject<T>>, t: string, ns: string, np: string): set<string> {
    set k | k in objs && Matches(objs[k], t, ns, np)
  }

  /** Walking from the start key and stopping at the first mismatch. */
  function TakeMatching(ks: seq<string>, p: string): seq<string> {
    if ks == [] || !(p <= ks[0]) then [] else [ks[0]] + TakeMatching(ks[1..], p)
  }

  lemma {:induction false} TakeMatchingMembers(ks: seq<string>, p: string)
    requires Sorted(ks) && forall k :: k in ks ==> !Less(k, p)
    ensures Sorted(TakeMatching(ks, p))
    ensures forall k :: k in TakeMatching(ks, p) <==> k in ks && p <= k
  {
    if ks != [] {
      var first := ks[0];
      assert first in ks;
      forall k ensures k in ks[1..] <==> k in ks && k != first {
        TailMembers(ks, k);
      }
      if p <= first {
        TakeMatchingMembers(ks[1..], p);
        var rest := TakeMatching(ks[1..], p);
        forall j | 0 <= j < |rest| ensures Less(first, rest[j]) {
          assert rest[j] in rest;
          assert rest[j] in ks[1..];
        }
      } else {
        forall k | k in ks ensures !(p <= k) {
          if p <= k && k != first {
            assert k in ks[1..];
            PrefixesAreContiguous(p, first, k);
          }
        }
      }
    }
  }

  /** The early-stopping walk finds every key with the prefix, in order. */
  lemma WalkFindsPrefix<T>(objs: map<string, DataObject<T>>, p: string)
    ensures TakeMatching(Walk(KeysFrom(objs, p)), p) == Walk(PrefixedKeys(objs, p))
  {
    var ks := Walk(KeysFrom(objs, p));
    WalkOrdered(KeysFrom(objs, p));
    WalkOrdered(PrefixedKeys(objs, p));
    TakeMatchingMembers(ks, p);
    forall k ensures k in TakeMatching(ks, p) <==> k in Walk(PrefixedKeys(objs, p)) {
      if k in objs && p <= k {
        PrefixNotAbove(p, k);
      }
    }
    SortedUnique(TakeMatching(ks, p), Walk(PrefixedKeys(objs, p)));
  }

  /** An unambiguous listing is exactly the filter it stands for. */
  lemma ListingIsFilter<T>(objs: map<string, DataObject<T>>, t: string, ns: string, np: string)
    requires Consistent(objs) && !Ambiguous(t, ns)
    ensures PrefixedKeys(objs, Start(t, ns, np)) == MatchingKeys(objs, t, ns, np)
  {
    forall k | k in objs ensures Start(t, ns, np) <= k <==> Matches(objs[k], t, ns, np) {
      PrefixMeansMatch(objs[k], t, ns, np);
    }
  }

  /** An ambiguous one is not: some consistent store makes it return an object of another tenant. */
  lemma AmbiguousListingIsNotFilter<T>(t: string, np: string, payload: T) returns (objs: map<string, DataObject<T>>)
    requires Ambiguous(t, "")
    ensures Consistent(objs)
    ensures PrefixedKeys(objs, Start(t, "", np)) != MatchingKeys(objs, t, "", np)
  {
    var a, b :| ValidName(a) && ValidName(b) && t == a + "/" + b;
    var o := DataObject(a, b, "", 0, payload);
    var k := Key(o);
    objs := map[k := o];
    assert k == t + "/";
    assert k in PrefixedKeys(objs, Start(t, "", np));
    assert |t| > |a|;
    assert k !in MatchingKeys(objs, t, "", np);
  }

  /** So a listing agrees with its filter on every store exactly when it is not ambiguous. */
  lemma ListingIsFilterIff<T(!new)>(t: string, ns: string, np: string, payload: T)
    ensures (forall objs: map<string, DataObject<T>> :: Consistent(objs) ==>
               PrefixedKeys(objs, Start(t, ns, np)) == MatchingKeys(objs, t, ns, np))
            <==> !Ambiguous(t, ns)
  {
    if Ambiguous(t, ns) {
      var objs := AmbiguousListingIsNotFilter(t, np, payload);
    } else {
      forall objs: map<string, DataObject<T>> | Consistent(objs)
        ensures PrefixedKeys(objs, Start(t, ns, np)) == MatchingKeys(objs, t, ns, np)
      {
        ListingIsFilter(objs, t, ns, np);
      }
    }
  }

  function ObjectsAt<T>(objs: map<string, DataObject<T>>, ks: seq<string>): seq<DataObject<T>> {
    if ks == [] then []
    else (if ks[0] in objs then [objs[ks[0]]] else []) + ObjectsAt(objs, ks[1..])
  }

  lemma MatchStep<T>(objs: map<string, DataObject<T>>, ks: seq<string>, p: string)
    requires ks != [] && ks[0] in objs
    ensures ObjectsAt(objs, TakeMatching(ks, p)) ==
            if p <= ks[0] then [objs[ks[0]]] + ObjectsAt(objs, TakeMatching(ks[1..], p)) else []
  {
    if p <= ks[0] {
      assert TakeMatching(ks, p)[1..] == TakeMatching(ks[1..], p);
    }
  }

  /** The stored objects that match, in key order. */
  function Listing<T>(objs: map<string, DataObject<T>>, t: string, ns: string, np: string): seq<DataObject<T>> {
    ObjectsAt(objs, Walk(MatchingKeys(objs, t, ns, np)))
  }

  // ----- changes, on the stored map and on the map from identities

  datatype Change<T> = Add(obj: DataObject<T>) | Update(obj: DataObject<T>) | Remove(obj: DataObject<T>)

  function Apply<T>(objs: map<string, DataObject<T>>, c: Change<T>): Result<map<string, DataObject<T>>> {
    var k := Key(c.obj);
    match c
    case Add(obj) => if k in objs then Err else Ok(objs[k := obj])
    case Update(obj) => if k in objs then Ok(objs[k := obj]) else Err
    case Remove(_) => if k in objs then Ok(objs - {k}) else Err
  }

  /** The same change on a map keyed by the identity triple. */
  function ApplyById<T>(m: map<Id, DataObject<T>>, c: Change<T>): Result<map<Id, DataObject<T>>> {
    var id := IdOf(c.obj);
    match c
    case Add(obj) => if id in m then Err else Ok(m[id := obj])
    case Update(obj) => if id in m then Ok(m[id := obj]) else Err
    case Remove(_) => if id in m then Ok(m - {id}) else Err
  }

  /** The index `objs` represents the abstract map `m`. */
  ghost predicate Represents<T>(objs: map<string, DataObject<T>>, m: map<Id, DataObject<T>>) {
    && Consistent(objs)
    && (forall k :: k in objs ==> IdOf(objs[k]) in m && m[IdOf(objs[k])] == objs[k])
    && (forall id :: id in m ==> IdOf(m[id]) == id && Validated(m[id]) && Key(m[id]) in objs)
  }

  lemma LookupAgrees<T>(objs: map<string, DataObject<T>>, m: map<Id, DataObject<T>>, t: string, ns: string, n: string)
    requires Represents(objs, m)
    ensures KeyOf(t, ns, n) in objs <==> Id(t, ns, n) in m
    ensures KeyOf(t, ns, n) in objs ==> objs[KeyOf(t, ns, n)] == m[Id(t, ns, n)]
  {
    var k := KeyOf(t, ns, n);
    if k in objs {
      KeyNamesOneObject(t, ns, n, objs[k]);
    }
    if Id(t, ns, n) in m {
      assert Key(m[Id(t, ns, n)]) == k;
    }
  }

  lemma InsertRepresents<T>(objs: map<string, DataObject<T>>, m: map<Id, DataObject<T>>, o: DataObject<T>)
    requires Represents(objs, m) && Validated(o)
    ensures Represents(objs[Key(o) := o], m[IdOf(o) := o])
  {
    var objs', m' := objs[Key(o) := o], m[IdOf(o) := o];
    forall k | k in objs' ensures IdOf(objs'[k]) in m' && m'[IdOf(objs'[k])] == objs'[k] {
      if k != Key(o) {
        KeyNamesOneObject(objs[k].tenant, objs[k].namespace, objs[k].name, o);
      }
    }
    forall id | id in m' ensures IdOf(m'[id]) == id && Validated(m'[id]) && Key(m'[id]) in objs' {
    }
  }

  lemma RemoveRepresents<T>(objs: map<string, DataObject<T>>, m: map<Id, DataObject<T>>, o: DataObject<T>)
    requires Represents(objs, m) && Validated(o)
    ensures Represents(objs - {Key(o)}, m - {IdOf(o)})
  {
    var objs', m' := objs - {Key(o)}, m - {IdOf(o)};
    forall k | k in objs' ensures IdOf(objs'[k]) in m' && m'[IdOf(objs'[k])] == objs'[k] {
      KeyNamesOneObject(objs[k].tenant, objs[k].namespace, objs[k].name, o);
    }
    forall id | id in m' ensures IdOf(m'[id]) == id && Validated(m'[id]) && Key(m'[id]) in objs' {
      KeyNamesOneObject(m[id].tenant, m[id].namespace, m[id].name, o);
    }
  }

  /** A change succeeds or fails as the abstract one does, and the representation is kept. */
  lemma ApplyRefines<T>(objs: map<string, DataObject<T>>, m: map<Id, DataObject<T>>, c: Change<T>)
    requires Represents(objs, m) && Validated(c.obj)
    ensures Apply(objs, c).Ok? <==> ApplyById(m, c).Ok?
    ensures Apply(objs, c).Ok? ==> Represents(Apply(objs, c).value, ApplyById(m, c).value)
  {
    LookupAgrees(objs, m, c.obj.tenant, c.obj.namespace, c.obj.name);
    InsertRepresents(objs, m, c.obj);
    RemoveRepresents(objs, m, c.obj);
  }

  /** The answers to a sequence of changes, a refused change leaving the map as it was. */
  function Run<T>(objs: map<string, DataObject<T>>, cs: seq<Change<T>>): (map<string, DataObject<T>>, seq<bool>)
    decreases cs
  {
    if cs == [] then (objs, []) else
      var r := Apply(objs, cs[0]);
      var rest := Run(if r.Ok? then r.value else objs, cs[1..]);
      (rest.0, [r.Ok?] + rest.1)
  }

  function RunById<T>(m: map<Id, DataObject<T>>, cs: seq<Change<T>>): (map<Id, DataObject<T>>, seq<bool>)
    decreases cs
  {
    if cs == [] then (m, []) else
      var r := ApplyById(m, cs[0]);
      var rest := RunById(if r.Ok? then r.value else m, cs[1..]);
      (rest.0, [r.Ok?] + rest.1)
  }

  lemma {:induction false} RunRefines<T>(objs: map<string, DataObject<T>>, m: map<Id, DataObject<T>>, cs: seq<Change<T>>)
    requires Represents(objs, m) && forall i :: 0 <= i < |cs| ==> Validated(cs[i].obj)
    ensures Represents(Run(objs, cs).0, RunById(m, cs).0)
    ensures Run(objs, cs).1 == RunById(m, cs).1
    decreases cs
  {
    if cs != [] {
      ApplyRefines(objs, m, cs[0]);
      var r, q := Apply(objs, cs[0]), ApplyById(m, cs[0]);
      RunRefines(if r.Ok? then r.value else objs, if q.Ok? then q.value else m, cs[1..]);
    }
  }

  /** Every run of changes on validated objects, from the empty index, behaves as the map keyed by identity. */
  lemma EveryRunRefines<T>(cs: seq<Change<T>>)
    requires forall i :: 0 <= i < |cs| ==> Validated(cs[i].obj)
    ensures Represents(Run(map[], cs).0, RunById(map[], cs).0)
    ensures Run(map[], cs).1 == RunById(map[], cs).1
  {
    RunRefines(map[], map[], cs);
  }

  // ----- the manager object

  class DataObjectMgr<T> {
    var objs: map<string, DataObject<T>>

    constructor ()
      ensures objs == map[]
    {
      objs := map[];
    }

    method Contains(tenant: string, namespace: string, name: string) returns (b: bool)
      ensures b <==> KeyOf(tenant, namespace, name) in objs
    {
      b := tenant + "/" + namespace + "/" + name in objs;
    }

    method IsEmpty(tenant: string, namespace: string) returns (b: bool)
      ensures b <==> Walk(PrefixedKeys(objs, Start(tenant, namespace, ""))) == []
    {
      var start := if |tenant| > 0 then
        if |namespace| > 0 then tenant + "/" + namespace + "/" else tenant + "/"
      else "";
      assert start == Start(tenant, namespace, "");
      var ks := Walk(KeysFrom(objs, start));
      WalkFindsPrefix(objs, start);
      for i := 0 to |ks|
        invariant i == 0
      {
        if start <= ks[i] {
          return false;
        } else {
          break;
        }
      }
      return true;
    }

    method GetObjectKeys(tenant: string, namespace: string) returns (vec: seq<string>)
      ensures vec == Walk(PrefixedKeys(objs, Start(tenant, namespace, "")))
    {
      var start := if |tenant| > 0 then
        if |namespace| > 0 then tenant + "/" + namespace + "/" else tenant + "/"
      else "";
      assert start == Start(tenant, namespace, "");
      vec := KeyWalk(start);
    }

    method KeyWalk(start: string) returns (vec: seq<string>)
      ensures vec == Walk(PrefixedKeys(objs, start))
    {
      vec := [];
      var ks := Walk(KeysFrom(objs, start));
      for i := 0 to |ks|
        invariant vec + TakeMatching(ks[i..], start) == TakeMatching(ks, start)
      {
        assert ks[i..][1..] == ks[i + 1..];
        if start <= ks[i] {
          vec := vec + [ks[i]];
        } else {
          break;
        }
      }
      WalkFindsPrefix(objs, start);
    }

    /** The walk shared by the two object listings. */
    method ObjectWalk(start: string) returns (vec: seq<DataObject<T>>)
      ensures vec == ObjectsAt(objs, Walk(PrefixedKeys(objs, start)))
    {
      vec := [];
      var ks := Walk(KeysFrom(objs, start));
      for i := 0 to |ks|
        invariant vec + ObjectsAt(objs, TakeMatching(ks[i..], start)) == ObjectsAt(objs, TakeMatching(ks, start))
      {
        var k := ks[i];
        WalkAt(KeysFrom(objs, start), i);
        assert ks[i..][1..] == ks[i + 1..];
        MatchStep(objs, ks[i..], start);
        if start <= k {
          ConcatAssociates(vec, [objs[k]], ObjectsAt(objs, TakeMatching(ks[i + 1..], start)));
          vec := vec + [objs[k]];
        } else {
          break;
        }
      }
      WalkFindsPrefix(objs, start);
    }

    method GetObjectsByPrefix(tenant: string, namespace: string, nameprefix: string) returns (vec: seq<DataObject<T>>)
      ensures vec == ObjectsAt(objs, Walk(PrefixedKeys(objs, Start(tenant, namespace, nameprefix))))
      ensures Consistent(objs) && !Ambiguous(tenant, namespace) ==> vec == Listing(objs, tenant, namespace, nameprefix)
    {
      var start := if |tenant| == 0 then ""
      else if |namespace| == 0 then tenant + "/"
      else tenant + "/" + namespace + "/" + nameprefix;
      assert start == Start(tenant, namespace, nameprefix);
      vec := ObjectWalk(start);
      if Consistent(objs) && !Ambiguous(tenant, namespace) {
        ListingIsFilter(objs, tenant, namespace, nameprefix);
      }
    }

    method GetObjects(tenant: string, namespace: string) returns (vec: seq<DataObject<T>>)
      ensures vec == ObjectsAt(objs, Walk(PrefixedKeys(objs, Start(tenant, namespace, ""))))
      ensures Consistent(objs) && !Ambiguous(tenant, namespace) ==> vec == Listing(objs, tenant, namespace, "")
    {
      var start := if |tenant| > 0 then
        if |namespace| > 0 then tenant + "/" + namespace + "/" else tenant + "/"
      else "";
      assert start == Start(tenant, namespace, "");
      vec := ObjectWalk(start);
      if Consistent(objs) && !Ambiguous(tenant, namespace) {
        ListingIsFilter(objs, tenant, namespace, "");
      }
    }

    method Get(tenant: string, namespace: string, name: string) returns (r: Result<DataObject<T>>)
      ensures var k := KeyOf(tenant, namespace, name); r == if k in objs then Ok(objs[k]) else Err
    {
      var key := tenant + "/" + namespace + "/" + name;
      if key !in objs {
        return Err;
      }
      return Ok(objs[key]);
    }

    method Add(obj: DataObject<T>) returns (ok: bool)
      modifies this
      ensures Apply(old(objs), Change.Add(obj)) == if ok then Ok(objs) else Err
      ensures !ok ==> objs == old(objs)
    {
      var key := Key(obj);
      if key in objs {
        return false;
      }
      objs := objs[key := obj];
      return true;
    }

    method Update(obj: DataObject<T>) returns (ok: bool)
      modifies this
      ensures Apply(old(objs), Change.Update(obj)) == if ok then Ok(objs) else Err
      ensures !ok ==> objs == old(objs)
    {
      var key := Key(obj);
      if key !in objs {
        return false;
      }
      objs := objs[key := obj];
      return true;
    }

    method Remove(obj: DataObject<T>) returns (ok: bool)
      modifies this
      ensures Apply(old(objs), Change.Remove(obj)) == if ok then Ok(objs) else Err
      ensures !ok ==> objs == old(objs)
    {
      var key := Key(obj);
      if key !in objs {
        return false;
      }
      objs := objs - {key};
      return true;
    }
  }
}
