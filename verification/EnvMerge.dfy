/** Merging customer environment variables into stored ones, with protected keys. */
module EnvMerge {

  /** An entry is a pair of strings; anything else in the list is skipped. */
  datatype EnvItem = Pair(key: string, value: string) | Malformed

  // ----- an insertion-ordered dictionary

  datatype Env = Env(ordered: seq<string>, values: map<string, string>)

  const EMPTY := Env([], map[])

  function Put(e: Env, key: string, value: string): Env {
    Env(if key in e.values then e.ordered else e.ordered + [key], e.values[key := value])
  }

  function PutAll(e: Env, items: seq<EnvItem>): Env
    decreases items
  {
    if items == [] then e
    else PutAll(if items[0].Pair? then Put(e, items[0].key, items[0].value) else e, items[1..])
  }

  function Items(e: Env): seq<EnvItem> {
    ItemsOf(e.ordered, e.values)
  }

  function ItemsOf(ordered: seq<string>, values: map<string, string>): seq<EnvItem> {
    if ordered == [] then []
    else (if ordered[0] in values then [Pair(ordered[0], values[ordered[0]])] else []) + ItemsOf(ordered[1..], values)
  }

  // ----- the merge

  function ProtectedOnly(items: seq<EnvItem>, keys: set<string>): seq<EnvItem> {
    if items == [] then []
    else (if items[0].Pair? && items[0].key in keys then [items[0]] else []) + ProtectedOnly(items[1..], keys)
  }

  /** The customer's entries that are let through: not a protected key that the base has set. */
  function Accepted(customer: seq<EnvItem>, keys: set<string>, fixed: map<string, string>): seq<EnvItem> {
    if customer == [] then []
    else (if customer[0].Pair? && (customer[0].key !in keys || customer[0].key !in fixed) then [customer[0]] else [])
         + Accepted(customer[1..], keys, fixed)
  }

  function MergedEnv(base: seq<EnvItem>, customer: seq<EnvItem>, keys: set<string>): Env {
    var fixed := PutAll(EMPTY, ProtectedOnly(base, keys));
    PutAll(PutAll(PutAll(EMPTY, base), Accepted(customer, keys, fixed.values)), Items(fixed))
  }

  function Merge(base: seq<EnvItem>, customer: seq<EnvItem>, keys: set<string>): seq<EnvItem> {
    Items(MergedEnv(base, customer, keys))
  }

  lemma PutAllCons(e: Env, pair: EnvItem, rest: seq<EnvItem>)
    ensures PutAll(e, [pair] + rest) == PutAll(if pair.Pair? then Put(e, pair.key, pair.value) else e, rest)
    ensures PutAll(e, [] + rest) == PutAll(e, rest)
  {
    assert ([pair] + rest)[1..] == rest && [] + rest == rest;
  }

  method TakeBase(base: seq<EnvItem>, keys: set<string>) returns (merged: Env, fixed: Env)
    ensures merged == PutAll(EMPTY, base)
    ensures fixed == PutAll(EMPTY, ProtectedOnly(base, keys))
  {
    merged, fixed := EMPTY, EMPTY;
    for i := 0 to |base|
      invariant PutAll(merged, base[i..]) == PutAll(EMPTY, base)
      invariant PutAll(fixed, ProtectedOnly(base[i..], keys)) == PutAll(EMPTY, ProtectedOnly(base, keys))
    {
      var pair := base[i];
      assert base[i..][1..] == base[i + 1..];
      PutAllCons(fixed, pair, ProtectedOnly(base[i + 1..], keys));
      if !pair.Pair? {
        continue;
      }
      merged := Put(merged, pair.key, pair.value);
      if pair.key in keys {
        fixed := Put(fixed, pair.key, pair.value);
      }
    }
  }

  method TakeCustomer(start: Env, customer: seq<EnvItem>, keys: set<string>, fixed: Env) returns (merged: Env)
    ensures merged == PutAll(start, Accepted(customer, keys, fixed.values))
  {
    merged := start;
    for i := 0 to |customer|
      invariant PutAll(merged, Accepted(customer[i..], keys, fixed.values)) == PutAll(start, Accepted(customer, keys, fixed.values))
    {
      var pair := customer[i];
      assert customer[i..][1..] == customer[i + 1..];
      PutAllCons(merged, pair, Accepted(customer[i + 1..], keys, fixed.values));
      if !pair.Pair? {
        continue;
      }
      if pair.key in keys {
        if pair.key !in fixed.values {
          merged := Put(merged, pair.key, pair.value);
        }
        continue;
      }
      merged := Put(merged, pair.key, pair.value);
    }
  }

  method MergeProtectedEnvs(base: seq<EnvItem>, customer: seq<EnvItem>, keys: set<string>) returns (r: seq<EnvItem>)
    ensures r == Merge(base, customer, keys)
  {
    var merged, fixed := TakeBase(base, keys);
    merged := TakeCustomer(merged, customer, keys, fixed);
    var again := Items(fixed);
    for i := 0 to |again|
      invariant PutAll(merged, again[i..]) == MergedEnv(base, customer, keys)
    {
      assert again[i..][1..] == again[i + 1..];
      if again[i].Pair? {
        merged := Put(merged, again[i].key, again[i].value);
      }
    }
    r := Items(merged);
  }

  // ----- what it means

  function Keys(items: seq<EnvItem>): seq<string> {
    if items == [] then [] else (if items[0].Pair? then [items[0].key] else []) + Keys(items[1..])
  }

  predicate Has(items: seq<EnvItem>, k: string) {
    k in Keys(items)
  }

  /** The value of the last entry for `k`. */
  function LastValue(items: seq<EnvItem>, k: string): string {
    if items == [] then ""
    else if Has(items[1..], k) then LastValue(items[1..], k)
    else if items[0].Pair? && items[0].key == k then items[0].value
    else ""
  }

  /** Append the keys not seen yet, in order. */
  function Fresh(seen: seq<string>, ks: seq<string>): seq<string>
    decreases ks
  {
    if ks == [] then seen else Fresh(if ks[0] in seen then seen else seen + [ks[0]], ks[1..])
  }

  ghost predicate Distinct(ks: seq<string>) {
    forall i, j :: 0 <= i < j < |ks| ==> ks[i] != ks[j]
  }

  ghost predicate WellFormed(e: Env) {
    Distinct(e.ordered) && forall k :: k in e.ordered <==> k in e.values
  }

  lemma PutWellFormed(e: Env, k: string, v: string)
    requires WellFormed(e)
    ensures WellFormed(Put(e, k, v))
  {
  }

  lemma {:induction false} PutAllMeaning(e: Env, items: seq<EnvItem>, k: string)
    requires WellFormed(e)
    ensures WellFormed(PutAll(e, items))
    ensures PutAll(e, items).ordered == Fresh(e.ordered, Keys(items))
    ensures k in PutAll(e, items).values <==> k in e.values || Has(items, k)
    ensures Has(items, k) ==> PutAll(e, items).values[k] == LastValue(items, k)
    ensures !Has(items, k) && k in e.values ==> PutAll(e, items).values[k] == e.values[k]
    decreases items
  {
    if items != [] {
      var next := if items[0].Pair? then Put(e, items[0].key, items[0].value) else e;
      if items[0].Pair? {
        PutWellFormed(e, items[0].key, items[0].value);
        assert Keys(items)[1..] == Keys(items[1..]);
      } else {
        assert Keys(items) == Keys(items[1..]);
      }
      PutAllMeaning(next, items[1..], k);
    }
  }

  lemma EmptyIsWellFormed()
    ensures WellFormed(EMPTY)
  {
  }

  lemma {:induction false} ProtectedMeaning(items: seq<EnvItem>, keys: set<string>, k: string)
    ensures Has(ProtectedOnly(items, keys), k) <==> Has(items, k) && k in keys
    ensures Has(ProtectedOnly(items, keys), k) ==> LastValue(ProtectedOnly(items, keys), k) == LastValue(items, k)
  {
    if items != [] {
      ProtectedMeaning(items[1..], keys, k);
      var rest := ProtectedOnly(items[1..], keys);
      if items[0].Pair? && items[0].key in keys {
        assert ProtectedOnly(items, keys)[1..] == rest;
      } else {
        assert ProtectedOnly(items, keys) == rest;
      }
    }
  }

  lemma {:induction false} AcceptedMeaning(customer: seq<EnvItem>, keys: set<string>, fixed: map<string, string>, k: string)
    ensures Has(Accepted(customer, keys, fixed), k) <==> Has(customer, k) && !(k in keys && k in fixed)
    ensures Has(Accepted(customer, keys, fixed), k) ==> LastValue(Accepted(customer, keys, fixed), k) == LastValue(customer, k)
  {
    if customer != [] {
      AcceptedMeaning(customer[1..], keys, fixed, k);
      var rest := Accepted(customer[1..], keys, fixed);
      if customer[0].Pair? && (customer[0].key !in keys || customer[0].key !in fixed) {
        assert Accepted(customer, keys, fixed)[1..] == rest;
      } else {
        assert Accepted(customer, keys, fixed) == rest;
      }
    }
  }

  lemma {:induction false} FreshIgnoresSeen(seen: seq<string>, ks: seq<string>)
    requires forall k :: k in ks ==> k in seen
    ensures Fresh(seen, ks) == seen
    decreases ks
  {
    if ks != [] {
      var first := ks[0];
      assert first in ks;
      FreshIgnoresSeen(seen, ks[1..]);
    }
  }

  lemma {:induction false} FreshConcat(seen: seq<string>, a: seq<string>, b: seq<string>)
    ensures Fresh(seen, a + b) == Fresh(Fresh(seen, a), b)
    decreases a
  {
    if a == [] {
      assert a + b == b;
    } else {
      assert (a + b)[1..] == a[1..] + b;
      FreshConcat(if a[0] in seen then seen else seen + [a[0]], a[1..], b);
    }
  }

  lemma {:induction false} FreshAccepted(seen: seq<string>, customer: seq<EnvItem>, keys: set<string>, fixed: map<string, string>)
    requires forall k :: k in fixed ==> k in seen
    ensures Fresh(seen, Keys(Accepted(customer, keys, fixed))) == Fresh(seen, Keys(customer))
    decreases customer
  {
    if customer != [] {
      var rest := Accepted(customer[1..], keys, fixed);
      if !customer[0].Pair? {
        assert Keys(customer) == Keys(customer[1..]) && Accepted(customer, keys, fixed) == rest;
        FreshAccepted(seen, customer[1..], keys, fixed);
      } else {
        var k := customer[0].key;
        var next := if k in seen then seen else seen + [k];
        assert Keys(customer)[1..] == Keys(customer[1..]);
        FreshAccepted(next, customer[1..], keys, fixed);
        if k in keys && k in fixed {
          assert Accepted(customer, keys, fixed) == rest;
        } else {
          assert Accepted(customer, keys, fixed)[1..] == rest;
          assert Keys(Accepted(customer, keys, fixed))[1..] == Keys(rest);
        }
      }
    }
  }

  /** The listing of a dictionary gives its keys in order, each with its value. */
  lemma {:induction false} ItemsMeaning(ordered: seq<string>, values: map<string, string>, k: string)
    requires Distinct(ordered) && forall x :: x in ordered ==> x in values
    ensures Keys(ItemsOf(ordered, values)) == ordered
    ensures k in ordered ==> LastValue(ItemsOf(ordered, values), k) == values[k]
    ensures |ItemsOf(ordered, values)| == |ordered|
  {
    if ordered != [] {
      var first := ordered[0];
      assert first in ordered;
      forall x | x in ordered[1..] ensures x in values && x != first {
        assert x in ordered;
      }
      ItemsMeaning(ordered[1..], values, k);
      assert ItemsOf(ordered, values)[1..] == ItemsOf(ordered[1..], values);
    }
  }

  /** The value rule: a protected key the base has keeps the base's last value, any other takes the customer's last. */
  function Expected(base: seq<EnvItem>, customer: seq<EnvItem>, keys: set<string>, k: string): string {
    if k in keys && Has(base, k) then LastValue(base, k)
    else if Has(customer, k) then LastValue(customer, k)
    else LastValue(base, k)
  }

  lemma MergedEnvMeaning(base: seq<EnvItem>, customer: seq<EnvItem>, keys: set<string>, k: string)
    ensures var e := MergedEnv(base, customer, keys);
            && WellFormed(e)
            && e.ordered == Fresh([], Keys(base) + Keys(customer))
            && (k in e.values <==> Has(base, k) || Has(customer, k))
            && (k in e.values ==> e.values[k] == Expected(base, customer, keys, k))
  {
    var fixed := PutAll(EMPTY, ProtectedOnly(base, keys));
    var first := PutAll(EMPTY, base);
    var accepted := Accepted(customer, keys, fixed.values);
    var second := PutAll(first, accepted);
    EmptyIsWellFormed();
    PutAllMeaning(EMPTY, base, k);
    FixedMeaning(base, keys, k);
    PutAllMeaning(first, accepted, k);
    AcceptedMeaning(customer, keys, fixed.values, k);
    PutAllMeaning(second, Items(fixed), k);
    FreshConcat([], Keys(base), Keys(customer));
    forall x | x in fixed.values ensures x in first.ordered {
      FixedMeaning(base, keys, x);
      PutAllMeaning(EMPTY, base, x);
    }
    FreshAccepted(first.ordered, customer, keys, fixed.values);
    forall x | x in Keys(Items(fixed)) ensures x in second.ordered {
      FixedMeaning(base, keys, x);
      PutAllMeaning(EMPTY, base, x);
      PutAllMeaning(first, accepted, x);
    }
    FreshIgnoresSeen(second.ordered, Keys(Items(fixed)));
  }

  /** The protected part of the base: its keys, with their last values. */
  lemma FixedMeaning(base: seq<EnvItem>, keys: set<string>, k: string)
    ensures var fixed := PutAll(EMPTY, ProtectedOnly(base, keys));
            && WellFormed(fixed)
            && (k in fixed.values <==> Has(base, k) && k in keys)
            && (k in fixed.values ==> fixed.values[k] == LastValue(base, k))
            && Keys(Items(fixed)) == fixed.ordered
            && (k in fixed.values ==> LastValue(Items(fixed), k) == LastValue(base, k))
  {
    var fixed := PutAll(EMPTY, ProtectedOnly(base, keys));
    EmptyIsWellFormed();
    PutAllMeaning(EMPTY, ProtectedOnly(base, keys), k);
    ProtectedMeaning(base, keys, k);
    ItemsMeaning(fixed.ordered, fixed.values, k);
  }

  /** Keys come out once each, in the order they first appear, and every value follows the rule. */
  lemma MergeMeaning(base: seq<EnvItem>, customer: seq<EnvItem>, keys: set<string>, k: string)
    ensures Keys(Merge(base, customer, keys)) == Fresh([], Keys(base) + Keys(customer))
    ensures Distinct(Keys(Merge(base, customer, keys)))
    ensures |Merge(base, customer, keys)| == |Keys(Merge(base, customer, keys))|
    ensures Has(Merge(base, customer, keys), k) <==> Has(base, k) || Has(customer, k)
    ensures Has(Merge(base, customer, keys), k) ==>
              LastValue(Merge(base, customer, keys), k) == Expected(base, customer, keys, k)
  {
    var e := MergedEnv(base, customer, keys);
    MergedEnvMeaning(base, customer, keys, k);
    ItemsMeaning(e.ordered, e.values, k);
  }

  // ----- merging again

  ghost predicate AllPairs(items: seq<EnvItem>) {
    forall i :: 0 <= i < |items| ==> items[i].Pair?
  }

  lemma {:induction false} ItemsArePairs(ordered: seq<string>, values: map<string, string>)
    ensures AllPairs(ItemsOf(ordered, values))
  {
    if ordered != [] {
      ItemsArePairs(ordered[1..], values);
    }
  }

  lemma {:induction false} KeysOfPairs(items: seq<EnvItem>)
    requires AllPairs(items)
    ensures |Keys(items)| == |items| && forall i :: 0 <= i < |items| ==> Keys(items)[i] == items[i].key
  {
    if items != [] {
      KeysOfPairs(items[1..]);
    }
  }

  lemma {:induction false} ValueAt(items: seq<EnvItem>, i: nat)
    requires AllPairs(items) && Distinct(Keys(items)) && i < |items|
    ensures LastValue(items, items[i].key) == items[i].value
  {
    KeysOfPairs(items);
    KeysOfPairs(items[1..]);
    assert Keys(items)[1..] == Keys(items[1..]);
    if i == 0 {
      assert !Has(items[1..], items[0].key);
    } else {
      ValueAt(items[1..], i - 1);
      assert Keys(items[1..])[i - 1] == items[i].key;
    }
  }

  /** Entry lists with the same distinct keys in the same order and the same values are equal. */
  lemma ListingDetermined(r: seq<EnvItem>, q: seq<EnvItem>)
    requires AllPairs(r) && AllPairs(q) && Keys(r) == Keys(q) && Distinct(Keys(r))
    requires forall k :: k in Keys(r) ==> LastValue(r, k) == LastValue(q, k)
    ensures r == q
  {
    KeysOfPairs(r);
    KeysOfPairs(q);
    forall i | 0 <= i < |r| ensures r[i] == q[i] {
      ValueAt(r, i);
      ValueAt(q, i);
      var k := Keys(r)[i];
      assert k in Keys(r);
      assert r[i].key == k && q[i].key == k;
    }
  }

  lemma {:induction false} FreshOfDistinct(seen: seq<string>, ks: seq<string>)
    requires Distinct(seen + ks)
    ensures Fresh(seen, ks) == seen + ks
    decreases ks
  {
    if ks == [] {
      assert seen + ks == seen;
    } else {
      assert (seen + ks)[|seen|] == ks[0];
      forall i | 0 <= i < |seen| ensures seen[i] != ks[0] {
        assert (seen + ks)[i] == seen[i];
      }
      assert seen + ks == seen + [ks[0]] + ks[1..];
      FreshOfDistinct(seen + [ks[0]], ks[1..]);
    }
  }

  lemma MergeIsPairs(base: seq<EnvItem>, customer: seq<EnvItem>, keys: set<string>)
    ensures AllPairs(Merge(base, customer, keys))
  {
    ItemsArePairs(MergedEnv(base, customer, keys).ordered, MergedEnv(base, customer, keys).values);
  }

  /** A customer list that brings no new key and no new value leaves a list without repetitions alone. */
  lemma Absorbed(items: seq<EnvItem>, customer: seq<EnvItem>, keys: set<string>)
    requires AllPairs(items) && Distinct(Keys(items))
    requires forall k :: k in Keys(customer) ==> k in Keys(items)
    requires forall k :: k in Keys(items) ==> Expected(items, customer, keys, k) == LastValue(items, k)
    ensures Merge(items, customer, keys) == items
  {
    var r := Merge(items, customer, keys);
    MergeIsPairs(items, customer, keys);
    MergeMeaning(items, customer, keys, "");
    FreshConcat([], Keys(items), Keys(customer));
    assert [] + Keys(items) == Keys(items);
    FreshOfDistinct([], Keys(items));
    FreshIgnoresSeen(Keys(items), Keys(customer));
    forall k | k in Keys(r) ensures LastValue(r, k) == LastValue(items, k) {
      MergeMeaning(items, customer, keys, k);
    }
    ListingDetermined(r, items);
  }

  lemma MergedValueIsExpected(base: seq<EnvItem>, customer: seq<EnvItem>, keys: set<string>, k: string)
    requires Has(Merge(base, customer, keys), k)
    ensures var r := Merge(base, customer, keys); Expected(r, customer, keys, k) == LastValue(r, k)
  {
    MergeMeaning(base, customer, keys, k);
  }

  /** Merging the same customer list into the result changes nothing. */
  lemma RemergeIsNoOp(base: seq<EnvItem>, customer: seq<EnvItem>, keys: set<string>)
    ensures Merge(Merge(base, customer, keys), customer, keys) == Merge(base, customer, keys)
  {
    var r := Merge(base, customer, keys);
    MergeIsPairs(base, customer, keys);
    MergeMeaning(base, customer, keys, "");
    forall k | k in Keys(customer) ensures k in Keys(r) {
      MergeMeaning(base, customer, keys, k);
    }
    forall k | k in Keys(r) ensures Expected(r, customer, keys, k) == LastValue(r, k) {
      MergedValueIsExpected(base, customer, keys, k);
    }
    Absorbed(r, customer, keys);
  }

  /** Merging a list with itself reproduces it exactly when it is well formed and repeats no key. */
  lemma SelfMergeIff(items: seq<EnvItem>, keys: set<string>)
    ensures Merge(items, items, keys) == items <==> AllPairs(items) && Distinct(Keys(items))
  {
    MergeIsPairs(items, items, keys);
    MergeMeaning(items, items, keys, "");
    if AllPairs(items) && Distinct(Keys(items)) {
      Absorbed(items, items, keys);
    }
  }
}
