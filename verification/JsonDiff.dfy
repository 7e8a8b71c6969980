/** JSON values, and the search for the first difference between two of them. */
module JsonDiff {
  import opened Common
  import opened KeyOrder

  /** Integers and floats are compared as numbers, so there is one kind of number. */
  datatype Json = Null | Bool(b: bool) | Num(n: real) | Str(s: string) | Arr(items: seq<Json>) | Obj(fields: map<string, Json>)

  /** Numbers are compared after conversion to a float. */
  type Rounding = real -> real

  datatype Step = Key(key: string) | Index(i: nat) | Length

  function Under(step: Step, path: Option<seq<Step>>): Option<seq<Step>> {
    match path
    case None => None
    case Some(p) => Some([step] + p)
  }

  predicate SameLeaf(round: Rounding, l: Json, r: Json) {
    if l.Num? && r.Num? then round(l.n) == round(r.n) else l == r
  }

  /** Keys of one side only come first, in order; then the common keys in order; then list lengths and items. */
  function Diff(round: Rounding, l: Json, r: Json): Option<seq<Step>>
    decreases l, 1, 0
  {
    if l.Obj? && r.Obj? then
      var gone, come := Walk(l.fields.Keys - r.fields.Keys), Walk(r.fields.Keys - l.fields.Keys);
      if gone != [] then Some([Key(gone[0])])
      else if come != [] then Some([Key(come[0])])
      else DiffFields(round, l, r, Walk(l.fields.Keys))
    else if l.Arr? && r.Arr? then
      if |l.items| != |r.items| then Some([Length]) else DiffItems(round, l, r, 0)
    else if SameLeaf(round, l, r) then None else Some([])
  }

  function DiffFields(round: Rounding, l: Json, r: Json, ks: seq<string>): Option<seq<Step>>
    requires l.Obj? && r.Obj?
    decreases l, 0, |ks|
  {
    if ks == [] then None
    else if ks[0] !in l.fields || ks[0] !in r.fields then DiffFields(round, l, r, ks[1..])
    else
      var d := Diff(round, l.fields[ks[0]], r.fields[ks[0]]);
      if d.Some? then Under(Key(ks[0]), d) else DiffFields(round, l, r, ks[1..])
  }

  function DiffItems(round: Rounding, l: Json, r: Json, i: nat): Option<seq<Step>>
    requires l.Arr? && r.Arr? && |l.items| == |r.items| && i <= |l.items|
    decreases l, 0, |l.items| - i
  {
    if i == |l.items| then None
    else
      var d := Diff(round, l.items[i], r.items[i]);
      if d.Some? then Under(Index(i), d) else DiffItems(round, l, r, i + 1)
  }

  /** The value with all its numbers rounded. */
  function Rounded(round: Rounding, v: Json): Json
    decreases v
  {
    match v
    case Num(n) => Num(round(n))
    case Arr(items) => Arr(seq(|items|, i requires 0 <= i < |items| => Rounded(round, items[i])))
    case Obj(fields) => Obj(RoundedFields(round, v))
    case _ => v
  }

  function RoundedFields(round: Rounding, v: Json): map<string, Json>
    requires v.Obj?
    decreases v, 0
  {
    map k | k in v.fields :: Rounded(round, v.fields[k])
  }

  /** What a path leads to; a list's length is reached by `Length`. */
  function At(v: Json, path: seq<Step>): Option<Json> {
    if path == [] then Some(v)
    else match path[0]
      case Key(k) => if v.Obj? && k in v.fields then At(v.fields[k], path[1..]) else None
      case Index(i) => if v.Arr? && i < |v.items| then At(v.items[i], path[1..]) else None
      case Length => if v.Arr? then Some(Num(|v.items| as real)) else None
  }

  /** No difference is found exactly when the values are equal up to rounding, and a reported path does lead to a difference. */
  lemma {:induction false} DiffIsExact(round: Rounding, l: Json, r: Json)
    ensures Diff(round, l, r) == None <==> Rounded(round, l) == Rounded(round, r)
    ensures Diff(round, l, r).Some? ==> At(l, Diff(round, l, r).value) != At(r, Diff(round, l, r).value)
    decreases l, 1, 0
  {
    if l.Obj? && r.Obj? {
      ObjectDiffIsExact(round, l, r);
    } else if l.Arr? && r.Arr? {
      if |l.items| == |r.items| {
        DiffItemsIsExact(round, l, r, 0);
        ItemsRound(round, l, r);
      } else {
        assert |Rounded(round, l).items| == |l.items| && |Rounded(round, r).items| == |r.items|;
      }
    }
  }

  lemma ItemsRound(round: Rounding, l: Json, r: Json)
    requires l.Arr? && r.Arr? && |l.items| == |r.items|
    ensures Rounded(round, l) == Rounded(round, r) <==>
            forall i :: 0 <= i < |l.items| ==> Rounded(round, l.items[i]) == Rounded(round, r.items[i])
  {
    var a, b := Rounded(round, l).items, Rounded(round, r).items;
    assert forall i :: 0 <= i < |l.items| ==> a[i] == Rounded(round, l.items[i]) && b[i] == Rounded(round, r.items[i]);
    if forall i :: 0 <= i < |l.items| ==> Rounded(round, l.items[i]) == Rounded(round, r.items[i]) {
      assert a == b;
    }
  }

  lemma FieldsRound(round: Rounding, l: Json, r: Json)
    requires l.Obj? && r.Obj?
    ensures Rounded(round, l) == Rounded(round, r) <==>
            l.fields.Keys == r.fields.Keys && forall k :: k in l.fields ==> k in r.fields && Rounded(round, l.fields[k]) == Rounded(round, r.fields[k])
  {
    var a, b := RoundedFields(round, l), RoundedFields(round, r);
    assert a.Keys == l.fields.Keys && b.Keys == r.fields.Keys;
    if a == b {
      forall k | k in l.fields ensures k in r.fields && Rounded(round, l.fields[k]) == Rounded(round, r.fields[k]) {
        assert k in a && a[k] == b[k];
      }
    }
    if l.fields.Keys == r.fields.Keys && forall k :: k in l.fields ==> k in r.fields && Rounded(round, l.fields[k]) == Rounded(round, r.fields[k]) {
      assert a == b;
    }
  }

  lemma {:induction false} ObjectDiffIsExact(round: Rounding, l: Json, r: Json)
    requires l.Obj? && r.Obj?
    ensures Diff(round, l, r) == None <==> Rounded(round, l) == Rounded(round, r)
    ensures Diff(round, l, r).Some? ==> At(l, Diff(round, l, r).value) != At(r, Diff(round, l, r).value)
    decreases l, 0
  {
    var gone, come := l.fields.Keys - r.fields.Keys, r.fields.Keys - l.fields.Keys;
    FieldsRound(round, l, r);
    if Walk(gone) != [] {
      WalkAt(gone, 0);
    } else if Walk(come) != [] {
      WalkAt(come, 0);
    } else {
      NothingLeft(l.fields.Keys, r.fields.Keys);
      WalkOrdered(l.fields.Keys);
      DiffFieldsIsExact(round, l, r, Walk(l.fields.Keys));
    }
  }

  lemma NothingLeft(a: set<string>, b: set<string>)
    requires Walk(a - b) == [] && Walk(b - a) == []
    ensures a == b
  {
    WalkOrdered(a - b);
    WalkOrdered(b - a);
    forall k ensures k in a <==> k in b {
      assert k !in Walk(a - b) && k !in Walk(b - a);
    }
  }

  lemma {:induction false} DiffFieldsIsExact(round: Rounding, l: Json, r: Json, ks: seq<string>)
    requires l.Obj? && r.Obj? && forall k :: k in ks ==> k in l.fields && k in r.fields
    ensures DiffFields(round, l, r, ks) == None <==> forall k :: k in ks ==> Rounded(round, l.fields[k]) == Rounded(round, r.fields[k])
    ensures DiffFields(round, l, r, ks).Some? ==> At(l, DiffFields(round, l, r, ks).value) != At(r, DiffFields(round, l, r, ks).value)
    decreases l, 0, |ks|
  {
    if ks != [] {
      var k := ks[0];
      assert k in ks;
      DiffIsExact(round, l.fields[k], r.fields[k]);
      var d := Diff(round, l.fields[k], r.fields[k]);
      if d.Some? {
        assert ([Key(k)] + d.value)[1..] == d.value;
      } else {
        DiffFieldsIsExact(round, l, r, ks[1..]);
        assert ks == [k] + ks[1..];
      }
    }
  }

  lemma {:induction false} DiffItemsIsExact(round: Rounding, l: Json, r: Json, i: nat)
    requires l.Arr? && r.Arr? && |l.items| == |r.items| && i <= |l.items|
    ensures DiffItems(round, l, r, i) == None <==>
            forall j :: i <= j < |l.items| ==> Rounded(round, l.items[j]) == Rounded(round, r.items[j])
    ensures DiffItems(round, l, r, i).Some? ==> At(l, DiffItems(round, l, r, i).value) != At(r, DiffItems(round, l, r, i).value)
    decreases l, 0, |l.items| - i
  {
    if i < |l.items| {
      DiffIsExact(round, l.items[i], r.items[i]);
      var d := Diff(round, l.items[i], r.items[i]);
      if d.Some? {
        assert ([Index(i)] + d.value)[1..] == d.value;
      } else {
        DiffItemsIsExact(round, l, r, i + 1);
      }
    }
  }

  // ----- the first difference

  lemma {:induction false} DiffFieldsIsFirst(round: Rounding, l: Json, r: Json, ks: seq<string>)
    requires l.Obj? && r.Obj? && (forall k :: k in ks ==> k in l.fields && k in r.fields) && DiffFields(round, l, r, ks).Some?
    ensures var p := DiffFields(round, l, r, ks).value;
            p != [] &&
            (exists i :: 0 <= i < |ks| && p[0] == Key(ks[i]) &&
                         forall j :: 0 <= j < i ==> Rounded(round, l.fields[ks[j]]) == Rounded(round, r.fields[ks[j]]))
    decreases |ks|
  {
    var k := ks[0];
    assert k in ks;
    DiffIsExact(round, l.fields[k], r.fields[k]);
    var d := Diff(round, l.fields[k], r.fields[k]);
    if d.Some? {
      assert DiffFields(round, l, r, ks).value[0] == Key(ks[0]);
    } else {
      DiffFieldsIsFirst(round, l, r, ks[1..]);
      var p := DiffFields(round, l, r, ks).value;
      var i :| 0 <= i < |ks[1..]| && p[0] == Key(ks[1..][i]) &&
               forall j :: 0 <= j < i ==> Rounded(round, l.fields[ks[1..][j]]) == Rounded(round, r.fields[ks[1..][j]]);
      assert p[0] == Key(ks[i + 1]);
      forall j | 0 <= j < i + 1 ensures Rounded(round, l.fields[ks[j]]) == Rounded(round, r.fields[ks[j]]) {
        if j > 0 {
          assert ks[j] == ks[1..][j - 1];
        }
      }
    }
  }

  /** A key on one side only is reported before anything else: the smallest of the first side, or else of the second. */
  lemma MissingKeyIsReported(round: Rounding, l: Json, r: Json, k: string)
    requires l.Obj? && r.Obj? && k in l.fields.Keys - r.fields.Keys
    ensures exists least :: Diff(round, l, r) == Some([Key(least)]) && IsLeast(least, l.fields.Keys - r.fields.Keys)
  {
    var gone := l.fields.Keys - r.fields.Keys;
    WalkOrdered(gone);
    assert k in Walk(gone);
    LeastExists(gone);
    var least :| IsLeast(least, gone);
    LeastIsFirst(gone, least);
  }

  lemma AddedKeyIsReported(round: Rounding, l: Json, r: Json, k: string)
    requires l.Obj? && r.Obj? && l.fields.Keys <= r.fields.Keys && k in r.fields.Keys - l.fields.Keys
    ensures exists least :: Diff(round, l, r) == Some([Key(least)]) && IsLeast(least, r.fields.Keys - l.fields.Keys)
  {
    var come := r.fields.Keys - l.fields.Keys;
    WalkOrdered(come);
    assert k in Walk(come);
    assert l.fields.Keys - r.fields.Keys == {};
    LeastExists(come);
    var least :| IsLeast(least, come);
    LeastIsFirst(come, least);
  }

  /** Among objects with the same keys the difference is reported at the smallest key with different values. */
  lemma SmallestKeyIsReported(round: Rounding, l: Json, r: Json)
    requires l.Obj? && r.Obj? && l.fields.Keys == r.fields.Keys && Diff(round, l, r).Some?
    ensures var p := Diff(round, l, r).value;
            p != [] && p[0].Key? &&
            forall k :: k in l.fields && Less(k, p[0].key) ==> Rounded(round, l.fields[k]) == Rounded(round, r.fields[k])
  {
    var ks := Walk(l.fields.Keys);
    WalkOrdered(l.fields.Keys);
    assert l.fields.Keys - r.fields.Keys == {} && r.fields.Keys - l.fields.Keys == {};
    DiffFieldsIsFirst(round, l, r, ks);
    var p := DiffFields(round, l, r, ks).value;
    var i :| 0 <= i < |ks| && p[0] == Key(ks[i]) && forall j :: 0 <= j < i ==> Rounded(round, l.fields[ks[j]]) == Rounded(round, r.fields[ks[j]]);
    forall k | k in l.fields && Less(k, ks[i]) ensures Rounded(round, l.fields[k]) == Rounded(round, r.fields[k]) {
      EarlierInOrder(ks, k, i);
    }
  }

  lemma EarlierInOrder(ks: seq<string>, k: string, i: nat)
    requires Sorted(ks) && k in ks && i < |ks| && Less(k, ks[i])
    ensures exists j :: 0 <= j < i && ks[j] == k
  {
    var j :| 0 <= j < |ks| && ks[j] == k;
    if j > i {
      Transitive(k, ks[i], k);
    }
    Irreflexive(k);
  }

  /** Among lists of the same length it is reported at the first position with different items. */
  lemma {:induction false} FirstItemIsReported(round: Rounding, l: Json, r: Json, i: nat)
    requires l.Arr? && r.Arr? && |l.items| == |r.items| && i <= |l.items| && DiffItems(round, l, r, i).Some?
    ensures var p := DiffItems(round, l, r, i).value;
            p != [] && p[0].Index? && i <= p[0].i < |l.items| &&
            forall j :: i <= j < p[0].i ==> Rounded(round, l.items[j]) == Rounded(round, r.items[j])
    decreases |l.items| - i
  {
    DiffIsExact(round, l.items[i], r.items[i]);
    if Diff(round, l.items[i], r.items[i]).None? {
      FirstItemIsReported(round, l, r, i + 1);
    }
  }
}
