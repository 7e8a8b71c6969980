/** The iteration order of a `BTreeMap` with integer keys. */
module Ascending {
  import opened Common

  predicate Increasing(s: seq<int>) {
    forall i, j :: 0 <= i < j < |s| ==> s[i] < s[j]
  }

  lemma EmptyOrInhabited(s: set<int>)
    ensures s == {} || exists x :: x in s
  {
    if forall x :: x !in s {
      assert s == {};
    }
  }

  predicate IsLeast(k: int, s: set<int>) {
    k in s && forall j :: j in s ==> k <= j
  }

  lemma {:induction false} LeastExists(s: set<int>)
    requires s != {}
    ensures exists k :: IsLeast(k, s)
  {
    EmptyOrInhabited(s);
    var x :| x in s;
    if s == {x} {
      assert IsLeast(x, s);
    } else {
      var rest := s - {x};
      LeastExists(rest);
      var k :| IsLeast(k, rest);
      var least := if k < x then k else x;
      forall j | j in s ensures least <= j {
        assert j == x || j in rest;
      }
      assert IsLeast(least, s);
    }
  }

  /** The elements of `s`, each once, smallest first. */
  function Ids(s: set<int>): seq<int> {
    if s == {} then [] else
      LeastExists(s);
      var k :| IsLeast(k, s);
      [k] + Ids(s - {k})
  }

  lemma LeastIsFirst(s: set<int>, k: int)
    requires s != {} && IsLeast(k, s)
    ensures Ids(s) == [k] + Ids(s - {k})
  {
    LeastExists(s);
  }

  lemma {:induction false} IdsOrdered(s: set<int>)
    ensures Increasing(Ids(s))
    ensures forall k :: k in Ids(s) <==> k in s
    ensures |Ids(s)| == |s|
  {
    if s != {} {
      LeastExists(s);
      var k :| IsLeast(k, s);
      LeastIsFirst(s, k);
      IdsOrdered(s - {k});
      var rest := Ids(s - {k});
      forall j | 0 <= j < |rest| ensures k < rest[j] {
        assert rest[j] in rest;
      }
    }
  }

  lemma IdsMembers(s: set<int>)
    ensures forall k :: k in Ids(s) <==> k in s
  {
    IdsOrdered(s);
  }

  lemma IdAt(s: set<int>, i: nat)
    requires i < |Ids(s)|
    ensures Ids(s)[i] in s
  {
    IdsOrdered(s);
    assert Ids(s)[i] in Ids(s);
  }

  /** An increasing sequence is determined by its elements. */
  lemma {:induction false} IncreasingUnique(r: seq<int>, q: seq<int>)
    requires Increasing(r) && Increasing(q)
    requires forall k :: k in r <==> k in q
    ensures r == q
  {
    if r == [] || q == [] {
      if r != [] { HeadCovered(r, q); }
      if q != [] { HeadCovered(q, r); }
    } else {
      assert r[0] in q && q[0] in r;
      assert r[0] == q[0];
      forall k ensures k in r[1..] <==> k in q[1..] {
        TailMembers(r, k);
        TailMembers(q, k);
      }
      IncreasingUnique(r[1..], q[1..]);
    }
  }

  lemma TailMembers(r: seq<int>, k: int)
    requires r != [] && Increasing(r)
    ensures k in r[1..] <==> k in r && k != r[0]
  {
    assert r == [r[0]] + r[1..];
  }
}
