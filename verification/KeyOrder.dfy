/** Byte-wise string order, the order in which a string-keyed `BTreeMap` is walked. */
module KeyOrder {
  import opened Common

  predicate Less(a: string, b: string) {
    b != [] && (a == [] || a[0] < b[0] || (a[0] == b[0] && Less(a[1..], b[1..])))
  }

  /** The strings part at `i`: there the first one ends, or has the smaller character. */
  ghost predicate PartsBelow(a: string, b: string, i: nat) {
    i <= |a| && i < |b| && a[..i] == b[..i] && (i == |a| || a[i] < b[i])
  }

  /** The order is decided where the strings first part. */
  lemma {:induction false} LessIff(a: string, b: string)
    ensures Less(a, b) <==> exists i :: PartsBelow(a, b, i)
  {
    if Less(a, b) {
      var i := PartsAt(a, b);
    }
    if i :| PartsBelow(a, b, i) {
      PartedIsLess(a, b, i);
    }
  }

  lemma {:induction false} PartsAt(a: string, b: string) returns (i: nat)
    requires Less(a, b)
    ensures PartsBelow(a, b, i)
  {
    if a == [] || a[0] < b[0] {
      i := 0;
    } else {
      var j := PartsAt(a[1..], b[1..]);
      i := j + 1;
      assert a[..i] == [a[0]] + a[1..][..j] && b[..i] == [b[0]] + b[1..][..j];
    }
  }

  lemma {:induction false} PartedIsLess(a: string, b: string, i: nat)
    requires PartsBelow(a, b, i)
    ensures Less(a, b)
    decreases i
  {
    if i > 0 {
      assert a[0] == a[..i][0] == b[..i][0] == b[0];
      assert a[1..][..i - 1] == a[..i][1..] && b[1..][..i - 1] == b[..i][1..];
      PartedIsLess(a[1..], b[1..], i - 1);
    }
  }

  lemma {:induction false} Irreflexive(a: string)
    ensures !Less(a, a)
  {
    if a != [] {
      Irreflexive(a[1..]);
    }
  }

  lemma {:induction false} Total(a: string, b: string)
    ensures Less(a, b) || Less(b, a) || a == b
  {
    if a != [] && b != [] && a[0] == b[0] {
      Total(a[1..], b[1..]);
      if a[1..] == b[1..] {
        assert a == [a[0]] + a[1..] && b == [b[0]] + b[1..];
      }
    }
  }

  lemma {:induction false} Transitive(a: string, b: string, c: string)
    requires Less(a, b) && Less(b, c)
    ensures Less(a, c)
  {
    if a != [] && a[0] == b[0] && b[0] == c[0] {
      Transitive(a[1..], b[1..], c[1..]);
    }
  }

  /** A string is never below one of its prefixes. */
  lemma {:induction false} PrefixNotAbove(p: string, k: string)
    requires p <= k
    ensures !Less(k, p)
  {
    if p != [] {
      PrefixNotAbove(p[1..], k[1..]);
    }
  }

  /** Strings with prefix `p` are contiguous: what lies between `p` and one of them is one of them. */
  lemma {:induction false} PrefixesAreContiguous(p: string, a: string, b: string)
    requires p <= b && !Less(a, p) && Less(a, b)
    ensures p <= a
  {
    if p != [] {
      PrefixesAreContiguous(p[1..], a[1..], b[1..]);
      assert a == [a[0]] + a[1..] && p == [p[0]] + p[1..];
    }
  }

  // ----- sorted key sequences

  ghost predicate Sorted(s: seq<string>) {
    forall i, j :: 0 <= i < j < |s| ==> Less(s[i], s[j])
  }

  lemma EmptyOrInhabited(s: set<string>)
    ensures s == {} || exists x :: x in s
  {
    if forall x :: x !in s {
      assert s == {};
    }
  }

  predicate IsLeast(k: string, s: set<string>) {
    k in s && forall j :: j in s ==> j == k || Less(k, j)
  }

  lemma {:induction false} LeastExists(s: set<string>)
    requires s != {}
    ensures exists k :: IsLeast(k, s)
  {
    EmptyOrInhabited(s);
    var x :| x in s;
    if s == {x} {
      assert IsLeast(x, s);
    } else {
      var rest := s - {x};
      LeastExists(rest);
      var k :| IsLeast(k, rest);
      Total(k, x);
      if Less(k, x) {
        assert IsLeast(k, s);
      } else {
        forall j | j in s ensures j == x || Less(x, j) {
          if j in rest && j != k {
            Transitive(x, k, j);
          }
        }
        assert IsLeast(x, s);
      }
    }
  }

  lemma LeastUnique(s: set<string>, a: string, b: string)
    requires IsLeast(a, s) && IsLeast(b, s)
    ensures a == b
  {
    if a != b {
      Transitive(a, b, a);
      Irreflexive(a);
    }
  }

  /** The keys in `s`, each once, in walking order. */
  function Walk(s: set<string>): seq<string> {
    if s == {} then [] else
      LeastExists(s);
      assert forall a, b | IsLeast(a, s) && IsLeast(b, s) :: a == b by {
        forall a, b | IsLeast(a, s) && IsLeast(b, s) ensures a == b { LeastUnique(s, a, b); }
      }
      var k :| IsLeast(k, s);
      [k] + Walk(s - {k})
  }

  lemma {:induction false} WalkOrdered(s: set<string>)
    ensures Sorted(Walk(s))
    ensures forall k :: k in Walk(s) <==> k in s
  {
    if s != {} {
      LeastExists(s);
      var k :| IsLeast(k, s);
      LeastIsFirst(s, k);
      WalkOrdered(s - {k});
      var rest := Walk(s - {k});
      forall j | 0 <= j < |rest| ensures Less(k, rest[j]) {
        assert rest[j] in rest;
      }
    }
  }

  lemma WalkAt(s: set<string>, i: nat)
    requires i < |Walk(s)|
    ensures Walk(s)[i] in s
  {
    WalkOrdered(s);
    assert Walk(s)[i] in Walk(s);
  }

  lemma LeastIsFirst(s: set<string>, k: string)
    requires s != {} && IsLeast(k, s)
    ensures Walk(s) == [k] + Walk(s - {k})
  {
    var first := Walk(s)[0];
    assert IsLeast(first, s) by { LeastExists(s); }
    LeastUnique(s, first, k);
  }

  lemma TailMembers(r: seq<string>, k: string)
    requires r != [] && Sorted(r)
    ensures k in r[1..] <==> k in r && k != r[0]
  {
    assert r == [r[0]] + r[1..];
    Irreflexive(r[0]);
  }

  lemma FirstsAgree(r: seq<string>, q: seq<string>)
    requires r != [] && q != [] && Sorted(r) && Sorted(q)
    requires forall k :: k in r <==> k in q
    ensures r[0] == q[0]
  {
    var a, b := r[0], q[0];
    assert a in r && b in q;
    assert a in q && b in r;
    if a != b {
      assert Less(b, a) && Less(a, b);
      Transitive(a, b, a);
      Irreflexive(a);
    }
  }

  /** A sorted sequence is determined by its elements. */
  lemma {:induction false} SortedUnique(r: seq<string>, q: seq<string>)
    requires Sorted(r) && Sorted(q)
    requires forall k :: k in r <==> k in q
    ensures r == q
  {
    if r == [] || q == [] {
      if r != [] { HeadCovered(r, q); }
      if q != [] { HeadCovered(q, r); }
    } else {
      FirstsAgree(r, q);
      forall k ensures k in r[1..] <==> k in q[1..] {
        TailMembers(r, k);
        TailMembers(q, k);
      }
      SortedUnique(r[1..], q[1..]);
    }
  }
}
