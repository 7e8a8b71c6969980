/** Normalising a model target twice is the same as normalising it once. */
module TargetNormalForm {
  import opened Common
  import opened PyText
  import opened ModelTargets

  // ----- pieces of a split

  ghost predicate Lacks(s: string, sep: string) {
    forall i :: 0 <= i <= |s| ==> !(sep <= s[i..])
  }

  lemma {:induction false} SplitFirstIsPrefix(s: string, sep: string)
    requires sep != ""
    ensures Split(s, sep)[0] <= s
    decreases |s|
  {
    if s != "" && !(sep <= s) {
      SplitFirstIsPrefix(s[1..], sep);
      assert s == [s[0]] + s[1..];
    }
  }

  /** No piece contains the separator. */
  lemma {:induction false} SplitPiecesLack(s: string, sep: string, j: nat)
    requires sep != "" && j < |Split(s, sep)|
    ensures Lacks(Split(s, sep)[j], sep)
    decreases |s|
  {
    if s != "" {
      if sep <= s {
        if j > 0 {
          SplitPiecesLack(s[|sep|..], sep, j - 1);
        }
      } else {
        var rest := Split(s[1..], sep);
        SplitPiecesLack(s[1..], sep, j);
        if j == 0 {
          var piece := [s[0]] + rest[0];
          SplitFirstIsPrefix(s[1..], sep);
          assert piece <= s by { assert s == [s[0]] + s[1..]; }
          forall i | 0 <= i <= |piece| ensures !(sep <= piece[i..]) {
            if i > 0 {
              assert piece[i..] == rest[0][i - 1..];
            }
          }
        }
      }
    }
  }

  /** Every character of a piece comes from the split string. */
  lemma {:induction false} SplitPieceChars(s: string, sep: string, j: nat)
    requires sep != "" && j < |Split(s, sep)|
    ensures forall c :: c in Split(s, sep)[j] ==> c in s
    decreases |s|
  {
    if s != "" {
      if sep <= s {
        if j > 0 {
          SplitPieceChars(s[|sep|..], sep, j - 1);
        }
      } else {
        SplitPieceChars(s[1..], sep, j);
      }
    }
  }

  lemma LacksSlash(s: string)
    requires Lacks(s, "/")
    ensures '/' !in s
  {
    forall i | 0 <= i < |s| ensures s[i] != '/' {
      assert !("/" <= s[i..]);
      assert s[i..][0] == s[i];
    }
  }

  // ----- stripping

  lemma {:induction false} LStripIsSuffix(s: string)
    ensures exists k :: 0 <= k <= |s| && LStrip(s) == s[k..]
  {
    if s != [] && IsSpace(s[0]) {
      LStripIsSuffix(s[1..]);
      var k :| 0 <= k <= |s[1..]| && LStrip(s[1..]) == s[1..][k..];
      assert s[1..][k..] == s[k + 1..];
    } else {
      assert s[0..] == s;
    }
  }

  lemma StripIsSlice(s: string) returns (k: nat)
    ensures k <= |s| && Strip(s) <= s[k..]
  {
    LStripIsSuffix(s);
    k :| 0 <= k <= |s| && LStrip(s) == s[k..];
    RStripEnds(LStrip(s));
  }

  lemma SliceKeepsLacking(t: string, s: string, k: nat, sep: string)
    requires k <= |s| && t <= s[k..] && Lacks(s, sep)
    ensures Lacks(t, sep)
  {
    forall i | 0 <= i <= |t| ensures !(sep <= t[i..]) {
      assert !(sep <= s[k + i..]);
      assert t[i..] <= s[k + i..];
    }
  }

  lemma StripKeepsLacking(s: string, sep: string)
    requires Lacks(s, sep)
    ensures Lacks(Strip(s), sep)
  {
    var k := StripIsSlice(s);
    SliceKeepsLacking(Strip(s), s, k, sep);
  }

  lemma StripKeepsChars(s: string)
    ensures forall c :: c in Strip(s) ==> c in s
  {
    var k := StripIsSlice(s);
  }

  // ----- repository names

  /** A name as it comes out of a cache path: trimmed, not empty, without "--" and without '/'. */
  ghost predicate IsName(n: string) {
    n != "" && Trimmed(n) && Lacks(n, "--") && '/' !in n
  }

  ghost predicate AreNames(ns: seq<string>) {
    forall i :: 0 <= i < |ns| ==> IsName(ns[i])
  }

  ghost predicate ArePieces(ps: seq<string>) {
    forall i :: 0 <= i < |ps| ==> Lacks(ps[i], "--") && '/' !in ps[i]
  }

  lemma {:induction false} StrippedPiecesAreNames(ps: seq<string>)
    requires ArePieces(ps)
    ensures AreNames(NonEmpty(StripAll(ps)))
  {
    if ps != [] {
      assert Lacks(ps[0], "--") && '/' !in ps[0];
      StripKeepsLacking(ps[0], "--");
      StripKeepsChars(ps[0]);
      StripIsTrimmed(ps[0]);
      StrippedPiecesAreNames(ps[1..]);
      assert StripAll(ps)[1..] == StripAll(ps[1..]);
    }
  }

  lemma RepoPiecesArePieces(part: string)
    requires '/' !in part
    ensures ArePieces(Split(part, "--"))
  {
    var ps := Split(part, "--");
    forall i | 0 <= i < |ps| ensures Lacks(ps[i], "--") && '/' !in ps[i] {
      SplitPiecesLack(part, "--", i);
      SplitPieceChars(part, "--", i);
    }
  }

  /** A repository read off a cache path is a non-empty list of names. */
  lemma {:induction false} SnapshotRepoIsNames(parts: seq<string>)
    requires forall i :: 0 <= i < |parts| ==> '/' !in parts[i]
    ensures SnapshotRepo(parts).Some? ==>
              exists names :: names != [] && AreNames(names) && SnapshotRepo(parts).value == Join(names, "/")
  {
    if parts != [] {
      SnapshotRepoIsNames(parts[1..]);
      if "models--" <= parts[0] && |parts| >= 3 && parts[1] == "snapshots" {
        var token := parts[0][|"models--"|..];
        assert '/' !in parts[0];
        StripKeepsChars(token);
        RepoPiecesArePieces(Strip(token));
        StrippedPiecesAreNames(Split(Strip(token), "--"));
        var names := NonEmpty(StripAll(Split(Strip(token), "--")));
        assert names != [] ==> names != [] && AreNames(names) && Join(names, "/") == Join(names, "/");
      }
    }
  }

  // ----- splitting a join

  lemma {:induction false} SplitOfJoin(names: seq<string>)
    requires names != [] && AreNames(names)
    ensures Split(Join(names, "/"), "/") == names
  {
    assert IsName(names[0]);
    if |names| == 1 {
      SplitWithout(names[0], '/');
    } else {
      SplitOfJoin(names[1..]);
      SplitAtFirst(names[0], '/', Join(names[1..], "/"));
      assert [names[0]] + names[1..] == names;
    }
  }

  lemma CachePrefixHasDashes(n: string)
    ensures "models--" <= n ==> !Lacks(n, "--")
  {
    if "models--" <= n {
      assert n[6] == '-' && n[7] == '-';
      assert "--" <= n[6..];
    }
  }

  lemma {:induction false} NamesAreNoSnapshot(names: seq<string>)
    requires AreNames(names)
    ensures SnapshotRepo(names) == None && NonEmpty(names) == names
  {
    if names != [] {
      assert IsName(names[0]);
      NamesAreNoSnapshot(names[1..]);
      assert [names[0]] + names[1..] == names;
      CachePrefixHasDashes(names[0]);
    }
  }

  lemma {:induction false} JoinIsTrimmed(names: seq<string>)
    requires names != [] && AreNames(names)
    ensures Join(names, "/") != "" && Trimmed(Join(names, "/"))
    ensures Join(names, "/")[0] == names[0][0]
  {
    assert IsName(names[0]);
    if |names| > 1 {
      JoinIsTrimmed(names[1..]);
      var tail := Join(names[1..], "/");
      var whole := names[0] + "/" + tail;
      assert whole[|whole| - 1] == tail[|tail| - 1];
    }
  }

  lemma {:induction false} NonEmptyKeepsSlashFree(ps: seq<string>)
    requires forall i :: 0 <= i < |ps| ==> '/' !in ps[i]
    ensures forall i :: 0 <= i < |NonEmpty(ps)| ==> '/' !in NonEmpty(ps)[i]
  {
    if ps != [] {
      NonEmptyKeepsSlashFree(ps[1..]);
    }
  }

  lemma PathPartsAreSlashFree(s: string)
    ensures forall i :: 0 <= i < |NonEmpty(Split(s, "/"))| ==> '/' !in NonEmpty(Split(s, "/"))[i]
  {
    var ps := Split(s, "/");
    forall i | 0 <= i < |ps| ensures '/' !in ps[i] {
      SplitPiecesLack(s, "/", i);
      LacksSlash(ps[i]);
    }
    NonEmptyKeepsSlashFree(ps);
  }

  /** The normal form is trimmed and is its own normal form. */
  lemma NormalizeTwice(value: string)
    ensures Trimmed(Normalize(value)) && Normalize(Normalize(value)) == Normalize(value)
  {
    var s := Strip(value);
    StripIsTrimmed(value);
    if s != "" {
      var parts := NonEmpty(Split(s, "/"));
      PathPartsAreSlashFree(s);
      SnapshotRepoIsNames(parts);
      if SnapshotRepo(parts).Some? {
        var names :| names != [] && AreNames(names) && SnapshotRepo(parts).value == Join(names, "/");
        JoinIsTrimmed(names);
        TrimmedIsStripped(Join(names, "/"));
        SplitOfJoin(names);
        NamesAreNoSnapshot(names);
      } else {
        TrimmedIsStripped(s);
      }
    }
  }
}
