/** Which repository a model target names: cache paths, and what looks like a repository. */
module CachePaths {
  import opened Common
  import opened PyText
  import opened ModelTargets
  import opened TargetNormalForm

  const CACHE := "models--"

  /** The names in a cache directory's own name. */
  function RepoNames(part: string): seq<string>
    requires CACHE <= part
  {
    NonEmpty(StripAll(Split(Strip(part[|CACHE|..]), "--")))
  }

  /** At `i` stands a cache directory that names something, followed by `snapshots` and at least one more part. */
  ghost predicate CacheAt(parts: seq<string>, i: nat) {
    i + 2 < |parts| && CACHE <= parts[i] && parts[i + 1] == "snapshots" && RepoNames(parts[i]) != []
  }

  ghost predicate FirstCacheAt(parts: seq<string>, i: nat) {
    CacheAt(parts, i) && forall j :: 0 <= j < i ==> !CacheAt(parts, j)
  }

  /** The repository of a path is that of its first such directory, the names joined by slashes. */
  lemma {:induction false} SnapshotIsFirst(parts: seq<string>)
    ensures match SnapshotRepo(parts)
            case None => forall i: nat :: !CacheAt(parts, i)
            case Some(r) => exists i: nat :: FirstCacheAt(parts, i) && r == Join(RepoNames(parts[i]), "/")
  {
    if CacheAt(parts, 0) {
      assert FirstCacheAt(parts, 0);
    } else if parts != [] {
      var rest := parts[1..];
      SnapshotIsFirst(rest);
      assert SnapshotRepo(parts) == SnapshotRepo(rest);
      if SnapshotRepo(rest).Some? {
        var i: nat :| FirstCacheAt(rest, i) && SnapshotRepo(rest).value == Join(RepoNames(rest[i]), "/");
        FirstShifts(parts, i);
      } else {
        forall i: nat ensures !CacheAt(parts, i) {
          if i > 0 {
            CacheShifts(parts, i);
          }
        }
      }
    }
  }

  lemma CacheShifts(parts: seq<string>, i: nat)
    requires parts != [] && i > 0
    ensures CacheAt(parts, i) <==> CacheAt(parts[1..], i - 1)
  {
  }

  lemma FirstShifts(parts: seq<string>, i: nat)
    requires parts != [] && !CacheAt(parts, 0) && FirstCacheAt(parts[1..], i)
    ensures FirstCacheAt(parts, i + 1) && parts[i + 1] == parts[1..][i]
  {
    CacheShifts(parts, i + 1);
    forall j | 0 <= j < i + 1 ensures !CacheAt(parts, j) {
      if j > 0 {
        CacheShifts(parts, j);
      }
    }
  }

  // ----- the cache directory of a repository

  /** Names that a cache directory can hold side by side: none contains or runs into the separator. */
  ghost predicate CacheNames(names: seq<string>) {
    names != [] && AreNames(names) && forall i :: 0 <= i < |names| ==> names[i][|names[i]| - 1] != '-'
  }

  lemma {:induction false} SplitAtDashes(n: string, rest: string)
    requires Lacks(n, "--") && (n != "" ==> n[|n| - 1] != '-')
    ensures Split(n + "--" + rest, "--") == [n] + Split(rest, "--")
  {
    var s := n + "--" + rest;
    if n == "" {
      assert s[2..] == rest && "--" <= s;
    } else {
      assert s[1..] == n[1..] + "--" + rest && s[0] == n[0];
      NotDashed(n, rest);
      TailLacks(n);
      SplitAtDashes(n[1..], rest);
      assert [n[0]] + n[1..] == n;
      assert ([n[1..]] + Split(rest, "--"))[1..] == Split(rest, "--");
    }
  }

  lemma NotDashed(n: string, rest: string)
    requires n != "" && Lacks(n, "--") && n[|n| - 1] != '-'
    ensures !("--" <= n + "--" + rest)
  {
    var s := n + "--" + rest;
    assert s[0] == n[0];
    if |n| >= 2 {
      assert s[1] == n[1] && n[0..] == n;
      DoubleDash(n);
    }
    DoubleDash(s);
  }

  lemma DoubleDash(s: string)
    requires |s| >= 2
    ensures "--" <= s <==> s[0] == '-' && s[1] == '-'
  {
    assert s[..2] == [s[0], s[1]];
  }

  lemma TailLacks(n: string)
    requires n != "" && Lacks(n, "--")
    ensures Lacks(n[1..], "--")
  {
    forall i | 0 <= i <= |n[1..]| ensures !("--" <= n[1..][i..]) {
      assert n[1..][i..] == n[i + 1..];
    }
  }

  lemma {:induction false} SplitLacking(n: string)
    requires Lacks(n, "--")
    ensures Split(n, "--") == [n]
  {
    if n != "" {
      assert n[0..] == n;
      TailLacks(n);
      SplitLacking(n[1..]);
      assert [n[0]] + n[1..] == n;
    }
  }

  lemma {:induction false} SplitOfDashJoin(names: seq<string>)
    requires CacheNames(names)
    ensures Split(Join(names, "--"), "--") == names
  {
    assert IsName(names[0]);
    if |names| == 1 {
      SplitLacking(names[0]);
    } else {
      SplitOfDashJoin(names[1..]);
      SplitAtDashes(names[0], Join(names[1..], "--"));
      assert [names[0]] + names[1..] == names;
    }
  }

  lemma {:induction false} NamesAreStripped(names: seq<string>)
    requires AreNames(names)
    ensures StripAll(names) == names
  {
    if names != [] {
      assert IsName(names[0]);
      TrimmedIsStripped(names[0]);
      NamesAreStripped(names[1..]);
      assert [names[0]] + names[1..] == names;
    }
  }

  lemma {:induction false} DashJoinShape(names: seq<string>)
    requires names != [] && AreNames(names)
    ensures Join(names, "--") != "" && Trimmed(Join(names, "--")) && '/' !in Join(names, "--")
    ensures Join(names, "--")[0] == names[0][0]
  {
    assert IsName(names[0]);
    if |names| > 1 {
      DashJoinShape(names[1..]);
      var tail := Join(names[1..], "--");
      var whole := names[0] + "--" + tail;
      assert whole[|whole| - 1] == tail[|tail| - 1];
    }
  }

  lemma DirectoryNames(names: seq<string>)
    requires CacheNames(names)
    ensures RepoNames(CACHE + Join(names, "--")) == names
  {
    var joined := Join(names, "--");
    assert (CACHE + joined)[|CACHE|..] == joined;
    DashJoinShape(names);
    TrimmedIsStripped(joined);
    SplitOfDashJoin(names);
    NamesAreStripped(names);
    NamesAreNoSnapshot(names);
  }

  // ----- the whole path

  lemma SplitThree(a: string, b: string, c: string)
    requires '/' !in a && '/' !in b && '/' !in c
    ensures Split(a + ['/'] + (b + ['/'] + c), "/") == [a, b, c]
  {
    assert ['/'] == "/";
    SplitAtFirst(a, '/', b + ['/'] + c);
    SplitAtFirst(b, '/', c);
    SplitWithout(c, '/');
  }

  lemma NonEmptyThree(a: string, b: string, c: string)
    requires a != "" && b != "" && c != ""
    ensures NonEmpty([a, b, c]) == [a, b, c]
  {
    assert [a, b, c][1..] == [b, c] && [b, c][1..] == [c] && [c][1..] == [];
    assert NonEmpty([c]) == [c] && NonEmpty([b, c]) == [b] + [c];
  }

  function CachePath(names: seq<string>, revision: string): string {
    CACHE + Join(names, "--") + ['/'] + ("snapshots" + ['/'] + revision)
  }

  lemma CachePathIsTrimmed(names: seq<string>, revision: string)
    requires CacheNames(names) && IsName(revision)
    ensures Strip(CachePath(names, revision)) == CachePath(names, revision) && CachePath(names, revision)[0] == 'm'
    ensures |CachePath(names, revision)| > |CACHE|
  {
    var path := CachePath(names, revision);
    assert path[0] == CACHE[0] && path[|path| - 1] == revision[|revision| - 1];
    TrimmedIsStripped(path);
  }

  /** The cache path of any repository, at any revision, has that repository as its normal form. */
  lemma CachePathNamesRepo(names: seq<string>, revision: string)
    requires CacheNames(names) && IsName(revision)
    ensures Normalize(CachePath(names, revision)) == Join(names, "/")
  {
    var dir := CACHE + Join(names, "--");
    var parts := [dir, "snapshots", revision];
    CachePathIsTrimmed(names, revision);
    DashJoinShape(names);
    SplitThree(dir, "snapshots", revision);
    NonEmptyThree(dir, "snapshots", revision);
    DirectoryNames(names);
    assert parts[0][|CACHE|..] == dir[|CACHE|..];
    assert SnapshotRepo(parts) == Some(Join(RepoNames(dir), "/"));
  }

  // ----- what looks like a repository

  /** By code point: a letter or digit first, then letters, digits, full stops, hyphens and underscores. */
  lemma SegmentCodes(s: string)
    ensures RepoSegment(s) <==>
            && s != "" && s[0] != '.' && s[0] != '-' && s[0] != '_'
            && forall i :: 0 <= i < |s| ==>
                 var n := s[i] as int; 48 <= n <= 57 || 65 <= n <= 90 || 97 <= n <= 122 || n == 45 || n == 46 || n == 95
  {
  }

  /** Repository segments joined by slashes do, from two on. */
  lemma JoinLooksLikeRepo(names: seq<string>)
    requires |names| >= 2 && AreNames(names) && forall i :: 0 <= i < |names| ==> RepoSegment(names[i])
    ensures LooksLikeRepo(Join(names, "/"))
  {
    SplitOfJoin(names);
  }

  /** Absolute and relative paths and addresses do not. */
  lemma PathIsNoRepo(s: string)
    requires LooksLikeRepo(s)
    ensures !("/" <= s) && !("./" <= s) && !("../" <= s) && ':' !in s
  {
    var segments := Split(s, "/");
    assert RepoSegment(segments[0]);
    LooksLikeRepoIsNonempty(s);
    assert s[0] != '/' && s[0] != '.';
    NoColon(s);
  }

  lemma {:induction false} NoColon(s: string)
    requires forall i :: 0 <= i < |Split(s, "/")| ==> ':' !in Split(s, "/")[i]
    ensures ':' !in s
    decreases |s|
  {
    if s != "" {
      var pieces := Split(s, "/");
      if "/" <= s {
        var rest := Split(s[1..], "/");
        assert pieces == [""] + rest;
        assert forall i :: 0 <= i < |rest| ==> rest[i] == pieces[i + 1];
        NoColon(s[1..]);
        assert s[0] == '/';
      } else {
        var rest := Split(s[1..], "/");
        assert pieces[0] == [s[0]] + rest[0];
        assert s[0] in pieces[0];
        forall i | 0 <= i < |rest| ensures ':' !in rest[i] {
          if i == 0 {
            assert forall c :: c in rest[0] ==> c in pieces[0];
          } else {
            assert rest[i] == pieces[i];
          }
        }
        NoColon(s[1..]);
      }
      assert s == [s[0]] + s[1..];
    }
  }
}
