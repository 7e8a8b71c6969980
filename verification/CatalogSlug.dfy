/** Catalog slugs: "provider--display-name", from which both parts can be read back. */
module CatalogSlug {
  import opened Common
  import opened PyText

  /** `str.lower` over all of Unicode: what is known of it is that text of slug characters is left alone. */
  type Lowercasing = string -> string

  ghost predicate KeepsSlugText(lower: Lowercasing) {
    forall s: string :: SlugText(s) ==> lower(s) == s
  }

  predicate SlugText(s: string) {
    forall i :: 0 <= i < |s| ==> SlugChar(s[i])
  }

  predicate SlugChar(c: char) {
    'a' <= c <= 'z' || '0' <= c <= '9' || c == '.' || c == '_' || c == '-'
  }

  /** Replace every run of characters satisfying `drop` by a single '-'. */
  function Squeeze(s: string, drop: char -> bool): string {
    if s == "" then ""
    else if !drop(s[0]) then [s[0]] + Squeeze(s[1..], drop)
    else if |s| > 1 && drop(s[1]) then Squeeze(s[1..], drop)
    else "-" + Squeeze(s[1..], drop)
  }

  function TrimDashes(s: string): string {
    if s != "" && s[0] == '-' then TrimDashes(s[1..])
    else if s != "" && s[|s| - 1] == '-' then TrimDashes(s[..|s| - 1])
    else s
  }

  /** `normalize_catalog_slug_component`. */
  function Component(lower: Lowercasing, value: string): Result<string> {
    var lowered := lower(Strip(value));
    if lowered == "" then Err else
      var spaced := Squeeze(lowered, IsSpace);
      var cleaned := Squeeze(spaced, c => !SlugChar(c));
      var slug := TrimDashes(Squeeze(cleaned, c => c == '-'));
      if slug == "" then Err else Ok(slug)
  }

  function Slug(lower: Lowercasing, provider: string, displayName: string): Result<string> {
    match (Component(lower, provider), Component(lower, displayName))
    case (Ok(p), Ok(d)) => Ok(p + "--" + d)
    case _ => Err
  }

  /** The shape of a component: slug characters, no two dashes in a row, no dash at either end. */
  ghost predicate IsComponent(s: string) {
    && s != ""
    && (forall i :: 0 <= i < |s| ==> SlugChar(s[i]))
    && (forall i :: 0 <= i < |s| - 1 ==> !(s[i] == '-' && s[i + 1] == '-'))
    && s[0] != '-' && s[|s| - 1] != '-'
  }

  // ----- normalising yields a component

  lemma {:induction false} SqueezeChars(s: string, drop: char -> bool)
    ensures forall i :: 0 <= i < |Squeeze(s, drop)| ==>
              Squeeze(s, drop)[i] == '-' || (Squeeze(s, drop)[i] in s && !drop(Squeeze(s, drop)[i]))
  {
    if s != "" {
      SqueezeChars(s[1..], drop);
    }
  }

  ghost predicate NoDoubleDash(s: string) {
    forall i :: 0 <= i < |s| - 1 ==> !(s[i] == '-' && s[i + 1] == '-')
  }

  lemma {:induction false} SqueezeDashes(s: string)
    ensures NoDoubleDash(Squeeze(s, c => c == '-'))
    ensures s != "" && s[0] != '-' ==> Squeeze(s, c => c == '-') != "" && Squeeze(s, c => c == '-')[0] == s[0]
  {
    if s != "" {
      SqueezeDashes(s[1..]);
    }
  }

  lemma {:induction false} TrimDashesShape(s: string)
    requires NoDoubleDash(s)
    ensures var t := TrimDashes(s);
            && NoDoubleDash(t)
            && (forall c :: c in t ==> c in s)
            && (t != "" ==> t[0] != '-' && t[|t| - 1] != '-')
    decreases |s|
  {
    if s != "" && s[0] == '-' {
      TrimDashesShape(s[1..]);
    } else if s != "" && s[|s| - 1] == '-' {
      TrimDashesShape(s[..|s| - 1]);
    }
  }

  lemma SlugCharsOnly(s: string)
    ensures forall c :: c in Squeeze(Squeeze(s, c => !SlugChar(c)), c => c == '-') ==> SlugChar(c)
  {
    var cleaned := Squeeze(s, c => !SlugChar(c));
    SqueezeChars(s, c => !SlugChar(c));
    var slug := Squeeze(cleaned, c => c == '-');
    SqueezeChars(cleaned, c => c == '-');
    forall c | c in slug ensures SlugChar(c) {
      var i :| 0 <= i < |slug| && slug[i] == c;
    }
  }

  /** Whatever is accepted comes out as a component. */
  lemma ComponentIsComponent(lower: Lowercasing, value: string)
    ensures Component(lower, value).Ok? ==> IsComponent(Component(lower, value).value)
  {
    var spaced := Squeeze(lower(Strip(value)), IsSpace);
    var cleaned := Squeeze(spaced, c => !SlugChar(c));
    var dashed := Squeeze(cleaned, c => c == '-');
    SlugCharsOnly(spaced);
    SqueezeDashes(cleaned);
    TrimDashesShape(dashed);
    var slug := TrimDashes(dashed);
    forall i | 0 <= i < |slug| ensures SlugChar(slug[i]) {
      var c := slug[i];
      assert c in slug;
    }
  }

  // ----- a component is its own normal form

  lemma {:induction false} SqueezeKeeps(s: string, drop: char -> bool)
    requires forall i :: 0 <= i < |s| ==> !drop(s[i])
    ensures Squeeze(s, drop) == s
  {
    if s != "" {
      SqueezeKeeps(s[1..], drop);
      assert s == [s[0]] + s[1..];
    }
  }

  lemma {:induction false} SqueezeSingleDashes(s: string)
    requires NoDoubleDash(s)
    ensures Squeeze(s, c => c == '-') == s
  {
    if s != "" {
      SqueezeSingleDashes(s[1..]);
      assert s == [s[0]] + s[1..];
      if s[0] == '-' {
        assert |s| > 1 ==> s[1] != '-';
      }
    }
  }

  lemma SlugCharIsNoSpace(c: char)
    requires SlugChar(c)
    ensures !IsSpace(c)
  {
  }

  /** A component is left alone. */
  lemma ComponentAgain(lower: Lowercasing, slug: string)
    requires IsComponent(slug) && KeepsSlugText(lower)
    ensures Component(lower, slug) == Ok(slug)
  {
    forall i | 0 <= i < |slug| ensures !IsSpace(slug[i]) {
      SlugCharIsNoSpace(slug[i]);
    }
    TrimmedIsStripped(slug);
    assert SlugText(slug);
    SqueezeKeeps(slug, IsSpace);
    SqueezeKeeps(slug, c => !SlugChar(c));
    SqueezeSingleDashes(slug);
  }

  /** Normalisation is idempotent, and its fixed points are exactly the components. */
  lemma ComponentIsIdempotent(lower: Lowercasing, value: string)
    requires KeepsSlugText(lower)
    ensures Component(lower, value).Ok? ==> Component(lower, Component(lower, value).value) == Component(lower, value)
    ensures Component(lower, value) == Ok(value) <==> IsComponent(value)
  {
    ComponentIsComponent(lower, value);
    if Component(lower, value).Ok? {
      ComponentAgain(lower, Component(lower, value).value);
    }
    if IsComponent(value) {
      ComponentAgain(lower, value);
    }
  }

  // ----- reading a slug

  /** In a slug the double dash occurs once, between the two parts. */
  lemma DoubleDashIsUnique(p: string, d: string, i: nat)
    requires IsComponent(p) && IsComponent(d) && i < |p + "--" + d| - 1
    ensures var s := p + "--" + d; (s[i] == '-' && s[i + 1] == '-') <==> i == |p|
  {
    var s := p + "--" + d;
    if i < |p| {
      assert s[i] == p[i];
      if i + 1 < |p| {
        assert s[i + 1] == p[i + 1];
      }
    } else if i > |p| {
      assert s[i + 1] == d[i - |p| - 1];
      if i > |p| + 1 {
        assert s[i] == d[i - |p| - 2];
      }
    }
  }

  lemma PartsAreUnique(a: string, b: string, a': string, b': string)
    requires IsComponent(a) && IsComponent(b) && IsComponent(a') && IsComponent(b')
    requires a + "--" + b == a' + "--" + b'
    ensures a == a' && b == b'
  {
    var s := a + "--" + b;
    assert s[|a|] == '-' && s[|a| + 1] == '-';
    DoubleDashIsUnique(a', b', |a|);
    assert a == s[..|a|] && a' == s[..|a'|];
    assert b == s[|a| + 2..] && b' == s[|a'| + 2..];
  }

  /** So a slug determines both normalised parts. */
  lemma SlugIsUnambiguous(lower: Lowercasing, p: string, d: string, p': string, d': string)
    requires Slug(lower, p, d).Ok? && Slug(lower, p', d') == Slug(lower, p, d)
    ensures Component(lower, p') == Component(lower, p) && Component(lower, d') == Component(lower, d)
  {
    ComponentIsComponent(lower, p);
    ComponentIsComponent(lower, d);
    ComponentIsComponent(lower, p');
    ComponentIsComponent(lower, d');
    PartsAreUnique(Component(lower, p).value, Component(lower, d).value, Component(lower, p').value, Component(lower, d').value);
  }

  // ----- what the component of a text is

  /** Only the lower-cased, trimmed text matters. */
  lemma ComponentFollowsLowerCase(lower: Lowercasing, a: string, b: string)
    requires lower(Strip(a)) == lower(Strip(b))
    ensures Component(lower, a) == Component(lower, b)
  {
  }

  /** A text that is a component once lower-cased has that component. */
  lemma LowerCaseIsKept(lower: Lowercasing, value: string)
    requires IsComponent(lower(Strip(value)))
    ensures Component(lower, value) == Ok(lower(Strip(value)))
  {
    var t := lower(Strip(value));
    forall i | 0 <= i < |t| ensures !IsSpace(t[i]) {
      SlugCharIsNoSpace(t[i]);
    }
    SqueezeKeeps(t, IsSpace);
    SqueezeKeeps(t, c => !SlugChar(c));
    SqueezeSingleDashes(t);
  }

  /** Squeezing works on both sides of a place where no run of dropped characters goes on. */
  lemma {:induction false} SqueezeConcat(a: string, b: string, drop: char -> bool)
    requires a == "" || b == "" || !drop(a[|a| - 1]) || !drop(b[0])
    ensures Squeeze(a + b, drop) == Squeeze(a, drop) + Squeeze(b, drop)
  {
    if a == "" {
      assert a + b == b;
    } else {
      assert (a + b)[0] == a[0] && (a + b)[1..] == a[1..] + b;
      if |a| == 1 {
        assert a[1..] == "" && a[1..] + b == b;
        assert b != "" ==> (a + b)[1] == b[0];
      } else {
        assert (a + b)[1] == a[1];
        SqueezeConcat(a[1..], b, drop);
      }
    }
  }

  lemma {:induction false} SqueezeRun(s: string, drop: char -> bool)
    requires s != "" && forall i :: 0 <= i < |s| ==> drop(s[i])
    ensures Squeeze(s, drop) == "-"
  {
    if |s| > 1 {
      SqueezeRun(s[1..], drop);
    } else {
      assert s[1..] == "";
    }
  }

  predicate Junk(s: string) {
    s != "" && forall i :: 0 <= i < |s| ==> !SlugChar(s[i]) || s[i] == '-'
  }

  lemma {:induction false} SqueezeJunk(s: string, drop: char -> bool)
    requires Junk(s)
    ensures Junk(Squeeze(s, drop)) && (forall i :: 0 <= i < |Squeeze(s, drop)| ==> Squeeze(s, drop)[i] == '-' || !drop(Squeeze(s, drop)[i]))
  {
    if |s| > 1 {
      SqueezeJunk(s[1..], drop);
    } else {
      assert s[1..] == "";
    }
  }

  lemma SqueezeBetween(a: string, junk: string, b: string, drop: char -> bool)
    requires a != "" && b != "" && junk != "" && !drop(a[|a| - 1]) && !drop(b[0])
    ensures Squeeze(a + junk + b, drop) == Squeeze(a, drop) + Squeeze(junk, drop) + Squeeze(b, drop)
  {
    SqueezeConcat(a, junk, drop);
    SqueezeConcat(a + junk, b, drop);
  }

  /** Whatever separates two components, be it white space, punctuation or dashes, becomes one dash. */
  lemma JunkBecomesDash(lower: Lowercasing, value: string, a: string, junk: string, b: string)
    requires lower(Strip(value)) == a + junk + b && IsComponent(a) && IsComponent(b) && Junk(junk)
    ensures Component(lower, value) == Ok(a + "-" + b)
  {
    var first := Squeeze(junk, IsSpace);
    var second := Squeeze(first, c => !SlugChar(c));
    SpacesBetween(a, junk, b);
    SqueezeJunk(junk, IsSpace);
    PunctuationBetween(a, first, b);
    SqueezeJunk(first, c => !SlugChar(c));
    assert forall i :: 0 <= i < |second| ==> second[i] == '-';
    DashesBetween(a, second, b);
    EdgesStay(a, b);
  }

  lemma ComponentEnds(a: string)
    requires IsComponent(a)
    ensures SlugChar(a[0]) && SlugChar(a[|a| - 1]) && !IsSpace(a[0]) && !IsSpace(a[|a| - 1])
    ensures Squeeze(a, IsSpace) == a && Squeeze(a, c => !SlugChar(c)) == a && Squeeze(a, c => c == '-') == a
  {
    forall i | 0 <= i < |a| ensures !IsSpace(a[i]) {
      SlugCharIsNoSpace(a[i]);
    }
    SqueezeKeeps(a, IsSpace);
    SqueezeKeeps(a, c => !SlugChar(c));
    SqueezeSingleDashes(a);
  }

  lemma SpacesBetween(a: string, junk: string, b: string)
    requires IsComponent(a) && IsComponent(b) && junk != ""
    ensures Squeeze(a + junk + b, IsSpace) == a + Squeeze(junk, IsSpace) + b
  {
    ComponentEnds(a);
    ComponentEnds(b);
    SqueezeBetween(a, junk, b, IsSpace);
  }

  lemma PunctuationBetween(a: string, junk: string, b: string)
    requires IsComponent(a) && IsComponent(b) && junk != ""
    ensures Squeeze(a + junk + b, c => !SlugChar(c)) == a + Squeeze(junk, c => !SlugChar(c)) + b
  {
    ComponentEnds(a);
    ComponentEnds(b);
    SqueezeBetween(a, junk, b, c => !SlugChar(c));
  }

  lemma DashesBetween(a: string, dashes: string, b: string)
    requires IsComponent(a) && IsComponent(b) && dashes != "" && forall i :: 0 <= i < |dashes| ==> dashes[i] == '-'
    ensures Squeeze(a + dashes + b, c => c == '-') == a + "-" + b
  {
    ComponentEnds(a);
    ComponentEnds(b);
    SqueezeBetween(a, dashes, b, c => c == '-');
    SqueezeRun(dashes, c => c == '-');
  }

  lemma EdgesStay(a: string, b: string)
    requires IsComponent(a) && IsComponent(b)
    ensures TrimDashes(a + "-" + b) == a + "-" + b && a + "-" + b != ""
  {
    var s := a + "-" + b;
    assert s[0] == a[0] && s[|s| - 1] == b[|b| - 1];
  }

  /** A slug is the component of the provider, two dashes, and the component of the display name; it is refused iff either is. */
  lemma SlugReadsBack(lower: Lowercasing, provider: string, displayName: string)
    ensures Slug(lower, provider, displayName).Ok? <==> Component(lower, provider).Ok? && Component(lower, displayName).Ok?
    ensures Slug(lower, provider, displayName).Ok? ==>
              var s, n := Slug(lower, provider, displayName).value, |Component(lower, provider).value|;
              && n + 2 <= |s| && s[..n] == Component(lower, provider).value
              && s[n] == '-' && s[n + 1] == '-' && s[n + 2..] == Component(lower, displayName).value
  {
  }
}
