/** Capabilities and the attenuation order on them: src/aries/identity/ucan.py lines 38-62. */
module Capabilities {

  datatype Capability = Capability(resource: string, ability: string) {

    /** Capability.is_attenuated_by */
    predicate IsAttenuatedBy(parent: Capability) {
      ability == parent.ability && Covers(parent.resource, resource)
    }
  }

  /** str.endswith("/") */
  predicate EndsInSlash(s: string) { s != "" && s[|s| - 1] == '/' }

  /** The test of str.endswith for the two characters of a pattern. */
  predicate Glob(resource: string) { |resource| >= 2 && resource[|resource| - 2] == '/' && resource[|resource| - 1] == '*' }

  /** str.rstrip("/") */
  function StripSlashes(s: string): (r: string)
    ensures r <= s && !EndsInSlash(r)
  {
    if EndsInSlash(s) then StripSlashes(s[..|s| - 1]) else s
  }

  /** The resource rules, in the order in which they are tried. */
  predicate Covers(parent: string, child: string) {
    if parent == "*" then true
    else if child == parent then true
    else if Glob(parent) then
      var prefix := parent[..|parent| - 2];
      child == prefix || prefix + "/" <= child
    else StripSlashes(parent) + "/" <= child
  }

  lemma AttenuationReflexive(c: Capability)
    ensures c.IsAttenuatedBy(c)
  {
  }

  // ---------------------------------------------------------------- what a resource covers

  /** The path below which everything is covered. */
  function Base(r: string): string { if Glob(r) then r[..|r| - 2] else StripSlashes(r) }

  /** The shortest resource covered: a glob also covers its base, any other resource only itself. */
  function Self(r: string): string { if Glob(r) then Base(r) else r }

  lemma CoversByBase(r: string, child: string)
    requires r != "*"
    ensures Covers(r, child) <==> child == Self(r) || Base(r) + "/" <= child
  {
    if Glob(r) {
      assert r == Base(r) + "/*";
      assert Base(r) + "/" <= r;
    }
  }

  /** Two finite checks: narrow grants nothing that wide does not also grant. */
  predicate Narrows(narrow: string, wide: string) {
    wide == "*" || (narrow != "*" && Covers(wide, Self(narrow)) && Base(wide) + "/" <= Base(narrow) + "/")
  }

  /** Exactly when everything that narrow covers is also covered by wide. */
  lemma NarrowsExactly(narrow: string, wide: string)
    ensures Narrows(narrow, wide) <==> forall child :: Covers(narrow, child) ==> Covers(wide, child)
  {
    if Narrows(narrow, wide) {
      forall child | Covers(narrow, child) ensures Covers(wide, child) {
        NarrowsSound(narrow, wide, child);
      }
    } else {
      var child := Escape(narrow, wide);
    }
  }

  lemma NarrowsSound(narrow: string, wide: string, child: string)
    requires Narrows(narrow, wide) && Covers(narrow, child)
    ensures Covers(wide, child)
  {
    hide Base, Self, Covers;
    if wide != "*" {
      CoversByBase(narrow, child);
      CoversByBase(wide, child);
    } else {
      StarCovers(child);
    }
  }

  lemma StarCovers(child: string)
    ensures Covers("*", child)
  {
  }

  /** A resource that narrow covers and wide does not. */
  lemma Escape(narrow: string, wide: string) returns (child: string)
    requires !Narrows(narrow, wide)
    ensures Covers(narrow, child) && !Covers(wide, child)
  {
    hide Base, Self, Covers;
    CoversByBase(wide, Self(narrow));
    if narrow == "*" {
      child := Outside(Self(wide), Base(wide) + "/", "");
      StarCovers(child);
    } else if !Covers(wide, Self(narrow)) {
      child := Self(narrow);
    } else {
      child := Outside(Self(wide), Base(wide) + "/", Base(narrow) + "/");
    }
    CoversByBase(wide, child);
    if narrow != "*" { CoversByBase(narrow, child); }
  }

  /** Below any path that does not start with prefix there is a resource that also does not, and is not self. */
  lemma Outside(self: string, prefix: string, path: string) returns (child: string)
    requires !(prefix <= path)
    ensures path <= child && child != self && !(prefix <= child)
  {
    var ch := if |path| < |prefix| && prefix[|path|] == 'a' then 'b' else 'a';
    child := path + [ch] + seq(|self|, _ => 'a');
    assert child[..|path|] == path && child[|path|] == ch;
    if |prefix| <= |path| {
      assert child[..|prefix|] == path[..|prefix|];
    } else {
      assert child[|path|] != prefix[|path|];
    }
  }

  function Slashes(n: nat): string { seq(n, _ => '/') }

  /** A resource and its slashes: stripping takes off exactly the slashes at the end. */
  lemma {:induction false} StrippedSlashes(r: string)
    ensures r == StripSlashes(r) + Slashes(|r| - |StripSlashes(r)|) && !EndsInSlash(StripSlashes(r))
  {
    if EndsInSlash(r) {
      var shorter := r[..|r| - 1];
      StrippedSlashes(shorter);
      var n := |shorter| - |StripSlashes(shorter)|;
      assert Slashes(n + 1) == Slashes(n) + ['/'] && r == shorter + ['/'];
    } else {
      assert Slashes(0) == "";
    }
  }

  /** p is a pattern below base, or base with any number of slashes after it. */
  ghost predicate IsBelow(p: string, base: string) {
    p == base + "/*" || (!Glob(p) && !EndsInSlash(base) && exists n :: p == base + Slashes(n))
  }

  /** The four resource rules spelled out: the star, equality, a pattern with its base, and the paths below. */
  lemma AttenuatedExactly(c: Capability, p: Capability)
    ensures c.IsAttenuatedBy(p) <==>
            c.ability == p.ability &&
            (p.resource == "*" || c.resource == p.resource || p.resource == c.resource + "/*" ||
             exists base :: IsBelow(p.resource, base) && base + "/" <= c.resource)
  {
    var r := p.resource;
    if c.ability == p.ability && r != "*" {
      if Glob(r) {
        assert r == Base(r) + "/*" && IsBelow(r, Base(r));
        forall base | IsBelow(r, base) ensures base == Base(r) { PatternBase(r, base); }
        if r == c.resource + "/*" { PatternBase(r, c.resource); }
      } else {
        StrippedSlashes(r);
        assert IsBelow(r, StripSlashes(r));
        forall base | IsBelow(r, base) ensures base == StripSlashes(r) { PlainBase(r, base); }
        NoPattern(r, c.resource);
      }
    }
  }

  lemma PatternBase(r: string, base: string)
    requires Glob(r) && (r == base + "/*" || IsBelow(r, base))
    ensures base == r[..|r| - 2]
  {
  }

  lemma NoPattern(r: string, base: string)
    ensures r == base + "/*" ==> Glob(r)
  {
  }

  lemma PlainBase(r: string, base: string)
    requires !Glob(r) && IsBelow(r, base)
    ensures base == StripSlashes(r)
  {
    NoPattern(r, base);
    var n :| r == base + Slashes(n);
    StripsAll(base, n);
  }

  lemma {:induction false} StripsAll(base: string, n: nat)
    requires !EndsInSlash(base)
    ensures StripSlashes(base + Slashes(n)) == base
  {
    var r := base + Slashes(n);
    if n > 0 {
      assert r[..|r| - 1] == base + Slashes(n - 1);
      StripsAll(base, n - 1);
    } else {
      assert r == base;
    }
  }

  // ---------------------------------------------------------------- transitivity

  /** The capability order composes through middle exactly when middle narrows wide. */
  lemma TransitiveExactly(middle: Capability, wide: Capability)
    requires middle.ability == wide.ability
    ensures Narrows(middle.resource, wide.resource) <==>
            forall c: Capability :: c.IsAttenuatedBy(middle) ==> c.IsAttenuatedBy(wide)
  {
    if Narrows(middle.resource, wide.resource) {
      NarrowsExactly(middle.resource, wide.resource);
    } else {
      var child := Escape(middle.resource, wide.resource);
      var c := Capability(child, wide.ability);
      assert c.IsAttenuatedBy(middle) && !c.IsAttenuatedBy(wide);
    }
  }

  /** It does not compose always: a doubled glob, a trailing slash, and a glob below the star break it. */
  lemma NotTransitive()
    ensures Covers("x/*", "x/y") && Covers("x/*/*", "x/*") && !Covers("x/*/*", "x/y")
    ensures Covers("x/*", "x") && Covers("x/", "x/*") && !Covers("x/", "x")
    ensures Covers("*", "x") && Covers("*/*", "*") && !Covers("*/*", "x")
  {
    DoubledGlob();
    TrailingSlash();
    GlobOfStar();
    hide Covers;
  }

  lemma DoubledGlob()
    ensures Covers("x/*", "x/y") && Covers("x/*/*", "x/*") && !Covers("x/*/*", "x/y")
  {
    assert Glob("x/*") && Glob("x/*/*");
  }

  lemma TrailingSlash()
    ensures Covers("x/*", "x") && Covers("x/", "x/*") && !Covers("x/", "x")
  {
    assert Glob("x/*") && !Glob("x/");
    assert StripSlashes("x/") == StripSlashes("x") == "x";
  }

  lemma GlobOfStar()
    ensures Covers("*", "x") && Covers("*/*", "*") && !Covers("*/*", "x")
  {
    assert Glob("*/*");
  }

  /** A resource without a trailing slash, whose base is not itself a pattern if it is a glob. */
  predicate WellFormed(r: string) {
    r == "*" || (!EndsInSlash(r) && (Glob(r) ==> Base(r) != "*" && !Glob(Base(r))))
  }

  /** Between well-formed resources, covering is narrowing. */
  lemma CoveredNarrows(wide: string, narrow: string)
    requires WellFormed(wide) && WellFormed(narrow)
    ensures Covers(wide, narrow) <==> Narrows(narrow, wide)
  {
    if Narrows(narrow, wide) {
      NarrowsSound(narrow, wide, narrow);
    } else if Covers(wide, narrow) {
      CoveredNarrowsPlain(wide, narrow);
    }
  }

  lemma StarByStar(wide: string)
    requires WellFormed(wide)
    ensures Covers(wide, "*") ==> wide == "*"
  {
    if wide != "*" {
      CoversByBase(wide, "*");
      var p := Base(wide) + "/";
      assert p[|p| - 1] == '/';
    }
  }

  /** The base and the shortest covered resource of a well-formed resource. */
  lemma WellFormedParts(r: string)
    requires WellFormed(r) && r != "*"
    ensures Self(r) == Base(r)
    ensures r == if Glob(r) then Base(r) + "/*" else Base(r)
    ensures Base(r) != "*"
  {
  }

  lemma CoveredNarrowsPlain(wide: string, narrow: string)
    requires WellFormed(wide) && WellFormed(narrow) && Covers(wide, narrow)
    ensures Narrows(narrow, wide)
  {
    if wide != "*" {
      StarByStar(wide);
      WellFormedParts(wide);
      WellFormedParts(narrow);
      NotABaseGlob(wide, narrow);
      CoversByBase(wide, narrow);
      CoversByBase(wide, Self(narrow));
      PrefixOfGlob(Base(wide), Base(narrow));
      hide Base, Self, Covers, Glob, WellFormed;
    }
  }

  /** A pattern is not the base of a well-formed resource. */
  lemma NotABaseGlob(wide: string, narrow: string)
    requires WellFormed(wide) && wide != "*"
    ensures Glob(narrow) ==> narrow != Base(wide) || narrow == wide
  {
  }

  lemma PrefixOfGlob(p: string, q: string)
    ensures p + "/" <= q + "/*" ==> p + "/" <= q + "/"
    ensures p + "/" <= q ==> p + "/" <= q + "/"
  {
    var s, t := p + "/", q + "/*";
    assert s[|s| - 1] == '/' && t[|t| - 1] == '*';
    if s <= t {
      assert s == t[..|s|];
      assert (q + "/")[..|s|] == t[..|s|];
    }
  }

  /** Attenuation is a preorder on well-formed capabilities; the narrowest one may be any. */
  lemma AttenuationTransitive(narrow: Capability, middle: Capability, wide: Capability)
    requires WellFormed(middle.resource) && WellFormed(wide.resource)
    requires narrow.IsAttenuatedBy(middle) && middle.IsAttenuatedBy(wide)
    ensures narrow.IsAttenuatedBy(wide)
  {
    CoveredNarrows(wide.resource, middle.resource);
    NarrowsSound(middle.resource, wide.resource, narrow.resource);
  }

  // ---------------------------------------------------------------- several capabilities at once

  /** Some held capability covers the wanted one. */
  predicate Grants(held: seq<Capability>, wanted: Capability) {
    exists i :: 0 <= i < |held| && wanted.IsAttenuatedBy(held[i])
  }

  ghost predicate HoldsStar(held: seq<Capability>, ability: string) {
    exists i :: 0 <= i < |held| && held[i].ability == ability && held[i].resource == "*"
  }

  ghost predicate HoldsBelow(held: seq<Capability>, ability: string, path: string) {
    exists i :: 0 <= i < |held| && held[i].ability == ability && held[i].resource != "*" && Base(held[i].resource) + "/" <= path
  }

  /** Finitely many checks: the held capabilities together grant all that t grants. */
  ghost predicate Absorbs(held: seq<Capability>, t: Capability) {
    HoldsStar(held, t.ability) ||
    (t.resource != "*" && Grants(held, Capability(Self(t.resource), t.ability)) &&
     HoldsBelow(held, t.ability, Base(t.resource) + "/"))
  }

  function Longest(held: seq<Capability>): (n: nat)
    ensures forall i :: 0 <= i < |held| ==> |Self(held[i].resource)| <= n
  {
    if held == [] then 0
    else
      var n := Longest(held[1..]);
      assert forall i :: 0 < i < |held| ==> held[i] == held[1..][i - 1];
      if n < |Self(held[0].resource)| then |Self(held[0].resource)| else n
  }

  /** Below a path that no held pattern reaches there is a resource that none of them covers. */
  lemma OutsideAll(held: seq<Capability>, ability: string, path: string) returns (child: string)
    requires !HoldsStar(held, ability) && !HoldsBelow(held, ability, path)
    ensures path <= child && !Grants(held, Capability(child, ability))
  {
    child := path + seq(Longest(held) + 1, _ => 'a');
    forall i | 0 <= i < |held| ensures !Capability(child, ability).IsAttenuatedBy(held[i]) {
      if held[i].ability == ability {
        CoversByBase(held[i].resource, child);
        BelowPath(Base(held[i].resource), path, Longest(held) + 1);
      }
    }
  }

  lemma BelowPath(base: string, path: string, n: nat)
    ensures base + "/" <= path + seq(n, _ => 'a') ==> base + "/" <= path
  {
    var p, child := base + "/", path + seq(n, _ => 'a');
    if p <= child {
      assert p[|p| - 1] == '/' && child[|p| - 1] == '/';
      assert p == child[..|p|] && path == child[..|path|];
    }
  }

  lemma AbsorbsSound(held: seq<Capability>, t: Capability, c: Capability)
    requires Absorbs(held, t) && c.IsAttenuatedBy(t)
    ensures Grants(held, c)
  {
    if HoldsStar(held, t.ability) {
      var i :| 0 <= i < |held| && held[i].ability == t.ability && held[i].resource == "*";
      assert c.IsAttenuatedBy(held[i]);
    } else {
      CoversByBase(t.resource, c.resource);
      if c.resource != Self(t.resource) {
        var i :| 0 <= i < |held| && held[i].ability == t.ability && held[i].resource != "*" &&
                 Base(held[i].resource) + "/" <= Base(t.resource) + "/";
        CoversByBase(held[i].resource, c.resource);
        assert c.IsAttenuatedBy(held[i]);
      }
    }
  }

  /** A capability that t grants and the held ones do not. */
  lemma EscapeAll(held: seq<Capability>, t: Capability) returns (c: Capability)
    requires !Absorbs(held, t)
    ensures c.IsAttenuatedBy(t) && !Grants(held, c)
  {
    hide Base, Self, Covers;
    if t.resource == "*" {
      var child := OutsideAll(held, t.ability, "");
      StarCovers(child);
      c := Capability(child, t.ability);
    } else {
      CoversByBase(t.resource, Self(t.resource));
      c := Capability(Self(t.resource), t.ability);
      if Grants(held, c) {
        var child := OutsideAll(held, t.ability, Base(t.resource) + "/");
        CoversByBase(t.resource, child);
        c := Capability(child, t.ability);
      }
    }
  }

  /** Held capabilities grant all that a list of others grants if and only if they absorb each of them. */
  lemma AbsorbsExactly(held: seq<Capability>, others: seq<Capability>)
    ensures (forall t :: t in others ==> Absorbs(held, t)) <==> forall c :: Grants(others, c) ==> Grants(held, c)
  {
    hide Absorbs;
    if forall t :: t in others ==> Absorbs(held, t) {
      forall c | Grants(others, c) ensures Grants(held, c) {
        var i :| 0 <= i < |others| && c.IsAttenuatedBy(others[i]);
        AbsorbsSound(held, others[i], c);
      }
    } else {
      var t :| t in others && !Absorbs(held, t);
      var c := EscapeAll(held, t);
      var i :| 0 <= i < |others| && others[i] == t;
      assert Grants(others, c);
    }
  }

  /** Well-formed capabilities absorb every well-formed one that one of them covers. */
  lemma WellFormedAbsorbs(held: seq<Capability>, t: Capability)
    requires Grants(held, t) && WellFormed(t.resource) && forall h :: h in held ==> WellFormed(h.resource)
    ensures Absorbs(held, t)
  {
    hide Absorbs, Covers, WellFormed;
    if !Absorbs(held, t) {
      var c := EscapeAll(held, t);
      var i :| 0 <= i < |held| && t.IsAttenuatedBy(held[i]);
      assert held[i] in held;
      AttenuationTransitive(c, t, held[i]);
    }
  }
}
