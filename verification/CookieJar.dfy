/** shred's cookie jar: lists of cookies per name under a collision relation. */
module CookieJars {
  import opened Wrappers

  /** Where a cookie applies; the empty string stands for a missing path or domain. */
  datatype Scope = Scope(path: string, domain: string)

  datatype Cookie = Cookie(name: string, value: string, scope: Scope, secure: bool, noscript: bool, expires: Option<int>) {
    predicate Expired(now: int) {
      expires.Some? && expires.value <= now
    }
  }

  // ----- collidesWith -----

  predicate Occurs(s: string, t: string, j: nat) {
    j + |t| <= |s| && s[j..j + |t|] == t
  }

  /** `s.indexOf(t)`: the first occurrence, or -1. */
  function IndexOf(s: string, t: string): (k: int)
    ensures -1 <= k && (k >= 0 ==> Occurs(s, t, k))
    ensures forall j: nat :: Occurs(s, t, j) ==> 0 <= k <= j
  {
    IndexFrom(s, t, 0)
  }

  function IndexFrom(s: string, t: string, from: nat): (k: int)
    requires from <= |s|
    ensures k == -1 || (from <= k && Occurs(s, t, k))
    ensures forall j: nat :: from <= j && Occurs(s, t, j) ==> 0 <= k <= j
    decreases |s| - from
  {
    if Occurs(s, t, from) then from
    else if from == |s| then -1
    else IndexFrom(s, t, from + 1)
  }

  predicate DomainCovers(a: string, b: string) {
    if a == b then true
    else if a != "" && a[0] == '.' then
      var wildcard := IndexOf(b, a[1..]);
      wildcard != -1 && wildcard == |b| - |a| + 1
    else a == ""
  }

  predicate Collides(a: Scope, b: Scope) {
    && !((a.path != "" && b.path == "") || (a.domain != "" && b.domain == ""))
    && !(a.path != "" && IndexOf(b.path, a.path) != 0)
    && DomainCovers(a.domain, b.domain)
  }

  /** The domain of a stored cookie covers that of an access; a dotted one does where its tail is the end of the other and is
      found nowhere before. */
  predicate CoversDomain(a: string, b: string) {
    || a == ""
    || (b != "" && (a == b || (a[0] == '.' && FirstAtEnd(b, a[1..]))))
  }

  predicate FirstAtEnd(s: string, tail: string) {
    |tail| <= |s| && Occurs(s, tail, |s| - |tail|) && forall j: nat :: j < |s| - |tail| ==> !Occurs(s, tail, j)
  }

  predicate Covers(a: Scope, b: Scope) {
    a.path <= b.path && CoversDomain(a.domain, b.domain)
  }

  /** `collidesWith` in terms of prefixes and ends: no path, or a prefix of the other's, and a domain that covers the other's. */
  lemma CollidesExactly(a: Scope, b: Scope)
    ensures Collides(a, b) <==> Covers(a, b)
  {
    PrefixFound(b.path, a.path);
    if a.domain != "" && a.domain[0] == '.' {
      EndFound(b.domain, a.domain[1..]);
    }
  }

  lemma PrefixFound(s: string, t: string)
    ensures IndexOf(s, t) == 0 <==> t <= s
  {
    if t <= s {
      assert Occurs(s, t, 0);
    }
  }

  lemma EndFound(s: string, tail: string)
    ensures IndexOf(s, tail) != -1 && IndexOf(s, tail) == |s| - |tail| <==> FirstAtEnd(s, tail)
  {
    var k := IndexOf(s, tail);
    if FirstAtEnd(s, tail) {
      assert Occurs(s, tail, k);
    }
  }

  // ----- setCookie -----

  type Jar = map<string, seq<Cookie>>

  /** What follows holds for any collision relation; the jar itself uses `Collides`. */
  type Relation = (Scope, Scope) -> bool

  function FirstCollision(rel: Relation, list: seq<Cookie>, c: Cookie): (k: Option<nat>)
    ensures k.Some? ==> k.value < |list| && rel(list[k.value].scope, c.scope)
    ensures k.Some? ==> forall i :: 0 <= i < k.value ==> !rel(list[i].scope, c.scope)
    ensures k.None? ==> forall i :: 0 <= i < |list| ==> !rel(list[i].scope, c.scope)
  {
    CollisionFrom(rel, list, c, 0)
  }

  function CollisionFrom(rel: Relation, list: seq<Cookie>, c: Cookie, from: nat): (k: Option<nat>)
    requires from <= |list|
    ensures k.Some? ==> from <= k.value < |list| && rel(list[k.value].scope, c.scope)
    ensures k.Some? ==> forall i :: from <= i < k.value ==> !rel(list[i].scope, c.scope)
    ensures k.None? ==> forall i :: from <= i < |list| ==> !rel(list[i].scope, c.scope)
    decreases |list| - from
  {
    if from == |list| then None
    else if rel(list[from].scope, c.scope) then Some(from)
    else CollisionFrom(rel, list, c, from + 1)
  }

  function Drop(list: seq<Cookie>, i: nat): seq<Cookie>
    requires i < |list|
  {
    list[..i] + list[i + 1..]
  }

  /** The jar after `setCookie`. */
  function Set(rel: Relation, jar: Jar, c: Cookie, now: int): Jar {
    if c.name !in jar then if c.Expired(now) then jar else jar[c.name := [c]]
    else
      var list := jar[c.name];
      match FirstCollision(rel, list, c)
      case Some(i) =>
        if !c.Expired(now) then jar[c.name := list[i := c]]
        else if |list| == 1 then jar - {c.name}
        else jar[c.name := Drop(list, i)]
      case None => if c.Expired(now) then jar else jar[c.name := list + [c]]
  }

  class CookieJar {
    var cookies: Jar

    constructor ()
      ensures cookies == map[]
    {
      cookies := map[];
    }

    /** Returns the cookie if it was stored and nothing if it was expired. */
    method SetCookie(cookie: Cookie, now: int) returns (stored: Option<Cookie>)
      modifies this
      ensures cookies == Set(Collides, old(cookies), cookie, now)
      ensures stored == if cookie.Expired(now) then None else Some(cookie)
    {
      var remove := cookie.Expired(now);
      if cookie.name in cookies {
        var list := cookies[cookie.name];
        var i := 0;
        while i < |list|
          invariant 0 <= i <= |list| && cookies == old(cookies)
          invariant FirstCollision(Collides, list, cookie) == CollisionFrom(Collides, list, cookie, i)
        {
          if Collides(list[i].scope, cookie.scope) {
            if remove {
              list := list[..i] + list[i + 1..];
              if list == [] {
                cookies := cookies - {cookie.name};
              } else {
                cookies := cookies[cookie.name := list];
              }
              return None;
            }
            cookies := cookies[cookie.name := list[i := cookie]];
            return Some(cookie);
          }
          i := i + 1;
        }
        if remove {
          return None;
        }
        cookies := cookies[cookie.name := list + [cookie]];
        return Some(cookie);
      } else if remove {
        return None;
      }
      cookies := cookies[cookie.name := [cookie]];
      return Some(cookie);
    }

    /** The first cookie of the name that may be given; asking for a name that is not there is a type error. */
    method GetCookie(name: string, access: Access, now: int) returns (found: Option<Cookie>)
      requires name in cookies
      ensures found == Get(cookies[name], access, now)
      ensures var list := cookies[name];
              if found.None? then forall i :: 0 <= i < |list| ==> !Allowed(list[i], access, now)
              else exists i :: 0 <= i < |list| && found == Some(list[i]) && Allowed(list[i], access, now) &&
                     forall j :: 0 <= j < i ==> !Allowed(list[j], access, now)
    {
      GetExactly(cookies[name], access, now);
      var list := cookies[name];
      var i := 0;
      while i < |list|
        invariant 0 <= i <= |list| && Get(list, access, now) == Get(list[i..], access, now)
      {
        if !list[i].Expired(now) && Matches(list[i], access) {
          return Some(list[i]);
        }
        i := i + 1;
      }
      return None;
    }
  }

  datatype Access = Access(scope: Scope, script: bool, secure: bool)

  predicate Matches(c: Cookie, access: Access) {
    !(c.noscript && access.script) && !(c.secure && !access.secure) && Collides(c.scope, access.scope)
  }

  /** It has not expired, it is not kept from scripts or from insecure connections, and its scope covers that of the access. */
  predicate Allowed(c: Cookie, access: Access, now: int) {
    && (c.expires.Some? ==> now < c.expires.value)
    && (access.script ==> !c.noscript)
    && (c.secure ==> access.secure)
    && Covers(c.scope, access.scope)
  }

  lemma {:induction false} GetExactly(list: seq<Cookie>, access: Access, now: int)
    ensures var found := Get(list, access, now);
            if found.None? then forall i :: 0 <= i < |list| ==> !Allowed(list[i], access, now)
            else exists i :: 0 <= i < |list| && found == Some(list[i]) && Allowed(list[i], access, now) &&
                   forall j :: 0 <= j < i ==> !Allowed(list[j], access, now)
    decreases |list|
  {
    if list != [] {
      var found, rest := Get(list, access, now), list[1..];
      CollidesExactly(list[0].scope, access.scope);
      if Allowed(list[0], access, now) {
        assert found == Some(list[0]);
      } else {
        GetExactly(rest, access, now);
        assert forall i :: 0 < i < |list| ==> list[i] == rest[i - 1];
        if found.Some? {
          var i :| 0 <= i < |rest| && found == Some(rest[i]) && Allowed(rest[i], access, now) &&
                   forall j :: 0 <= j < i ==> !Allowed(rest[j], access, now);
          assert list[i + 1] == rest[i];
        }
      }
    }
  }

  function Get(list: seq<Cookie>, access: Access, now: int): Option<Cookie> {
    if list == [] then None
    else if !list[0].Expired(now) && Matches(list[0], access) then Some(list[0])
    else Get(list[1..], access, now)
  }

  // ----- what setting a cookie does -----

  function Stored(jar: Jar, name: string): seq<Cookie> {
    if name in jar then jar[name] else []
  }

  /** Position i holds the first cookie of the list whose scope covers that of `c`. */
  predicate FirstCovering(list: seq<Cookie>, c: Cookie, i: nat) {
    i < |list| && Covers(list[i].scope, c.scope) && forall j :: 0 <= j < i ==> !Covers(list[j].scope, c.scope)
  }

  /** Only the list of its own name changes: the first cookie that covers it goes, a live cookie takes its place or the end. */
  lemma SetEffect(jar: Jar, c: Cookie, now: int)
    ensures var list, after := Stored(jar, c.name), Set(Collides, jar, c, now);
            && (forall n :: n != c.name ==> (n in after <==> n in jar) && Stored(after, n) == Stored(jar, n))
            && ((exists j :: 0 <= j < |list| && Covers(list[j].scope, c.scope)) ==> exists i: nat :: FirstCovering(list, c, i))
            && (forall i: nat :: FirstCovering(list, c, i) ==>
                  Stored(after, c.name) == if c.Expired(now) then list[..i] + list[i + 1..] else list[i := c])
            && ((forall j :: 0 <= j < |list| ==> !Covers(list[j].scope, c.scope)) ==>
                  Stored(after, c.name) == if c.Expired(now) then list else list + [c])
            && ((c.name in jar ==> list != []) ==> (c.name in after <==> Stored(after, c.name) != []))
  {
    var list := Stored(jar, c.name);
    forall j | 0 <= j < |list| ensures Collides(list[j].scope, c.scope) <==> Covers(list[j].scope, c.scope) {
      CollidesExactly(list[j].scope, c.scope);
    }
    var found := FirstCollision(Collides, list, c);
    assert found.Some? ==> FirstCovering(list, c, found.value);
    forall i: nat | FirstCovering(list, c, i) ensures found == Some(i) {
    }
  }

  // ----- the invariant of a jar -----

  predicate CollisionFree(rel: Relation, list: seq<Cookie>) {
    forall i, j :: 0 <= i < j < |list| ==> !rel(list[i].scope, list[j].scope)
  }

  /** A list is never empty and holds only cookies of its own name. */
  predicate Filed(n: string, list: seq<Cookie>) {
    list != [] && forall i :: 0 <= i < |list| ==> list[i].name == n
  }

  ghost predicate Tidy(rel: Relation, jar: Jar) {
    forall n :: n in jar ==> Filed(n, jar[n]) && CollisionFree(rel, jar[n])
  }

  predicate From(list: seq<Cookie>, universe: set<Cookie>) {
    forall i :: 0 <= i < |list| ==> list[i] in universe
  }

  /** `a` collides with `b` and `b` with `c`, all of one name. */
  predicate Chain(rel: Relation, a: Cookie, b: Cookie, c: Cookie) {
    a.name == b.name == c.name && rel(a.scope, b.scope) && rel(b.scope, c.scope)
  }

  ghost predicate Transitive(rel: Relation, universe: set<Cookie>) {
    forall a, b, c :: a in universe && b in universe && c in universe && Chain(rel, a, b, c) ==> rel(a.scope, c.scope)
  }

  datatype Write = Write(cookie: Cookie, now: int)

  function RunWrites(rel: Relation, writes: seq<Write>): Jar {
    if writes == [] then map[]
    else Set(rel, RunWrites(rel, writes[..|writes| - 1]), writes[|writes| - 1].cookie, writes[|writes| - 1].now)
  }

  predicate WritesFrom(writes: seq<Write>, universe: set<Cookie>) {
    forall i :: 0 <= i < |writes| ==> writes[i].cookie in universe
  }

  lemma ReplaceKeepsFree(rel: Relation, universe: set<Cookie>, list: seq<Cookie>, i: nat, c: Cookie)
    requires Transitive(rel, universe) && From(list, universe) && Filed(c.name, list) && CollisionFree(rel, list) && c in universe
    requires FirstCollision(rel, list, c) == Some(i)
    ensures CollisionFree(rel, list[i := c])
  {
    var after := list[i := c];
    forall k, l | 0 <= k < l < |after| ensures !rel(after[k].scope, after[l].scope) {
      if k == i && rel(c.scope, list[l].scope) {
        assert Chain(rel, list[i], c, list[l]);
        assert false;
      }
    }
  }

  ghost predicate TidyIn(rel: Relation, jar: Jar, universe: set<Cookie>) {
    Tidy(rel, jar) && forall n :: n in jar ==> From(jar[n], universe)
  }

  lemma SetKeepsTidy(rel: Relation, universe: set<Cookie>, jar: Jar, c: Cookie, now: int)
    requires Transitive(rel, universe) && TidyIn(rel, jar, universe) && c in universe
    ensures TidyIn(rel, Set(rel, jar, c, now), universe)
  {
    if c.name in jar {
      var found := FirstCollision(rel, jar[c.name], c);
      if found.Some? {
        ReplaceKeepsFree(rel, universe, jar[c.name], found.value, c);
      }
    }
  }

  lemma {:induction false} RunKeepsTidy(rel: Relation, universe: set<Cookie>, writes: seq<Write>)
    requires Transitive(rel, universe) && WritesFrom(writes, universe)
    ensures TidyIn(rel, RunWrites(rel, writes), universe)
    decreases |writes|
  {
    if writes != [] {
      var before, last := writes[..|writes| - 1], writes[|writes| - 1];
      RunKeepsTidy(rel, universe, before);
      SetKeepsTidy(rel, universe, RunWrites(rel, before), last.cookie, last.now);
    }
  }

  /** The clock does not run back between writes. */
  predicate Timely(writes: seq<Write>) {
    forall i, j :: 0 <= i < j < |writes| ==> writes[i].now <= writes[j].now
  }

  function Early(c: Cookie): int {
    if c.expires.Some? then c.expires.value - 1 else 0
  }

  function Least(x: int, y: int): int {
    if x < y then x else y
  }

  /** Three writes, all at a time when none of the three has expired. */
  function BreakingRun(a: Cookie, b: Cookie, c: Cookie): (writes: seq<Write>)
    ensures Timely(writes) && WritesFrom(writes, {a, b, c})
  {
    var now := Least(Early(a), Least(Early(b), Early(c)));
    [Write(a, now), Write(c, now), Write(b, now)]
  }

  /** They leave two colliding cookies when the relation fails to be transitive on them. */
  lemma BrokenRun(rel: Relation, a: Cookie, b: Cookie, c: Cookie)
    requires Chain(rel, a, b, c) && !rel(a.scope, c.scope)
    ensures var jar := RunWrites(rel, BreakingRun(a, b, c));
            a.name in jar && jar[a.name] == [b, c] && !CollisionFree(rel, jar[a.name])
  {
    var w3 := BreakingRun(a, b, c);
    var w1, w2 := [w3[0]], [w3[0], w3[1]];
    assert w1[..0] == [] && w2[..1] == w1 && w3[..2] == w2;
    var none: Jar := map[];
    assert RunWrites(rel, w1) == none[a.name := [a]];
    assert FirstCollision(rel, [a], c).None?;
    assert [a] + [c] == [a, c];
    assert RunWrites(rel, w2)[a.name] == [a, c];
    assert FirstCollision(rel, [a, c], b) == Some(0);
    assert [a, c][0 := b] == [b, c];
    assert RunWrites(rel, w3)[a.name] == [b, c];
    assert rel([b, c][0].scope, [b, c][1].scope);
  }

  /** Every run of writes from a universe of cookies leaves tidy lists if and only if the relation is transitive on it,
      whether or not the clock may run back. */
  lemma TidyExactly(rel: Relation, universe: set<Cookie>)
    ensures Transitive(rel, universe) <==> forall writes :: WritesFrom(writes, universe) ==> Tidy(rel, RunWrites(rel, writes))
    ensures Transitive(rel, universe) <==>
            forall writes :: WritesFrom(writes, universe) && Timely(writes) ==> Tidy(rel, RunWrites(rel, writes))
  {
    if Transitive(rel, universe) {
      forall writes | WritesFrom(writes, universe) ensures Tidy(rel, RunWrites(rel, writes)) {
        RunKeepsTidy(rel, universe, writes);
      }
    } else {
      var a, b, c :| a in universe && b in universe && c in universe && Chain(rel, a, b, c) && !rel(a.scope, c.scope);
      BrokenRun(rel, a, b, c);
      var writes := BreakingRun(a, b, c);
      assert WritesFrom(writes, universe) && Timely(writes) && !Tidy(rel, RunWrites(rel, writes));
    }
  }

  // ----- when `collidesWith` is transitive -----

  predicate Dotted(d: string) {
    d != "" && d[0] == '.'
  }

  predicate SuffixOnly(t: string, e: string) {
    IndexOf(e, t) == -1 || IndexOf(e, t) == |e| - |t|
  }

  /** Tails of dotted domains do not start with a dot, and occur in other domains only as their suffix. */
  ghost predicate Tame(domains: set<string>) {
    forall d, e :: d in domains && e in domains && Dotted(d) ==> !Dotted(d[1..]) && SuffixOnly(d[1..], e)
  }

  lemma SuffixOfSuffix(t: string, b: string, u: string, c: string)
    requires |b| == |u| + 1 && b[1..] == u && |t| <= |u|
    requires Occurs(b, t, |b| - |t|) && |u| <= |c| && Occurs(c, u, |c| - |u|)
    ensures Occurs(c, t, |c| - |t|)
  {
    var j := |c| - |t|;
    assert c[j..j + |t|] == c[|c| - |u|..|c| - |u| + |u|][|u| - |t|..];
    assert b[|b| - |t|..|b| - |t| + |t|] == b[1..][|u| - |t|..];
  }

  lemma DomainsTransitive(domains: set<string>, a: string, b: string, c: string)
    requires Tame(domains) && a in domains && b in domains && c in domains
    requires (a != "" ==> b != "") && (b != "" ==> c != "") && DomainCovers(a, b) && DomainCovers(b, c)
    ensures DomainCovers(a, c)
  {
    if a != "" && a != b && b != c {
      var t, u := a[1..], b[1..];
      assert Dotted(a) && Dotted(b);
      assert Occurs(b, t, |b| - |t|) && Occurs(c, u, |c| - |u|);
      if |t| == |b| {
        assert false;
      }
      SuffixOfSuffix(t, b, u, c);
      assert SuffixOnly(t, c);
    }
  }

  /** On cookies with tame domains `collidesWith` is transitive, so by `TidyExactly` their jars stay tidy. */
  lemma TameIsTransitive(universe: set<Cookie>)
    requires Tame(set c | c in universe :: c.scope.domain)
    ensures Transitive(Collides, universe)
  {
    var domains := set c | c in universe :: c.scope.domain;
    forall a, b, c | a in universe && b in universe && c in universe && Chain(Collides, a, b, c)
      ensures Collides(a.scope, c.scope)
    {
      DomainsTransitive(domains, a.scope.domain, b.scope.domain, c.scope.domain);
    }
  }

  /** A tail that also occurs inside a host name breaks transitivity: `indexOf` finds the wrong occurrence. */
  lemma RepeatedTailBreaks()
    ensures DomainCovers(".x", ".ax") && DomainCovers(".ax", "xax") && !DomainCovers(".x", "xax")
  {
    assert ".x"[1..] == "x" && ".ax"[1..] == "ax";
    assert Occurs(".ax", "x", 2) by { assert ".ax"[2..3] == "x"; }
    assert !Occurs(".ax", "x", 0) by { assert ".ax"[0..1] == "."; }
    assert !Occurs(".ax", "x", 1) by { assert ".ax"[1..2] == "a"; }
    assert Occurs("xax", "ax", 1) by { assert "xax"[1..3] == "ax"; }
    assert !Occurs("xax", "ax", 0) by { assert "xax"[0..2] == "xa"; }
    assert Occurs("xax", "x", 0) by { assert "xax"[0..1] == "x"; }
  }

  /** So does a domain that starts with two dots. */
  lemma DoubleDotBreaks()
    ensures DomainCovers("..x", ".x") && DomainCovers(".x", "ax") && !DomainCovers("..x", "ax")
  {
    assert "..x"[1..] == ".x" && ".x"[1..] == "x";
    assert Occurs(".x", ".x", 0) by { assert ".x"[0..2] == ".x"; }
    assert Occurs("ax", "x", 1) by { assert "ax"[1..2] == "x"; }
    assert !Occurs("ax", "x", 0) by { assert "ax"[0..1] == "a"; }
    assert !Occurs("ax", ".x", 0) by { assert "ax"[0..2] == "ax"; }
  }

  // ----- reading back -----

  lemma {:induction false} GetAt(list: seq<Cookie>, access: Access, now: int, i: nat)
    requires i < |list| && !list[i].Expired(now) && Matches(list[i], access)
    requires forall k :: 0 <= k < i ==> !Matches(list[k], access)
    ensures Get(list, access, now) == Some(list[i])
    decreases i
  {
    if i > 0 {
      GetAt(list[1..], access, now, i - 1);
    }
  }

  /** Whatever was in the jar, a cookie just stored is what a request in its own scope gets. */
  lemma SetThenGet(jar: Jar, c: Cookie, now: int)
    requires !c.Expired(now)
    ensures c.name in Set(Collides, jar, c, now)
    ensures Get(Set(Collides, jar, c, now)[c.name], Access(c.scope, false, true), now) == Some(c)
  {
    var list := if c.name in jar then jar[c.name] else [];
    var found := FirstCollision(Collides, list, c);
    var i := if found.Some? then found.value else |list|;
    var after := Set(Collides, jar, c, now)[c.name];
    assert after[i] == c;
    GetAt(after, Access(c.scope, false, true), now, i);
  }
}
