/** shred's path module: the backward, in-place `normalizeArray` and the path normaliser built on it. */
module PathNormalize {

  type Segment = string

  // ----- the backward pass -----

  /** What the backward loop keeps of `parts`, entered with `up` pending, and the `up` it ends with. */
  function Backward(parts: seq<Segment>, up: nat): (seq<Segment>, nat)
    decreases |parts|
  {
    if parts == [] then ([], up)
    else
      var before, last := parts[..|parts| - 1], parts[|parts| - 1];
      if last == "." then Backward(before, up)
      else if last == ".." then Backward(before, up + 1)
      else if up > 0 then Backward(before, up - 1)
      else
        var (kept, left) := Backward(before, 0);
        (kept + [last], left)
  }

  function Dots(n: nat): (ds: seq<Segment>)
    ensures |ds| == n && forall i :: 0 <= i < n ==> ds[i] == ".."
  {
    seq(n, i => "..")
  }

  function Normal(parts: seq<Segment>, allowAboveRoot: bool): seq<Segment> {
    var (kept, up) := Backward(parts, 0);
    (if allowAboveRoot then Dots(up) else []) + kept
  }

  function Keep(r: (seq<Segment>, nat), kept: seq<Segment>): (seq<Segment>, nat) {
    (r.0 + kept, r.1)
  }

  lemma KeepKeep(r: (seq<Segment>, nat), a: seq<Segment>, b: seq<Segment>)
    ensures Keep(Keep(r, a), b) == Keep(r, a + b) && Keep(r, []) == r
  {
    assert r.0 + a + b == r.0 + (a + b) && r.0 + [] == r.0;
  }

  /** One position of the backward pass. */
  lemma BackwardOne(segments: seq<Segment>, i: nat, up: nat)
    requires i < |segments|
    ensures var last := segments[i];
            Backward(segments[..i + 1], up) ==
            if last == "." then Backward(segments[..i], up)
            else if last == ".." then Backward(segments[..i], up + 1)
            else if up > 0 then Backward(segments[..i], up - 1)
            else Keep(Backward(segments[..i], 0), [last])
  {
    assert segments[..i + 1][..i] == segments[..i];
  }

  /** `normalizeArray`: `parts` is spliced from its end to its start; the first round looks one past the end. */
  method NormalizeArray(segments: seq<Segment>, allowAboveRoot: bool) returns (parts: seq<Segment>)
    ensures parts == Normal(segments, allowAboveRoot)
  {
    parts := segments;
    var up, i := 0, |parts|;
    ghost var kept: seq<Segment> := [];
    ghost var todo := |segments|;
    assert segments[..todo] == segments && segments + kept == segments;
    KeepKeep(Backward(segments, 0), [], []);
    while i >= 0
      invariant -1 <= i <= |segments| && 0 <= up && todo == (if i == |segments| then i else i + 1)
      invariant parts == segments[..todo] + kept && (i == |segments| ==> kept == [])
      invariant Backward(segments, 0) == Keep(Backward(segments[..todo], up), kept)
      decreases i
    {
      if i < |parts| {
        var last := parts[i];
        BackwardOne(segments, i, up);
        assert parts[..i] == segments[..i] && parts[i + 1..] == kept;
        if last == "." {
          parts := parts[..i] + parts[i + 1..];
        } else if last == ".." {
          parts := parts[..i] + parts[i + 1..];
          up := up + 1;
        } else if up > 0 {
          parts := parts[..i] + parts[i + 1..];
          up := up - 1;
        } else {
          KeepKeep(Backward(segments[..i], 0), [last], kept);
          kept := [last] + kept;
        }
      }
      todo := i;
      i := i - 1;
    }
    assert Backward([], up) == ([], up);
    if allowAboveRoot {
      parts := AddDots(parts, up);
    }
  }

  /** `for (; up--; up) parts.unshift('..')` */
  method AddDots(names: seq<Segment>, count: nat) returns (parts: seq<Segment>)
    ensures parts == Dots(count) + names
  {
    parts := names;
    var up := count;
    while up > 0
      invariant 0 <= up <= count && parts == Dots(count - up) + names
    {
      up := up - 1;
      assert [".."] + Dots(count - up - 1) == Dots(count - up);
      parts := [".."] + parts;
    }
  }

  // ----- the forward reference: a stack of names under a count of leading ".." -----

  function Forward(parts: seq<Segment>): (nat, seq<Segment>)
    decreases |parts|
  {
    if parts == [] then (0, [])
    else
      var (ups, names) := Forward(parts[..|parts| - 1]);
      var last := parts[|parts| - 1];
      if last == "." then (ups, names)
      else if last != ".." then (ups, names + [last])
      else if names != [] then (ups, names[..|names| - 1])
      else (ups + 1, names)
  }

  function Least(a: nat, b: nat): nat {
    if a < b then a else b
  }

  /** Going backward with `up` pending is going forward and then up that many times. */
  lemma {:induction false} BackwardIsForward(parts: seq<Segment>, up: nat)
    ensures var (ups, names) := Forward(parts);
            var cut := Least(up, |names|);
            Backward(parts, up) == (names[..|names| - cut], ups + up - cut)
    decreases |parts|
  {
    if parts != [] {
      var before, last := parts[..|parts| - 1], parts[|parts| - 1];
      var names := Forward(before).1;
      if last == "." {
        BackwardIsForward(before, up);
      } else if last == ".." {
        BackwardIsForward(before, up + 1);
        if names != [] {
          var cut := Least(up, |names| - 1);
          assert names[..|names| - 1][..|names| - 1 - cut] == names[..|names| - 1 - cut];
        }
      } else if up > 0 {
        BackwardIsForward(before, up - 1);
        var cut := Least(up - 1, |names|);
        assert (names + [last])[..|names| - cut] == names[..|names| - cut];
      } else {
        BackwardIsForward(before, 0);
        assert names[..|names|] == names && (names + [last])[..|names| + 1] == names + [last];
      }
    }
  }

  /** For every list and both settings, the backward pass computes the forward stack resolution. */
  lemma NormalIsForward(parts: seq<Segment>, allowAboveRoot: bool)
    ensures var (ups, names) := Forward(parts);
            Normal(parts, allowAboveRoot) == (if allowAboveRoot then Dots(ups) else []) + names
  {
    BackwardIsForward(parts, 0);
    var names := Forward(parts).1;
    assert names[..|names|] == names;
  }

  // ----- what a path means: a walk from a directory -----

  /** Following the segments from `dir`; ".." stays put at the root. */
  function Resolve(dir: seq<string>, parts: seq<Segment>): seq<string>
    decreases |parts|
  {
    if parts == [] then dir
    else
      var d := Resolve(dir, parts[..|parts| - 1]);
      var last := parts[|parts| - 1];
      if last == "." then d
      else if last != ".." then d + [last]
      else if d == [] then []
      else d[..|d| - 1]
  }

  function UpFrom(dir: seq<string>, n: nat): seq<string> {
    dir[..|dir| - Least(n, |dir|)]
  }

  lemma {:induction false} ResolveConcat(dir: seq<string>, a: seq<Segment>, b: seq<Segment>)
    ensures Resolve(dir, a + b) == Resolve(Resolve(dir, a), b)
    decreases |b|
  {
    if b == [] {
      assert a + b == a;
    } else {
      assert (a + b)[..|a + b| - 1] == a + b[..|b| - 1];
      ResolveConcat(dir, a, b[..|b| - 1]);
    }
  }

  lemma {:induction false} ResolveDots(dir: seq<string>, n: nat)
    ensures Resolve(dir, Dots(n)) == UpFrom(dir, n)
    decreases n
  {
    if n == 0 {
      assert dir[..|dir|] == dir;
    } else {
      assert Dots(n)[..n - 1] == Dots(n - 1);
      ResolveDots(dir, n - 1);
      var up := UpFrom(dir, n - 1);
      if up != [] {
        assert up[..|up| - 1] == UpFrom(dir, n);
      }
    }
  }

  predicate Plain(names: seq<Segment>) {
    forall i :: 0 <= i < |names| ==> names[i] != "." && names[i] != ".."
  }

  lemma {:induction false} ResolvePlain(dir: seq<string>, names: seq<Segment>)
    requires Plain(names)
    ensures Resolve(dir, names) == dir + names
    decreases |names|
  {
    if names == [] {
      assert dir + [] == dir;
    } else {
      var before, last := names[..|names| - 1], names[|names| - 1];
      ResolvePlain(dir, before);
      assert dir + before + [last] == dir + (before + [last]) && before + [last] == names;
    }
  }

  lemma {:induction false} ForwardPlain(parts: seq<Segment>)
    ensures Plain(Forward(parts).1)
    decreases |parts|
  {
    if parts != [] {
      ForwardPlain(parts[..|parts| - 1]);
    }
  }

  /** A walk goes up as often as the forward count says and then down the names. */
  lemma {:induction false} ResolveIsForward(dir: seq<string>, parts: seq<Segment>)
    ensures var (ups, names) := Forward(parts);
            Resolve(dir, parts) == UpFrom(dir, ups) + names
    decreases |parts|
  {
    if parts == [] {
      assert dir[..|dir|] + [] == dir;
    } else {
      var before, last := parts[..|parts| - 1], parts[|parts| - 1];
      ResolveIsForward(dir, before);
      var (ups, names) := Forward(before);
      var d := UpFrom(dir, ups) + names;
      if last == ".." {
        if names != [] {
          assert d[..|d| - 1] == UpFrom(dir, ups) + names[..|names| - 1];
        } else if d != [] {
          assert d[..|d| - 1] == UpFrom(dir, ups + 1) + names;
        }
      } else if last != "." {
        assert d + [last] == UpFrom(dir, ups) + (names + [last]);
      }
    }
  }

  /** Normalising never changes where a path leads: from any directory if relative, from the root if absolute. */
  lemma NormalResolves(parts: seq<Segment>, dir: seq<string>)
    ensures Resolve(dir, Normal(parts, true)) == Resolve(dir, parts)
    ensures Resolve([], Normal(parts, false)) == Resolve([], parts) == Normal(parts, false)
  {
    var (ups, names) := Forward(parts);
    NormalIsForward(parts, true);
    NormalIsForward(parts, false);
    ForwardPlain(parts);
    ResolveIsForward(dir, parts);
    ResolveConcat(dir, Dots(ups), names);
    ResolveDots(dir, ups);
    ResolvePlain(UpFrom(dir, ups), names);
    ResolveIsForward([], parts);
    ResolvePlain([], names);
    assert [] + names == names;
  }

  /** Leading ".." and plain names are left alone. */
  lemma {:induction false} NormalFixed(n: nat, names: seq<Segment>)
    requires Plain(names)
    ensures Forward(Dots(n) + names) == (n, names)
    decreases n + |names|
  {
    var parts := Dots(n) + names;
    if names != [] {
      var before := names[..|names| - 1];
      NormalFixed(n, before);
      assert parts[..|parts| - 1] == Dots(n) + before && before + [names[|names| - 1]] == names;
    } else if n > 0 {
      NormalFixed(n - 1, []);
      assert parts[..|parts| - 1] == Dots(n - 1) + [];
    }
  }

  // ----- strings -----

  /** `path.split('/')` */
  function Split(s: string): (r: seq<string>)
    ensures r != []
  {
    if s == "" then [""]
    else
      var rest := Split(s[1..]);
      if s[0] == '/' then [""] + rest else [[s[0]] + rest[0]] + rest[1..]
  }

  /** `filter(..., function(p) { return !!p; })` */
  function NonEmpty(xs: seq<string>): seq<string> {
    if xs == [] then [] else (if xs[0] != "" then [xs[0]] else []) + NonEmpty(xs[1..])
  }

  function Segments(s: string): seq<Segment> {
    NonEmpty(Split(s))
  }

  function JoinSlash(xs: seq<string>): string {
    if xs == [] then "" else if |xs| == 1 then xs[0] else xs[0] + "/" + JoinSlash(xs[1..])
  }

  predicate IsAbsolute(s: string) {
    s != "" && s[0] == '/'
  }

  predicate TrailingSlash(s: string) {
    s != "" && s[|s| - 1] == '/'
  }

  /** `exports.normalize` */
  function Normalize(path: string): string {
    var absolute := IsAbsolute(path);
    var joined := JoinSlash(Normal(Segments(path), !absolute));
    var named := if joined == "" && !absolute then "." else joined;
    (if absolute then "/" else "") + named + (if named != "" && TrailingSlash(path) then "/" else "")
  }

  predicate Clean(x: string) {
    x != "" && '/' !in x
  }

  predicate AllClean(xs: seq<string>) {
    forall i :: 0 <= i < |xs| ==> Clean(xs[i])
  }

  lemma {:induction false} SplitClean(s: string)
    ensures forall i :: 0 <= i < |Split(s)| ==> '/' !in Split(s)[i]
    decreases |s|
  {
    if s != "" {
      SplitClean(s[1..]);
    }
  }

  lemma {:induction false} NonEmptyClean(xs: seq<string>)
    requires forall i :: 0 <= i < |xs| ==> '/' !in xs[i]
    ensures AllClean(NonEmpty(xs))
    decreases |xs|
  {
    if xs != [] {
      NonEmptyClean(xs[1..]);
    }
  }

  lemma {:induction false} SplitWord(x: string, rest: string)
    requires '/' !in x
    ensures Split(x + "/" + rest) == [x] + Split(rest)
    ensures Split(x) == [x]
    decreases |x|
  {
    if x == "" {
      assert x + "/" + rest == "/" + rest && ("/" + rest)[1..] == rest;
    } else {
      SplitWord(x[1..], rest);
      assert (x + "/" + rest)[1..] == x[1..] + "/" + rest;
      assert [x[0]] + x[1..] == x;
    }
  }

  lemma {:induction false} SplitJoin(xs: seq<string>)
    requires xs != [] && forall i :: 0 <= i < |xs| ==> '/' !in xs[i]
    ensures Split(JoinSlash(xs)) == xs
    decreases |xs|
  {
    if |xs| == 1 {
      SplitWord(xs[0], "");
      assert xs == [xs[0]];
    } else {
      SplitJoin(xs[1..]);
      SplitWord(xs[0], JoinSlash(xs[1..]));
    }
  }

  lemma {:induction false} NonEmptyFixed(xs: seq<string>)
    requires AllClean(xs)
    ensures NonEmpty(xs) == xs
    decreases |xs|
  {
    if xs != [] {
      NonEmptyFixed(xs[1..]);
      assert [xs[0]] + xs[1..] == xs;
    }
  }

  lemma {:induction false} NonEmptyConcat(a: seq<string>, b: seq<string>)
    ensures NonEmpty(a + b) == NonEmpty(a) + NonEmpty(b)
    decreases |a|
  {
    if a == [] {
      assert a + b == b;
    } else {
      assert (a + b)[1..] == a[1..] + b;
      NonEmptyConcat(a[1..], b);
    }
  }

  lemma {:induction false} SplitTrailing(s: string)
    ensures Split(s + "/") == Split(s) + [""]
    decreases |s|
  {
    if s == "" {
      assert s + "/" == "/" && "/"[1..] == "";
    } else {
      assert (s + "/")[1..] == s[1..] + "/";
      SplitTrailing(s[1..]);
    }
  }

  /** Slashes at either end do not change the segments. */
  lemma SegmentsBare(s: string)
    ensures Segments("/" + s) == Segments(s) && Segments(s + "/") == Segments(s)
  {
    assert ("/" + s)[1..] == s;
    assert ([""] + Split(s))[1..] == Split(s);
    SplitTrailing(s);
    NonEmptyConcat(Split(s), [""]);
    assert [""][1..] == [];
  }

  lemma SegmentsOfJoin(xs: seq<string>)
    requires AllClean(xs)
    ensures Segments(JoinSlash(xs)) == xs
    ensures xs != [] ==> JoinSlash(xs) != "" && !IsAbsolute(JoinSlash(xs)) && !TrailingSlash(JoinSlash(xs))
  {
    if xs == [] {
      assert Split("") == [""] && [""][1..] == [];
    } else {
      SplitJoin(xs);
      NonEmptyFixed(xs);
      JoinEnds(xs);
    }
  }

  lemma {:induction false} JoinEnds(xs: seq<string>)
    requires AllClean(xs) && xs != []
    ensures JoinSlash(xs) != "" && JoinSlash(xs)[0] != '/' && JoinSlash(xs)[|JoinSlash(xs)| - 1] != '/'
    decreases |xs|
  {
    assert Clean(xs[0]) && xs[0][0] in xs[0] && xs[0][|xs[0]| - 1] in xs[0];
    if |xs| > 1 {
      JoinEnds(xs[1..]);
    }
  }

  lemma NormalClean(parts: seq<Segment>, allowAboveRoot: bool)
    requires AllClean(parts)
    ensures AllClean(Normal(parts, allowAboveRoot)) && Normal(Normal(parts, allowAboveRoot), allowAboveRoot) == Normal(parts, allowAboveRoot)
  {
    ForwardClean(parts);
    ForwardPlain(parts);
    var (ups, names) := Forward(parts);
    NormalIsForward(parts, allowAboveRoot);
    var n := if allowAboveRoot then ups else 0;
    NormalFixed(n, names);
    assert Dots(0) == [];
    NormalIsForward(Dots(n) + names, allowAboveRoot);
  }

  lemma {:induction false} ForwardClean(parts: seq<Segment>)
    requires AllClean(parts)
    ensures AllClean(Forward(parts).1)
    decreases |parts|
  {
    if parts != [] {
      ForwardClean(parts[..|parts| - 1]);
    }
  }

  lemma Dressed(absolute: bool, named: string, slash: bool)
    requires named != "" && !IsAbsolute(named) && !TrailingSlash(named)
    ensures var out := (if absolute then "/" else "") + named + (if slash then "/" else "");
            IsAbsolute(out) == absolute && TrailingSlash(out) == slash && Segments(out) == Segments(named)
  {
    SegmentsBare(named);
    SegmentsBare("/" + named);
    assert "" + named == named;
    assert named + "" == named && ("/" + named) + "" == "/" + named;
  }

  /** What the normalised path itself looks like: same kind, the normal segments, and the same slash at the end, which the
      root always has. */
  lemma NormalizeShape(path: string)
    ensures var out := Normalize(path);
            var names := Normal(Segments(path), !IsAbsolute(path));
            && IsAbsolute(out) == IsAbsolute(path)
            && Segments(out) == (if names == [] && !IsAbsolute(path) then ["."] else names)
            && (TrailingSlash(out) <==> TrailingSlash(path) || (IsAbsolute(path) && names == []))
  {
    var absolute := IsAbsolute(path);
    var names := Normal(Segments(path), !absolute);
    SplitClean(path);
    NonEmptyClean(Split(path));
    NormalClean(Segments(path), !absolute);
    SegmentsOfJoin(names);
    if names != [] {
      Dressed(absolute, JoinSlash(names), TrailingSlash(path));
    } else if absolute {
      assert Normalize(path) == "/";
      SegmentsBare("");
      assert "/" + "" == "/";
    } else {
      SegmentsOfJoin(["."]);
      Dressed(false, JoinSlash(["."]), TrailingSlash(path));
    }
  }

  /** Normalising a normalised path changes nothing, for every path. */
  lemma NormalizeIdempotent(path: string)
    ensures Normalize(Normalize(path)) == Normalize(path)
  {
    var absolute := IsAbsolute(path);
    var names := Normal(Segments(path), !absolute);
    SplitClean(path);
    NonEmptyClean(Split(path));
    NormalClean(Segments(path), !absolute);
    NormalizeShape(path);
    if names == [] && !absolute {
      assert ["."][..0] == [];
      assert Backward(["."], 0) == ([], 0);
      assert Normal(["."], true) == [] by { assert Dots(0) + [] == []; }
    }
  }

  /** The normalised path leads where the path led: from any directory, or from the root when it is absolute. */
  lemma NormalizeResolves(path: string, dir: seq<string>)
    ensures var start := if IsAbsolute(path) then [] else dir;
            Resolve(start, Segments(Normalize(path))) == Resolve(start, Segments(path))
  {
    NormalizeShape(path);
    NormalResolves(Segments(path), dir);
    if Segments(Normalize(path)) == ["."] {
      assert ["."][..0] == [];
      assert Resolve(dir, ["."]) == Resolve(dir, []);
    }
  }
}
