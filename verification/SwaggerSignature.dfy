/** swagger-client: `getMockSignature`, a depth-first walk over possibly cyclic object models. */
module SwaggerSignature {
  import opened Wrappers

  /** A property: its rendered text and the model its `$ref` names. */
  datatype Property = Property(text: string, ref: Option<string>)

  datatype Model = Model(properties: seq<Property>)

  /** `models`: an object model is stored under its own name. */
  type Models = map<string, Model>

  /** A property without a reference refers to what is stored under "undefined". */
  predicate Refers(p: Property, name: string) {
    p.ref == Some(name) || (p.ref == None && name == "undefined")
  }

  function Key(p: Property): (key: string)
    ensures forall name :: Refers(p, name) <==> key == name
  {
    p.ref.GetOr("undefined")
  }

  // ----- the text of one model -----

  function JoinTexts(texts: seq<string>, separator: string): string {
    if texts == [] then ""
    else if |texts| == 1 then texts[0]
    else texts[0] + separator + JoinTexts(texts[1..], separator)
  }

  function TextsOf(m: Model): (texts: seq<string>)
    ensures |texts| == |m.properties| && forall i :: 0 <= i < |texts| ==> texts[i] == m.properties[i].text
  {
    seq(|m.properties|, i requires 0 <= i < |m.properties| => m.properties[i].text)
  }

  function Describe(name: string, m: Model): string {
    var strong := "<span class=\"strong\">";
    strong + name + " {" + "</span>" + "<div>" + JoinTexts(TextsOf(m), ",</div><div>") + "</div>" + strong + "}" + "</span>"
  }

  /** The separator stands between any two texts and nowhere else. */
  lemma {:induction false} JoinGrows(texts: seq<string>, text: string, separator: string)
    ensures JoinTexts([text], separator) == text
    ensures texts != [] ==> JoinTexts(texts + [text], separator) == JoinTexts(texts, separator) + separator + text
    decreases |texts|
  {
    if texts != [] {
      var more := texts + [text];
      assert more[1..] == texts[1..] + [text] && more[0] == texts[0];
      JoinGrows(texts[1..], text, separator);
      if |texts| > 1 {
        var later := JoinTexts(texts[1..], separator);
        assert texts[0] + separator + (later + separator + text) == texts[0] + separator + later + separator + text;
      }
    }
  }

  // ----- the walk -----

  /** What one call describes, in order, and the ignore map it leaves. */
  datatype Walked = Walked(order: seq<string>, ignored: set<string>)

  function Walk(ms: Models, name: string, ignored: set<string>): (w: Walked)
    requires name in ms && name !in ignored
    ensures ignored + {name} <= w.ignored
    decreases |ms.Keys - ignored|, 0
  {
    Fewer(ms, name, ignored);
    var rest := WalkProperties(ms, ms[name].properties, ignored + {name});
    Walked([name] + rest.order, rest.ignored)
  }

  function WalkProperties(ms: Models, ps: seq<Property>, ignored: set<string>): (w: Walked)
    ensures ignored <= w.ignored
    decreases |ms.Keys - ignored|, 1, |ps|
  {
    if ps == [] then Walked([], ignored)
    else
      var key := Key(ps[0]);
      if key in ms && key !in ignored then
        var first := Walk(ms, key, ignored);
        NoMore(ms, ignored, first.ignored);
        var rest := WalkProperties(ms, ps[1..], first.ignored);
        Walked(first.order + rest.order, rest.ignored)
      else WalkProperties(ms, ps[1..], ignored)
  }

  lemma SmallerSet(a: set<string>, b: set<string>)
    requires a <= b
    ensures |a| <= |b| && (a != b ==> |a| < |b|)
  {
    var rest := b - a;
    assert b == a + rest;
    assert |b| == |a| + |rest|;
  }

  lemma Fewer(ms: Models, name: string, ignored: set<string>)
    requires name in ms && name !in ignored
    ensures |ms.Keys - (ignored + {name})| < |ms.Keys - ignored|
  {
    assert name in ms.Keys - ignored;
    SmallerSet(ms.Keys - (ignored + {name}), ms.Keys - ignored);
  }

  lemma NoMore(ms: Models, a: set<string>, b: set<string>)
    requires a <= b
    ensures |ms.Keys - b| <= |ms.Keys - a|
  {
    SmallerSet(ms.Keys - b, ms.Keys - a);
  }

  // ----- the object form: one ignore map shared by all calls -----

  class IgnoreMap {
    var names: set<string>

    constructor ()
      ensures names == {}
    {
      names := {};
    }
  }

  function DescribeKey(ms: Models, name: string): string {
    if name in ms then Describe(name, ms[name]) else ""
  }

  /** The text of a walk, every description preceded by a line break. */
  function WalkText(ms: Models, order: seq<string>): string {
    if order == [] then "" else "<br>" + DescribeKey(ms, order[0]) + WalkText(ms, order[1..])
  }

  lemma {:induction false} WalkTextConcat(ms: Models, a: seq<string>, b: seq<string>)
    ensures WalkText(ms, a + b) == WalkText(ms, a) + WalkText(ms, b)
    decreases |a|
  {
    if a == [] {
      assert a + b == b;
    } else {
      assert (a + b)[0] == a[0] && (a + b)[1..] == a[1..] + b;
      WalkTextConcat(ms, a[1..], b);
    }
  }

  /** A walk's text goes on with a line break and the model's name and properties in their mark-up. */
  lemma TextShows(ms: Models, name: string, order: seq<string>, texts: seq<string>)
    requires name in ms && |texts| == |ms[name].properties| && forall i :: 0 <= i < |texts| ==> texts[i] == ms[name].properties[i].text
    ensures WalkText(ms, [name] + order) ==
            "<br>" + ("<span class=\"strong\">" + name + " {" + "</span>" + "<div>" + JoinTexts(texts, ",</div><div>") + "</div>" +
                      "<span class=\"strong\">" + "}" + "</span>") + WalkText(ms, order)
    ensures WalkText(ms, []) == ""
  {
    assert texts == TextsOf(ms[name]);
    assert ([name] + order)[1..] == order;
  }

  function After(order: seq<string>, w: Walked): Walked {
    Walked(order + w.order, w.ignored)
  }

  lemma AfterAfter(a: seq<string>, b: seq<string>, w: Walked)
    ensures After(a, After(b, w)) == After(a + b, w)
  {
    assert a + (b + w.order) == a + b + w.order;
  }

  /** The texts of the calls nest the way the orders concatenate. */
  lemma ChildText(ms: Models, done: seq<string>, text: string, order: seq<string>, child: string)
    requires "<br>" + text == WalkText(ms, done) && "<br>" + child == WalkText(ms, order)
    ensures "<br>" + (text + ("<br>" + child)) == WalkText(ms, done + order)
  {
    WalkTextConcat(ms, done, order);
    Regroup("<br>", text, "<br>" + child);
  }

  lemma Regroup(a: string, b: string, c: string)
    ensures a + (b + c) == (a + b) + c
  {
  }

  method GetMockSignature(ms: Models, name: string, modelsToIgnore: IgnoreMap) returns (text: string)
    requires name in ms && name !in modelsToIgnore.names
    modifies modelsToIgnore
    ensures var w := Walk(ms, name, old(modelsToIgnore.names));
            "<br>" + text == WalkText(ms, w.order) && modelsToIgnore.names == w.ignored
    decreases |ms.Keys - modelsToIgnore.names|
  {
    ghost var ignored0 := modelsToIgnore.names;
    Fewer(ms, name, ignored0);
    var properties := ms[name].properties;
    text := Describe(name, ms[name]);
    modelsToIgnore.names := modelsToIgnore.names + {name};
    ghost var done := [name];
    assert [name][1..] == [] && WalkText(ms, []) == "";
    assert WalkText(ms, [name]) == "<br>" + text;
    var i := 0;
    while i < |properties|
      invariant 0 <= i <= |properties|
      invariant ignored0 + {name} <= modelsToIgnore.names
      invariant Walk(ms, name, ignored0) == After(done, WalkProperties(ms, properties[i..], modelsToIgnore.names))
      invariant "<br>" + text == WalkText(ms, done)
    {
      assert properties[i..][1..] == properties[i + 1..];
      var key := Key(properties[i]);
      if key in ms && key !in modelsToIgnore.names {
        ghost var first := Walk(ms, key, modelsToIgnore.names);
        NoMore(ms, ignored0 + {name}, modelsToIgnore.names);
        var child := GetMockSignature(ms, key, modelsToIgnore);
        AfterAfter(done, first.order, WalkProperties(ms, properties[i + 1..], modelsToIgnore.names));
        ChildText(ms, done, text, first.order, child);
        text := text + ("<br>" + child);
        done := done + first.order;
      }
      i := i + 1;
    }
    assert done + [] == done;
  }

  /** The call without an ignore map starts from an empty one. */
  method MockSignature(ms: Models, name: string) returns (text: string)
    requires name in ms
    ensures "<br>" + text == WalkText(ms, Walk(ms, name, {}).order)
  {
    var modelsToIgnore := new IgnoreMap();
    text := GetMockSignature(ms, name, modelsToIgnore);
  }

  // ----- reachability -----

  predicate Edge(ms: Models, a: string, b: string) {
    a in ms && b in ms && exists i :: 0 <= i < |ms[a].properties| && Refers(ms[a].properties[i], b)
  }

  predicate Path(ms: Models, p: seq<string>) {
    p != [] && p[0] in ms && forall i :: 0 <= i < |p| - 1 ==> Edge(ms, p[i], p[i + 1])
  }

  ghost predicate Reachable(ms: Models, a: string, b: string) {
    exists p :: Path(ms, p) && p[0] == a && p[|p| - 1] == b
  }

  lemma ReachStep(ms: Models, a: string, b: string, c: string)
    requires Edge(ms, a, b) && Reachable(ms, b, c)
    ensures Reachable(ms, a, c)
  {
    var p :| Path(ms, p) && p[0] == b && p[|p| - 1] == c;
    var q := [a] + p;
    assert Path(ms, q) && q[0] == a && q[|q| - 1] == c;
  }

  function Elements(s: seq<string>): set<string> {
    set x | x in s
  }

  predicate Distinct(s: seq<string>) {
    forall i, j :: 0 <= i < j < |s| ==> s[i] != s[j]
  }

  /** Every model a property refers to is in `all`. */
  ghost predicate Covered(ms: Models, ps: seq<Property>, all: set<string>) {
    forall i, n :: 0 <= i < |ps| && n in ms && Refers(ps[i], n) ==> n in all
  }

  /** What a walk adds to the ignore map: new, distinct, closed under references. */
  ghost predicate Adds(ms: Models, ignored: set<string>, w: Walked) {
    && Distinct(w.order)
    && Elements(w.order) !! ignored
    && w.ignored == ignored + Elements(w.order)
    && (forall n :: n in w.order ==> n in ms && Covered(ms, ms[n].properties, w.ignored))
  }

  lemma AddsThen(ms: Models, ignored: set<string>, first: Walked, rest: Walked)
    requires Adds(ms, ignored, first) && Adds(ms, first.ignored, rest)
    ensures Adds(ms, ignored, Walked(first.order + rest.order, rest.ignored))
  {
    var order := first.order + rest.order;
    assert Elements(order) == Elements(first.order) + Elements(rest.order);
    forall i, j | 0 <= i < j < |order| ensures order[i] != order[j] {
      if i < |first.order| <= j {
        assert order[i] in Elements(first.order) && order[j] in Elements(rest.order);
      }
    }
  }

  lemma {:induction false} WalkAdds(ms: Models, name: string, ignored: set<string>)
    requires name in ms && name !in ignored
    ensures Adds(ms, ignored, Walk(ms, name, ignored)) && Walk(ms, name, ignored).order[0] == name
    decreases |ms.Keys - ignored|, 0
  {
    Fewer(ms, name, ignored);
    PropertiesAdd(ms, ms[name].properties, ignored + {name});
  }

  lemma {:induction false} PropertiesAdd(ms: Models, ps: seq<Property>, ignored: set<string>)
    ensures Adds(ms, ignored, WalkProperties(ms, ps, ignored)) && Covered(ms, ps, WalkProperties(ms, ps, ignored).ignored)
    decreases |ms.Keys - ignored|, 1, |ps|
  {
    if ps != [] {
      var key := Key(ps[0]);
      if key in ms && key !in ignored {
        var first := Walk(ms, key, ignored);
        WalkAdds(ms, key, ignored);
        NoMore(ms, ignored, first.ignored);
        PropertiesAdd(ms, ps[1..], first.ignored);
        AddsThen(ms, ignored, first, WalkProperties(ms, ps[1..], first.ignored));
      } else {
        PropertiesAdd(ms, ps[1..], ignored);
      }
      CoveredFirst(ms, ps, ps[1..], WalkProperties(ms, ps, ignored).ignored);
    }
  }

  lemma CoveredFirst(ms: Models, ps: seq<Property>, rest: seq<Property>, all: set<string>)
    requires ps != [] && rest == ps[1..] && Covered(ms, rest, all) && (Key(ps[0]) in ms ==> Key(ps[0]) in all)
    ensures Covered(ms, ps, all)
  {
    assert forall i :: 0 < i < |ps| ==> ps[i] == rest[i - 1];
  }

  lemma {:induction false} WalkReaches(ms: Models, name: string, ignored: set<string>)
    requires name in ms && name !in ignored
    ensures forall n :: n in Walk(ms, name, ignored).order ==> Reachable(ms, name, n)
    decreases |ms.Keys - ignored|, 0
  {
    Fewer(ms, name, ignored);
    assert Path(ms, [name]);
    assert Reachable(ms, name, name) by { assert [name][0] == name; }
    PropertiesReach(ms, name, 0, ignored + {name});
  }

  lemma {:induction false} PropertiesReach(ms: Models, name: string, from: nat, ignored: set<string>)
    requires name in ms && from <= |ms[name].properties|
    ensures forall n :: n in WalkProperties(ms, ms[name].properties[from..], ignored).order ==> Reachable(ms, name, n)
    decreases |ms.Keys - ignored|, 1, |ms[name].properties| - from
  {
    var ps := ms[name].properties[from..];
    if ps != [] {
      assert ps[1..] == ms[name].properties[from + 1..];
      var key := Key(ps[0]);
      if key in ms && key !in ignored {
        var first := Walk(ms, key, ignored);
        WalkReaches(ms, key, ignored);
        assert Edge(ms, name, key) by { assert Refers(ms[name].properties[from], key); }
        forall n | n in first.order ensures Reachable(ms, name, n) {
          ReachStep(ms, name, key, n);
        }
        NoMore(ms, ignored, first.ignored);
        PropertiesReach(ms, name, from + 1, first.ignored);
      } else {
        PropertiesReach(ms, name, from + 1, ignored);
      }
    }
  }

  lemma {:induction false} ClosedHolds(ms: Models, all: set<string>, p: seq<string>)
    requires Path(ms, p) && p[0] in all
    requires forall n :: n in all && n in ms ==> Covered(ms, ms[n].properties, all)
    ensures p[|p| - 1] in all
    decreases |p|
  {
    if |p| > 1 {
      assert Edge(ms, p[0], p[0 + 1]);
      var tail := p[1..];
      assert forall i :: 0 <= i < |tail| - 1 ==> tail[i] == p[i + 1] && Edge(ms, p[i + 1], p[i + 1 + 1]);
      ClosedHolds(ms, all, tail);
    }
  }

  /** On any models, cyclic or not, the walk describes exactly the models reachable from the root, each exactly once. */
  lemma WalkIsReachability(ms: Models, root: string)
    requires root in ms
    ensures var order := Walk(ms, root, {}).order;
            && Distinct(order) && order[0] == root
            && forall n :: n in order <==> Reachable(ms, root, n)
  {
    WalkAdds(ms, root, {});
    WalkReaches(ms, root, {});
    var w := Walk(ms, root, {});
    forall n | Reachable(ms, root, n) ensures n in w.order {
      var p :| Path(ms, p) && p[0] == root && p[|p| - 1] == n;
      ClosedHolds(ms, w.ignored, p);
    }
  }
}
