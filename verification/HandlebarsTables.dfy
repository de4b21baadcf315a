/** `compileChildren` on the object: the tables of programs and environments that all compilers of a template share. */
module HandlebarsTables {
  import opened Wrappers
  import opened HandlebarsCodegen
  import opened HandlebarsExecution
  import opened HandlebarsSharing
  import opened HandlebarsMachine

  // ----- a program never equals one that it holds -----

  function Weight(e: Environment): (w: nat)
    ensures w > 0
    decreases e
  {
    1 + WeightAll(e.children)
  }

  function WeightAll(es: seq<Environment>): nat
    decreases es
  {
    if es == [] then 0 else Weight(es[0]) + WeightAll(es[1..])
  }

  lemma {:induction false} SameWeight(a: Environment, b: Environment)
    requires SameCode(a, b)
    ensures Weight(a) == Weight(b)
    decreases a
  {
    SameWeights(a.children, b.children);
  }

  lemma {:induction false} SameWeights(a: seq<Environment>, b: seq<Environment>)
    requires |a| == |b| && forall i :: 0 <= i < |a| ==> SameCode(a[i], b[i])
    ensures WeightAll(a) == WeightAll(b)
    decreases a
  {
    if a != [] {
      SameWeight(a[0], b[0]);
      SameWeights(a[1..], b[1..]);
    }
  }

  /** The rows after are the rows before and others that weigh at most `w`. */
  predicate Grown(before: seq<Row>, after: seq<Row>, w: nat) {
    forall r :: r in after ==> r in before || Weight(r.env) <= w
  }

  lemma {:induction false} ShareGrows(env: Environment, rows: seq<Row>)
    requires Share(env, rows).Ok?
    ensures Grown(rows, Share(env, rows).value.rows, WeightAll(env.children))
    decreases env
  {
    ShareAllGrows(env.children, rows);
  }

  lemma {:induction false} ShareAllGrows(envs: seq<Environment>, rows: seq<Row>)
    requires ShareAll(envs, rows).Ok?
    ensures Grown(rows, ShareAll(envs, rows).value.rows, WeightAll(envs))
    decreases envs
  {
    if envs != [] {
      if Match(Envs(rows), envs[0]).Some? {
        ShareAllGrows(envs[1..], rows);
      } else {
        ShareGrows(envs[0], rows);
        var first := Share(envs[0], rows).value;
        ShareAllGrows(envs[1..], first.rows + [Row(envs[0], first.compiled)]);
      }
    }
  }

  // ----- comparing -----

  /** `equals`: first the opcodes one by one, then the children. */
  method EqualPrograms(a: Environment, b: Environment) returns (same: Option<bool>)
    ensures same == Equals(a, b)
    decreases a
  {
    var n := |a.opcodes|;
    if |b.opcodes| != n {
      return Some(false);
    }
    var c := 0;
    while c < n
      invariant 0 <= c <= n && a.opcodes[..c] == b.opcodes[..c]
    {
      if a.opcodes[c] != b.opcodes[c] {
        return Some(false);
      }
      c := c + 1;
    }
    c := 0;
    while c < |a.children|
      invariant 0 <= c <= |a.children| && Equals(a, b) == EqualsFrom(a.children, b.children, c)
    {
      if c >= |b.children| {
        return None;
      }
      var one :- EqualPrograms(a.children[c], b.children[c]);
      if !one {
        return Some(false);
      }
      c := c + 1;
    }
    return Some(true);
  }

  // ----- the tables -----

  /** Assignment at an index of an array that may have holes. */
  function Put<T>(s: seq<Option<T>>, index: nat, v: T): (r: seq<Option<T>>)
    ensures |r| == if index < |s| then |s| else index + 1
    ensures r[index] == Some(v)
    ensures forall i :: 0 <= i < |r| && i != index ==> r[i] == if i < |s| then s[i] else None
  {
    if index < |s| then s[index := Some(v)] else s + seq(index - |s|, _ => None) + [Some(v)]
  }

  /** No two rows hold equal programs. */
  ghost predicate Distinct(rows: seq<Row>) {
    forall i, j :: 0 <= i < j < |rows| ==> !SameCode(rows[i].env, rows[j].env)
  }

  lemma OnlyOne(rows: seq<Row>, k: nat, h: nat, child: Environment)
    requires Distinct(rows) && k < |rows| && h < |rows| && SameCode(rows[k].env, child) && SameCode(rows[h].env, child)
    ensures k == h
  {
    SameCodeSymmetric(rows[k].env, child);
    SameCodeSymmetric(rows[h].env, child);
    SameCodeTransitive(rows[k].env, child, rows[h].env);
    SameCodeTransitive(rows[h].env, child, rows[k].env);
  }

  type Programs = seq<Option<Compiled>>

  type Environments = seq<Option<Environment>>

  predicate Holds(ps: Programs, es: Environments, i: nat, row: Row) {
    i < |es| && i < |ps| && es[i] == Some(row.env) && ps[i] == Some(row.compiled)
  }

  /** The tables hold the rows, row k at index `at[k]`, and nothing else. */
  ghost predicate Consistent(ps: Programs, es: Environments, rows: seq<Row>, at: seq<nat>) {
    && |at| == |rows|
    && (forall k :: 0 <= k < |rows| ==> Holds(ps, es, at[k], rows[k]))
    && (forall i: nat :: i < |es| && es[i].Some? ==> i in at)
    && Distinct(rows)
  }

  lemma ReserveKeeps(ps: Programs, es: Environments, rows: seq<Row>, at: seq<nat>)
    requires Consistent(ps, es, rows, at)
    ensures Consistent(ps + [None], es, rows, at)
  {
    forall k | 0 <= k < |rows| ensures Holds(ps + [None], es, at[k], rows[k]) {
      assert Holds(ps, es, at[k], rows[k]);
    }
  }

  lemma MatchIsIt(ps: Programs, es: Environments, rows: seq<Row>, at: seq<nat>, i: nat, child: Environment)
    requires Consistent(ps, es, rows, at) && i < |es| && es[i].Some? && SameCode(es[i].value, child)
    ensures var h := Match(Envs(rows), child); h.Some? && at[h.value] == i && Holds(ps, es, i, rows[h.value])
  {
    var k :| 0 <= k < |at| && at[k] == i;
    assert Holds(ps, es, at[k], rows[k]);
    assert SameCode(Envs(rows)[k], child);
    OnlyOne(rows, k, Match(Envs(rows), child).value, child);
  }

  lemma NoMatchIsNone(ps: Programs, es: Environments, rows: seq<Row>, at: seq<nat>, child: Environment)
    requires Consistent(ps, es, rows, at) && forall i: nat :: i < |es| && es[i].Some? ==> !SameCode(es[i].value, child)
    ensures Match(Envs(rows), child).None?
  {
    forall k | 0 <= k < |rows| ensures !SameCode(Envs(rows)[k], child) {
      assert Holds(ps, es, at[k], rows[k]);
    }
  }

  lemma DistinctAdd(rows: seq<Row>, row: Row)
    requires Distinct(rows) && forall k :: 0 <= k < |rows| ==> !SameCode(rows[k].env, row.env)
    ensures Distinct(rows + [row])
  {
  }

  lemma AddKeeps(ps: Programs, es: Environments, rows: seq<Row>, at: seq<nat>, index: nat, row: Row)
    requires Consistent(ps, es, rows, at) && index !in at && forall k :: 0 <= k < |rows| ==> !SameCode(rows[k].env, row.env)
    ensures Consistent(Put(ps, index, row.compiled), Put(es, index, row.env), rows + [row], at + [index])
  {
    DistinctAdd(rows, row);
    var ps1, es1 := Put(ps, index, row.compiled), Put(es, index, row.env);
    forall k | 0 <= k < |rows + [row]| ensures Holds(ps1, es1, (at + [index])[k], (rows + [row])[k]) {
      if k < |rows| {
        assert Holds(ps, es, at[k], rows[k]) && at[k] in at;
      }
    }
    forall i: nat | i < |es1| && es1[i].Some? ensures i in at + [index] {
      if i != index {
        assert i < |es| && es[i].Some?;
      }
    }
  }

  /** What was distinct from all rows before stays so while programs that it holds are added. */
  lemma StillNew(before: seq<Row>, after: seq<Row>, env: Environment)
    requires Match(Envs(before), env).None? && Grown(before, after, WeightAll(env.children))
    ensures forall k :: 0 <= k < |after| ==> !SameCode(after[k].env, env)
  {
    forall k | 0 <= k < |after| ensures !SameCode(after[k].env, env) {
      assert after[k] in after;
      if after[k] in before {
        var j :| 0 <= j < |before| && before[j] == after[k];
        assert !SameCode(Envs(before)[j], env);
      } else if SameCode(after[k].env, env) {
        SameWeight(after[k].env, env);
        assert false;
      }
    }
  }

  /** `context`: shared by the compilers of a template and all its children. */
  class Context {
    var programs: Programs
    var environments: Environments
    ghost var rows: seq<Row>   // what the tables hold, in the order in which it was completed
    ghost var at: seq<nat>

    ghost predicate Valid()
      reads this
    {
      Consistent(programs, environments, rows, at)
    }

    constructor ()
      ensures Valid() && rows == []
    {
      programs, environments, rows, at := [], [], [], [];
    }

    /** The search in index order finds the one row that equals `child`, in whatever order the rows were completed. */
    method MatchExistingProgram(child: Environment) returns (found: Option<nat>)
      requires Valid()
      ensures var h := Match(Envs(rows), child);
              && (found.Some? <==> h.Some?)
              && (found.Some? ==> Holds(programs, environments, found.value, rows[h.value]))
    {
      var b := 0;
      while b < |environments|
        invariant 0 <= b <= |environments|
        invariant forall i: nat :: i < b && environments[i].Some? ==> !SameCode(environments[i].value, child)
      {
        if environments[b].Some? && SameCode(environments[b].value, child) {
          MatchIsIt(programs, environments, rows, at, b, child);
          return Some(b);
        }
        b := b + 1;
      }
      NoMatchIsNone(programs, environments, rows, at, child);
      return None;
    }

    /** Keeps a slot free for a program whose children are compiled before it is stored. */
    method Reserve() returns (index: nat)
      requires Valid()
      modifies `programs
      ensures Valid() && index == |programs| == |old(programs)| + 1 && index !in at
    {
      ReserveKeeps(programs, environments, rows, at);
      programs := programs + [None];
      index := |programs|;
      assert forall k :: 0 <= k < |at| ==> Holds(programs, environments, at[k], rows[k]);
    }

    method Store(index: nat, f: Compiled, env: Environment)
      requires Valid() && index !in at && forall k :: 0 <= k < |rows| ==> !SameCode(rows[k].env, env)
      modifies this
      ensures Valid() && rows == old(rows) + [Row(env, f)] && at == old(at) + [index] && |programs| >= |old(programs)|
    {
      AddKeeps(programs, environments, rows, at, index, Row(env, f));
      programs := Put(programs, index, f);
      environments := Put(environments, index, env);
      rows, at := rows + [Row(env, f)], at + [index];
    }
  }

  /** Every slot taken since then lies beyond `from`. */
  ghost predicate Beyond(before: seq<nat>, after: seq<nat>, from: nat) {
    forall i :: i in after ==> i in before || i > from
  }

  /** `compile` with the shared tables: a child found again is not compiled, and does not pass its `useDepths` on. */
  method CompileShared(context: Context, env: Environment) returns (r: Result<(Compiled, bool), Failure>)
    requires context.Valid()
    modifies context
    ensures var s := Share(env, old(context.rows));
            if r.Err? then s == Err(r.error)
            else s == Ok(Built(r.value.0, r.value.1, context.rows))
    ensures r.Ok? ==> context.Valid() && |context.programs| >= |old(context.programs)| && Beyond(old(context.at), context.at, |old(context.programs)|)
    decreases env, 1
  {
    var all :- CompileChildren(context, env);
    var useDepths := all.1 || env.depths != {};
    var compiler := new JavaScriptCompiler(useDepths);
    var code :- compiler.Compile(env.opcodes);
    return Ok((Compiled(code, all.0, env.isSimple), useDepths));
  }

  method CompileChild(context: Context, child: Environment) returns (r: Result<(Compiled, bool), Failure>)
    requires context.Valid()
    modifies context
    ensures var s := ShareChild(child, old(context.rows));
            if r.Err? then s == Err(r.error)
            else s == Ok(Built(r.value.0, r.value.1, context.rows))
    ensures r.Ok? ==> context.Valid() && |context.programs| >= |old(context.programs)| && Beyond(old(context.at), context.at, |old(context.programs)|)
    decreases child, 2
  {
    var found := context.MatchExistingProgram(child);
    if found.Some? {
      return Ok((context.programs[found.value].value, false));
    }
    ghost var before := context.rows;
    var index := context.Reserve();
    var first :- CompileShared(context, child);
    ShareGrows(child, before);
    StillNew(before, context.rows, child);
    context.Store(index, first.0, child);
    return Ok(first);
  }

  /** The whole list is what was compiled so far, then the rest. */
  ghost predicate Continues(whole: Result<BuiltAll, Failure>, kids: seq<Compiled>, useDepths: bool, rest: Result<BuiltAll, Failure>) {
    whole == if rest.Err? then rest else Ok(BuiltAll(kids + rest.value.kids, useDepths || rest.value.useDepths, rest.value.rows))
  }

  lemma ContinuesOn(whole: Result<BuiltAll, Failure>, kids: seq<Compiled>, useDepths: bool, f: Compiled, uses: bool, rest: Result<BuiltAll, Failure>)
    requires Continues(whole, kids, useDepths, Prepend(f, uses, rest))
    ensures Continues(whole, kids + [f], useDepths || uses, rest)
  {
    if rest.Ok? {
      assert kids + ([f] + rest.value.kids) == (kids + [f]) + rest.value.kids;
    }
  }

  /** One child more, or its failure. */
  lemma OneMore(whole: Result<BuiltAll, Failure>, kids: seq<Compiled>, useDepths: bool, envs: seq<Environment>, rows: seq<Row>)
    requires envs != [] && Continues(whole, kids, useDepths, ShareAll(envs, rows))
    ensures match ShareChild(envs[0], rows)
            case Err(e) => whole == Err(e)
            case Ok(one) => Continues(whole, kids + [one.compiled], useDepths || one.useDepths, ShareAll(envs[1..], one.rows))
  {
    ShareAllSteps(envs, rows);
    var one := ShareChild(envs[0], rows);
    if one.Ok? {
      ContinuesOn(whole, kids, useDepths, one.value.compiled, one.value.useDepths, ShareAll(envs[1..], one.value.rows));
    }
  }

  method CompileChildren(context: Context, env: Environment) returns (r: Result<(seq<Compiled>, bool), Failure>)
    requires context.Valid()
    modifies context
    ensures var s := ShareAll(env.children, old(context.rows));
            if r.Err? then s == Err(r.error)
            else s == Ok(BuiltAll(r.value.0, r.value.1, context.rows))
    ensures r.Ok? ==> context.Valid() && |context.programs| >= |old(context.programs)| && Beyond(old(context.at), context.at, |old(context.programs)|)
    decreases env, 0
  {
    var kids, useDepths, i := [], false, 0;
    ghost var whole := ShareAll(env.children, context.rows);
    assert env.children[0..] == env.children;
    assert whole.Ok? ==> kids + whole.value.kids == whole.value.kids;
    while i < |env.children|
      invariant 0 <= i <= |env.children| && context.Valid()
      invariant |context.programs| >= |old(context.programs)| && Beyond(old(context.at), context.at, |old(context.programs)|)
      invariant Continues(whole, kids, useDepths, ShareAll(env.children[i..], context.rows))
    {
      OneMore(whole, kids, useDepths, env.children[i..], context.rows);
      assert env.children[i..][1..] == env.children[i + 1..];
      var one :- CompileChild(context, env.children[i]);
      kids, useDepths, i := kids + [one.0], useDepths || one.1, i + 1;
    }
    assert kids + [] == kids;
    return Ok((kids, useDepths));
  }

  /** `compile` of a template: new tables, and what sharing gives. */
  method CompileTemplate(env: Environment) returns (r: Result<(Compiled, bool), Failure>)
    ensures var s := Share(env, []);
            if r.Err? then s == Err(r.error)
            else s.Ok? && s.value.compiled == r.value.0 && s.value.useDepths == r.value.1
  {
    var context := new Context();
    r := CompileShared(context, env);
  }
}
