/** BpsPackage: uploads and deletes take a package name for the time they run. */
module PackageLock {
  import opened Wrappers

  const ERROR_CODE_RUNTIME_EXCEPTION: int := 20001
  const ERROR_CODE_RUNTIME_EXCEPTION_AXIS: int := 20002
  const ERROR_CODE_RUNTIME_EXCEPTION_IO: int := 20003

  datatype Request = Upload(fileName: string) | Delete(packageName: string)

  /** An upload of a `.zip` file works on the same name as a delete of the package in it. */
  predicate For(q: Request, name: string) {
    q == Delete(name) || q == Upload(name + ".zip")
  }

  /** The name a request works on; an upload that is no `.zip` file never gets one. */
  function NameOf(q: Request): (name: Option<string>)
    ensures name.Some? ==> For(q, name.value)
    ensures forall n :: For(q, n) ==> name == Some(n)
  {
    match q
    case Delete(name) => Some(name)
    case Upload(file) =>
      if |file| >= 4 && file[|file| - 4..] == ".zip" then Some(file[..|file| - 4]) else None
  }

  /** How deploying or undeploying went, once the name was taken. */
  datatype Work = Finished | AxisFault | IoFailure | ServiceFailure(code: int) | OtherFailure

  datatype Response = Success | Failure(errorCode: int)

  /** Only an upload tells input and output failures from others. */
  function Answer(q: Request, work: Work): Response {
    match work
    case Finished => Success
    case AxisFault => Failure(ERROR_CODE_RUNTIME_EXCEPTION_AXIS)
    case IoFailure => Failure(if q.Upload? then ERROR_CODE_RUNTIME_EXCEPTION_IO else ERROR_CODE_RUNTIME_EXCEPTION)
    case ServiceFailure(code) => Failure(code)
    case OtherFailure => Failure(ERROR_CODE_RUNTIME_EXCEPTION)
  }

  class BpsPackage {
    var packageNameSet: set<string>

    constructor ()
      ensures packageNameSet == {}
    {
      packageNameSet := {};
    }

    method LockPackageName(name: string) returns (succeed: bool)
      modifies this
      ensures succeed == (name !in old(packageNameSet))
      ensures packageNameSet == old(packageNameSet) + {name}
    {
      succeed := false;
      if name !in packageNameSet {
        packageNameSet := packageNameSet + {name};
        succeed := true;
      }
    }

    method UnlockPackageName(name: string) returns (succeed: bool)
      modifies this
      ensures succeed == (name in old(packageNameSet))
      ensures packageNameSet == old(packageNameSet) - {name}
    {
      succeed := false;
      if name in packageNameSet {
        packageNameSet := packageNameSet - {name};
        succeed := true;
      }
    }

    /** What a request does before its work: true when it may go on. */
    method Begin(q: Request) returns (phase: Phase)
      modifies this
      ensures (packageNameSet, phase) == Entered(old(packageNameSet), NameOf(q))
    {
      var name := NameOf(q);
      if name.None? {
        return Refused;
      }
      var locked := LockPackageName(name.value);
      assert !locked ==> old(packageNameSet) + {name.value} == old(packageNameSet);
      return if locked then Holding else Refused;
    }

    /** The `finally` block: it does not ask whether the lock was taken. */
    method Finally(q: Request)
      modifies this
      ensures packageNameSet == Left(old(packageNameSet), NameOf(q))
    {
      var name := NameOf(q);
      if name.Some? {
        var _ := UnlockPackageName(name.value);
      }
    }

    /** A request that nothing interrupts: refused without a name that is free, or answered as its work went. Both refusals answer
        the general error code, 20001: the specific one is overwritten. */
    method Handle(q: Request, work: Work) returns (r: Response)
      modifies this
      ensures forall name :: name in packageNameSet <==> name in old(packageNameSet) && !For(q, name)
      ensures (forall name :: For(q, name) ==> name in old(packageNameSet)) ==> r == Failure(20001)
      ensures forall name :: For(q, name) && name !in old(packageNameSet) ==>
                r == match work
                  case Finished => Success
                  case AxisFault => Failure(20002)
                  case IoFailure => if q.Upload? then Failure(20003) else Failure(20001)
                  case ServiceFailure(code) => Failure(code)
                  case OtherFailure => Failure(20001)
    {
      var phase := Begin(q);
      r := if phase == Holding then Answer(q, work) else Failure(ERROR_CODE_RUNTIME_EXCEPTION);
      Finally(q);
    }
  }

  // ----- requests in any interleaving -----

  datatype Phase = Waiting | Holding | Refused | Done

  function Entered(names: set<string>, name: Option<string>): (set<string>, Phase) {
    if name.None? then (names, Refused)
    else if name.value in names then (names, Refused)
    else (names + {name.value}, Holding)
  }

  function Left(names: set<string>, name: Option<string>): set<string> {
    if name.Some? then names - {name.value} else names
  }

  datatype State = State(names: set<string>, phases: seq<Phase>)

  /** Each synchronized block is one step. */
  datatype Move = Enter(i: nat) | Leave(i: nat)

  predicate Enabled(s: State, m: Move) {
    m.i < |s.phases| && (if m.Enter? then s.phases[m.i] == Waiting else s.phases[m.i] in {Holding, Refused})
  }

  /** With `ownerOnly`, a request that was refused releases nothing; the source has it false. */
  function Step(ownerOnly: bool, plan: seq<Request>, s: State, m: Move): (r: State)
    requires Enabled(s, m) && |s.phases| == |plan|
    ensures |r.phases| == |plan|
  {
    var name := NameOf(plan[m.i]);
    match m
    case Enter(i) =>
      var (names, phase) := Entered(s.names, name);
      State(names, s.phases[i := phase])
    case Leave(i) =>
      State(if ownerOnly && s.phases[i] == Refused then s.names else Left(s.names, name), s.phases[i := Done])
  }

  function Start(plan: seq<Request>): State {
    State({}, seq(|plan|, i => Waiting))
  }

  /** The state after a run, or None when some move could not be made. */
  function Run(ownerOnly: bool, plan: seq<Request>, ms: seq<Move>): (r: Option<State>)
    ensures r.Some? ==> |r.value.phases| == |plan|
  {
    if ms == [] then Some(Start(plan))
    else
      var before := Run(ownerOnly, plan, ms[..|ms| - 1]);
      if before.None? || !Enabled(before.value, ms[|ms| - 1]) then None
      else Some(Step(ownerOnly, plan, before.value, ms[|ms| - 1]))
  }

  predicate Owns(plan: seq<Request>, s: State, i: nat, name: string) {
    i < |plan| == |s.phases| && s.phases[i] == Holding && For(plan[i], name)
  }

  ghost predicate OneOwner(plan: seq<Request>, s: State) {
    forall i: nat, j: nat, name :: Owns(plan, s, i, name) && Owns(plan, s, j, name) ==> i == j
  }

  /** A name is in the set exactly while one request owns it, and at most one does. */
  ghost predicate Exact(plan: seq<Request>, s: State) {
    && OneOwner(plan, s)
    && (forall i: nat, name :: Owns(plan, s, i, name) ==> name in s.names)
    && (forall name :: name in s.names ==> exists i: nat :: Owns(plan, s, i, name))
  }

  /** A refused request is about to release a name that is taken. */
  ghost predicate Steals(plan: seq<Request>, s: State, m: Move) {
    m.Leave? && m.i < |plan| == |s.phases| && s.phases[m.i] == Refused && exists name :: For(plan[m.i], name) && name in s.names
  }

  lemma EnterExact(ownerOnly: bool, plan: seq<Request>, s: State, i: nat)
    requires |s.phases| == |plan| && Enabled(s, Enter(i)) && Exact(plan, s)
    ensures Exact(plan, Step(ownerOnly, plan, s, Enter(i)))
  {
    var t := Step(ownerOnly, plan, s, Enter(i));
    forall j: nat, name | Owns(plan, t, j, name) && j != i ensures Owns(plan, s, j, name) {}
    forall name | name in t.names ensures exists j: nat :: Owns(plan, t, j, name) {
      if name in s.names {
        var j: nat :| Owns(plan, s, j, name);
        assert Owns(plan, t, j, name);
      } else {
        assert Owns(plan, t, i, name);
      }
    }
  }

  lemma LeaveExact(ownerOnly: bool, plan: seq<Request>, s: State, i: nat)
    requires |s.phases| == |plan| && Enabled(s, Leave(i)) && Exact(plan, s)
    requires ownerOnly || !Steals(plan, s, Leave(i))
    ensures Exact(plan, Step(ownerOnly, plan, s, Leave(i)))
  {
    var t := Step(ownerOnly, plan, s, Leave(i));
    forall j: nat, name | Owns(plan, t, j, name) ensures Owns(plan, s, j, name) && name in t.names {
      assert Owns(plan, s, j, name) && i != j;
      if NameOf(plan[i]) == Some(name) && s.phases[i] == Holding {
        assert Owns(plan, s, i, name);
      }
    }
    forall name | name in t.names ensures exists j: nat :: Owns(plan, t, j, name) {
      var j: nat :| Owns(plan, s, j, name);
      assert j != i;
      assert Owns(plan, t, j, name);
    }
  }

  /** If only the owner releases, the set is exact after every run. */
  lemma {:induction false} OwnerOnlyIsExact(plan: seq<Request>, ms: seq<Move>)
    requires Run(true, plan, ms).Some?
    ensures Exact(plan, Run(true, plan, ms).value)
  {
    if ms == [] {
    } else {
      var before, m := ms[..|ms| - 1], ms[|ms| - 1];
      OwnerOnlyIsExact(plan, before);
      var s := Run(true, plan, before).value;
      if m.Enter? {
        EnterExact(true, plan, s, m.i);
      } else {
        LeaveExact(true, plan, s, m.i);
      }
    }
  }

  /** Exact after the run and after each shorter one. */
  ghost predicate AlwaysExact(plan: seq<Request>, ms: seq<Move>)
    requires Run(false, plan, ms).Some?
  {
    Exact(plan, Run(false, plan, ms).value) && (ms == [] || AlwaysExact(plan, ms[..|ms| - 1]))
  }

  ghost predicate NeverSteals(plan: seq<Request>, ms: seq<Move>)
    requires Run(false, plan, ms).Some?
  {
    ms == [] ||
    (NeverSteals(plan, ms[..|ms| - 1]) && !Steals(plan, Run(false, plan, ms[..|ms| - 1]).value, ms[|ms| - 1]))
  }

  lemma StealingBreaks(plan: seq<Request>, s: State, m: Move)
    requires |s.phases| == |plan| && Enabled(s, m) && Exact(plan, s) && Steals(plan, s, m)
    ensures !Exact(plan, Step(false, plan, s, m))
  {
    var name := NameOf(plan[m.i]).value;
    var owner: nat :| Owns(plan, s, owner, name);
    assert Owns(plan, Step(false, plan, s, m), owner, name);
  }

  /** As written: the set stays exact all along exactly when no refused request releases a taken name. */
  lemma {:induction false} ExactWhenNobodySteals(plan: seq<Request>, ms: seq<Move>)
    requires Run(false, plan, ms).Some?
    ensures AlwaysExact(plan, ms) <==> NeverSteals(plan, ms)
  {
    if ms == [] {
    } else {
      var before, m := ms[..|ms| - 1], ms[|ms| - 1];
      ExactWhenNobodySteals(plan, before);
      if AlwaysExact(plan, before) {
        var s := Run(false, plan, before).value;
        if Steals(plan, s, m) {
          StealingBreaks(plan, s, m);
        } else if m.Enter? {
          EnterExact(false, plan, s, m.i);
        } else {
          LeaveExact(false, plan, s, m.i);
        }
      }
    }
  }

  // ----- when mutual exclusion survives the unconditional release -----

  ghost predicate Same(plan: seq<Request>, i: nat, j: nat) {
    i < |plan| && j < |plan| && exists name :: For(plan[i], name) && For(plan[j], name)
  }

  ghost predicate ThreeAlike(plan: seq<Request>) {
    exists i: nat, j: nat, k: nat :: i != j && j != k && i != k && Same(plan, i, j) && Same(plan, i, k)
  }

  ghost predicate Released(plan: seq<Request>, s: State, i: nat) {
    exists k: nat :: k != i && k < |s.phases| && s.phases[k] == Done && Same(plan, i, k)
  }

  /** An owner's name is only missing once another request for it is done. */
  ghost predicate Guarded(plan: seq<Request>, s: State) {
    forall i: nat, name :: Owns(plan, s, i, name) ==> name in s.names || Released(plan, s, i)
  }

  lemma StepGuarded(plan: seq<Request>, s: State, m: Move)
    requires |s.phases| == |plan| && Enabled(s, m) && Guarded(plan, s)
    ensures Guarded(plan, Step(false, plan, s, m))
  {
    var t := Step(false, plan, s, m);
    forall i: nat, name | Owns(plan, t, i, name) && name !in t.names ensures Released(plan, t, i) {
      assert i != m.i || m.Enter?;
      if i != m.i {
        assert Owns(plan, s, i, name);
        if name in s.names {
          assert m.Leave? && t.phases[m.i] == Done && Same(plan, i, m.i);
        } else {
          var k: nat :| k != i && k < |s.phases| && s.phases[k] == Done && Same(plan, i, k);
          assert t.phases[k] == Done;
        }
      }
    }
  }

  lemma StepOneOwner(plan: seq<Request>, s: State, m: Move)
    requires |s.phases| == |plan| && Enabled(s, m) && Guarded(plan, s) && OneOwner(plan, s) && !ThreeAlike(plan)
    ensures OneOwner(plan, Step(false, plan, s, m))
  {
    var t := Step(false, plan, s, m);
    forall i: nat, j: nat, name | Owns(plan, t, i, name) && Owns(plan, t, j, name) ensures i == j {
      if i != j {
        if i == m.i {
          NotBoth(plan, s, m, j, name);
        } else if j == m.i {
          NotBoth(plan, s, m, i, name);
        } else {
          assert Owns(plan, s, i, name) && Owns(plan, s, j, name);
        }
      }
    }
  }

  /** A request that just got a name did not find another owner of it. */
  lemma NotBoth(plan: seq<Request>, s: State, m: Move, j: nat, name: string)
    requires |s.phases| == |plan| && Enabled(s, m) && Guarded(plan, s) && !ThreeAlike(plan)
    requires j != m.i && Owns(plan, Step(false, plan, s, m), m.i, name)
    ensures !Owns(plan, s, j, name)
  {
    if Owns(plan, s, j, name) {
      assert m.Enter? && name !in s.names;
      var k: nat :| k != j && k < |s.phases| && s.phases[k] == Done && Same(plan, j, k);
      assert k != m.i && Same(plan, j, m.i);
    }
  }

  lemma {:induction false} TwoAlikeAreSafe(plan: seq<Request>, ms: seq<Move>)
    requires !ThreeAlike(plan) && Run(false, plan, ms).Some?
    ensures var s := Run(false, plan, ms).value; Guarded(plan, s) && OneOwner(plan, s)
  {
    if ms != [] {
      var before, m := ms[..|ms| - 1], ms[|ms| - 1];
      TwoAlikeAreSafe(plan, before);
      StepGuarded(plan, Run(false, plan, before).value, m);
      StepOneOwner(plan, Run(false, plan, before).value, m);
    }
  }

  /** The first request owns the name, the second is refused and frees it, the third takes it too. */
  lemma StolenLock(plan: seq<Request>, i: nat, j: nat, k: nat)
    requires i != j && j != k && i != k && Same(plan, i, j) && Same(plan, i, k)
    ensures var r := Run(false, plan, [Enter(i), Enter(j), Leave(j), Enter(k)]);
            r.Some? && !OneOwner(plan, r.value)
  {
    var ms := [Enter(i), Enter(j), Leave(j), Enter(k)];
    var name := NameOf(plan[i]).value;
    assert ms[..3] == [Enter(i), Enter(j), Leave(j)] && ms[..3][..2] == [Enter(i), Enter(j)];
    assert ms[..3][..2][..1] == [Enter(i)] && [Enter(i)][..0] == [];
    var s0 := Start(plan);
    var s1 := Step(false, plan, s0, Enter(i));
    assert Run(false, plan, [Enter(i)]) == Some(s1) && s1.names == {name};
    var s2 := Step(false, plan, s1, Enter(j));
    assert Run(false, plan, ms[..3][..2]) == Some(s2) && s2.phases[j] == Refused;
    var s3 := Step(false, plan, s2, Leave(j));
    assert Run(false, plan, ms[..3]) == Some(s3) && s3.names == {};
    var s4 := Step(false, plan, s3, Enter(k));
    assert Run(false, plan, ms) == Some(s4);
    assert Owns(plan, s4, i, name) && Owns(plan, s4, k, name);
  }

  /** As written, every run keeps at most one owner for each name exactly when no name is asked for three times. */
  lemma ExclusionExactly(plan: seq<Request>)
    ensures (forall ms :: Run(false, plan, ms).Some? ==> OneOwner(plan, Run(false, plan, ms).value)) <==> !ThreeAlike(plan)
  {
    if ThreeAlike(plan) {
      var i: nat, j: nat, k: nat :| i != j && j != k && i != k && Same(plan, i, j) && Same(plan, i, k);
      StolenLock(plan, i, j, k);
    } else {
      forall ms | Run(false, plan, ms).Some? ensures OneOwner(plan, Run(false, plan, ms).value) {
        TwoAlikeAreSafe(plan, ms);
      }
    }
  }

  // ----- when the set itself survives it -----

  ghost predicate TwoAlike(plan: seq<Request>) {
    exists i: nat, j: nat :: i != j && Same(plan, i, j)
  }

  lemma {:induction false} DistinctNamesExact(plan: seq<Request>, ms: seq<Move>)
    requires !TwoAlike(plan) && Run(false, plan, ms).Some?
    ensures Exact(plan, Run(false, plan, ms).value)
  {
    if ms != [] {
      var before, m := ms[..|ms| - 1], ms[|ms| - 1];
      DistinctNamesExact(plan, before);
      var s := Run(false, plan, before).value;
      if m.Enter? {
        EnterExact(false, plan, s, m.i);
      } else {
        if Steals(plan, s, m) {
          var owner: nat :| Owns(plan, s, owner, NameOf(plan[m.i]).value);
          assert Same(plan, owner, m.i);
          assert false;
        }
        LeaveExact(false, plan, s, m.i);
      }
    }
  }

  /** The first request owns the name, and the second, refused, frees it. */
  lemma FreedLock(plan: seq<Request>, i: nat, j: nat)
    requires i != j && Same(plan, i, j)
    ensures var r := Run(false, plan, [Enter(i), Enter(j), Leave(j)]); r.Some? && !Exact(plan, r.value)
  {
    var ms := [Enter(i), Enter(j), Leave(j)];
    var name := NameOf(plan[i]).value;
    assert ms[..2] == [Enter(i), Enter(j)] && ms[..2][..1] == [Enter(i)] && [Enter(i)][..0] == [];
    var s1 := Step(false, plan, Start(plan), Enter(i));
    assert Run(false, plan, [Enter(i)]) == Some(s1) && s1.names == {name};
    var s2 := Step(false, plan, s1, Enter(j));
    assert Run(false, plan, ms[..2]) == Some(s2) && s2.phases[j] == Refused;
    var s3 := Step(false, plan, s2, Leave(j));
    assert Run(false, plan, ms) == Some(s3) && s3.names == {};
    assert Owns(plan, s3, i, name);
  }

  /** As written, every run keeps the set exact exactly when no two requests ask for the same name. */
  lemma SetExactly(plan: seq<Request>)
    ensures (forall ms :: Run(false, plan, ms).Some? ==> Exact(plan, Run(false, plan, ms).value)) <==> !TwoAlike(plan)
  {
    if TwoAlike(plan) {
      var i: nat, j: nat :| i != j && Same(plan, i, j);
      FreedLock(plan, i, j);
    } else {
      forall ms | Run(false, plan, ms).Some? ensures Exact(plan, Run(false, plan, ms).value) {
        DistinctNamesExact(plan, ms);
      }
    }
  }
}
