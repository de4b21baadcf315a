/** SoapUtil's WSDL cache: an LRU map over a loader that may answer differently each time. */
module WsdlCache {
  import opened Wrappers
  import opened LruCache

  /** The operations of one interface, by name. */
  type Interface = map<string, string>

  type Interfaces = seq<Interface>

  /** `importWsdl`, by how many imports were made before; None is an exception. */
  type Loader = (nat, string) -> Option<Interfaces>

  datatype Failure = ImportFailed | Unsupported

  datatype Cache = Cache(entries: seq<Entry<string, Interfaces>>, imports: nat)

  const CAPACITY: nat := 256

  function GetInterfaces(load: Loader, c: Cache, wsdl: string): (Result<Interfaces, Failure>, Cache) {
    match Find(c.entries, wsdl)
    case Some(found) => (Ok(found), c.(entries := Touch(c.entries, wsdl)))
    case None =>
      match load(c.imports, wsdl)
      case None => (Err(ImportFailed), c.(imports := c.imports + 1))
      case Some(loaded) => (Ok(loaded), Cache(Put(CAPACITY, c.entries, wsdl, loaded), c.imports + 1))
  }

  /** The operation of the first interface that has one of this name. */
  function FindOperation(docs: Interfaces, name: string): Option<string> {
    if docs == [] then None else if name in docs[0] then Some(docs[0][name]) else FindOperation(docs[1..], name)
  }

  /** `operation` is the one of this name in the first interface that has the name. */
  predicate Offers(docs: Interfaces, name: string, operation: string) {
    exists i :: 0 <= i < |docs| && name in docs[i] && docs[i][name] == operation && forall j :: 0 <= j < i ==> name !in docs[j]
  }

  lemma {:induction false} FoundExactly(docs: Interfaces, name: string)
    ensures FindOperation(docs, name).None? <==> forall i :: 0 <= i < |docs| ==> name !in docs[i]
    ensures forall operation :: FindOperation(docs, name) == Some(operation) <==> Offers(docs, name, operation)
    decreases |docs|
  {
    if docs != [] {
      var rest := docs[1..];
      FoundExactly(rest, name);
      assert forall i :: 0 < i < |docs| ==> docs[i] == rest[i - 1];
      forall operation ensures FindOperation(docs, name) == Some(operation) <==> Offers(docs, name, operation) {
        if name in docs[0] {
          assert docs[0][name] == operation ==> Offers(docs, name, operation);
        } else {
          OffersRest(docs, name, operation);
        }
      }
    }
  }

  lemma OffersRest(docs: Interfaces, name: string, operation: string)
    requires docs != [] && name !in docs[0]
    ensures Offers(docs, name, operation) <==> Offers(docs[1..], name, operation)
  {
    var rest := docs[1..];
    assert forall i :: 0 < i < |docs| ==> docs[i] == rest[i - 1];
    if Offers(docs, name, operation) {
      var i :| 0 <= i < |docs| && name in docs[i] && docs[i][name] == operation && forall j :: 0 <= j < i ==> name !in docs[j];
      assert name in rest[i - 1] && rest[i - 1][name] == operation;
    }
    if Offers(rest, name, operation) {
      var i :| 0 <= i < |rest| && name in rest[i] && rest[i][name] == operation && forall j :: 0 <= j < i ==> name !in rest[j];
      assert name in docs[i + 1] && docs[i + 1][name] == operation;
    }
  }

  function GetOperation(load: Loader, c: Cache, wsdl: string, name: string): (Result<string, Failure>, Cache) {
    var (first, c1) := GetInterfaces(load, c, wsdl);
    if first.Err? then (Err(first.error), c1)
    else
      var operation := FindOperation(first.value, name);
      if operation.Some? then (Ok(operation.value), c1)
      else
        var (second, c2) := GetInterfaces(load, c1.(entries := Without(c1.entries, wsdl)), wsdl);
        if second.Err? then (Err(second.error), c2)
        else
          var again := FindOperation(second.value, name);
          (if again.Some? then Ok(again.value) else Err(Unsupported), c2)
  }

  /** `docs` is cached for the document, or some import of it answers it. */
  ghost predicate Known(load: Loader, c: Cache, wsdl: string, docs: Interfaces) {
    Find(c.entries, wsdl) == Some(docs) || exists t: nat :: load(t, wsdl) == Some(docs)
  }

  /** What a request for an operation answers: the cached one without an import if it is offered; else one offered by what is known,
      or, if the last import made has it nowhere, "unsupported". */
  ghost predicate Answers(load: Loader, c: Cache, wsdl: string, name: string, r: Result<string, Failure>, c1: Cache) {
    && (forall docs, operation :: Find(c.entries, wsdl) == Some(docs) && Offers(docs, name, operation) ==>
          r == Ok(operation) && c1.imports == c.imports)
    && (r.Ok? ==> exists docs :: Known(load, c, wsdl, docs) && Offers(docs, name, r.value))
    && (r == Err(Unsupported) ==>
          && c1.imports > c.imports && load(c1.imports - 1, wsdl).Some?
          && forall docs :: docs in load(c1.imports - 1, wsdl).value ==> name !in docs)
  }

  lemma GetKnown(load: Loader, c: Cache, wsdl: string)
    ensures var (r, c1) := GetInterfaces(load, c, wsdl);
            && (r.Ok? ==> Known(load, c, wsdl, r.value))
            && (Find(c.entries, wsdl).None? && r.Ok? ==> c1.imports == c.imports + 1 && load(c.imports, wsdl) == Some(r.value))
  {
  }

  lemma OperationAnswers(load: Loader, c: Cache, wsdl: string, name: string)
    ensures var (r, c1) := GetOperation(load, c, wsdl, name); Answers(load, c, wsdl, name, r, c1)
  {
    var (first, c1) := GetInterfaces(load, c, wsdl);
    GetKnown(load, c, wsdl);
    if first.Ok? {
      FoundExactly(first.value, name);
      if FindOperation(first.value, name).None? {
        var c2 := c1.(entries := Without(c1.entries, wsdl));
        FindWithout(c1.entries, wsdl, wsdl);
        GetKnown(load, c2, wsdl);
        var (second, c3) := GetInterfaces(load, c2, wsdl);
        if second.Ok? {
          FoundExactly(second.value, name);
        }
      }
    }
  }

  class SoapUtil {
    const load: Loader
    const wsdls: LruMap<string, Interfaces>
    var imports: nat

    ghost predicate Valid()
      reads this
    {
      wsdls.maxCapacity == CAPACITY
    }

    ghost function View(): Cache
      reads this, wsdls
    {
      Cache(wsdls.entries, imports)
    }

    constructor (load: Loader)
      ensures Valid() && this.load == load && View() == Cache([], 0) && fresh(wsdls)
    {
      this.load := load;
      wsdls := new LruMap(CAPACITY);
      imports := 0;
    }

    method GetWsdlInterfaces(wsdl: string) returns (r: Result<Interfaces, Failure>)
      requires Valid()
      modifies this, wsdls
      ensures Valid() && (r, View()) == GetInterfaces(load, old(View()), wsdl)
    {
      var found := wsdls.Get(wsdl);
      if found.Some? {
        return Ok(found.value);
      }
      var loaded := load(imports, wsdl);
      imports := imports + 1;
      if loaded.None? {
        return Err(ImportFailed);
      }
      var _ := wsdls.Insert(wsdl, loaded.value);
      return Ok(loaded.value);
    }

    static method Lookup(docs: Interfaces, name: string) returns (operation: Option<string>)
      ensures operation == FindOperation(docs, name)
    {
      var i := 0;
      while i < |docs|
        invariant 0 <= i <= |docs| && FindOperation(docs, name) == FindOperation(docs[i..], name)
      {
        if name in docs[i] {
          return Some(docs[i][name]);
        }
        i := i + 1;
      }
      return None;
    }

    method GetWsdlOperation(wsdl: string, name: string) returns (r: Result<string, Failure>)
      requires Valid()
      modifies this, wsdls
      ensures Valid() && (r, View()) == GetOperation(load, old(View()), wsdl, name)
      ensures Answers(load, old(View()), wsdl, name, r, View())
    {
      OperationAnswers(load, View(), wsdl, name);
      var interfaces := GetWsdlInterfaces(wsdl);
      if interfaces.Err? {
        return Err(interfaces.error);
      }
      var operation := Lookup(interfaces.value, name);
      if operation.Some? {
        return Ok(operation.value);
      }
      wsdls.Remove(wsdl);
      interfaces := GetWsdlInterfaces(wsdl);
      if interfaces.Err? {
        return Err(interfaces.error);
      }
      operation := Lookup(interfaces.value, name);
      return if operation.Some? then Ok(operation.value) else Err(Unsupported);
    }
  }

  // ----- what every run of requests keeps -----

  /** Some import of this document so far answered `docs`. */
  ghost predicate Loaded(load: Loader, imports: nat, wsdl: string, docs: Interfaces) {
    exists t :: 0 <= t < imports && load(t, wsdl) == Some(docs)
  }

  /** Every cached document is what some import answered. */
  ghost predicate Honest(load: Loader, c: Cache) {
    forall e :: e in c.entries ==> Loaded(load, c.imports, e.key, e.value)
  }

  lemma {:induction false} FindIn<K, V>(es: seq<Entry<K, V>>, k: K)
    ensures Find(es, k).Some? ==> Entry(k, Find(es, k).value) in es
    decreases |es|
  {
    if es != [] && es[0].key != k {
      FindIn(es[1..], k);
    }
  }

  lemma {:induction false} WithoutIn<K, V>(es: seq<Entry<K, V>>, k: K)
    ensures forall e :: e in Without(es, k) ==> e in es && e.key != k
    decreases |es|
  {
    if es != [] {
      WithoutIn(es[1..], k);
    }
  }

  lemma {:induction false} GetHonest(load: Loader, c: Cache, wsdl: string)
    requires Honest(load, c)
    ensures var (r, c1) := GetInterfaces(load, c, wsdl);
            && Honest(load, c1) && c.imports <= c1.imports
            && (r.Ok? ==> Loaded(load, c1.imports, wsdl, r.value))
  {
    FindIn(c.entries, wsdl);
    WithoutIn(c.entries, wsdl);
    var (r, c1) := GetInterfaces(load, c, wsdl);
    if r.Ok? && Find(c.entries, wsdl).None? {
      assert load(c.imports, wsdl) == Some(r.value);
    }
  }

  /** A request answers from some import of its document; "unsupported" is only said after the freshest import lacks the operation. */
  lemma OperationHonest(load: Loader, c: Cache, wsdl: string, name: string)
    requires Honest(load, c)
    ensures var (r, c1) := GetOperation(load, c, wsdl, name);
            && Honest(load, c1)
            && (r.Ok? ==> exists docs :: Loaded(load, c1.imports, wsdl, docs) && Offers(docs, name, r.value))
            && (r == Err(Unsupported) ==>
                  && c1.imports > c.imports && load(c1.imports - 1, wsdl).Some?
                  && forall docs :: docs in load(c1.imports - 1, wsdl).value ==> name !in docs)
  {
    GetHonest(load, c, wsdl);
    var (first, c1) := GetInterfaces(load, c, wsdl);
    forall docs ensures FindOperation(docs, name).None? <==> forall i :: 0 <= i < |docs| ==> name !in docs[i] {
      FoundExactly(docs, name);
    }
    forall docs, operation ensures FindOperation(docs, name) == Some(operation) <==> Offers(docs, name, operation) {
      FoundExactly(docs, name);
    }
    if first.Ok? && FindOperation(first.value, name).None? {
      WithoutIn(c1.entries, wsdl);
      FindWithout(c1.entries, wsdl, wsdl);
      GetHonest(load, c1.(entries := Without(c1.entries, wsdl)), wsdl);
    }
  }

  datatype Request = AskInterfaces(wsdl: string) | AskOperation(wsdl: string, name: string)

  function Serve(load: Loader, c: Cache, q: Request): Cache {
    match q
    case AskInterfaces(wsdl) => GetInterfaces(load, c, wsdl).1
    case AskOperation(wsdl, name) => GetOperation(load, c, wsdl, name).1
  }

  function ServeAll(load: Loader, qs: seq<Request>): Cache {
    if qs == [] then Cache([], 0) else Serve(load, ServeAll(load, qs[..|qs| - 1]), qs[|qs| - 1])
  }

  lemma {:induction false} WithoutFewer<K, V>(es: seq<Entry<K, V>>, k: K)
    ensures |Without(es, k)| <= |es| && (Has(es, k) ==> |Without(es, k)| < |es|)
    decreases |es|
  {
    if es != [] {
      WithoutFewer(es[1..], k);
    }
  }

  lemma GetBounded(load: Loader, c: Cache, wsdl: string)
    requires |c.entries| <= 256
    ensures |GetInterfaces(load, c, wsdl).1.entries| <= 256
  {
    WithoutFewer(c.entries, wsdl);
  }

  /** No run of requests keeps more than 256 documents. */
  lemma {:induction false} ServeAllBounded(load: Loader, qs: seq<Request>)
    ensures |ServeAll(load, qs).entries| <= 256
    decreases |qs|
  {
    if qs != [] {
      var c, q := ServeAll(load, qs[..|qs| - 1]), qs[|qs| - 1];
      ServeAllBounded(load, qs[..|qs| - 1]);
      GetBounded(load, c, q.wsdl);
      var c1 := GetInterfaces(load, c, q.wsdl).1;
      WithoutFewer(c1.entries, q.wsdl);
      GetBounded(load, c1.(entries := Without(c1.entries, q.wsdl)), q.wsdl);
    }
  }

  lemma GetCaches(load: Loader, c: Cache, wsdl: string)
    requires load(c.imports, wsdl).Some?
    ensures Has(GetInterfaces(load, c, wsdl).1.entries, wsdl)
  {
  }

  /** The document asked for last is cached, if it can be imported, and asking for it again imports nothing. */
  lemma LastIsCached(load: Loader, qs: seq<Request>, q: Request)
    requires forall t: nat :: load(t, q.wsdl).Some?
    ensures var c := ServeAll(load, qs + [q]);
            var (again, c1) := GetInterfaces(load, c, q.wsdl);
            Has(c.entries, q.wsdl) && again.Ok? && c1.imports == c.imports
  {
    var c := ServeAll(load, qs);
    assert (qs + [q])[..|qs|] == qs;
    GetCaches(load, c, q.wsdl);
    var c1 := GetInterfaces(load, c, q.wsdl).1;
    GetCaches(load, c1.(entries := Without(c1.entries, q.wsdl)), q.wsdl);
  }

  lemma {:induction false} ServeAllHonest(load: Loader, qs: seq<Request>)
    ensures Honest(load, ServeAll(load, qs))
    decreases |qs|
  {
    if qs != [] {
      var c, q := ServeAll(load, qs[..|qs| - 1]), qs[|qs| - 1];
      ServeAllHonest(load, qs[..|qs| - 1]);
      match q
      case AskInterfaces(wsdl) => GetHonest(load, c, wsdl);
      case AskOperation(wsdl, name) => OperationHonest(load, c, wsdl, name);
    }
  }

  ghost predicate Deterministic(load: Loader) {
    forall t: nat, wsdl :: load(t, wsdl) == load(0, wsdl)
  }

  /** After any requests, with evictions and removals, a deterministic loader's cache answers exactly what the loader would. */
  lemma CacheIsTransparent(load: Loader, qs: seq<Request>, wsdl: string, name: string)
    requires Deterministic(load)
    ensures var c := ServeAll(load, qs);
            var loaded := load(0, wsdl);
            && GetInterfaces(load, c, wsdl).0 == (if loaded.Some? then Ok(loaded.value) else Err(ImportFailed))
            && (loaded.None? ==> GetOperation(load, c, wsdl, name).0 == Err(ImportFailed))
            && (loaded.Some? && (forall docs :: docs in loaded.value ==> name !in docs) ==>
                  GetOperation(load, c, wsdl, name).0 == Err(Unsupported))
            && (loaded.Some? ==> forall operation ::
                  GetOperation(load, c, wsdl, name).0 == Ok(operation) <==> Offers(loaded.value, name, operation))
  {
    if load(0, wsdl).Some? {
      FoundExactly(load(0, wsdl).value, name);
    }
    var c := ServeAll(load, qs);
    ServeAllHonest(load, qs);
    GetHonest(load, c, wsdl);
    var (first, c1) := GetInterfaces(load, c, wsdl);
    WithoutIn(c1.entries, wsdl);
    GetHonest(load, c1.(entries := Without(c1.entries, wsdl)), wsdl);
  }
}
