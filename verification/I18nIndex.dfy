/** I18nContainer: builds the index of all label values from the resource files that were found. */
module I18nIndex {
  import opened Wrappers
  import opened I18nNames

  /** A label's text, or None for a JSON null. */
  type Value = Option<string>

  /** Values by locale, labels by key, labels by resource name. */
  type Values = map<string, Value>
  type Items = map<string, Values>
  type Index = map<string, Items>

  datatype Field = Str(text: string) | Null | Other

  /** What reading a file gives: an I/O exception, the JSON document null, or its fields. */
  datatype Content = Unreadable | NoObject | Fields(fields: map<string, Field>)

  /** A path that was found, and its content. */
  datatype Source = Source(path: string, content: Content)

  datatype Exception = NullPointer | IndexOutOfBounds

  datatype File = File(place: Place, values: map<string, Value>)

  function ValueOf(f: Field): Value {
    match f
    case Str(text) => Some(text)
    case _ => None
  }

  predicate Valid(fields: map<string, Field>) {
    forall key :: key in fields ==> fields[key] != Other
  }

  /** The file as it enters the index, None if it is skipped, or the exception that ends everything. */
  function Accepted(text: LocaleText, s: Source): Result<Option<File>, Exception> {
    match s.content
    case Unreadable => Ok(None)
    case NoObject => Err(NullPointer)
    case Fields(fields) =>
      if !Valid(fields) then Ok(None)
      else
        match NameOf(text, s.path)
        case OutOfBounds => Err(IndexOutOfBounds)
        case Skipped => Ok(None)
        case Named(place) => Ok(Some(File(place, map key | key in fields :: ValueOf(fields[key]))))
  }

  /** What is accepted, in order; the first exception ends it. */
  function Collect<S, F, E>(accept: S -> Result<Option<F>, E>, ss: seq<S>): Result<seq<F>, E> {
    if ss == [] then Ok([])
    else
      var before :- Collect(accept, ss[..|ss| - 1]);
      var file :- accept(ss[|ss| - 1]);
      Ok(if file.None? then before else before + [file.value])
  }

  function Accepts(text: LocaleText): Source -> Result<Option<File>, Exception> {
    s => Accepted(text, s)
  }

  function Files(text: LocaleText, sources: seq<Source>): Result<seq<File>, Exception> {
    Collect(Accepts(text), sources)
  }

  function ValuesOf(items: Items, key: string): Values {
    if key in items then items[key] else map[]
  }

  function ItemsOf(index: Index, name: string): Items {
    if name in index then index[name] else map[]
  }

  /** A label's values once a file's entries are in. */
  function With(before: Values, locale: string, values: map<string, Value>, key: string): Values {
    if key in values then before[locale := values[key]] else before
  }

  function AddValues(items: Items, locale: string, values: map<string, Value>): Items {
    map key | key in items.Keys + values.Keys :: With(ValuesOf(items, key), locale, values, key)
  }

  function AddFile(index: Index, f: File): Index {
    index[f.place.name := AddValues(ItemsOf(index, f.place.name), f.place.locale, f.values)]
  }

  function FoldAll<S, T>(add: (S, T) -> S, start: S, ts: seq<T>): S {
    if ts == [] then start else add(FoldAll(add, start, ts[..|ts| - 1]), ts[|ts| - 1])
  }

  function IndexOf(files: seq<File>): Index {
    FoldAll(AddFile, map[], files)
  }

  // ----- the loops -----

  method ValidateFileValues(fields: map<string, Field>) returns (valid: bool)
    ensures valid == Valid(fields)
  {
    var todo := fields.Keys;
    while todo != {}
      invariant todo <= fields.Keys
      invariant forall key :: key in fields.Keys - todo ==> fields[key] != Other
      decreases |todo|
    {
      var key :| key in todo;
      if fields[key] == Other {
        return false;
      }
      todo := todo - {key};
    }
    return true;
  }

  lemma AddOne(items: Items, locale: string, values: map<string, Value>, key: string, v: Value)
    requires key !in values
    ensures AddValues(items, locale, values[key := v]) ==
            AddValues(items, locale, values)[key := ValuesOf(AddValues(items, locale, values), key)[locale := v]]
  {
    assert values[key := v].Keys == values.Keys + {key};
  }

  /** `items` holds the entries added so far. */
  ghost predicate Entered(r: Items, items: Items, locale: string, fields: map<string, Field>, added: map<string, Value>) {
    && (forall key :: key in added ==> key in fields && added[key] == ValueOf(fields[key]))
    && r == AddValues(items, locale, added)
  }

  function Set(r: Items, key: string, locale: string, v: Value): Items {
    r[key := ValuesOf(r, key)[locale := v]]
  }

  lemma EnterOne(r: Items, items: Items, locale: string, fields: map<string, Field>, added: map<string, Value>, key: string)
    requires Entered(r, items, locale, fields, added) && key in fields && key !in added
    ensures Entered(Set(r, key, locale, ValueOf(fields[key])), items, locale, fields, added[key := ValueOf(fields[key])])
  {
    AddOne(items, locale, added, key, ValueOf(fields[key]));
  }

  lemma EnterNone(items: Items, locale: string, fields: map<string, Field>)
    ensures Entered(items, items, locale, fields, map[])
  {
    assert AddValues(items, locale, map[]) == items;
  }

  lemma EnteredAll(r: Items, items: Items, locale: string, fields: map<string, Field>, added: map<string, Value>)
    requires Entered(r, items, locale, fields, added) && added.Keys == fields.Keys
    ensures r == AddValues(items, locale, map key | key in fields :: ValueOf(fields[key]))
  {
    assert added == map key | key in fields :: ValueOf(fields[key]);
  }

  lemma SetMakesRoom(r: Items, key: string, locale: string, v: Value)
    ensures key !in r ==> r[key := map[]][key := r[key := map[]][key][locale := v]] == Set(r, key, locale, v)
  {
  }

  /** The entries of a file, in whatever order its hash map gives them. */
  method AddEntries(items: Items, locale: string, fields: map<string, Field>) returns (r: Items)
    ensures r == AddValues(items, locale, map key | key in fields :: ValueOf(fields[key]))
  {
    r := items;
    var todo := fields.Keys;
    ghost var added: map<string, Value> := map[];
    EnterNone(items, locale, fields);
    while todo != {}
      invariant todo <= fields.Keys && added.Keys == fields.Keys - todo
      invariant Entered(r, items, locale, fields, added)
      decreases |todo|
    {
      var key :| key in todo;
      EnterOne(r, items, locale, fields, added, key);
      SetMakesRoom(r, key, locale, ValueOf(fields[key]));
      if key !in r {
        r := r[key := map[]];
      }
      r := r[key := r[key][locale := ValueOf(fields[key])]];
      added := added[key := ValueOf(fields[key])];
      todo := todo - {key};
    }
    EnteredAll(r, items, locale, fields, added);
  }

  function AddSource(text: LocaleText, index: Index, s: Source): Result<Index, Exception> {
    var file :- Accepted(text, s);
    Ok(if file.None? then index else AddFile(index, file.value))
  }

  /** What is done for each path. */
  method AddPath(text: LocaleText, s: Source, index: Index) returns (r: Result<Index, Exception>)
    ensures r == AddSource(text, index, s)
  {
    if s.content.Unreadable? {
      return Ok(index);
    }
    if s.content.NoObject? {
      return Err(NullPointer);
    }
    var valid := ValidateFileValues(s.content.fields);
    if !valid {
      return Ok(index);
    }
    match NameOf(text, s.path) {
      case OutOfBounds =>
        return Err(IndexOutOfBounds);
      case Skipped =>
        return Ok(index);
      case Named(place) =>
        var items := AddEntries(if place.name in index then index[place.name] else map[], place.locale, s.content.fields);
        return Ok(index[place.name := items]);
    }
  }

  lemma {:induction false} CollectFails<S, F, E>(accept: S -> Result<Option<F>, E>, ss: seq<S>, i: nat)
    requires i <= |ss| && Collect(accept, ss[..i]).Err?
    ensures Collect(accept, ss) == Collect(accept, ss[..i])
    decreases |ss|
  {
    if i == |ss| {
      assert ss[..i] == ss;
    } else {
      assert ss[..|ss| - 1][..i] == ss[..i];
      CollectFails(accept, ss[..|ss| - 1], i);
    }
  }

  lemma {:induction false} CollectOk<S, F, E>(accept: S -> Result<Option<F>, E>, ss: seq<S>)
    ensures Collect(accept, ss).Ok? <==> forall i :: 0 <= i < |ss| ==> accept(ss[i]).Ok?
    decreases |ss|
  {
    if ss != [] {
      CollectOk(accept, ss[..|ss| - 1]);
    }
  }

  lemma AddLast(before: seq<File>, f: File)
    ensures IndexOf(before + [f]) == AddFile(IndexOf(before), f)
  {
    assert (before + [f])[..|before|] == before;
  }

  /** `r` is the index of all accepted files, or the exception of the first file that raises one. */
  ghost predicate Generated(text: LocaleText, sources: seq<Source>, r: Result<Index, Exception>) {
    var files := Files(text, sources);
    r == if files.Err? then Err(files.error) else Ok(IndexOf(files.value))
  }

  lemma GeneratedStep(text: LocaleText, sources: seq<Source>, i: nat, index: Index)
    requires i < |sources| && Generated(text, sources[..i], Ok(index))
    ensures Generated(text, sources[..i + 1], AddSource(text, index, sources[i]))
  {
    assert sources[..i + 1][..i] == sources[..i];
    var file := Accepted(text, sources[i]);
    if file.Ok? && file.value.Some? {
      AddLast(Files(text, sources[..i]).value, file.value.value);
    }
  }

  method GenerateI18ns(text: LocaleText, sources: seq<Source>) returns (r: Result<Index, Exception>)
    ensures Generated(text, sources, r) && Outcome(text, sources, r)
  {
    var index: Index := map[];
    var i := 0;
    while i < |sources|
      invariant 0 <= i <= |sources|
      invariant Generated(text, sources[..i], Ok(index))
    {
      GeneratedStep(text, sources, i, index);
      var one := AddPath(text, sources[i], index);
      if one.Err? {
        CollectFails(Accepts(text), sources, i + 1);
        GeneratedOutcome(text, sources, one);
        return one;
      }
      index := one.value;
      i := i + 1;
    }
    assert sources[..i] == sources;
    GeneratedOutcome(text, sources, Ok(index));
    return Ok(index);
  }

  lemma ScannedAccepted(text: LocaleText, s: Source)
    requires Scanned(s.path)
    ensures Accepted(text, s).Ok? <==> s.content != NoObject
  {
    ScannedInBounds(text, s.path);
  }

  /** The paths that the scanner finds end no generation; only a document that is null does. */
  lemma ScannedSucceed(text: LocaleText, sources: seq<Source>)
    requires forall i :: 0 <= i < |sources| ==> Scanned(sources[i].path)
    ensures Files(text, sources).Ok? <==> forall i :: 0 <= i < |sources| ==> sources[i].content != NoObject
  {
    CollectOk(Accepts(text), sources);
    forall i | 0 <= i < |sources| ensures Accepts(text)(sources[i]).Ok? <==> sources[i].content != NoObject {
      ScannedAccepted(text, sources[i]);
    }
  }

  // ----- what the index holds -----

  function Lookup(index: Index, place: Place, key: string): Option<Value> {
    var values := ValuesOf(ItemsOf(index, place.name), key);
    if place.locale in values then Some(values[place.locale]) else None
  }

  predicate Defines(f: File, place: Place, key: string) {
    f.place == place && key in f.values
  }

  /** The value in the last file for this resource and locale that has the label. */
  function LastGiven(files: seq<File>, place: Place, key: string): Option<Value> {
    if files == [] then None
    else
      var f := files[|files| - 1];
      if Defines(f, place, key) then Some(f.values[key]) else LastGiven(files[..|files| - 1], place, key)
  }

  /** A later file overrides an earlier one for the same resource and locale, label by label; nothing else is lost or added. */
  lemma {:induction false} LastFileWins(files: seq<File>, place: Place, key: string)
    ensures Lookup(IndexOf(files), place, key) == LastGiven(files, place, key)
    decreases |files|
  {
    if files != [] {
      LastFileWins(files[..|files| - 1], place, key);
    }
  }

  // ----- from the sources to the index -----

  /** Every field is a text or null. */
  predicate TextsOnly(s: Source) {
    s.content.Fields? && forall key :: key in s.content.fields ==> s.content.fields[key].Str? || s.content.fields[key].Null?
  }

  /** The source holds the label for this resource and locale. */
  predicate Holds(text: LocaleText, s: Source, place: Place, key: string) {
    TextsOnly(s) && NameOf(text, s.path) == Named(place) && key in s.content.fields
  }

  function Holder(text: LocaleText, place: Place, key: string): Source -> bool {
    s => Holds(text, s, place, key)
  }

  /** The text it has for the label, or None for null. */
  function Held(key: string): Source -> Value {
    (s: Source) => if s.content.Fields? && key in s.content.fields && s.content.fields[key].Str? then Some(s.content.fields[key].text) else None
  }

  ghost predicate LastWhere<T>(p: T -> bool, ts: seq<T>, i: nat) {
    i < |ts| && p(ts[i]) && forall j :: i < j < |ts| ==> !p(ts[j])
  }

  /** `given` is what the last element with the property gives, and None if none has it. */
  ghost predicate LastGives<T, V>(p: T -> bool, give: T -> V, ts: seq<T>, given: Option<V>) {
    && (given.None? <==> forall i :: 0 <= i < |ts| ==> !p(ts[i]))
    && (given.Some? ==> exists i: nat :: LastWhere(p, ts, i))
    && (forall i: nat :: LastWhere(p, ts, i) ==> given == Some(give(ts[i])))
  }

  lemma LastGivesStep<T, V>(p: T -> bool, give: T -> V, all: seq<T>, before: seq<T>, last: nat, given: Option<V>)
    requires |all| == last + 1 && before == all[..last] && LastGives(p, give, before, given)
    ensures LastGives(p, give, all, if p(all[last]) then Some(give(all[last])) else given)
  {
    if p(all[last]) {
      assert LastWhere(p, all, last);
    } else {
      forall i: nat ensures LastWhere(p, all, i) <==> LastWhere(p, before, i) {
        assert forall j :: 0 <= j < last ==> before[j] == all[j];
      }
    }
  }

  /** A null document, and texts under a name that cannot be taken apart, end everything. */
  predicate FailsWith(text: LocaleText, s: Source, e: Exception) {
    || (s.content == NoObject && e == NullPointer)
    || (TextsOnly(s) && NameOf(text, s.path).OutOfBounds? && e == IndexOutOfBounds)
  }

  lemma AcceptedFails(text: LocaleText, s: Source, e: Exception)
    ensures Accepted(text, s) == Err(e) <==> FailsWith(text, s, e)
  {
    if s.content.Fields? {
      FieldsValid(s.content.fields);
    }
  }

  lemma FieldsValid(fields: map<string, Field>)
    ensures Valid(fields) <==> forall key :: key in fields ==> fields[key].Str? || fields[key].Null?
  {
    assert forall f: Field :: f != Other <==> f.Str? || f.Null?;
  }

  lemma AcceptedHolds(text: LocaleText, s: Source, place: Place, key: string)
    requires Accepted(text, s).Ok?
    ensures var file := Accepted(text, s).value;
            && (Holds(text, s, place, key) <==> file.Some? && Defines(file.value, place, key))
            && (Holds(text, s, place, key) ==> file.value.values[key] == Held(key)(s))
  {
    if s.content.Fields? {
      FieldsValid(s.content.fields);
    }
  }

  /** `given` is what the last source gives that holds the label, and None if none does. */
  ghost predicate Answers(text: LocaleText, sources: seq<Source>, place: Place, key: string, given: Option<Value>) {
    LastGives(Holder(text, place, key), Held(key), sources, given)
  }

  lemma LastAdded(files: seq<File>, file: Option<File>, place: Place, key: string)
    ensures LastGiven(if file.None? then files else files + [file.value], place, key) ==
            if file.Some? && Defines(file.value, place, key) then Some(file.value.values[key]) else LastGiven(files, place, key)
  {
    if file.Some? {
      var more := files + [file.value];
      assert more[..|more| - 1] == files && more[|more| - 1] == file.value;
    }
  }

  lemma {:induction false} FilesAnswer(text: LocaleText, sources: seq<Source>, place: Place, key: string)
    requires Files(text, sources).Ok?
    ensures Answers(text, sources, place, key, LastGiven(Files(text, sources).value, place, key))
    decreases |sources|
  {
    if sources != [] {
      var last := |sources| - 1;
      var before, s := sources[..last], sources[last];
      FilesAnswer(text, before, place, key);
      AcceptedHolds(text, s, place, key);
      LastAdded(Files(text, before).value, Accepted(text, s).value, place, key);
      LastGivesStep(Holder(text, place, key), Held(key), sources, before, last, LastGiven(Files(text, before).value, place, key));
    }
  }

  /** Each entry is the text, or null, of the last source that holds the label for its resource and locale, and there is no other. */
  lemma IndexAnswers(text: LocaleText, sources: seq<Source>, index: Index, place: Place, key: string)
    requires Generated(text, sources, Ok(index))
    ensures Answers(text, sources, place, key, Lookup(index, place, key))
  {
    FilesAnswer(text, sources, place, key);
    LastFileWins(Files(text, sources).value, place, key);
  }

  lemma {:induction false} CollectError<S, F, E>(accept: S -> Result<Option<F>, E>, ss: seq<S>) returns (i: nat)
    requires Collect(accept, ss).Err?
    ensures i < |ss| && accept(ss[i]) == Err(Collect(accept, ss).error) && forall j :: 0 <= j < i ==> accept(ss[j]).Ok?
    decreases |ss|
  {
    var before := ss[..|ss| - 1];
    if Collect(accept, before).Err? {
      i := CollectError(accept, before);
      assert forall j :: 0 <= j < |before| ==> ss[j] == before[j];
    } else {
      i := |ss| - 1;
      CollectOk(accept, before);
      assert forall j :: 0 <= j < |before| ==> ss[j] == before[j];
    }
  }

  ghost predicate Fails(text: LocaleText, s: Source) {
    exists e :: FailsWith(text, s, e)
  }

  /** A failure is that of the first source that fails. */
  lemma FailsFirst(text: LocaleText, sources: seq<Source>, r: Result<Index, Exception>)
    requires Generated(text, sources, r)
    ensures r.Ok? <==> forall i :: 0 <= i < |sources| ==> !Fails(text, sources[i])
    ensures r.Err? ==> exists i :: 0 <= i < |sources| && FailsWith(text, sources[i], r.error) &&
                         forall j :: 0 <= j < i ==> !Fails(text, sources[j])
  {
    forall i | 0 <= i < |sources| ensures Accepted(text, sources[i]).Ok? <==> !Fails(text, sources[i]) {
      FailsExactly(text, sources[i]);
    }
    var accept := Accepts(text);
    CollectOk(accept, sources);
    assert forall i :: 0 <= i < |sources| ==> accept(sources[i]) == Accepted(text, sources[i]);
    if r.Err? {
      var i := CollectError(accept, sources);
      AcceptedFails(text, sources[i], r.error);
      assert FailsWith(text, sources[i], r.error);
    }
  }

  lemma FailsExactly(text: LocaleText, s: Source)
    ensures Accepted(text, s).Ok? <==> !Fails(text, s)
  {
    if Accepted(text, s).Err? {
      AcceptedFails(text, s, Accepted(text, s).error);
    }
    if e :| FailsWith(text, s, e) {
      AcceptedFails(text, s, e);
    }
  }

  /** The exception of the first source that fails, or the index that answers for every resource, locale and label. */
  ghost predicate Outcome(text: LocaleText, sources: seq<Source>, r: Result<Index, Exception>) {
    match r
    case Err(e) =>
      exists i :: 0 <= i < |sources| && FailsWith(text, sources[i], e) && forall j :: 0 <= j < i ==> !Fails(text, sources[j])
    case Ok(index) =>
      && (forall i :: 0 <= i < |sources| ==> !Fails(text, sources[i]))
      && forall place, key :: Answers(text, sources, place, key, Lookup(index, place, key))
  }

  lemma GeneratedOutcome(text: LocaleText, sources: seq<Source>, r: Result<Index, Exception>)
    requires Generated(text, sources, r)
    ensures Outcome(text, sources, r)
  {
    FailsFirst(text, sources, r);
    if r.Ok? {
      forall place, key ensures Answers(text, sources, place, key, Lookup(r.value, place, key)) {
        IndexAnswers(text, sources, r.value, place, key);
      }
    }
  }

  // ----- the order of the files -----

  predicate Agree(a: File, b: File) {
    a.place == b.place ==> forall key :: key in a.values && key in b.values ==> a.values[key] == b.values[key]
  }

  /** No two files give one label of one resource and locale different values. */
  ghost predicate Compatible(files: seq<File>) {
    forall a, b :: a in files && b in files ==> Agree(a, b)
  }

  lemma WithCommutes(before: Values, a: File, b: File, key: string)
    requires Agree(a, b) && a.place.name == b.place.name
    ensures With(With(before, a.place.locale, a.values, key), b.place.locale, b.values, key)
         == With(With(before, b.place.locale, b.values, key), a.place.locale, a.values, key)
  {
    assert a.place.locale == b.place.locale ==> a.place == b.place;
  }

  lemma ItemsCommute(items: Items, a: File, b: File)
    requires Agree(a, b) && a.place.name == b.place.name
    ensures AddValues(AddValues(items, a.place.locale, a.values), b.place.locale, b.values)
         == AddValues(AddValues(items, b.place.locale, b.values), a.place.locale, a.values)
  {
    var ab := AddValues(AddValues(items, a.place.locale, a.values), b.place.locale, b.values);
    var ba := AddValues(AddValues(items, b.place.locale, b.values), a.place.locale, a.values);
    forall key ensures (key in ab <==> key in ba) && ValuesOf(ab, key) == ValuesOf(ba, key) {
      WithCommutes(ValuesOf(items, key), a, b, key);
    }
  }

  lemma FilesCommute(index: Index, a: File, b: File)
    requires Agree(a, b)
    ensures AddFile(AddFile(index, a), b) == AddFile(AddFile(index, b), a)
  {
    if a.place.name == b.place.name {
      ItemsCommute(ItemsOf(index, a.place.name), a, b);
    }
  }

  function MoveToEnd<T>(s: seq<T>, i: nat): seq<T>
    requires i < |s|
  {
    s[..i] + s[i + 1..] + [s[i]]
  }

  lemma MoveKeepsAll<T>(s: seq<T>, i: nat)
    requires i < |s|
    ensures multiset(MoveToEnd(s, i)) == multiset(s)
    ensures multiset(s[..i] + s[i + 1..]) == multiset(s) - multiset{s[i]}
  {
    assert s == s[..i] + [s[i]] + s[i + 1..];
  }

  ghost predicate Commuting<S(!new), T>(add: (S, T) -> S, ts: seq<T>) {
    forall s, i, j :: 0 <= i < |ts| && 0 <= j < |ts| ==> add(add(s, ts[i]), ts[j]) == add(add(s, ts[j]), ts[i])
  }

  lemma CommutingPart<S(!new), T>(add: (S, T) -> S, ts: seq<T>, part: seq<T>)
    requires Commuting(add, ts) && forall t :: t in part ==> t in ts
    ensures Commuting(add, part)
  {
    forall s: S, i, j | 0 <= i < |part| && 0 <= j < |part|
      ensures add(add(s, part[i]), part[j]) == add(add(s, part[j]), part[i])
    {
      assert part[i] in ts && part[j] in ts;
    }
  }

  /** Moving an element that is not the last: all but the last two of the result, and its last two. */
  lemma MoveParts<T>(ts: seq<T>, i: nat, shorter: seq<T>, rest: seq<T>, moved: seq<T>, last: nat)
    requires |ts| == last + 1 && i < last && shorter == ts[..last] && rest == shorter[..i] + shorter[i + 1..] && moved == MoveToEnd(ts, i)
    ensures moved == rest + [ts[last]] + [ts[i]] && MoveToEnd(shorter, i) == rest + [ts[i]]
    ensures MoveToEnd(shorter, i)[..last - 1] == rest && moved[..last] == rest + [ts[last]] && moved[..last][..last - 1] == rest
  {
    assert ts[i + 1..] == shorter[i + 1..] + [ts[last]];
  }

  lemma {:induction false} MoveSameFold<S(!new), T>(add: (S, T) -> S, start: S, ts: seq<T>, i: nat)
    requires i < |ts| && Commuting(add, ts)
    ensures FoldAll(add, start, MoveToEnd(ts, i)) == FoldAll(add, start, ts)
    decreases |ts|
  {
    var last := |ts| - 1;
    var shorter := ts[..last];
    var moved := MoveToEnd(ts, i);
    if i == last {
      assert moved == ts;
    } else {
      var rest := shorter[..i] + shorter[i + 1..];
      CommutingPart(add, ts, shorter);
      MoveSameFold(add, start, shorter, i);
      MoveParts(ts, i, shorter, rest, moved, last);
      FoldLastTwo(add, start, moved, rest, ts[last], ts[i]);
      FoldLast(add, start, MoveToEnd(shorter, i), rest, ts[i]);
    }
  }

  lemma FoldLast<S, T>(add: (S, T) -> S, start: S, ts: seq<T>, rest: seq<T>, t: T)
    requires ts == rest + [t]
    ensures FoldAll(add, start, ts) == add(FoldAll(add, start, rest), t)
  {
    assert ts[..|ts| - 1] == rest;
  }

  lemma FoldLastTwo<S, T>(add: (S, T) -> S, start: S, ts: seq<T>, rest: seq<T>, t: T, u: T)
    requires ts == rest + [t] + [u]
    ensures FoldAll(add, start, ts) == add(add(FoldAll(add, start, rest), t), u)
  {
    FoldLast(add, start, ts, rest + [t], u);
    FoldLast(add, start, rest + [t], rest, t);
  }

  lemma {:induction false} PermutationSameFold<S(!new), T>(add: (S, T) -> S, start: S, ts: seq<T>, others: seq<T>)
    requires Commuting(add, ts) && multiset(ts) == multiset(others)
    ensures FoldAll(add, start, ts) == FoldAll(add, start, others)
    decreases |ts|
  {
    if ts == [] {
      SameSize(ts, others);
    } else {
      var shorter := ts[..|ts| - 1];
      var i := FindLast(ts, others);
      var rest := others[..i] + others[i + 1..];
      CommutingPart(add, ts, others);
      CommutingPart(add, ts, shorter);
      PermutationSameFold(add, start, shorter, rest);
      MoveSameFold(add, start, others, i);
      assert MoveToEnd(others, i)[..|others| - 1] == rest;
    }
  }

  lemma SameSize<T>(ts: seq<T>, others: seq<T>)
    requires multiset(ts) == multiset(others)
    ensures |ts| == |others|
  {
    assert |ts| == |multiset(ts)| == |multiset(others)| == |others|;
  }

  lemma FindLast<T>(ts: seq<T>, others: seq<T>) returns (i: nat)
    requires ts != [] && multiset(ts) == multiset(others)
    ensures i < |others| == |ts| && others[i] == ts[|ts| - 1]
    ensures multiset(others[..i] + others[i + 1..]) == multiset(ts[..|ts| - 1])
    ensures forall t :: t in others ==> t in ts
  {
    var t, shorter := ts[|ts| - 1], ts[..|ts| - 1];
    SameSize(ts, others);
    assert ts == shorter + [t];
    assert forall u :: u in others ==> u in multiset(ts);
    assert t in multiset(others);
    i :| 0 <= i < |others| && others[i] == t;
    MoveKeepsAll(others, i);
  }

  ghost predicate OrderFree(files: seq<File>) {
    forall others :: multiset(others) == multiset(files) ==> IndexOf(others) == IndexOf(files)
  }

  /** The index is the same in every enumeration order exactly when no two files disagree. */
  lemma OrderFreeExactly(files: seq<File>)
    ensures OrderFree(files) <==> Compatible(files)
  {
    if Compatible(files) {
      forall index: Index, i, j | 0 <= i < |files| && 0 <= j < |files|
        ensures AddFile(AddFile(index, files[i]), files[j]) == AddFile(AddFile(index, files[j]), files[i])
      {
        FilesCommute(index, files[i], files[j]);
      }
      forall others | multiset(others) == multiset(files) ensures IndexOf(others) == IndexOf(files) {
        PermutationSameFold(AddFile, map[], files, others);
      }
    } else {
      var a, b :| a in files && b in files && !Agree(a, b);
      var key :| key in a.values && key in b.values && a.values[key] != b.values[key];
      var i :| 0 <= i < |files| && files[i] == a;
      var j :| 0 <= j < |files| && files[j] == b;
      MoveKeepsAll(files, i);
      MoveKeepsAll(files, j);
      LastFileWins(MoveToEnd(files, i), a.place, key);
      LastFileWins(MoveToEnd(files, j), a.place, key);
    }
  }

  /** In particular when no two files share resource and locale. */
  lemma DistinctPlacesOrderFree(files: seq<File>)
    requires forall i, j :: 0 <= i < j < |files| ==> files[i].place != files[j].place
    ensures OrderFree(files)
  {
    OrderFreeExactly(files);
  }
}
