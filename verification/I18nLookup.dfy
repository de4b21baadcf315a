/** I18nImpl and I18nLocaleTransfer: from a label and a locale to its value, and from a value back to its label. */
module I18nLookup {
  import opened I18nIndex
  import opened Texts
  import opened Wrappers

  /** A `java.util.Locale` by what is asked of it: `getLanguage` and `toString`. */
  datatype Locale = Locale(language: string, text: string) {
    /** The text is the language alone, or goes on with an underscore. */
    predicate Real() {
      '_' !in language && (text == language || At(text, language + "_"))
    }
  }

  /** What comes before the first underscore. */
  function LanguageOf(text: string): (language: string)
    ensures Locale(language, text).Real()
  {
    if text == "" || text[0] == '_' then "" else [text[0]] + LanguageOf(text[1..])
  }

  // ----- choosing among the locales that exist -----

  predicate DefaultOf(locales: set<string>, r: string) {
    if "en" in locales then r == "en"
    else if "en_US" in locales then r == "en_US"
    else if "zh" in locales then r == "zh"
    else if "zh_CN" in locales then r == "zh_CN"
    else r in locales
  }

  ghost predicate SameLanguage(language: string, locales: set<string>) {
    exists l :: l in locales && At(l, language + "_")
  }

  /** The answers `transfer` may give; sets are enumerated in any order. */
  ghost predicate Transferred(locale: Option<Locale>, locales: set<string>, r: Option<string>) {
    if locales == {} then r == None
    else if r.None? then false
    else if locale.None? || locale.value.text == "" then DefaultOf(locales, r.value)
    else if locale.value.text in locales then r.value == locale.value.text
    else if locale.value.language in locales then r.value == locale.value.language
    else if SameLanguage(locale.value.language, locales) then r.value in locales && At(r.value, locale.value.language + "_")
    else DefaultOf(locales, r.value)
  }

  /** One of the locales, and the first of the list if any of it is among them. */
  predicate FirstOf(list: seq<string>, locales: set<string>, r: string) {
    r in locales && forall i :: 0 <= i < |list| && list[i] in locales && (forall j :: 0 <= j < i ==> list[j] !in locales) ==> r == list[i]
  }

  /** Neither the locale nor its language is there, alone or as the beginning of another. */
  ghost predicate Unknown(locale: Option<Locale>, locales: set<string>) {
    locale.None? || locale.value.text == "" ||
    (locale.value.text !in locales && locale.value.language !in locales && !SameLanguage(locale.value.language, locales))
  }

  lemma DefaultIsFirst(locales: set<string>, r: string)
    requires DefaultOf(locales, r)
    ensures FirstOf(["en", "en_US", "zh", "zh_CN"], locales, r)
  {
    var list := ["en", "en_US", "zh", "zh_CN"];
    assert list[0] == "en" && list[1] == "en_US" && list[2] == "zh" && list[3] == "zh_CN";
    forall i | 0 <= i < |list| && list[i] in locales && forall j :: 0 <= j < i ==> list[j] !in locales ensures r == list[i] {
      assert i == 0 || i == 1 || i == 2 || i == 3;
      assert i > 0 ==> list[0] !in locales;
      assert i > 1 ==> list[1] !in locales;
      assert i > 2 ==> list[2] !in locales;
    }
  }

  method FetchDefault(locales: set<string>) returns (r: string)
    requires locales != {}
    ensures DefaultOf(locales, r)
  {
    if "en" in locales {
      return "en";
    } else if "en_US" in locales {
      return "en_US";
    }
    if "zh" in locales {
      return "zh";
    } else if "zh_CN" in locales {
      return "zh_CN";
    }
    r :| r in locales;
  }

  method Transfer(locale: Option<Locale>, locales: set<string>) returns (r: Option<string>)
    ensures Transferred(locale, locales, r)
    ensures locales != {} && Unknown(locale, locales) ==> r.Some? && FirstOf(["en", "en_US", "zh", "zh_CN"], locales, r.value)
  {
    if locales == {} {
      return None;
    }
    if locale.None? || locale.value.text == "" {
      var default := FetchDefault(locales);
      DefaultIsFirst(locales, default);
      return Some(default);
    }
    if locale.value.text in locales {
      return Some(locale.value.text);
    }
    if locale.value.language in locales {
      return Some(locale.value.language);
    }
    var prefix := locale.value.language + "_";
    var todo := locales;
    while todo != {}
      invariant todo <= locales
      invariant forall l :: l in locales - todo ==> !At(l, prefix)
      decreases |todo|
    {
      var temp :| temp in todo;
      if At(temp, prefix) {
        return Some(temp);
      }
      todo := todo - {temp};
    }
    var default := FetchDefault(locales);
    DefaultIsFirst(locales, default);
    return Some(default);
  }

  lemma TransferredExists(locale: Option<Locale>, locales: set<string>, r: Option<string>)
    requires Transferred(locale, locales, r)
    ensures r.None? <==> locales == {}
    ensures r.Some? ==> r.value in locales
  {
  }

  // ----- the reverse index -----

  predicate Holds(items: Items, key: string, v: Value) {
    key in items && v in items[key].Values
  }

  /** The last label, in the order of enumeration, with this value. */
  function LastHolder(items: Items, order: seq<string>, v: Value): Option<string> {
    if order == [] then None
    else if Holds(items, order[|order| - 1], v) then Some(order[|order| - 1])
    else LastHolder(items, order[..|order| - 1], v)
  }

  ghost predicate IsReverse(items: Items, order: seq<string>, reverse: map<Value, string>) {
    forall v :: (if v in reverse then Some(reverse[v]) else None) == LastHolder(items, order, v)
  }

  ghost predicate Enumerates(order: seq<string>, keys: set<string>) {
    && (forall k :: k in order <==> k in keys)
    && (forall i, j :: 0 <= i < j < |order| ==> order[i] != order[j])
  }

  /** The map with some more values leading to a label. */
  ghost predicate Grown(reverse: map<Value, string>, key: string, values: set<Value>, r: map<Value, string>) {
    r.Keys == reverse.Keys + values && forall v :: v in r ==> r[v] == if v in values then key else reverse[v]
  }

  ghost function ValuesAt(values: Values, locales: set<string>): set<Value> {
    set l | l in locales && l in values :: values[l]
  }

  lemma GrowOne(reverse: map<Value, string>, key: string, values: Values, done: set<string>, l: string, r: map<Value, string>)
    requires l in values && Grown(reverse, key, ValuesAt(values, done), r)
    ensures Grown(reverse, key, ValuesAt(values, done + {l}), r[values[l] := key])
  {
    assert ValuesAt(values, done + {l}) == ValuesAt(values, done) + {values[l]};
  }

  lemma ReverseGrows(items: Items, before: seq<string>, key: string, reverse: map<Value, string>, r: map<Value, string>)
    requires key in items && IsReverse(items, before, reverse)
    requires Grown(reverse, key, ValuesAt(items[key], items[key].Keys), r)
    ensures IsReverse(items, before + [key], r)
  {
    var order := before + [key];
    assert order[..|order| - 1] == before;
    assert ValuesAt(items[key], items[key].Keys) == items[key].Values;
  }

  class I18nImpl {
    const items: Items
    const keyToValueMap: map<string, string>
    const valueToKeyMap: map<Value, string>

    /** `order` is how the items' hash map enumerates its keys, `write` is `writeToJson`. */
    constructor (items: Items, order: seq<string>, write: Values -> string)
      requires Enumerates(order, items.Keys)
      ensures this.items == items
      ensures keyToValueMap == map k | k in items :: write(items[k])
      ensures IsReverse(items, order, valueToKeyMap)
    {
      var forward: map<string, string> := map[];
      var reverse: map<Value, string> := map[];
      var i := 0;
      while i < |order|
        invariant 0 <= i <= |order|
        invariant forward.Keys == set k | k in order[..i]
        invariant forall k :: k in forward ==> k in items && forward[k] == write(items[k])
        invariant IsReverse(items, order[..i], reverse)
      {
        var key := order[i];
        forward := forward[key := write(items[key])];
        reverse := AddReverse(items, order[..i], key, reverse);
        assert order[..i + 1] == order[..i] + [key];
        i := i + 1;
      }
      assert order[..i] == order;
      this.items := items;
      keyToValueMap := forward;
      valueToKeyMap := reverse;
    }

    /** The inner loop: every value of one label now leads to it. */
    static method AddReverse(items: Items, ghost before: seq<string>, key: string, reverse: map<Value, string>) returns (r: map<Value, string>)
      requires key in items && IsReverse(items, before, reverse)
      ensures IsReverse(items, before + [key], r)
    {
      var values := items[key];
      r := reverse;
      var todo := values.Keys;
      ghost var done: set<string> := {};
      while todo != {}
        invariant done + todo == values.Keys
        invariant Grown(reverse, key, ValuesAt(values, done), r)
        decreases |todo|
      {
        var l :| l in todo;
        GrowOne(reverse, key, values, done, l, r);
        r := r[values[l] := key];
        todo := todo - {l};
        done := done + {l};
      }
      assert done == values.Keys;
      ReverseGrows(items, before, key, reverse, r);
    }

    method GetLabelValue(key: string, locale: Option<Locale>) returns (r: Value)
      ensures key !in items ==> r == None
      ensures key in items ==>
        (exists t :: Transferred(locale, items[key].Keys, t) && r == (if t.None? then None else items[key][t.value]))
    {
      if key !in items {
        return None;
      }
      var t := Transfer(locale, items[key].Keys);
      TransferredExists(locale, items[key].Keys, t);
      r := if t.None? then None else items[key][t.value];
    }

    method GetKeyFromValue(v: Value) returns (key: Option<string>)
      ensures key == if v in valueToKeyMap then Some(valueToKeyMap[v]) else None
    {
      if v in valueToKeyMap {
        return Some(valueToKeyMap[v]);
      }
      return None;
    }
  }

  lemma {:induction false} LastHolderHolds(items: Items, order: seq<string>, v: Value)
    ensures LastHolder(items, order, v).Some? ==> LastHolder(items, order, v).value in order && Holds(items, LastHolder(items, order, v).value, v)
    ensures LastHolder(items, order, v).None? ==> forall k :: k in order ==> !Holds(items, k, v)
    decreases |order|
  {
    if order != [] {
      LastHolderHolds(items, order[..|order| - 1], v);
    }
  }

  /** Every value of every label is found in reverse, at a label whose item contains it. */
  lemma EveryValueHasKey(items: Items, order: seq<string>, reverse: map<Value, string>, key: string, l: string)
    requires Enumerates(order, items.Keys) && IsReverse(items, order, reverse)
    requires key in items && l in items[key]
    ensures items[key][l] in reverse && Holds(items, reverse[items[key][l]], items[key][l])
  {
    assert key in order && items[key][l] in items[key].Values;
    LastHolderHolds(items, order, items[key][l]);
  }

  /** No other label has any of this label's values. */
  ghost predicate Own(items: Items, key: string)
    requires key in items
  {
    forall other, v :: v in items[key].Values && Holds(items, other, v) ==> other == key
  }

  /** Whatever the enumeration order and the real locale asked for, the label is found back from its value. */
  ghost predicate FoundBack(items: Items, key: string)
    requires key in items
  {
    forall order, locale, t ::
      Enumerates(order, items.Keys) && Asked(locale) && Transferred(locale, items[key].Keys, t) ==> LeadsBack(items, order, key, t)
  }

  predicate Asked(locale: Option<Locale>) {
    locale.Some? ==> locale.value.Real()
  }

  predicate LeadsBack(items: Items, order: seq<string>, key: string, t: Option<string>)
    requires key in items
  {
    t.Some? && t.value in items[key] && LastHolder(items, order, items[key][t.value]) == Some(key)
  }

  lemma {:induction false} EnumerateUpTo(keys: set<string>, last: string) returns (order: seq<string>)
    requires last !in keys
    ensures Enumerates(order + [last], keys + {last})
    decreases |keys|
  {
    if keys == {} {
      order := [];
    } else {
      var k :| k in keys;
      var rest := EnumerateUpTo(keys - {k}, last);
      order := [k] + rest;
      var all := rest + [last];
      assert order + [last] == [k] + all;
      assert k !in all;
      assert forall j :: 0 <= j < |all| ==> all[j] in all;
    }
  }

  lemma OwnLeadsBack(items: Items, order: seq<string>, key: string, locale: Option<Locale>, t: Option<string>)
    requires key in items && items[key] != map[] && Own(items, key)
    requires Enumerates(order, items.Keys) && Transferred(locale, items[key].Keys, t)
    ensures LeadsBack(items, order, key, t)
  {
    TransferredExists(locale, items[key].Keys, t);
    var v := items[key][t.value];
    assert v in items[key].Values && key in order;
    LastHolderHolds(items, order, v);
  }

  lemma SharedLeadsAway(items: Items, key: string, other: string, l: string) returns (order: seq<string>)
    requires key in items && l in items[key] && l != "" && other != key && Holds(items, other, items[key][l])
    ensures Enumerates(order, items.Keys) && Transferred(Some(Locale(LanguageOf(l), l)), items[key].Keys, Some(l))
    ensures !LeadsBack(items, order, key, Some(l))
  {
    var before := EnumerateUpTo(items.Keys - {other}, other);
    order := before + [other];
    assert items.Keys - {other} + {other} == items.Keys;
  }

  /** A label with values is found back from its value, for every real locale and through every fallback, exactly when none
      of its values belongs to another label. */
  lemma FoundBackExactly(items: Items, key: string)
    requires key in items && items[key] != map[] && "" !in items[key]
    ensures FoundBack(items, key) <==> Own(items, key)
  {
    if Own(items, key) {
      forall order, locale, t | Enumerates(order, items.Keys) && Transferred(locale, items[key].Keys, t)
        ensures LeadsBack(items, order, key, t)
      {
        OwnLeadsBack(items, order, key, locale, t);
      }
    } else {
      var other, v :| v in items[key].Values && Holds(items, other, v) && other != key;
      var l :| l in items[key] && items[key][l] == v;
      var order := SharedLeadsAway(items, key, other, l);
    }
  }
}
