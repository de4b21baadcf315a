/** How I18nContainer reads a resource name and a locale from the path of a file. */
module I18nNames {
  import opened Wrappers
  import opened Texts

  const MARK := "-i18n-"
  const SUFFIX := ".json"

  datatype Place = Place(name: string, locale: string)

  /** The outcome for a path: an index out of bounds, a logged error, or a place. */
  datatype Naming = OutOfBounds | Skipped | Named(place: Place)

  /** `new Locale(language, country).toString()`; the country of a lone language is empty. */
  type LocaleText = (string, string) -> string

  /** `s.lastIndexOf(c)` */
  function FindLast(s: string, c: char): (r: Option<nat>)
    ensures r.Some? ==> r.value < |s| && s[r.value] == c && forall i :: r.value < i < |s| ==> s[i] != c
    ensures r.None? ==> c !in s
  {
    if s == "" then None else if s[|s| - 1] == c then Some(|s| - 1) else FindLast(s[..|s| - 1], c)
  }

  function FileName(path: string): string {
    var i := FindLast(path, '/');
    if i.Some? then path[i.value + 1..] else path
  }

  function Replaced(s: string): (r: string)
    ensures |r| == |s| && forall i :: 0 <= i < |s| ==> r[i] == if s[i] == '-' then '_' else s[i]
  {
    seq(|s|, i requires 0 <= i < |s| => if s[i] == '-' then '_' else s[i])
  }

  /** All the pieces between underscores. */
  function Pieces(s: string): seq<string>
    decreases |s|
  {
    if s == "" then [""]
    else
      var before := Pieces(s[..|s| - 1]);
      if s[|s| - 1] == '_' then before + [""]
      else if before == [] then [[s[|s| - 1]]]
      else before[|before| - 1 := before[|before| - 1] + [s[|s| - 1]]]
  }

  function DropEmpty(parts: seq<string>): seq<string> {
    if parts != [] && parts[|parts| - 1] == "" then DropEmpty(parts[..|parts| - 1]) else parts
  }

  /** `split("_")` of a text that is not empty: trailing empty pieces are dropped. */
  function Split(s: string): seq<string> {
    DropEmpty(Pieces(s))
  }

  function PlaceOf(text: LocaleText, name: string, source: string): Naming {
    if name == "" || source == "" then Skipped
    else
      var parts := Split(Replaced(source));
      if |parts| == 1 then Named(Place(name, text(parts[0], "")))
      else if |parts| == 2 then Named(Place(name, text(parts[0], parts[1])))
      else Skipped
  }

  function NameOfFile(text: LocaleText, file: string): Naming {
    var mark, dot := IndexOf(file, MARK), FindLast(file, '.');
    if mark == |file| || dot.None? || dot.value < mark + |MARK| then OutOfBounds
    else PlaceOf(text, file[..mark], file[mark + |MARK|..dot.value])
  }

  function NameOf(text: LocaleText, path: string): Naming {
    NameOfFile(text, FileName(path))
  }

  // ----- the paths that the scanner finds -----

  /** The file name matches `.*?\-i18n\-.*?\.json`. */
  ghost predicate Scanned(path: string) {
    var file := FileName(path);
    exists i: nat :: i + |MARK| + |SUFFIX| <= |file| && At(file[i..], MARK) && file[|file| - |SUFFIX|..] == SUFFIX
  }

  /** No path that the scanner finds is out of bounds. */
  lemma ScannedInBounds(text: LocaleText, path: string)
    requires Scanned(path)
    ensures NameOf(text, path) != OutOfBounds
  {
    var file := FileName(path);
    var i: nat :| i + |MARK| + |SUFFIX| <= |file| && At(file[i..], MARK) && file[|file| - |SUFFIX|..] == SUFFIX;
    OccursBy(file, MARK, i);
    assert file[|file| - 5] == SUFFIX[0];
  }

  lemma {:induction false} OnePiece(s: string)
    requires '_' !in s
    ensures Pieces(s) == [s]
    decreases |s|
  {
    if s != "" {
      OnePiece(s[..|s| - 1]);
      assert s == s[..|s| - 1] + [s[|s| - 1]];
    }
  }

  lemma {:induction false} TwoPieces(a: string, b: string)
    requires '_' !in a && '_' !in b
    ensures Pieces(a + "_" + b) == [a, b]
    decreases |b|
  {
    var s := a + "_" + b;
    if b == "" {
      OnePiece(a);
      assert s[..|s| - 1] == a;
    } else {
      TwoPieces(a, b[..|b| - 1]);
      assert s[..|s| - 1] == a + "_" + b[..|b| - 1];
      assert b == b[..|b| - 1] + [b[|b| - 1]];
    }
  }

  /** A part of a name that none of the searches stops in. */
  predicate Part(s: string) {
    s != "" && forall i :: 0 <= i < |s| ==> s[i] !in "_-./"
  }

  predicate Slashless(s: string) {
    '/' !in s
  }

  lemma FileNameOf(dir: string, file: string)
    requires Slashless(file)
    ensures FileName(dir + "/" + file) == file && FileName(file) == file
  {
    var path := dir + "/" + file;
    var i := FindLast(path, '/');
    assert path[|dir|] == '/';
    assert forall k :: |dir| < k < |path| ==> path[k] == file[k - |dir| - 1];
    assert i == Some(|dir|);
  }

  /** Where the pattern first occurs does not change when more text follows. */
  lemma {:induction false} IndexStays(a: string, b: string, pattern: string)
    requires pattern != [] && IndexOf(a, pattern) < |a|
    ensures IndexOf(a + b, pattern) == IndexOf(a, pattern)
  {
    assert (a + b)[..|a|] == a;
    if At(a, pattern) {
      assert (a + b)[..|pattern|] == a[..|pattern|];
    } else {
      assert (a + b)[1..] == a[1..] + b;
      IndexStays(a[1..], b, pattern);
      NoEarlier(a, b, pattern);
    }
  }

  lemma NoEarlier(a: string, b: string, pattern: string)
    requires pattern != [] && !At(a, pattern) && IndexOf(a, pattern) < |a|
    ensures !At(a + b, pattern)
  {
    var i := IndexOf(a, pattern);
    assert i + |pattern| <= |a|;
    assert (a + b)[..|pattern|] == a[..|pattern|];
  }

  lemma LastDot(front: string)
    ensures FindLast(front + SUFFIX, '.') == Some(|front|)
  {
    var file := front + SUFFIX;
    assert file[|front|] == SUFFIX[0];
    assert forall i :: |front| < i < |file| ==> file[i] == SUFFIX[i - |front|];
  }

  function SourceOf(language: string, country: Option<string>, separator: char): string {
    if country.None? then language else language + [separator] + country.value
  }

  lemma SourceRead(language: string, country: Option<string>, separator: char)
    requires Part(language) && (country.Some? ==> Part(country.value)) && separator in "-_"
    ensures Split(Replaced(SourceOf(language, country, separator))) == [language] + if country.None? then [] else [country.value]
  {
    if country.None? {
      assert Replaced(language) == language;
      OnePiece(language);
    } else {
      assert Replaced(language + [separator] + country.value) == language + "_" + country.value;
      TwoPieces(language, country.value);
    }
  }

  lemma Regroup(a: string, b: string, c: string)
    ensures a + b + c == a + (b + c)
  {
  }

  lemma FileSlices(name: string, source: string, file: string)
    requires file == name + MARK + source + SUFFIX
    ensures file[..|name|] == name && file[|name| + |MARK|..|name + MARK + source|] == source
  {
  }

  lemma FileRead(text: LocaleText, name: string, source: string)
    requires IndexOf(name + MARK, MARK) == |name|
    ensures NameOfFile(text, name + MARK + source + SUFFIX) == PlaceOf(text, name, source)
  {
    var file := name + MARK + source + SUFFIX;
    Regroup(name + MARK, source, SUFFIX);
    IndexStays(name + MARK, source + SUFFIX, MARK);
    LastDot(name + MARK + source);
    FileSlices(name, source, file);
  }

  lemma FileSlashless(name: string, source: string)
    requires Slashless(name) && Slashless(source)
    ensures Slashless(name + MARK + source + SUFFIX)
  {
  }

  lemma SourceSlashless(language: string, country: Option<string>, separator: char)
    requires Part(language) && (country.Some? ==> Part(country.value)) && separator in "-_"
    ensures Slashless(SourceOf(language, country, separator))
  {
  }

  lemma PlaceRead(text: LocaleText, name: string, language: string, country: Option<string>, separator: char)
    requires name != "" && Part(language) && (country.Some? ==> Part(country.value)) && separator in "-_"
    ensures PlaceOf(text, name, SourceOf(language, country, separator)) == Named(Place(name, text(language, country.GetOr(""))))
  {
    SourceRead(language, country, separator);
  }

  lemma PathRead(text: LocaleText, dir: string, name: string, source: string)
    requires IndexOf(name + MARK, MARK) == |name| && Slashless(name) && Slashless(source)
    ensures NameOf(text, dir + "/" + (name + MARK + source + SUFFIX)) == PlaceOf(text, name, source)
  {
    FileSlashless(name, source);
    FileNameOf(dir, name + MARK + source + SUFFIX);
    FileRead(text, name, source);
  }

  /** A file named for a resource, a language and perhaps a country is given that place, unless the name brings a mark about. */
  lemma NamedBack(text: LocaleText, dir: string, name: string, language: string, country: Option<string>, separator: char)
    requires name != "" && Slashless(name) && IndexOf(name + MARK, MARK) == |name|
    requires Part(language) && (country.Some? ==> Part(country.value)) && separator in "-_"
    ensures NameOf(text, dir + "/" + (name + MARK + SourceOf(language, country, separator) + SUFFIX)) ==
            Named(Place(name, text(language, country.GetOr(""))))
  {
    SourceSlashless(language, country, separator);
    PathRead(text, dir, name, SourceOf(language, country, separator));
    PlaceRead(text, name, language, country, separator);
  }
}
