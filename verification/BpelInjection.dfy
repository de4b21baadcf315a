/** BPELVariableInjectionUtil: replaces `$bpelvar[name]` markers in BPEL code until none is left. */
module BpelInjection {
  import opened Texts
  import opened Wrappers

  const MARK: string := "$bpelvar["

  /** `readVariable` followed by `nodeToString`; None is a fault. */
  type Reader = string -> Option<string>

  // ----- the string operations of the source -----

  /** Replaces every occurrence, left to right, without rescanning. */
  function Replace(s: string, pattern: string, by_: string): string
    requires pattern != []
    decreases |s|
  {
    if s == [] then []
    else if At(s, pattern) then by_ + Replace(s[|pattern|..], pattern, by_)
    else [s[0]] + Replace(s[1..], pattern, by_)
  }

  /** How far the first `]` is, or the length of the string. */
  function Closing(s: string): (i: nat)
    ensures i <= |s| && (i < |s| ==> s[i] == ']')
  {
    if s == [] || s[0] == ']' then 0 else 1 + Closing(s[1..])
  }

  function Marker(name: string): string {
    MARK + name + "]"
  }

  // ----- the loop -----

  /** `Fault` is caught and answered with null; `OutOfBounds` leaves the method. */
  datatype End = Replaced(code: string) | Fault | OutOfBounds

  datatype Step = Stop(end: End) | Next(code: string)

  datatype Scan = NoMarker | Unclosed | Found(name: string)

  /** The name of the first marker: what lies between it and the first `]` after it. */
  function FirstName(code: string): Scan {
    NameFrom(code, IndexOf(code, MARK))
  }

  function NameFrom(code: string, start: nat): Scan
    requires start <= |code| && (start < |code| ==> At(code[start..], MARK))
  {
    if start == |code| then NoMarker else NameIn(code[start..])
  }

  function NameIn(s: string): Scan
    requires At(s, MARK)
  {
    var close := Closing(s);
    if close == |s| then Unclosed else Found(s[|MARK|..close])
  }

  function Round(read: Reader, code: string): Step {
    match FirstName(code)
    case NoMarker => Stop(Replaced(code))
    case Unclosed => Stop(OutOfBounds)
    case Found(name) =>
      match read(name)
      case None => Stop(Fault)
      case Some(content) => Next(Replace(code, Marker(name), content))
  }

  function Rounds(read: Reader): string -> Step {
    code => Round(read, code)
  }

  lemma {:induction false} ClosingSkips(a: string, b: string)
    requires ']' !in a
    ensures Closing(a + b) == |a| + Closing(b)
  {
    if a == [] {
      assert a + b == b;
    } else {
      assert (a + b)[1..] == a[1..] + b;
      ClosingSkips(a[1..], b);
    }
  }

  /** How a loop of such steps ends if that takes at most `rounds` replacements. */
  function Loop(step: string -> Step, code: string, rounds: nat): Option<End>
    decreases rounds
  {
    match step(code)
    case Stop(end) => Some(end)
    case Next(next) => if rounds == 0 then None else Loop(step, next, rounds - 1)
  }

  /** Looks for the `]` that ends a name character by character. */
  method FindClosing(code: string, startIndex: nat) returns (endIndex: nat)
    requires startIndex <= |code|
    ensures endIndex == startIndex + Closing(code[startIndex..])
  {
    endIndex := startIndex;
    while endIndex < |code| && code[endIndex] != ']'
      invariant startIndex <= endIndex <= |code|
      invariant startIndex + Closing(code[startIndex..]) == endIndex + Closing(code[endIndex..])
    {
      assert code[endIndex..][1..] == code[endIndex + 1..];
      endIndex := endIndex + 1;
    }
  }

  lemma NameBetween(code: string, start: nat, end: nat)
    requires start <= |code| && At(code[start..], MARK) && end == start + Closing(code[start..])
    ensures start + |MARK| <= end <= |code|
    ensures NameIn(code[start..]) == if end == |code| then Unclosed else Found(code[start + |MARK|..end])
  {
    assert code[start + |MARK|..end] == code[start..][|MARK|..end - start];
  }

  method FindName(code: string) returns (scan: Scan)
    ensures scan == FirstName(code)
  {
    var startIndex := IndexOf(code, MARK);
    if startIndex == |code| {
      return NoMarker;
    }
    var endIndex := FindClosing(code, startIndex);
    NameBetween(code, startIndex, endIndex);
    return if endIndex == |code| then Unclosed else Found(code[startIndex + |MARK|..endIndex]);
  }

  /** The loop itself, on any code and contents with which it ends. */
  method ReplaceVariables(read: Reader, code: string, ghost rounds: nat) returns (end: End)
    requires Loop(Rounds(read), code, rounds).Some?
    ensures Some(end) == Loop(Rounds(read), code, rounds)
  {
    var current := code;
    var scan := FindName(current);
    ghost var left := rounds;
    ghost var step := Rounds(read);
    while scan != NoMarker
      invariant scan == FirstName(current)
      invariant Loop(step, current, left) == Loop(step, code, rounds)
      decreases left
    {
      ghost var next := Round(read, current);
      if scan == Unclosed {
        return OutOfBounds;
      }
      var content := read(scan.name);
      if content.None? {
        return Fault;
      }
      current := Replace(current, Marker(scan.name), content.value);
      assert next == Next(current);
      scan := FindName(current);
      left := left - 1;
    }
    return Replaced(current);
  }

  // ----- it ends when contents hold no '$' -----

  function Dollars(s: string): nat {
    if s == [] then 0 else (if s[0] == '$' then 1 else 0) + Dollars(s[1..])
  }

  lemma {:induction false} DollarsConcat(a: string, b: string)
    ensures Dollars(a + b) == Dollars(a) + Dollars(b)
  {
    if a == [] {
      assert a + b == b;
    } else {
      assert (a + b)[1..] == a[1..] + b;
      DollarsConcat(a[1..], b);
    }
  }

  lemma {:induction false} NoDollars(s: string)
    requires '$' !in s
    ensures Dollars(s) == 0
  {
    if s != [] {
      NoDollars(s[1..]);
    }
  }

  /** Replacing costs at least one '$' for each occurrence. */
  lemma {:induction false} ReplaceDollars(s: string, pattern: string, by_: string)
    requires pattern != [] && pattern[0] == '$' && '$' !in by_
    ensures Dollars(Replace(s, pattern, by_)) <= Dollars(s)
    ensures IndexOf(s, pattern) < |s| ==> Dollars(Replace(s, pattern, by_)) < Dollars(s)
    decreases |s|
  {
    if s != [] {
      if At(s, pattern) {
        var rest := s[|pattern|..];
        ReplaceDollars(rest, pattern, by_);
        assert s == pattern + rest;
        DollarsConcat(pattern, rest);
        DollarsConcat(by_, Replace(rest, pattern, by_));
        NoDollars(by_);
      } else {
        ReplaceDollars(s[1..], pattern, by_);
        DollarsConcat([s[0]], Replace(s[1..], pattern, by_));
      }
    }
  }

  ghost predicate Dollarless(read: Reader) {
    forall name :: read(name).Some? ==> '$' !in read(name).value
  }

  lemma FoundOccurs(code: string, name: string)
    requires FirstName(code) == Found(name)
    ensures IndexOf(code, Marker(name)) < |code|
  {
    var start := IndexOf(code, MARK);
    FoundAt(code[start..], name);
    OccursBy(code, Marker(name), start);
  }

  lemma FoundAt(s: string, name: string)
    requires At(s, MARK) && NameIn(s) == Found(name)
    ensures At(s, Marker(name))
  {
    assert s[..|Marker(name)|] == s[..|MARK|] + s[|MARK|..Closing(s)] + [s[Closing(s)]];
  }

  lemma RoundSpendsDollar(read: Reader, code: string)
    requires Dollarless(read) && Round(read, code).Next?
    ensures Dollars(Round(read, code).code) < Dollars(code)
  {
    var name := FirstName(code).name;
    FoundOccurs(code, name);
    ReplaceDollars(code, Marker(name), read(name).value);
  }

  ghost predicate Spends(step: string -> Step) {
    forall code :: step(code).Next? ==> Dollars(step(code).code) < Dollars(code)
  }

  lemma {:induction false} SpendingEnds(step: string -> Step, code: string)
    requires Spends(step)
    ensures Loop(step, code, Dollars(code)).Some?
    decreases Dollars(code)
  {
    if step(code).Next? {
      var next := step(code).code;
      SpendingEnds(step, next);
      LoopLonger(step, next, Dollars(next), Dollars(code) - 1);
    }
  }

  lemma {:induction false} LoopLonger(step: string -> Step, code: string, rounds: nat, more: nat)
    requires Loop(step, code, rounds).Some? && rounds <= more
    ensures Loop(step, code, more) == Loop(step, code, rounds)
    decreases rounds
  {
    if step(code).Next? {
      LoopLonger(step, step(code).code, rounds - 1, more - 1);
    }
  }

  /** Contents without '$': whatever the code, the loop ends, in no more rounds than the code has '$'. */
  lemma EndsWithoutDollars(read: Reader, code: string)
    requires Dollarless(read)
    ensures Loop(Rounds(read), code, Dollars(code)).Some?
  {
    forall code | Rounds(read)(code).Next? ensures Dollars(Rounds(read)(code).code) < Dollars(code) {
      RoundSpendsDollar(read, code);
    }
    SpendingEnds(Rounds(read), code);
  }

  // ----- code in which every marker is closed and none begins by accident -----

  datatype Piece = Lit(text: string) | Var(name: string)

  function Spell(p: Piece): string {
    match p
    case Lit(text) => text
    case Var(name) => Marker(name)
  }

  function Flatten(ps: seq<Piece>): string {
    if ps == [] then [] else Spell(ps[0]) + Flatten(ps[1..])
  }

  /** `"$bpelvar[" + variableName + "]"` */
  function Spelled(name: string): string {
    "$bpelvar[" + name + "]"
  }

  lemma VarSpelled(before: string, name: string, after: string)
    ensures Flatten([Lit(before), Var(name), Lit(after)]) == before + Spelled(name) + after
  {
    var ps, rest := [Lit(before), Var(name), Lit(after)], [Var(name), Lit(after)];
    assert ps[1..] == rest && rest[1..] == [Lit(after)] && [Lit(after)][1..] == [];
    assert Flatten([Lit(after)]) == after + [] == after;
    assert Flatten(rest) == Marker(name) + after;
  }

  /** No '$' in the text begins a marker, or might with what comes after the text. */
  predicate Markless(text: string) {
    text == [] || ((text[0] == '$' ==> !(text <= MARK) && !(MARK <= text)) && Markless(text[1..]))
  }

  predicate Clean(p: Piece) {
    match p
    case Lit(text) => Markless(text)
    case Var(name) => Markless(name + "]") && ']' !in name
  }

  lemma {:induction false} DollarlessIsMarkless(text: string)
    requires '$' !in text
    ensures Markless(text)
  {
    if text != [] {
      DollarlessIsMarkless(text[1..]);
    }
  }

  lemma {:induction false} MarklessAfter(a: string, text: string)
    requires '$' !in a && Markless(text)
    ensures Markless(a + text)
  {
    if a == [] {
      assert a + text == text;
    } else {
      assert (a + text)[1..] == a[1..] + text;
      MarklessAfter(a[1..], text);
    }
  }

  lemma NoMarkHere(text: string, rest: string)
    requires text != [] && Markless(text)
    ensures !At(text + rest, MARK)
  {
    var s := text + rest;
    assert s[0] == text[0] && MARK[0] == '$';
    if |MARK| <= |text| {
      assert text[..|MARK|] == s[..|MARK|];
    } else if |MARK| <= |s| {
      assert text == s[..|MARK|][..|text|];
    }
  }

  lemma MarkerBegins(s: string, name: string)
    requires At(s, Marker(name))
    ensures At(s, MARK)
  {
    assert s[..|MARK|] == s[..|Marker(name)|][..|MARK|] == Marker(name)[..|MARK|];
  }

  predicate AllClean(ps: seq<Piece>) {
    ps == [] || (Clean(ps[0]) && AllClean(ps[1..]))
  }

  /** What a variable holds, as pieces. */
  type Bodies = string -> Option<seq<Piece>>

  ghost predicate Reads(read: Reader, bodies: Bodies) {
    forall name ::
      match bodies(name)
      case None => read(name) == None
      case Some(body) => AllClean(body) && read(name) == Some(Flatten(body))
  }

  function FirstVar(ps: seq<Piece>): Option<string> {
    if ps == [] then None else if ps[0].Var? then Some(ps[0].name) else FirstVar(ps[1..])
  }

  /** Every occurrence of one variable replaced at once. */
  function Subst(ps: seq<Piece>, name: string, body: seq<Piece>): seq<Piece> {
    if ps == [] then []
    else (if ps[0] == Var(name) then body else [ps[0]]) + Subst(ps[1..], name, body)
  }

  /** A text, or what is met first, reading from left to right: an unreadable variable or references nested too deep. */
  datatype Outcome = Whole(text: string) | Unreadable | Deep

  function Join(a: Outcome, b: Outcome): Outcome {
    if !a.Whole? then a else if !b.Whole? then b else Whole(a.text + b.text)
  }

  /** Every variable replaced by its expanded content, references nested at most `depth` deep. */
  function Expand(bodies: Bodies, ps: seq<Piece>, depth: nat): Outcome
    decreases depth, |ps|
  {
    if ps == [] then Whole([]) else Join(ExpandPiece(bodies, ps[0], depth), Expand(bodies, ps[1..], depth))
  }

  function ExpandPiece(bodies: Bodies, p: Piece, depth: nat): Outcome
    decreases depth, 0
  {
    match p
    case Lit(text) => Whole(text)
    case Var(name) =>
      if bodies(name).None? then Unreadable
      else if depth == 0 then Deep
      else Expand(bodies, bodies(name).value, depth - 1)
  }

  // ----- one round on pieces -----

  lemma {:induction false} ReplaceSkips(a: string, b: string, name: string, by_: string)
    requires Markless(a)
    ensures Replace(a + b, Marker(name), by_) == a + Replace(b, Marker(name), by_)
  {
    if a == [] {
      assert a + b == b;
    } else {
      NoMarkHere(a, b);
      if At(a + b, Marker(name)) {
        MarkerBegins(a + b, name);
      }
      assert (a + b)[1..] == a[1..] + b;
      ReplaceSkips(a[1..], b, name, by_);
      assert a == [a[0]] + a[1..];
    }
  }

  /** Markers of different variables do not match each other. */
  lemma MarkersDiffer(a: string, b: string, rest: string)
    requires ']' !in a && ']' !in b && At(Marker(a) + rest, Marker(b))
    ensures a == b
  {
    var s := Marker(a) + rest;
    assert s[|MARK|..] == a + ("]" + rest);
    ClosingSkips(a, "]" + rest);
    assert s == Marker(b) + s[|Marker(b)|..];
    assert s[|MARK|..] == b + ("]" + s[|Marker(b)|..]);
    ClosingSkips(b, "]" + s[|Marker(b)|..]);
    assert a == s[|MARK|..][..|a|] && b == s[|MARK|..][..|b|];
  }

  /** Replacing in the text is substituting in the pieces. */
  lemma {:induction false} ReplaceIsSubst(ps: seq<Piece>, name: string, body: seq<Piece>)
    requires AllClean(ps) && Clean(Var(name))
    ensures Replace(Flatten(ps), Marker(name), Flatten(body)) == Flatten(Subst(ps, name, body))
    decreases |ps|
  {
    if ps != [] {
      var rest := Flatten(ps[1..]);
      var content := Flatten(body);
      ReplaceIsSubst(ps[1..], name, body);
      var after := Subst(ps[1..], name, body);
      match ps[0]
      case Lit(text) =>
        ReplaceSkips(text, rest, name, content);
        assert ([Lit(text)] + after)[1..] == after;
      case Var(other) =>
        if other == name {
          assert (Marker(name) + rest)[|Marker(name)|..] == rest;
          FlattenConcat(body, after);
        } else {
          ReplaceOther(other, rest, name, content);
          assert ([Var(other)] + after)[1..] == after;
        }
    }
  }

  lemma ReplaceAfter(c: char, tail: string, rest: string, name: string, content: string)
    requires Markless(tail) && !At([c] + (tail + rest), Marker(name))
    ensures Replace([c] + (tail + rest), Marker(name), content) == [c] + (tail + Replace(rest, Marker(name), content))
  {
    var s := [c] + (tail + rest);
    assert s[0] == c && s[1..] == tail + rest;
    ReplaceSkips(tail, rest, name, content);
  }

  lemma ReplaceOther(other: string, rest: string, name: string, content: string)
    requires Clean(Var(other)) && ']' !in name && other != name
    ensures Replace(Marker(other) + rest, Marker(name), content) == Marker(other) + Replace(rest, Marker(name), content)
  {
    var tail := MARK[1..] + (other + "]");
    MarklessAfter(MARK[1..], other + "]");
    if At(Marker(other) + rest, Marker(name)) {
      MarkersDiffer(other, name, rest);
    }
    MarkerParts(other, tail, rest);
    ReplaceAfter('$', tail, rest, name, content);
    MarkerParts(other, tail, Replace(rest, Marker(name), content));
  }

  lemma MarkerParts(name: string, tail: string, rest: string)
    requires tail == MARK[1..] + (name + "]")
    ensures Marker(name) + rest == ['$'] + (tail + rest)
  {
    assert Marker(name) == ['$'] + tail;
  }

  lemma {:induction false} FlattenConcat(a: seq<Piece>, b: seq<Piece>)
    ensures Flatten(a + b) == Flatten(a) + Flatten(b)
  {
    if a == [] {
      assert a + b == b;
    } else {
      assert (a + b)[1..] == a[1..] + b;
      FlattenConcat(a[1..], b);
    }
  }

  lemma NameOfMarker(name: string, rest: string)
    requires ']' !in name
    ensures At(Marker(name) + rest, MARK) && NameIn(Marker(name) + rest) == Found(name)
  {
    var s := Marker(name) + rest;
    assert s == (MARK + name) + ("]" + rest);
    ClosingSkips(MARK + name, "]" + rest);
  }

  /** The first marker in the text is that of the first variable among the pieces. */
  lemma {:induction false} FirstMarker(ps: seq<Piece>)
    requires AllClean(ps)
    ensures FirstName(Flatten(ps)) == if FirstVar(ps).None? then NoMarker else Found(FirstVar(ps).value)
    decreases |ps|
  {
    if ps != [] {
      var rest := Flatten(ps[1..]);
      match ps[0]
      case Lit(text) =>
        FirstMarker(ps[1..]);
        NameAfterText(text, rest);
      case Var(name) =>
        NameOfMarker(name, rest);
    }
  }

  /** The name only depends on what follows the marker. */
  lemma SameName(code: string, other: string)
    requires code[IndexOf(code, MARK)..] == other[IndexOf(other, MARK)..]
    ensures FirstName(code) == FirstName(other)
  {
    assert |code| - IndexOf(code, MARK) == |other| - IndexOf(other, MARK) by {
      assert |code[IndexOf(code, MARK)..]| == |other[IndexOf(other, MARK)..]|;
    }
  }

  lemma NameAfterText(text: string, rest: string)
    requires Markless(text)
    ensures FirstName(text + rest) == FirstName(rest)
  {
    MarkAfterText(text, rest);
    SameName(text + rest, rest);
  }

  lemma {:induction false} MarkAfterText(text: string, rest: string)
    requires Markless(text)
    ensures IndexOf(text + rest, MARK) == |text| + IndexOf(rest, MARK)
  {
    if text == [] {
      assert text + rest == rest;
    } else {
      NoMarkHere(text, rest);
      assert (text + rest)[1..] == text[1..] + rest;
      MarkAfterText(text[1..], rest);
    }
  }

  lemma {:induction false} FirstVarClean(ps: seq<Piece>)
    requires AllClean(ps) && FirstVar(ps).Some?
    ensures Clean(Var(FirstVar(ps).value))
    decreases |ps|
  {
    if ps[0].Lit? {
      FirstVarClean(ps[1..]);
    }
  }

  /** The round as it is on pieces. */
  function PieceStep(bodies: Bodies, ps: seq<Piece>): Step {
    match FirstVar(ps)
    case None => Stop(Replaced(Flatten(ps)))
    case Some(name) =>
      if bodies(name).None? then Stop(Fault) else Next(Flatten(Subst(ps, name, bodies(name).value)))
  }

  /** On pieces of the kind `ok`, a step of the loop is a step on pieces, and stays among them. */
  ghost predicate FollowsOn(step: string -> Step, bodies: Bodies, ok: seq<Piece> -> bool, ps: seq<Piece>) {
    ok(ps) ==>
      && step(Flatten(ps)) == PieceStep(bodies, ps)
      && (PieceStep(bodies, ps).Next? ==> ok(Subst(ps, FirstVar(ps).value, bodies(FirstVar(ps).value).value)))
  }

  ghost predicate Follows(step: string -> Step, bodies: Bodies, ok: seq<Piece> -> bool) {
    forall ps :: FollowsOn(step, bodies, ok, ps)
  }

  lemma RoundOnPieces(read: Reader, bodies: Bodies, ps: seq<Piece>)
    requires Reads(read, bodies) && AllClean(ps)
    ensures Round(read, Flatten(ps)) == PieceStep(bodies, ps)
  {
    FirstMarker(ps);
    match FirstVar(ps)
    case None =>
    case Some(name) =>
      FirstVarClean(ps);
      if bodies(name).Some? {
        ReplaceIsSubst(ps, name, bodies(name).value);
      }
  }

  lemma {:induction false} SubstClean(ps: seq<Piece>, name: string, body: seq<Piece>)
    requires AllClean(ps) && AllClean(body)
    ensures AllClean(Subst(ps, name, body))
    decreases |ps|
  {
    if ps != [] {
      SubstClean(ps[1..], name, body);
      CleanConcat(if ps[0] == Var(name) then body else [ps[0]], Subst(ps[1..], name, body));
    }
  }

  lemma {:induction false} CleanConcat(a: seq<Piece>, b: seq<Piece>)
    requires AllClean(a) && AllClean(b)
    ensures AllClean(a + b)
  {
    if a == [] {
      assert a + b == b;
    } else {
      assert (a + b)[1..] == a[1..] + b;
      CleanConcat(a[1..], b);
    }
  }

  lemma RoundsFollow(read: Reader, bodies: Bodies)
    requires Reads(read, bodies)
    ensures Follows(Rounds(read), bodies, AllClean)
  {
    forall ps ensures FollowsOn(Rounds(read), bodies, AllClean, ps) {
      if AllClean(ps) {
        RoundOnPieces(read, bodies, ps);
        if PieceStep(bodies, ps).Next? {
          var name := FirstVar(ps).value;
          SubstClean(ps, name, bodies(name).value);
        }
      }
    }
  }

  // ----- the loop and the expansion -----

  lemma JoinJoins(a: Outcome, b: Outcome, c: Outcome)
    ensures Join(Join(a, b), c) == Join(a, Join(b, c))
  {
    if a.Whole? && b.Whole? && c.Whole? {
      assert (a.text + b.text) + c.text == a.text + (b.text + c.text);
    }
  }

  lemma JoinNothing(a: Outcome)
    ensures Join(Whole([]), a) == a == Join(a, Whole([]))
  {
    if a.Whole? {
      assert [] + a.text == a.text == a.text + [];
    }
  }

  lemma {:induction false} ExpandConcat(bodies: Bodies, a: seq<Piece>, b: seq<Piece>, depth: nat)
    ensures Expand(bodies, a + b, depth) == Join(Expand(bodies, a, depth), Expand(bodies, b, depth))
    decreases |a|
  {
    if a == [] {
      assert a + b == b;
      JoinNothing(Expand(bodies, b, depth));
    } else {
      assert (a + b)[1..] == a[1..] + b;
      ExpandConcat(bodies, a[1..], b, depth);
      JoinJoins(ExpandPiece(bodies, a[0], depth), Expand(bodies, a[1..], depth), Expand(bodies, b, depth));
    }
  }

  lemma {:induction false} ExpandDeeper(bodies: Bodies, ps: seq<Piece>, depth: nat, more: nat)
    requires Expand(bodies, ps, depth) != Deep && depth <= more
    ensures Expand(bodies, ps, more) == Expand(bodies, ps, depth)
    decreases depth, |ps|
  {
    if ps != [] {
      PieceDeeper(bodies, ps[0], depth, more);
      if ExpandPiece(bodies, ps[0], depth).Whole? {
        ExpandDeeper(bodies, ps[1..], depth, more);
      }
    }
  }

  lemma {:induction false} PieceDeeper(bodies: Bodies, p: Piece, depth: nat, more: nat)
    requires ExpandPiece(bodies, p, depth) != Deep && depth <= more
    ensures ExpandPiece(bodies, p, more) == ExpandPiece(bodies, p, depth)
    decreases depth, 0
  {
    if p.Var? && bodies(p.name).Some? {
      ExpandDeeper(bodies, bodies(p.name).value, depth - 1, more - 1);
    }
  }

  /** One substitution does not change what the text expands to. */
  lemma {:induction false} SubstExpands(bodies: Bodies, ps: seq<Piece>, name: string, depth: nat)
    requires bodies(name).Some?
    ensures var next := Subst(ps, name, bodies(name).value);
            && (Expand(bodies, ps, depth) != Deep ==> Expand(bodies, next, depth) == Expand(bodies, ps, depth))
            && (Expand(bodies, next, depth) != Deep ==> Expand(bodies, ps, depth + 1) == Expand(bodies, next, depth))
    decreases |ps|
  {
    if ps != [] {
      var body := bodies(name).value;
      var head := if ps[0] == Var(name) then body else [ps[0]];
      SubstExpands(bodies, ps[1..], name, depth);
      ExpandConcat(bodies, head, Subst(ps[1..], name, body), depth);
      HeadExpands(bodies, ps[0], name, depth);
    }
  }

  lemma HeadExpands(bodies: Bodies, p: Piece, name: string, depth: nat)
    requires bodies(name).Some?
    ensures var head := if p == Var(name) then bodies(name).value else [p];
            && (ExpandPiece(bodies, p, depth) != Deep ==> Expand(bodies, head, depth) == ExpandPiece(bodies, p, depth))
            && (Expand(bodies, head, depth) != Deep ==> ExpandPiece(bodies, p, depth + 1) == Expand(bodies, head, depth))
  {
    if p == Var(name) {
      if ExpandPiece(bodies, p, depth) != Deep {
        ExpandDeeper(bodies, bodies(name).value, depth - 1, depth);
      }
    } else {
      ExpandOne(bodies, p, depth);
      if ExpandPiece(bodies, p, depth) != Deep {
        PieceDeeper(bodies, p, depth, depth + 1);
      }
    }
  }

  lemma ExpandOne(bodies: Bodies, p: Piece, depth: nat)
    ensures Expand(bodies, [p], depth) == ExpandPiece(bodies, p, depth)
  {
    assert [p][1..] == [];
    JoinNothing(ExpandPiece(bodies, p, depth));
  }

  /** How many replacements the expansion is made of, up to where it stops. */
  function Weight(bodies: Bodies, ps: seq<Piece>, depth: nat): nat
    decreases depth, |ps|
  {
    if ps == [] then 0
    else
      WeightOf(bodies, ps[0], depth) +
      if ExpandPiece(bodies, ps[0], depth).Whole? then Weight(bodies, ps[1..], depth) else 0
  }

  function WeightOf(bodies: Bodies, p: Piece, depth: nat): nat
    decreases depth, 0
  {
    if p.Lit? || depth == 0 || bodies(p.name).None? then 0 else 1 + Weight(bodies, bodies(p.name).value, depth - 1)
  }

  lemma {:induction false} WeightConcat(bodies: Bodies, a: seq<Piece>, b: seq<Piece>, depth: nat)
    ensures Weight(bodies, a + b, depth) ==
            Weight(bodies, a, depth) + if Expand(bodies, a, depth).Whole? then Weight(bodies, b, depth) else 0
    decreases |a|
  {
    if a == [] {
      assert a + b == b;
    } else {
      assert (a + b)[1..] == a[1..] + b;
      WeightConcat(bodies, a[1..], b, depth);
    }
  }

  lemma {:induction false} WeightDeeper(bodies: Bodies, ps: seq<Piece>, depth: nat, more: nat)
    requires Expand(bodies, ps, depth) != Deep && depth <= more
    ensures Weight(bodies, ps, more) == Weight(bodies, ps, depth)
    decreases depth, |ps|
  {
    if ps != [] {
      PieceDeeper(bodies, ps[0], depth, more);
      if ExpandPiece(bodies, ps[0], depth).Whole? {
        WeightDeeper(bodies, ps[1..], depth, more);
      }
      if ps[0].Var? && bodies(ps[0].name).Some? {
        WeightDeeper(bodies, bodies(ps[0].name).value, depth - 1, more - 1);
      }
    }
  }

  /** Each round does part of the expansion. */
  lemma {:induction false} SubstLightens(bodies: Bodies, ps: seq<Piece>, name: string, depth: nat)
    requires bodies(name).Some? && Expand(bodies, ps, depth) != Deep
    ensures Weight(bodies, Subst(ps, name, bodies(name).value), depth) <= Weight(bodies, ps, depth)
    ensures FirstVar(ps) == Some(name) ==> Weight(bodies, Subst(ps, name, bodies(name).value), depth) < Weight(bodies, ps, depth)
    decreases |ps|
  {
    if ps != [] {
      var body := bodies(name).value;
      var head := if ps[0] == Var(name) then body else [ps[0]];
      HeadExpands(bodies, ps[0], name, depth);
      if ExpandPiece(bodies, ps[0], depth).Whole? {
        SubstLightens(bodies, ps[1..], name, depth);
      }
      WeightConcat(bodies, head, Subst(ps[1..], name, body), depth);
      if ps[0] == Var(name) {
        WeightDeeper(bodies, body, depth - 1, depth);
      } else {
        assert [ps[0]][1..] == [];
      }
    }
  }

  /** What the first variable decides. */
  lemma {:induction false} FirstVarExpands(bodies: Bodies, ps: seq<Piece>, depth: nat)
    ensures FirstVar(ps).None? ==> Expand(bodies, ps, depth) == Whole(Flatten(ps))
    ensures FirstVar(ps).Some? && bodies(FirstVar(ps).value).None? ==> Expand(bodies, ps, depth) == Unreadable
    decreases |ps|
  {
    if ps != [] {
      FirstVarExpands(bodies, ps[1..], depth);
    }
  }

  /** The first round keeps the expansion and lightens what is left of it. */
  lemma RoundLightens(bodies: Bodies, ps: seq<Piece>, depth: nat) returns (next: seq<Piece>)
    requires Expand(bodies, ps, depth) != Deep && FirstVar(ps).Some? && bodies(FirstVar(ps).value).Some?
    ensures next == Subst(ps, FirstVar(ps).value, bodies(FirstVar(ps).value).value)
    ensures Expand(bodies, next, depth) == Expand(bodies, ps, depth) && Weight(bodies, next, depth) < Weight(bodies, ps, depth)
  {
    var name := FirstVar(ps).value;
    SubstExpands(bodies, ps, name, depth);
    SubstLightens(bodies, ps, name, depth);
    next := Subst(ps, name, bodies(name).value);
  }

  function EndOf(o: Outcome): Option<End> {
    match o
    case Whole(text) => Some(Replaced(text))
    case Unreadable => Some(Fault)
    case Deep => None
  }

  lemma {:induction false} OutcomeIsReached(step: string -> Step, bodies: Bodies, ok: seq<Piece> -> bool, ps: seq<Piece>, depth: nat, rounds: nat)
    requires Follows(step, bodies, ok) && ok(ps) && Expand(bodies, ps, depth) != Deep && Weight(bodies, ps, depth) <= rounds
    ensures Loop(step, Flatten(ps), rounds) == EndOf(Expand(bodies, ps, depth))
    decreases rounds
  {
    assert FollowsOn(step, bodies, ok, ps);
    FirstVarExpands(bodies, ps, depth);
    if PieceStep(bodies, ps).Next? {
      var next := RoundLightens(bodies, ps, depth);
      OutcomeIsReached(step, bodies, ok, next, depth, rounds - 1);
    }
  }

  lemma {:induction false} StoppedIsOutcome(step: string -> Step, bodies: Bodies, ok: seq<Piece> -> bool, ps: seq<Piece>, rounds: nat)
    requires FollowsOn(step, bodies, ok, ps) && ok(ps) && PieceStep(bodies, ps).Stop? && Loop(step, Flatten(ps), rounds).Some?
    ensures Loop(step, Flatten(ps), rounds) == EndOf(Expand(bodies, ps, rounds))
  {
    FirstVarExpands(bodies, ps, rounds);
  }

  lemma {:induction false} NextRound(step: string -> Step, bodies: Bodies, ok: seq<Piece> -> bool, ps: seq<Piece>, rounds: nat)
    returns (next: seq<Piece>)
    requires FollowsOn(step, bodies, ok, ps) && ok(ps) && PieceStep(bodies, ps).Next? && Loop(step, Flatten(ps), rounds).Some?
    ensures rounds > 0 && ok(next) && Loop(step, Flatten(next), rounds - 1) == Loop(step, Flatten(ps), rounds)
    ensures FirstVar(ps).Some? && bodies(FirstVar(ps).value).Some? && next == Subst(ps, FirstVar(ps).value, bodies(FirstVar(ps).value).value)
  {
    next := NextPieces(bodies, ps);
  }

  lemma {:induction false} ReachedIsOutcome(step: string -> Step, bodies: Bodies, ok: seq<Piece> -> bool, ps: seq<Piece>, rounds: nat)
    requires Follows(step, bodies, ok) && ok(ps) && Loop(step, Flatten(ps), rounds).Some?
    ensures Loop(step, Flatten(ps), rounds) == EndOf(Expand(bodies, ps, rounds))
    decreases rounds
  {
    assert FollowsOn(step, bodies, ok, ps);
    if PieceStep(bodies, ps).Next? {
      var next := NextRound(step, bodies, ok, ps, rounds);
      ReachedIsOutcome(step, bodies, ok, next, rounds - 1);
      NextExpands(bodies, ps, next, rounds - 1);
    } else {
      StoppedIsOutcome(step, bodies, ok, ps, rounds);
    }
  }

  lemma NextPieces(bodies: Bodies, ps: seq<Piece>) returns (next: seq<Piece>)
    requires PieceStep(bodies, ps).Next?
    ensures FirstVar(ps).Some? && bodies(FirstVar(ps).value).Some? && next == Subst(ps, FirstVar(ps).value, bodies(FirstVar(ps).value).value)
    ensures PieceStep(bodies, ps) == Next(Flatten(next))
  {
    next := Subst(ps, FirstVar(ps).value, bodies(FirstVar(ps).value).value);
  }

  lemma NextExpands(bodies: Bodies, ps: seq<Piece>, next: seq<Piece>, depth: nat)
    requires FirstVar(ps).Some? && bodies(FirstVar(ps).value).Some? && next == Subst(ps, FirstVar(ps).value, bodies(FirstVar(ps).value).value)
    requires EndOf(Expand(bodies, next, depth)).Some?
    ensures Expand(bodies, ps, depth + 1) == Expand(bodies, next, depth)
  {
    SubstExpands(bodies, ps, FirstVar(ps).value, depth);
  }

  /** A loop that has ended has ended as the expansion does. */
  lemma EndIsOutcome(step: string -> Step, bodies: Bodies, ps: seq<Piece>, depth: nat, rounds: nat)
    requires Follows(step, bodies, AllClean) && AllClean(ps) && Expand(bodies, ps, depth) != Deep
    requires Loop(step, Flatten(ps), rounds).Some?
    ensures Loop(step, Flatten(ps), rounds) == EndOf(Expand(bodies, ps, depth))
  {
    var code, weight := Flatten(ps), Weight(bodies, ps, depth);
    OutcomeIsReached(step, bodies, AllClean, ps, depth, weight);
    FinishedLoopsAgree(step, code, weight, rounds);
  }

  lemma FinishedLoopsAgree(step: string -> Step, code: string, rounds: nat, others: nat)
    requires Loop(step, code, rounds).Some? && Loop(step, code, others).Some?
    ensures Loop(step, code, rounds) == Loop(step, code, others)
  {
    LoopLonger(step, code, rounds, rounds + others);
    LoopLonger(step, code, others, rounds + others);
  }

  /** However the loop ends, with code or with a fault: it does so exactly when the expansion of some finite depth does. */
  lemma LoopIsExpansion(read: Reader, bodies: Bodies, ps: seq<Piece>, end: End)
    requires Reads(read, bodies) && AllClean(ps)
    ensures (exists rounds :: Loop(Rounds(read), Flatten(ps), rounds) == Some(end))
       <==> (exists depth :: EndOf(Expand(bodies, ps, depth)) == Some(end))
  {
    var step := Rounds(read);
    RoundsFollow(read, bodies);
    if rounds :| Loop(step, Flatten(ps), rounds) == Some(end) {
      ReachedIsOutcome(step, bodies, AllClean, ps, rounds);
    }
    if depth :| EndOf(Expand(bodies, ps, depth)) == Some(end) {
      OutcomeIsReached(step, bodies, AllClean, ps, depth, Weight(bodies, ps, depth));
    }
  }

  // ----- does it end at all? -----

  /** Every readable name is in `names`. */
  ghost predicate Within(bodies: Bodies, names: set<string>) {
    forall name :: bodies(name).Some? ==> name in names
  }

  /** Follows the references from left to right; `Deep` when a name recurs on its own path, `path`. */
  function Follow(bodies: Bodies, names: set<string>, ps: seq<Piece>, path: set<string>): Outcome
    requires Within(bodies, names)
    decreases names - path, |ps|
  {
    if ps == [] then Whole([])
    else Join(FollowPiece(bodies, names, ps[0], path), Follow(bodies, names, ps[1..], path))
  }

  function FollowPiece(bodies: Bodies, names: set<string>, p: Piece, path: set<string>): Outcome
    requires Within(bodies, names)
    decreases names - path, 0
  {
    match p
    case Lit(text) => Whole(text)
    case Var(name) =>
      if bodies(name).None? then Unreadable
      else if name in path then Deep
      else Follow(bodies, names, bodies(name).value, path + {name})
  }

  /** A path without repeats is no longer than there are names. */
  lemma {:induction false} FollowedExpands(bodies: Bodies, names: set<string>, ps: seq<Piece>, path: set<string>)
    requires Within(bodies, names) && Follow(bodies, names, ps, path) != Deep
    ensures Expand(bodies, ps, |names - path|) == Follow(bodies, names, ps, path)
    decreases names - path, |ps|
  {
    if ps != [] {
      PieceFollowed(bodies, names, ps[0], path);
      if FollowPiece(bodies, names, ps[0], path).Whole? {
        FollowedExpands(bodies, names, ps[1..], path);
      }
    }
  }

  lemma {:induction false} PieceFollowed(bodies: Bodies, names: set<string>, p: Piece, path: set<string>)
    requires Within(bodies, names) && FollowPiece(bodies, names, p, path) != Deep
    ensures ExpandPiece(bodies, p, |names - path|) == FollowPiece(bodies, names, p, path)
    decreases names - path, 0
  {
    if p.Var? && bodies(p.name).Some? {
      assert names - path == (names - (path + {p.name})) + {p.name};
      FollowedExpands(bodies, names, bodies(p.name).value, path + {p.name});
    }
  }

  ghost predicate EndsOn(bodies: Bodies, path: set<string>, depth: nat) {
    exists name :: name in path && ExpandPiece(bodies, Var(name), depth) != Deep
  }

  lemma EndsDeeper(bodies: Bodies, path: set<string>, depth: nat, more: nat)
    requires EndsOn(bodies, path, depth) && depth <= more
    ensures EndsOn(bodies, path, more)
  {
    var name :| name in path && ExpandPiece(bodies, Var(name), depth) != Deep;
    PieceDeeper(bodies, Var(name), depth, more);
  }

  /** If a name recurs on its path, the expansion can only end by way of a name that was on the path from the start. */
  lemma {:induction false} RecurringEnds(bodies: Bodies, names: set<string>, ps: seq<Piece>, path: set<string>, depth: nat)
    requires Within(bodies, names) && Follow(bodies, names, ps, path) == Deep && Expand(bodies, ps, depth) != Deep
    ensures EndsOn(bodies, path, depth)
    decreases depth, |ps|, 1
  {
    if FollowPiece(bodies, names, ps[0], path) == Deep {
      PieceRecurs(bodies, names, ps[0].name, path, depth);
    } else {
      PieceFollowed(bodies, names, ps[0], path);
      if |names - path| <= depth {
        PieceDeeper(bodies, ps[0], |names - path|, depth);
      } else {
        PieceDeeper(bodies, ps[0], depth, |names - path|);
      }
      RecurringEnds(bodies, names, ps[1..], path, depth);
    }
  }

  lemma {:induction false} PieceRecurs(bodies: Bodies, names: set<string>, name: string, path: set<string>, depth: nat)
    requires Within(bodies, names) && FollowPiece(bodies, names, Var(name), path) == Deep && ExpandPiece(bodies, Var(name), depth) != Deep
    ensures EndsOn(bodies, path, depth)
    decreases depth, 0
  {
    if name !in path {
      RecurringEnds(bodies, names, bodies(name).value, path + {name}, depth - 1);
      if ExpandPiece(bodies, Var(name), depth - 1) != Deep {
        PieceRecurs(bodies, names, name, path, depth - 1);
        EndsDeeper(bodies, path, depth - 1, depth);
      } else {
        assert EndsOn(bodies, path, depth - 1);
        EndsDeeper(bodies, path, depth - 1, depth);
      }
    }
  }

  /** Following the references decides the expansion; as many levels as there are readable names suffice. */
  lemma FollowDecides(bodies: Bodies, names: set<string>, ps: seq<Piece>)
    requires Within(bodies, names)
    ensures Follow(bodies, names, ps, {}) == Expand(bodies, ps, |names|)
    ensures Follow(bodies, names, ps, {}) == Deep ==> forall depth :: Expand(bodies, ps, depth) == Deep
  {
    assert names - {} == names;
    if Follow(bodies, names, ps, {}) == Deep {
      forall depth ensures Expand(bodies, ps, depth) == Deep {
        if Expand(bodies, ps, depth) != Deep {
          RecurringEnds(bodies, names, ps, {}, depth);
        }
      }
    } else {
      FollowedExpands(bodies, names, ps, {});
    }
  }

  /** The loop ends, and as following the references from left to right does, exactly unless a name recurs on its own path
      before an unreadable variable is met; then it runs for ever. */
  lemma EndsExactly(read: Reader, bodies: Bodies, names: set<string>, ps: seq<Piece>)
    requires Reads(read, bodies) && AllClean(ps) && Within(bodies, names)
    ensures (exists rounds :: Loop(Rounds(read), Flatten(ps), rounds).Some?) <==> Follow(bodies, names, ps, {}) != Deep
    ensures forall rounds :: Loop(Rounds(read), Flatten(ps), rounds).Some? ==>
              Loop(Rounds(read), Flatten(ps), rounds) == EndOf(Follow(bodies, names, ps, {}))
  {
    var step, followed := Rounds(read), Follow(bodies, names, ps, {});
    RoundsFollow(read, bodies);
    FollowDecides(bodies, names, ps);
    if followed != Deep {
      OutcomeIsReached(step, bodies, AllClean, ps, |names|, Weight(bodies, ps, |names|));
    }
    forall rounds: nat | Loop(step, Flatten(ps), rounds).Some?
      ensures Loop(step, Flatten(ps), rounds) == EndOf(followed)
    {
      ReachedIsOutcome(step, bodies, AllClean, ps, rounds);
      if rounds <= |names| {
        ExpandDeeper(bodies, ps, rounds, |names|);
      } else {
        ExpandDeeper(bodies, ps, |names|, rounds);
      }
    }
  }

  // ----- contents without markers: one pass -----

  /** All markers replaced at once by what was read. */
  function OnePass(read: Reader, ps: seq<Piece>): Option<string> {
    if ps == [] then Some([])
    else
      var head := if ps[0].Lit? then Some(ps[0].text) else read(ps[0].name);
      var rest := OnePass(read, ps[1..]);
      if head.None? || rest.None? then None else Some(head.value + rest.value)
  }

  function Plain(read: Reader): Bodies {
    name => if read(name).None? then None else Some([Lit(read(name).value)])
  }

  lemma PlainReads(read: Reader)
    requires Dollarless(read)
    ensures Reads(read, Plain(read))
  {
    forall name | read(name).Some?
      ensures AllClean([Lit(read(name).value)]) && Flatten([Lit(read(name).value)]) == read(name).value
    {
      var text := read(name).value;
      DollarlessIsMarkless(text);
      assert [Lit(text)][1..] == [] && text + [] == text;
    }
  }

  lemma {:induction false} PlainExpands(read: Reader, ps: seq<Piece>)
    ensures Expand(Plain(read), ps, 1) == if OnePass(read, ps).Some? then Whole(OnePass(read, ps).value) else Unreadable
    decreases |ps|
  {
    if ps != [] {
      PlainExpands(read, ps[1..]);
      if ps[0].Var? && read(ps[0].name).Some? {
        ExpandOne(Plain(read), Lit(read(ps[0].name).value), 0);
      }
    }
  }

  /** Contents without '$': the rounds amount to one simultaneous substitution, or to a fault when some variable cannot be read. */
  lemma LoopIsOnePass(read: Reader, ps: seq<Piece>)
    requires Dollarless(read) && AllClean(ps)
    ensures Loop(Rounds(read), Flatten(ps), Dollars(Flatten(ps))) ==
            Some(if OnePass(read, ps).Some? then Replaced(OnePass(read, ps).value) else Fault)
  {
    var bodies := Plain(read);
    PlainReads(read);
    PlainExpands(read, ps);
    EndsWithoutDollars(read, Flatten(ps));
    RoundsFollow(read, bodies);
    EndIsOutcome(Rounds(read), bodies, ps, 1, Dollars(Flatten(ps)));
  }

  // ----- a variable that mentions itself -----

  function SelfReader(self: string): Reader {
    name => if name == self then Some(Marker(self)) else None
  }

  /** A variable whose content is its own marker keeps the loop going for ever. */
  lemma {:induction false} SelfReferenceNeverEnds(self: string, rounds: nat)
    requires Clean(Var(self))
    ensures Loop(Rounds(SelfReader(self)), Marker(self), rounds) == None
    decreases rounds
  {
    var ps := [Var(self)];
    var code := Marker(self);
    assert ps[1..] == [] && Flatten(ps) == code + [] == code;
    FirstMarker(ps);
    ReplaceIsSubst(ps, self, ps);
    assert Subst(ps, self, ps) == ps + [] == ps;
    assert Round(SelfReader(self), code) == Next(code);
    if rounds > 0 {
      SelfReferenceNeverEnds(self, rounds - 1);
    }
  }
}
