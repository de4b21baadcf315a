/** http-browserify's Response: XHR ready states turned into 'ready', 'data' and 'end' events. */
module XhrResponse {
  import opened Wrappers

  /** What the browser shows when the ready state changes; None is a property access that throws. */
  datatype Xhr = Xhr(readyState: nat, status: Option<nat>, headersReadable: bool, text: Option<string>, error: bool)

  /** What one call of `handle` finds: the request, and the capability flags that all responses of the page share. */
  datatype Call = Call(xhr: Xhr, status2: bool, streaming: bool)

  datatype Emitted = Ready | Data(chunk: string) | End | Failed(text: string)

  /** The response object and what it has emitted. `statusCode` 0 is unset. */
  datatype State = State(statusCode: nat, offset: nat, out: seq<Emitted>)

  function Initial(): State {
    State(0, 0, [])
  }

  function Emit(s: State, e: Emitted): State {
    s.(out := s.out + [e])
  }

  /** `write` with readable text. */
  function WriteText(s: State, text: string): State {
    if |text| > s.offset then Emit(s, Data(text[s.offset..])).(offset := |text|) else s
  }

  /** State 2, where 'ready' is emitted whatever the status, unless something cannot be read. */
  function HeadersReceived(s: State, x: Xhr): State {
    if x.status.None? then s
    else if !x.headersReadable then s.(statusCode := x.status.value)
    else Emit(s.(statusCode := x.status.value), Ready)
  }

  /** The status branch of state 3; a failure to read the headers is swallowed after `statusCode` is set. */
  function Announce(s: State, x: Xhr): State {
    if s.statusCode != 0 || x.status.None? then s
    else if !x.headersReadable then s.(statusCode := x.status.value)
    else Emit(s.(statusCode := x.status.value), Ready)
  }

  function Loading(s: State, x: Xhr): State {
    var s1 := Announce(s, x);
    if x.text.None? then s1 else WriteText(s1, x.text.value)
  }

  function Opened(s: State, x: Xhr): State
    requires s.statusCode == 0 ==> x.status.Some?
  {
    if s.statusCode == 0 then Emit(s.(statusCode := x.status.value), Ready) else s
  }

  /** State 4 guards nothing: an unreadable property is an exception. */
  function Done(s: State, x: Xhr): Option<State> {
    if s.statusCode == 0 && x.status.None? then None
    else if x.text.None? then None
    else Some(Emit(WriteText(Opened(s, x), x.text.value), if x.error then Failed(x.text.value) else End))
  }

  /** One call of `handle`, for handlers that do not throw; None when an exception leaves it. */
  function Handle(s: State, c: Call): Option<State> {
    if c.xhr.readyState == 2 && c.status2 then Some(HeadersReceived(s, c.xhr))
    else if c.streaming && c.xhr.readyState == 3 then Some(Loading(s, c.xhr))
    else if c.xhr.readyState == 4 then Done(s, c.xhr)
    else Some(s)
  }

  /** The flags after the call: each is cleared by the failure it stands for. */
  predicate Status2After(c: Call) {
    c.status2 && !(c.xhr.readyState == 2 && (c.xhr.status.None? || !c.xhr.headersReadable))
  }

  predicate StreamingAfter(c: Call) {
    c.streaming && !(c.xhr.readyState == 3 && c.xhr.text.None?)
  }

  /** Any run of one response. Between its calls other responses may clear the flags, so each call comes with its own. */
  function Run(cs: seq<Call>): Option<State>
    decreases |cs|
  {
    if cs == [] then Some(Initial())
    else
      var s :- Run(cs[..|cs| - 1]);
      Handle(s, cs[|cs| - 1])
  }

  // ----- what was emitted -----

  function Chunks(out: seq<Emitted>): string {
    if out == [] then ""
    else
      var last := out[|out| - 1];
      Chunks(out[..|out| - 1]) + if last.Data? then last.chunk else ""
  }

  function Readies(out: seq<Emitted>): nat {
    if out == [] then 0 else Readies(out[..|out| - 1]) + if out[|out| - 1].Ready? then 1 else 0
  }

  lemma EmitCounts(out: seq<Emitted>, e: Emitted)
    ensures Chunks(out + [e]) == Chunks(out) + (if e.Data? then e.chunk else "")
    ensures Readies(out + [e]) == Readies(out) + (if e.Ready? then 1 else 0)
  {
    assert (out + [e])[..|out|] == out;
  }

  /** The last readable text of a run. */
  function Seen(cs: seq<Call>): string {
    if cs == [] then "" else cs[|cs| - 1].xhr.text.GetOr(Seen(cs[..|cs| - 1]))
  }

  /** The response text only ever grows. */
  predicate Growing(cs: seq<Call>) {
    cs == [] || (Growing(cs[..|cs| - 1]) && Seen(cs[..|cs| - 1]) <= Seen(cs))
  }

  lemma WriteKeeps(s: State, seen: string, text: string)
    requires seen <= text && Written(s, seen)
    ensures var s1 := WriteText(s, text); s1.offset == |text| && Chunks(s1.out) == text && Written(s1, text)
  {
    assert text[..|text|] == text;
    if |text| > s.offset {
      EmitCounts(s.out, Data(text[s.offset..]));
      assert seen[..s.offset] == text[..s.offset] && text[..s.offset] + text[s.offset..] == text;
    } else {
      assert text == seen;
    }
  }

  /** What was emitted as data is the text seen, up to `offset`. */
  predicate Written(s: State, seen: string) {
    s.offset <= |seen| && Chunks(s.out) == seen[..s.offset]
  }

  lemma WrittenMore(s: State, seen: string, text: string)
    requires Written(s, seen) && seen <= text
    ensures Written(s, text)
  {
    assert seen[..s.offset] == text[..s.offset];
  }

  /** The call writes the text it finds. */
  predicate Shows(c: Call) {
    c.xhr.readyState == 4 || (c.xhr.readyState == 3 && c.streaming && c.xhr.text.Some?)
  }

  lemma HandleKeepsWritten(s: State, c: Call, seen: string)
    requires Written(s, seen) && seen <= c.xhr.text.GetOr(seen) && Handle(s, c).Some?
    ensures Written(Handle(s, c).value, c.xhr.text.GetOr(seen))
    ensures Shows(c) ==> Chunks(Handle(s, c).value.out) == c.xhr.text.GetOr(seen)
  {
    var x := c.xhr;
    EmitCounts(s.out, Ready);
    WrittenMore(s, seen, x.text.GetOr(seen));
    if c.streaming && x.readyState == 3 && x.text.Some? {
      WriteKeeps(Announce(s, x), seen, x.text.value);
    } else if x.readyState == 4 {
      WriteKeeps(Opened(s, x), seen, x.text.value);
      EmitCounts(WriteText(Opened(s, x), x.text.value).out, if x.error then Failed(x.text.value) else End);
    }
  }

  /** For every run with growing text, whatever else is unreadable, the emitted chunks are the text up to `offset`. */
  lemma {:induction false} ChunksAreText(cs: seq<Call>)
    requires Growing(cs) && Run(cs).Some?
    ensures Written(Run(cs).value, Seen(cs))
    decreases |cs|
  {
    if cs != [] {
      var before := cs[..|cs| - 1];
      ChunksAreText(before);
      HandleKeepsWritten(Run(before).value, cs[|cs| - 1], Seen(before));
    }
  }

  /** A run whose last call found text to write, or that is at its end, has emitted all of it. */
  lemma ChunksAreAll(cs: seq<Call>)
    requires cs != [] && Growing(cs) && Run(cs).Some? && cs[|cs| - 1].xhr.text.Some?
    requires cs[|cs| - 1].xhr.readyState == 4 || (cs[|cs| - 1].xhr.readyState == 3 && cs[|cs| - 1].streaming)
    ensures Chunks(Run(cs).value.out) == cs[|cs| - 1].xhr.text.value
  {
    ChunksAreText(cs[..|cs| - 1]);
    HandleKeepsWritten(Run(cs[..|cs| - 1]).value, cs[|cs| - 1], Seen(cs[..|cs| - 1]));
  }

  predicate NoEmptyChunk(out: seq<Emitted>) {
    forall i :: 0 <= i < |out| && out[i].Data? ==> out[i].chunk != ""
  }

  lemma EmitHasText(out: seq<Emitted>, e: Emitted)
    requires NoEmptyChunk(out) && (e.Data? ==> e.chunk != "")
    ensures NoEmptyChunk(out + [e])
  {
  }

  lemma WriteHasText(s: State, text: string)
    requires NoEmptyChunk(s.out)
    ensures NoEmptyChunk(WriteText(s, text).out)
  {
    if |text| > s.offset {
      EmitHasText(s.out, Data(text[s.offset..]));
    }
  }

  lemma HandleHasText(s: State, c: Call)
    requires NoEmptyChunk(s.out) && Handle(s, c).Some?
    ensures NoEmptyChunk(Handle(s, c).value.out)
  {
    var x := c.xhr;
    EmitHasText(s.out, Ready);
    if c.streaming && x.readyState == 3 && x.text.Some? {
      WriteHasText(Announce(s, x), x.text.value);
    } else if x.readyState == 4 {
      WriteHasText(Opened(s, x), x.text.value);
      EmitHasText(WriteText(Opened(s, x), x.text.value).out, if x.error then Failed(x.text.value) else End);
    }
  }

  /** No run emits a chunk without text. */
  lemma {:induction false} ChunksHaveText(cs: seq<Call>)
    requires Run(cs).Some?
    ensures NoEmptyChunk(Run(cs).value.out)
    decreases |cs|
  {
    if cs != [] {
      ChunksHaveText(cs[..|cs| - 1]);
      HandleHasText(Run(cs[..|cs| - 1]).value, cs[|cs| - 1]);
    }
  }

  // ----- 'ready' -----

  /** The call acts on what it finds. */
  predicate Acts(c: Call) {
    (c.xhr.readyState == 2 && c.status2) || (c.xhr.readyState == 3 && c.streaming) || c.xhr.readyState == 4
  }

  predicate Sets(c: Call) {
    Acts(c) && c.xhr.status.Some? && c.xhr.status.value != 0
  }

  // only state 2 overwrites a status that is set
  predicate Resets(c: Call) {
    Acts(c) && c.xhr.readyState == 2 && c.xhr.status == Some(0)
  }

  /** Before call i, some call has set a nonzero status that none has reset since. */
  ghost predicate Known(cs: seq<Call>, i: nat)
    requires i <= |cs|
  {
    exists j :: 0 <= j < i && Sets(cs[j]) && forall k :: j < k < i ==> !Resets(cs[k])
  }

  /** What state 2 and 3 have to read before they can emit 'ready'. */
  predicate Told(x: Xhr) {
    (x.status.Some? && x.headersReadable) || x.readyState == 4
  }

  /** Call i emits 'ready'. */
  ghost predicate Announces(cs: seq<Call>, i: nat)
    requires i < |cs|
  {
    Acts(cs[i]) && Told(cs[i].xhr) && (cs[i].xhr.readyState == 2 || !Known(cs, i))
  }

  ghost function Announcers(cs: seq<Call>): set<nat> {
    set i: nat | i < |cs| && Announces(cs, i)
  }

  /** Call i ends in an exception, if none did before. */
  ghost predicate Throws(cs: seq<Call>, i: nat)
    requires i < |cs|
  {
    var x := cs[i].xhr;
    x.readyState == 4 && (x.text.None? || (x.status.None? && !Known(cs, i)))
  }

  lemma KnownBefore(cs: seq<Call>, n: nat, i: nat)
    requires i <= n <= |cs|
    ensures Known(cs[..n], i) <==> Known(cs, i)
  {
    if Known(cs[..n], i) {
      var j :| 0 <= j < i && Sets(cs[..n][j]) && forall k :: j < k < i ==> !Resets(cs[..n][k]);
      assert Sets(cs[j]) && forall k :: j < k < i ==> cs[..n][k] == cs[k];
    }
    if Known(cs, i) {
      var j :| 0 <= j < i && Sets(cs[j]) && forall k :: j < k < i ==> !Resets(cs[k]);
      assert Sets(cs[..n][j]) && forall k :: j < k < i ==> cs[..n][k] == cs[k];
    }
  }

  lemma KnownStep(cs: seq<Call>)
    requires cs != []
    ensures var n := |cs| - 1; Known(cs, n + 1) <==> Sets(cs[n]) || (Known(cs, n) && !Resets(cs[n]))
  {
    var n := |cs| - 1;
    if Known(cs, n) && !Resets(cs[n]) {
      var j :| 0 <= j < n && Sets(cs[j]) && forall k :: j < k < n ==> !Resets(cs[k]);
      assert forall k :: j < k < n + 1 ==> !Resets(cs[k]);
    }
  }

  lemma AnnouncersStep(cs: seq<Call>)
    requires cs != []
    ensures var n := |cs| - 1; |Announcers(cs)| == |Announcers(cs[..n])| + if Announces(cs, n) then 1 else 0
  {
    var n := |cs| - 1;
    var before := Announcers(cs[..n]);
    forall i: nat | i < n ensures Announces(cs[..n], i) <==> Announces(cs, i) {
      KnownBefore(cs, n, i);
    }
    assert Announcers(cs) == if Announces(cs, n) then before + {n} else before;
  }

  lemma WriteQuiet(s: State, text: string)
    ensures var s1 := WriteText(s, text); Readies(s1.out) == Readies(s.out) && s1.statusCode == s.statusCode
  {
    if |text| > s.offset {
      EmitCounts(s.out, Data(text[s.offset..]));
    }
  }

  lemma LoadingAnnounces(s: State, x: Xhr)
    ensures var s1 := Loading(s, x);
            && Readies(s1.out) == Readies(s.out) + (if x.status.Some? && x.headersReadable && s.statusCode == 0 then 1 else 0)
            && s1.statusCode == if s.statusCode == 0 then x.status.GetOr(0) else s.statusCode
  {
    EmitCounts(s.out, Ready);
    if x.text.Some? {
      WriteQuiet(Announce(s, x), x.text.value);
    }
  }

  lemma DoneAnnounces(s: State, x: Xhr)
    requires Done(s, x).Some?
    ensures var s1 := Done(s, x).value;
            && Readies(s1.out) == Readies(s.out) + (if s.statusCode == 0 then 1 else 0)
            && s1.statusCode == if s.statusCode == 0 then x.status.value else s.statusCode
  {
    EmitCounts(s.out, Ready);
    WriteQuiet(Opened(s, x), x.text.value);
    EmitCounts(WriteText(Opened(s, x), x.text.value).out, if x.error then Failed(x.text.value) else End);
  }

  lemma HandleAnnounces(s: State, c: Call)
    requires Handle(s, c).Some?
    ensures var s1 := Handle(s, c).value;
            && Readies(s1.out) == Readies(s.out) +
                 (if Acts(c) && Told(c.xhr) && (c.xhr.readyState == 2 || s.statusCode == 0) then 1 else 0)
            && (s1.statusCode != 0 <==> Sets(c) || (s.statusCode != 0 && !Resets(c)))
  {
    if c.xhr.readyState == 2 {
      EmitCounts(s.out, Ready);
    } else if c.streaming && c.xhr.readyState == 3 {
      LoadingAnnounces(s, c.xhr);
    } else if c.xhr.readyState == 4 {
      DoneAnnounces(s, c.xhr);
    }
  }

  lemma ThrowsBefore(cs: seq<Call>, n: nat)
    requires n <= |cs|
    ensures forall i: nat :: i < n ==> (Throws(cs[..n], i) <==> Throws(cs, i))
  {
    forall i: nat | i < n ensures Throws(cs[..n], i) <==> Throws(cs, i) {
      KnownBefore(cs, n, i);
    }
  }

  lemma {:induction false} ReadyStep(cs: seq<Call>, s: State)
    requires cs != [] && Run(cs[..|cs| - 1]) == Some(s)
    requires Readies(s.out) == |Announcers(cs[..|cs| - 1])| && (s.statusCode != 0 <==> Known(cs, |cs| - 1))
    ensures Run(cs).None? <==> Throws(cs, |cs| - 1)
    ensures Run(cs).Some? ==>
              && Readies(Run(cs).value.out) == |Announcers(cs)|
              && (Run(cs).value.statusCode != 0 <==> Known(cs, |cs|))
  {
    var c := cs[|cs| - 1];
    KnownStep(cs);
    AnnouncersStep(cs);
    if Handle(s, c).Some? {
      HandleAnnounces(s, c);
    }
  }

  /** For every run at all: it ends in an exception exactly when some call throws, and otherwise 'ready' was emitted once
      by each announcing call and by no other; so exactly once if and only if exactly one call announces. */
  lemma {:induction false} ReadyExactly(cs: seq<Call>)
    ensures Run(cs).None? <==> exists i: nat :: i < |cs| && Throws(cs, i)
    ensures Run(cs).Some? ==>
              && Readies(Run(cs).value.out) == |Announcers(cs)|
              && (Run(cs).value.statusCode != 0 <==> Known(cs, |cs|))
    decreases |cs|
  {
    if cs != [] {
      var n := |cs| - 1;
      ReadyExactly(cs[..n]);
      ThrowsBefore(cs, n);
      KnownBefore(cs, n, n);
      if Run(cs[..n]).Some? {
        ReadyStep(cs, Run(cs[..n]).value);
      }
    }
  }

  // ----- the status -----

  /** Call i stores the status it reads: state 2 always, the others while no nonzero status is known. */
  ghost predicate Stores(cs: seq<Call>, i: nat)
    requires i < |cs|
  {
    Acts(cs[i]) && cs[i].xhr.status.Some? && (cs[i].xhr.readyState == 2 || !Known(cs, i))
  }

  ghost predicate LastStored(cs: seq<Call>, i: nat) {
    i < |cs| && Stores(cs, i) && forall j: nat :: i < j < |cs| ==> !Stores(cs, j)
  }

  lemma StoresBefore(cs: seq<Call>, n: nat)
    requires n <= |cs|
    ensures forall i: nat :: i < n ==> (Stores(cs[..n], i) <==> Stores(cs, i))
  {
    forall i: nat | i < n ensures Stores(cs[..n], i) <==> Stores(cs, i) {
      KnownBefore(cs, n, i);
    }
  }

  lemma HandleStores(s: State, c: Call)
    requires Handle(s, c).Some?
    ensures Handle(s, c).value.statusCode ==
            if Acts(c) && c.xhr.status.Some? && (c.xhr.readyState == 2 || s.statusCode == 0) then c.xhr.status.value else s.statusCode
  {
    if c.streaming && c.xhr.readyState == 3 {
      LoadingAnnounces(s, c.xhr);
    } else if c.xhr.readyState == 4 {
      DoneAnnounces(s, c.xhr);
    }
  }

  lemma {:induction false} SomeLastStored(cs: seq<Call>)
    requires cs != []
    requires var n := |cs| - 1; (exists i: nat :: i < n && Stores(cs[..n], i)) ==> exists i: nat :: LastStored(cs[..n], i)
    ensures (exists i: nat :: i < |cs| && Stores(cs, i)) ==> exists i: nat :: LastStored(cs, i)
  {
    var n := |cs| - 1;
    StoresBefore(cs, n);
    if Stores(cs, n) {
      assert LastStored(cs, n);
    } else if i: nat :| i < |cs| && Stores(cs, i) {
      assert Stores(cs[..n], i);
      var last: nat :| LastStored(cs[..n], last);
      assert LastStored(cs, last);
    }
  }

  /** After any run `statusCode` is the status that the last storing call read, and 0 where none stored one. */
  lemma {:induction false} StatusExactly(cs: seq<Call>)
    requires Run(cs).Some?
    ensures (forall i: nat :: i < |cs| ==> !Stores(cs, i)) ==> Run(cs).value.statusCode == 0
    ensures (exists i: nat :: i < |cs| && Stores(cs, i)) ==> exists i: nat :: LastStored(cs, i)
    ensures forall i: nat :: LastStored(cs, i) ==> Run(cs).value.statusCode == cs[i].xhr.status.value
    decreases |cs|
  {
    if cs != [] {
      var n := |cs| - 1;
      StatusExactly(cs[..n]);
      ReadyExactly(cs[..n]);
      KnownBefore(cs, n, n);
      StoresBefore(cs, n);
      HandleStores(Run(cs[..n]).value, cs[n]);
      SomeLastStored(cs);
      if forall i: nat :: i < |cs| ==> !Stores(cs, i) {
        assert !Stores(cs, n) && forall i: nat :: i < n ==> !Stores(cs[..n], i);
      }
      forall i: nat | LastStored(cs, i) ensures Run(cs).value.statusCode == cs[i].xhr.status.value {
        if i < n {
          assert !Stores(cs, n);
          assert LastStored(cs[..n], i);
        }
      }
    }
  }

  /** The states never go back, state 2 comes at most once, and everything but the headers can be read. */
  predicate Regular(cs: seq<Call>) {
    && (forall i :: 0 <= i < |cs| ==> cs[i].xhr.status.Some? && cs[i].xhr.text.Some?)
    && (forall i, j :: 0 <= i < j < |cs| ==> cs[i].xhr.readyState <= cs[j].xhr.readyState)
    && (forall i, j :: 0 <= i < j < |cs| ==> !(cs[i].xhr.readyState == 2 && cs[j].xhr.readyState == 2))
  }

  /** In regular runs a call announces exactly when it is told and no call before it has set a nonzero status. */
  lemma RegularAnnounces(cs: seq<Call>, i: nat)
    requires Regular(cs) && i < |cs|
    ensures Announces(cs, i) <==> Acts(cs[i]) && Told(cs[i].xhr) && forall j :: 0 <= j < i ==> !Sets(cs[j])
  {
    if j :| 0 <= j < i && Sets(cs[j]) {
      assert cs[j].xhr.readyState <= cs[i].xhr.readyState;
      assert forall k :: j < k < i ==> cs[j].xhr.readyState <= cs[k].xhr.readyState;
      assert forall k :: j < k < i ==> !Resets(cs[k]);
      assert Known(cs, i);
    }
  }

  /** With nonzero statuses only the first call that acts can announce: 'ready' comes once if that call is told, else never. */
  lemma NonzeroReadyOnce(cs: seq<Call>, first: nat)
    requires Regular(cs) && first < |cs| && Acts(cs[first]) && forall i :: 0 <= i < first ==> !Acts(cs[i])
    requires cs[first].xhr.status != Some(0)
    ensures Run(cs).Some? && Readies(Run(cs).value.out) == if Told(cs[first].xhr) then 1 else 0
  {
    forall i: nat | i < |cs| ensures Announces(cs, i) <==> i == first && Told(cs[first].xhr) {
      RegularAnnounces(cs, i);
      assert Sets(cs[first]);
    }
    assert Announcers(cs) == if Told(cs[first].xhr) then {first} else {};
    ReadyExactly(cs);
  }

  /** 'ready' comes before all data when the first call that acts is told. */
  lemma {:induction false} ReadyComesFirst(cs: seq<Call>, first: nat)
    requires first < |cs| && Acts(cs[first]) && Told(cs[first].xhr) && forall i :: 0 <= i < first ==> !Acts(cs[i])
    requires Run(cs).Some?
    ensures Run(cs).value.out != [] && Run(cs).value.out[0].Ready?
    decreases |cs|
  {
    var n := |cs| - 1;
    if first < n {
      ReadyComesFirst(cs[..n], first);
    } else {
      QuietUntil(cs[..n]);
    }
  }

  lemma {:induction false} QuietUntil(cs: seq<Call>)
    requires forall i :: 0 <= i < |cs| ==> !Acts(cs[i])
    ensures Run(cs) == Some(Initial())
    decreases |cs|
  {
    if cs != [] {
      QuietUntil(cs[..|cs| - 1]);
    }
  }

  /** Status 0 counts as not yet set: a run of n such calls in state 3 emits 'ready' n times. */
  lemma ZeroStatusRepeats(cs: seq<Call>)
    requires forall i :: 0 <= i < |cs| ==>
               var x := cs[i].xhr; x.readyState == 3 && cs[i].streaming && x.status == Some(0) && x.headersReadable
    ensures Run(cs).Some? && Readies(Run(cs).value.out) == |cs|
  {
    ReadyExactly(cs);
    assert forall i: nat :: i < |cs| ==> Announces(cs, i);
    Below(Announcers(cs), |cs|);
  }

  lemma {:induction false} Below(s: set<nat>, n: nat)
    requires forall i: nat :: i in s <==> i < n
    ensures |s| == n
    decreases n
  {
    if n > 0 {
      assert n - 1 in s;
      Below(s - {n - 1}, n - 1);
    } else {
      assert s == {};
    }
  }

  // ----- the object -----

  /** What a run that has led to `s` and its next call say about the state after. */
  lemma HandleExtends(s: State, c: Call)
    requires Handle(s, c).Some?
    ensures s.out <= Handle(s, c).value.out
  {
  }

  lemma {:induction false} CallAdded(cs: seq<Call>, s: State, c: Call)
    requires Run(cs) == Some(s)
    ensures var after, next := Handle(s, c), cs + [c];
            && Run(next) == after && (after.Some? <==> !Throws(next, |cs|))
            && (after.Some? ==> Readies(after.value.out) == |Announcers(next)| && s.out <= after.value.out)
            && (after.Some? && Growing(next) ==> Written(after.value, Seen(next)))
            && (after.Some? && Growing(next) && Shows(c) && c.xhr.text.Some? ==> Chunks(after.value.out) == c.xhr.text.value)
  {
    var next := cs + [c];
    assert next[..|cs|] == cs;
    ReadyExactly(cs);
    ReadyExactly(next);
    KnownBefore(next, |cs|, |cs|);
    if Handle(s, c).Some? {
      HandleExtends(s, c);
      if Growing(next) {
        ChunksAreText(cs);
        HandleKeepsWritten(s, c, Seen(cs));
      }
    }
  }

  /** `capable`: one object for the whole page. */
  class Capabilities {
    var status2: bool
    var streaming: bool

    constructor ()
      ensures status2 && streaming
    {
      status2, streaming := true, true;
    }
  }

  class Response {
    const capable: Capabilities
    var statusCode: nat
    var offset: nat
    var out: seq<Emitted>
    ghost var calls: seq<Call>   // every call of `handle` so far, with the flags it found

    ghost function View(): State
      reads this
    {
      State(statusCode, offset, out)
    }

    /** The object is where its calls have led it. */
    ghost predicate Valid()
      reads this
    {
      Run(calls) == Some(View())
    }

    constructor (capable: Capabilities)
      ensures Valid() && calls == [] && this.capable == capable
    {
      this.capable := capable;
      statusCode, offset, out, calls := 0, 0, [], [];
    }

    method Write(text: string)
      modifies this
      ensures View() == WriteText(old(View()), text) && calls == old(calls)
    {
      if |text| > offset {
        out := out + [Data(text[offset..])];
        offset := |text|;
      }
    }

    /** False when an exception leaves the call. Otherwise the flags are those of the call, 'ready' has been emitted once per
        announcing call and the data are the growing text, which state 4 completes. */
    method HandleEvent(x: Xhr) returns (ok: bool)
      requires Valid()
      modifies this, capable
      ensures calls == old(calls) + [Call(x, old(capable.status2), old(capable.streaming))]
      ensures ok <==> !Throws(calls, |calls| - 1)
      ensures ok ==> Valid() && Readies(out) == |Announcers(calls)| && old(out) <= out
      ensures ok && Growing(calls) ==> Written(View(), Seen(calls))
      ensures ok && Growing(calls) && x.text.Some? && (x.readyState == 4 || (x.readyState == 3 && old(capable.streaming))) ==>
                Chunks(out) == x.text.value
      ensures ok && x.readyState == 4 ==> x.text.Some? && out != [] && out[|out| - 1] == if x.error then Failed(x.text.value) else End
      ensures capable.status2 <==> old(capable.status2) && (x.readyState == 2 ==> x.status.Some? && x.headersReadable)
      ensures capable.streaming <==> old(capable.streaming) && (x.readyState == 3 ==> x.text.Some?)
    {
      CallAdded(calls, View(), Call(x, capable.status2, capable.streaming));
      calls := calls + [Call(x, capable.status2, capable.streaming)];
      ok := Act(x);
    }

    /** The three branches of `handle`, in place. */
    method Act(x: Xhr) returns (ok: bool)
      modifies this, capable
      ensures calls == old(calls)
      ensures var c := Call(x, old(capable.status2), old(capable.streaming));
              var spec := Handle(old(View()), c);
              && (ok <==> spec.Some?) && (ok ==> View() == spec.value)
              && capable.status2 == Status2After(c) && capable.streaming == StreamingAfter(c)
    {
      ok := true;
      if x.readyState == 2 && capable.status2 {
        if x.status.None? {
          capable.status2 := false;
        } else {
          statusCode := x.status.value;
          if !x.headersReadable {
            capable.status2 := false;
          }
        }
        if capable.status2 {
          out := out + [Ready];
        }
      } else if capable.streaming && x.readyState == 3 {
        if statusCode == 0 && x.status.Some? {
          statusCode := x.status.value;
          if x.headersReadable {
            out := out + [Ready];
          }
        }
        if x.text.None? {
          capable.streaming := false;
        } else {
          Write(x.text.value);
        }
      } else if x.readyState == 4 {
        if statusCode == 0 {
          if x.status.None? {
            return false;
          }
          statusCode := x.status.value;
          out := out + [Ready];
        }
        if x.text.None? {
          return false;
        }
        Write(x.text.value);
        out := out + [if x.error then Failed(x.text.value) else End];
      }
    }
  }

  // ----- assembling the body -----

  function Concat(chunks: seq<string>): string {
    if chunks == [] then "" else Concat(chunks[..|chunks| - 1]) + chunks[|chunks| - 1]
  }

  function DataOf(out: seq<Emitted>): seq<string> {
    if out == [] then []
    else
      var last := out[|out| - 1];
      DataOf(out[..|out| - 1]) + if last.Data? then [last.chunk] else []
  }

  lemma {:induction false} ConcatOfData(out: seq<Emitted>)
    ensures Concat(DataOf(out)) == Chunks(out)
    decreases |out|
  {
    if out != [] {
      var before, last := DataOf(out[..|out| - 1]), out[|out| - 1];
      ConcatOfData(out[..|out| - 1]);
      if last.Data? {
        assert (before + [last.chunk])[..|before|] == before;
      } else {
        assert before + [] == before && Chunks(out[..|out| - 1]) + "" == Chunks(out[..|out| - 1]);
      }
    }
  }

  lemma {:induction false} ConcatPrefix(chunks: seq<string>, i: nat)
    requires i < |chunks|
    ensures |Concat(chunks[..i])| + |chunks[i]| <= |Concat(chunks)| && Concat(chunks[..i + 1]) == Concat(chunks[..i]) + chunks[i]
    decreases |chunks| - i
  {
    assert chunks[..i + 1][..i] == chunks[..i];
    if i + 1 == |chunks| {
      assert chunks[..i + 1] == chunks;
    } else {
      ConcatPrefix(chunks, i + 1);
    }
  }

  /** The 'end' handler: a buffer of the summed length, filled chunk by chunk, holds every chunk in order. */
  method AssembleBody(chunks: seq<string>) returns (body: string)
    ensures body == Concat(chunks)
  {
    var dataLength := 0;
    for i := 0 to |chunks|
      invariant dataLength == |Concat(chunks[..i])|
    {
      ConcatPrefix(chunks, i);
      dataLength := dataLength + |chunks[i]|;
    }
    assert chunks[..|chunks|] == chunks;
    var buffer := new char[dataLength];
    var pos := 0;
    for i := 0 to |chunks|
      invariant pos == |Concat(chunks[..i])| <= buffer.Length == |Concat(chunks)|
      invariant buffer[..pos] == Concat(chunks[..i])
    {
      ConcatPrefix(chunks, i);
      ghost var before := buffer[..pos];
      for k := 0 to |chunks[i]|
        invariant buffer[..pos + k] == before + chunks[i][..k]
      {
        buffer[pos + k] := chunks[i][k];
        assert chunks[i][..k + 1] == chunks[i][..k] + [chunks[i][k]];
      }
      assert chunks[i][..|chunks[i]|] == chunks[i];
      pos := pos + |chunks[i]|;
    }
    return buffer[..];
  }

  /** A run that reaches state 4 has emitted the whole text: the body assembled from its chunks is the response text. */
  lemma DoneIsComplete(cs: seq<Call>)
    requires cs != [] && cs[|cs| - 1].xhr.readyState == 4 && Growing(cs) && Run(cs).Some?
    ensures var s, x := Run(cs).value, cs[|cs| - 1].xhr;
            && x.text.Some? && Concat(DataOf(s.out)) == x.text.value
            && s.out != [] && s.out[|s.out| - 1] == if x.error then Failed(x.text.value) else End
  {
    var before := cs[..|cs| - 1];
    ChunksAreText(before);
    HandleKeepsWritten(Run(before).value, cs[|cs| - 1], Seen(before));
    ConcatOfData(Run(cs).value.out);
  }
}
