/** underscore's `throttle`: a protocol over calls, the clock and one pending timeout. */
module Throttle {
  import opened Wrappers

  datatype Config = Config(wait: int, leading: bool, trailing: bool)

  datatype Invocation<A> = Invocation(time: int, args: A)

  /** The closure's variables, the browser's timer table, and the invocations of the wrapped function. */
  datatype State<A> = State(
    previous: int,               // 0 when unset
    timeout: Option<nat>,
    saved: Option<A>,
    timers: map<nat, int>,       // id to earliest firing time
    nextId: nat,
    log: seq<Invocation<A>>)

  datatype Event<A> = Call(time: int, args: A) | Fire(time: int, id: nat)

  function Initial<A>(): State<A> {
    State(0, None, None, map[], 0, [])
  }

  function Invoke<A>(s: State<A>, now: int, args: A): State<A> {
    var s1 := s.(log := s.log + [Invocation(now, args)]);
    if s1.timeout.None? then s1.(saved := None) else s1
  }

  function CallStep<A>(cfg: Config, s: State<A>, now: int, args: A): State<A> {
    var previous := if s.previous == 0 && !cfg.leading then now else s.previous;
    var remaining := cfg.wait - (now - previous);
    var s1 := s.(previous := previous, saved := Some(args));
    if remaining <= 0 || remaining > cfg.wait then
      var timers := if s1.timeout.Some? then s1.timers - {s1.timeout.value} else s1.timers;
      Invoke(s1.(timers := timers, timeout := None, previous := now), now, args)
    else if s1.timeout.None? && cfg.trailing then
      s1.(timeout := Some(s1.nextId), timers := s1.timers[s1.nextId := now + remaining], nextId := s1.nextId + 1)
    else s1
  }

  function FireStep<A>(cfg: Config, s: State<A>, now: int, id: nat): State<A> {
    var s1 := s.(timers := s.timers - {id}, previous := if cfg.leading then now else 0, timeout := None);
    if s1.saved.Some? then Invoke(s1, now, s1.saved.value) else s1
  }

  function Step<A>(cfg: Config, s: State<A>, e: Event<A>): State<A> {
    match e
    case Call(now, args) => CallStep(cfg, s, now, args)
    case Fire(now, id) => FireStep(cfg, s, now, id)
  }

  /** Time never runs back and is positive; a timer fires at its time or later, if it was not cleared. */
  predicate Possible<A>(s: State<A>, clock: int, e: Event<A>) {
    0 < e.time && clock <= e.time && (e.Fire? ==> e.id in s.timers && s.timers[e.id] <= e.time)
  }

  function Run<A>(cfg: Config, events: seq<Event<A>>): State<A> {
    if events == [] then Initial() else Step(cfg, Run(cfg, events[..|events| - 1]), events[|events| - 1])
  }

  function Clock<A>(events: seq<Event<A>>): int {
    if events == [] then 0 else events[|events| - 1].time
  }

  predicate PossibleRun<A>(cfg: Config, events: seq<Event<A>>) {
    events == [] ||
    (var before := events[..|events| - 1];
     PossibleRun(cfg, before) && Possible(Run(cfg, before), Clock(before), events[|events| - 1]))
  }

  /** The arguments of the most recent call of a run. */
  function Latest<A>(events: seq<Event<A>>): Option<A> {
    if events == [] then None
    else
      match events[|events| - 1]
      case Call(_, args) => Some(args)
      case Fire(_, _) => Latest(events[..|events| - 1])
  }

  predicate Spaced<A>(log: seq<Invocation<A>>, wait: int) {
    forall i :: 0 <= i < |log| - 1 ==> log[i].time + wait <= log[i + 1].time
  }

  /** What holds between any two events. */
  ghost predicate Inv<A>(cfg: Config, s: State<A>, clock: int, latest: Option<A>) {
    // exactly the remembered timeout is pending: none is lost and none is left behind
    && (forall id :: id in s.timers <==> s.timeout == Some(id))
    && (forall id :: id in s.timers ==> id < s.nextId && s.timers[id] == s.previous + cfg.wait && cfg.trailing && s.saved.Some?)
    && 0 <= s.previous <= clock
    && (s.timeout.Some? && !cfg.leading ==> s.previous > 0)
    && (cfg.leading ==> s.previous == if s.log == [] then 0 else s.log[|s.log| - 1].time)
    && (s.saved.Some? ==> s.saved == latest)
    && Spaced(s.log, cfg.wait)
    && (s.log != [] ==>
          var last := s.log[|s.log| - 1];
          last.time <= clock && (last.time <= s.previous || (s.previous == 0 && !cfg.leading && s.timeout.None?)))
    // with trailing calls no arguments are lost
    && (cfg.trailing && latest.Some? && s.saved.None? ==> s.log != [] && s.log[|s.log| - 1].args == latest.value)
    && (cfg.trailing && s.saved.Some? ==> s.timeout.Some?)
  }

  /** With trailing calls, the call has invoked or has left a timer, due within `wait`, that will use its arguments. */
  ghost predicate Served<A>(cfg: Config, s: State<A>, after: State<A>, now: int, args: A) {
    || after.log == s.log + [Invocation(now, args)]
    || (after.log == s.log && (cfg.trailing ==>
          && after.timeout.Some? && after.saved == Some(args)
          && after.timeout.value in after.timers && now < after.timers[after.timeout.value] <= now + cfg.wait))
  }

  function LastTime<A>(log: seq<Invocation<A>>): int {
    if log == [] then 0 else log[|log| - 1].time
  }

  lemma CallKeeps<A>(cfg: Config, s: State<A>, clock: int, latest: Option<A>, now: int, args: A)
    requires Inv(cfg, s, clock, latest) && Possible(s, clock, Call(now, args))
    ensures Inv(cfg, CallStep(cfg, s, now, args), now, Some(args))
  {
    var s1 := CallStep(cfg, s, now, args);
    if s1.log != s.log {
      InvokedKeeps(cfg, s, clock, latest, now, args, s1);
    }
  }

  lemma InvokedKeeps<A>(cfg: Config, s: State<A>, clock: int, latest: Option<A>, now: int, args: A, s1: State<A>)
    requires Inv(cfg, s, clock, latest) && Possible(s, clock, Call(now, args))
    requires s1 == CallStep(cfg, s, now, args) && s1.log != s.log
    ensures Inv(cfg, s1, now, Some(args))
  {
    assert s1.log == s.log + [Invocation(now, args)] && s1.timers == map[];
  }

  lemma CallServes<A>(cfg: Config, s: State<A>, clock: int, latest: Option<A>, now: int, args: A)
    requires Inv(cfg, s, clock, latest) && Possible(s, clock, Call(now, args))
    ensures Served(cfg, s, CallStep(cfg, s, now, args), now, args)
    ensures cfg.leading ==> (CallStep(cfg, s, now, args).log != s.log <==> LastTime(s.log) + cfg.wait <= now)
  {
  }

  lemma FireKeeps<A>(cfg: Config, s: State<A>, clock: int, latest: Option<A>, now: int, id: nat)
    requires Inv(cfg, s, clock, latest) && Possible(s, clock, Fire(now, id))
    ensures Inv(cfg, FireStep(cfg, s, now, id), now, latest)
    ensures latest.Some? && FireStep(cfg, s, now, id).log == s.log + [Invocation(now, latest.value)]
  {
  }

  /** The invariant holds after every possible run, for every wait and both options. */
  lemma {:induction false} RunKeeps<A>(cfg: Config, events: seq<Event<A>>)
    requires PossibleRun(cfg, events)
    ensures Inv(cfg, Run(cfg, events), Clock(events), Latest(events))
    decreases |events|
  {
    if events != [] {
      var before, e := events[..|events| - 1], events[|events| - 1];
      RunKeeps(cfg, before);
      match e
      case Call(now, args) => CallKeeps(cfg, Run(cfg, before), Clock(before), Latest(before), now, args);
      case Fire(now, id) => FireKeeps(cfg, Run(cfg, before), Clock(before), Latest(before), now, id);
    }
  }

  lemma {:induction false} SpacedFar<A>(log: seq<Invocation<A>>, wait: int, i: nat, j: nat)
    requires Spaced(log, wait) && i < j < |log|
    ensures log[i].time + (j - i) * wait <= log[j].time
    decreases j
  {
    assert log[j - 1].time + wait <= log[(j - 1) + 1].time;
    if i < j - 1 {
      SpacedFar(log, wait, i, j - 1);
      assert (j - i) * wait == (j - 1 - i) * wait + wait;
    }
  }

  /** In every possible run the invocations are at least `wait` apart, so k of them span at least (k - 1) waits. */
  lemma InvocationsSpaced<A>(cfg: Config, events: seq<Event<A>>, i: nat, j: nat)
    requires PossibleRun(cfg, events) && i < j < |Run(cfg, events).log|
    ensures Run(cfg, events).log[i].time + (j - i) * cfg.wait <= Run(cfg, events).log[j].time
  {
    RunKeeps(cfg, events);
    SpacedFar(Run(cfg, events).log, cfg.wait, i, j);
  }

  /** With trailing calls, a call invokes now or leaves a timer, due within `wait`, that will use its arguments. */
  lemma CallServed<A>(cfg: Config, events: seq<Event<A>>, now: int, args: A)
    requires cfg.trailing && PossibleRun(cfg, events + [Call(now, args)])
    ensures Served(cfg, Run(cfg, events), Run(cfg, events + [Call(now, args)]), now, args)
  {
    var all := events + [Call(now, args)];
    assert all[..|all| - 1] == events;
    RunKeeps(cfg, events);
    CallServes(cfg, Run(cfg, events), Clock(events), Latest(events), now, args);
  }

  /** Without leading calls: when the stretch began that a call falls into. A call outside any begins one, a call at its end begins
      the next, and a timer that fires ends it. */
  function Stretch<A>(cfg: Config, events: seq<Event<A>>): Option<int> {
    if events == [] then None
    else
      match events[|events| - 1]
      case Fire(_, _) => None
      case Call(now, _) =>
        var began := Stretch(cfg, events[..|events| - 1]);
        if began.Some? && now < began.value + cfg.wait then began else Some(now)
  }

  lemma {:induction false} StretchIsPrevious<A>(cfg: Config, events: seq<Event<A>>)
    requires !cfg.leading && PossibleRun(cfg, events)
    ensures Run(cfg, events).previous == Stretch(cfg, events).GetOr(0) && (Stretch(cfg, events).Some? ==> Stretch(cfg, events).value > 0)
    decreases |events|
  {
    if events != [] {
      StretchIsPrevious(cfg, events[..|events| - 1]);
      RunKeeps(cfg, events[..|events| - 1]);
    }
  }

  /** Without leading calls, a call invokes at once exactly when a stretch of `wait` ends with it; never right after a timer. */
  lemma StretchImmediate<A>(cfg: Config, events: seq<Event<A>>, now: int, args: A)
    requires !cfg.leading && cfg.wait > 0 && PossibleRun(cfg, events + [Call(now, args)])
    ensures var began := Stretch(cfg, events);
            Run(cfg, events + [Call(now, args)]).log != Run(cfg, events).log <==> began.Some? && began.value + cfg.wait <= now
  {
    var all := events + [Call(now, args)];
    assert all[..|all| - 1] == events;
    StretchIsPrevious(cfg, events);
    RunKeeps(cfg, events);
  }

  /** A timer that fires invokes the function with the arguments of the latest call before it. */
  lemma FireUsesLatest<A>(cfg: Config, events: seq<Event<A>>, now: int, id: nat)
    requires PossibleRun(cfg, events + [Fire(now, id)])
    ensures Latest(events).Some?
    ensures Run(cfg, events + [Fire(now, id)]).log == Run(cfg, events).log + [Invocation(now, Latest(events).value)]
  {
    var all := events + [Fire(now, id)];
    assert all[..|all| - 1] == events && all[|all| - 1] == Fire(now, id);
    RunKeeps(cfg, events);
    FireKeeps(cfg, Run(cfg, events), Clock(events), Latest(events), now, id);
  }

  /** With leading calls, a call invokes at once exactly when `wait` has passed since the last invocation, or, before any,
      since time 0. */
  lemma LeadingImmediate<A>(cfg: Config, events: seq<Event<A>>, now: int, args: A)
    requires cfg.leading && PossibleRun(cfg, events + [Call(now, args)])
    ensures Run(cfg, events + [Call(now, args)]).log ==
            Run(cfg, events).log + if LastTime(Run(cfg, events).log) + cfg.wait <= now then [Invocation(now, args)] else []
  {
    var all := events + [Call(now, args)];
    assert all[..|all| - 1] == events;
    RunKeeps(cfg, events);
    CallServes(cfg, Run(cfg, events), Clock(events), Latest(events), now, args);
    assert Run(cfg, events).log + [] == Run(cfg, events).log;
  }

  // ----- the closure as an object -----

  class Throttled<A(==)> {
    const cfg: Config
    var previous: int
    var timeout: Option<nat>
    var saved: Option<A>
    var timers: map<nat, int>
    var nextId: nat
    var log: seq<Invocation<A>>
    ghost var clock: int           // the time of the latest event
    ghost var latest: Option<A>    // the arguments of the latest call

    ghost function View(): State<A>
      reads this
    {
      State(previous, timeout, saved, timers, nextId, log)
    }

    ghost predicate Valid()
      reads this
    {
      Inv(cfg, View(), clock, latest)
    }

    constructor (cfg: Config)
      ensures this.cfg == cfg && Valid() && View() == Initial() && clock == 0 && latest == None
    {
      this.cfg := cfg;
      clock, latest := 0, None;
      previous, timeout, saved, timers, nextId, log := 0, None, None, map[], 0, [];
    }

    method ClearTimeout(id: Option<nat>)
      modifies this`timers
      ensures timers == if id.Some? then old(timers) - {id.value} else old(timers)
    {
      if id.Some? {
        timers := timers - {id.value};
      }
    }

    method SetTimeout(now: int, delay: int) returns (id: nat)
      modifies this`timers, this`nextId
      ensures id == old(nextId) && nextId == id + 1 && timers == old(timers)[id := now + delay]
    {
      id := nextId;
      nextId := nextId + 1;
      timers := timers[id := now + delay];
    }

    /** `func.apply(context, args); if (!timeout) context = args = null` */
    method Apply(now: int)
      requires saved.Some?
      modifies this`log, this`saved
      ensures View() == Invoke(old(View()), now, old(saved).value)
    {
      log := log + [Invocation(now, saved.value)];
      if timeout.None? {
        saved := None;
      }
    }

    /** Invokes, or with trailing calls leaves a timer that will; the invocations stay `wait` apart. */
    method Call(now: int, args: A)
      requires Valid() && 0 < now && clock <= now
      modifies this
      ensures Valid() && clock == now && latest == Some(args)
      ensures View() == CallStep(cfg, old(View()), now, args) && Served(cfg, old(View()), View(), now, args)
      ensures cfg.leading ==> (log != old(log) <==> LastTime(old(log)) + cfg.wait <= now)
    {
      CallKeeps(cfg, View(), clock, latest, now, args);
      CallServes(cfg, View(), clock, latest, now, args);
      Act(now, args);
      clock, latest := now, Some(args);
    }

    /** The body of the throttled function, in place. */
    method Act(now: int, args: A)
      modifies this
      ensures View() == CallStep(cfg, old(View()), now, args)
    {
      if previous == 0 && !cfg.leading {
        previous := now;
      }
      var remaining := cfg.wait - (now - previous);
      saved := Some(args);
      if remaining <= 0 || remaining > cfg.wait {
        ClearTimeout(timeout);
        timeout := None;
        previous := now;
        Apply(now);
      } else if timeout.None? && cfg.trailing {
        var id := SetTimeout(now, remaining);
        timeout := Some(id);
      }
    }

    /** `later`, run by the browser once the timer `id` is due: invokes with the latest arguments and leaves no timer. */
    method Later(now: int, id: nat)
      requires Valid() && 0 < now && clock <= now && id in timers && timers[id] <= now
      modifies this
      ensures Valid() && clock == now && latest == old(latest)
      ensures latest.Some? && log == old(log) + [Invocation(now, latest.value)]
      ensures View() == FireStep(cfg, old(View()), now, id) && timers == map[]
    {
      FireKeeps(cfg, View(), clock, latest, now, id);
      clock := now;
      timers := timers - {id};
      previous := if cfg.leading then now else 0;
      timeout := None;
      Apply(now);
    }
  }
}
