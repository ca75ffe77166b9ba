/** The `Measurometer` dispatcher: `instrument` composes the registered
    drivers' own `instrument` wrappers around the block by folding over the
    registry, and `increment_counter` / `add_distribution_value` fan a call
    out to every driver in registry order.

    Driver code is not visible to the dispatcher, so a driver is modelled by
    what it does when called. Every call a driver receives is recorded as an
    event, giving the trace an observer of the drivers would see. */
module Dispatcher {
  import opened Values
  import Registry

  /** Distinguishes driver objects that otherwise behave alike. */
  type DriverId = nat

  /** What a driver's `instrument(name) { ... }` does with the inner block. */
  datatype SpanBehaviour =
      /** Yields once and returns the inner block's value; an error from the
          block propagates (the StatsD driver and the recording driver in the
          tests behave like this). */
    | PassThrough
      /** Yields once, then returns `v` instead of the inner block's value. */
    | Substitute(v: Value)
      /** Never yields; returns `v`. */
    | Skip(v: Value)
      /** Raises `e` without yielding. */
    | Fail(e: Error)
      /** Yields once; if the inner block raises, swallows it and returns `v`. */
    | Rescue(v: Value)
      /** Yields once; an error from the block propagates, but if the block
          returns, the driver raises `e` afterwards (the StatsD driver does
          this when its client's `timing` call raises). */
    | YieldThenFail(e: Error)
  {
    /** The inner block is called (exactly once). */
    predicate Yields() {
      !Skip? && !Fail?
    }

    /** The inner block is called, and the driver returns normally whenever
        the inner block does. */
    predicate Completes() {
      PassThrough? || Substitute? || Rescue?
    }

    /** The inner block is called, its errors are passed on untouched and the
        driver raises none of its own. */
    predicate Propagates() {
      PassThrough? || Substitute?
    }

    /** The driver raises an error of its own, `e`, in some case. */
    predicate Raising() {
      Fail? || YieldThenFail?
    }
  }

  /** What a driver does when it receives a counter or distribution call. */
  datatype Reaction = Accept | Reject(e: Error)

  /** The two fan-out calls, with their arguments. */
  datatype Call =
    | Counter(path: Name, amount: int)
    | Distribution(path: Name, value: real)

  datatype Driver = Driver(id: DriverId, span: SpanBehaviour, onCounter: Reaction, onDistribution: Reaction)
  {
    function ReactionTo(c: Call): Reaction {
      match c
      case Counter(_, _) => onCounter
      case Distribution(_, _) => onDistribution
    }
  }

  /** What the drivers observe: entry into and normal exit from a driver's
      `instrument`, and receipt of a fan-out call. */
  datatype Event =
    | Enter(driver: Driver, name: Name)
    | Exit(driver: Driver, name: Name)
    | Delivered(driver: Driver, call: Call)

  /** A completed dispatcher call: how it ended and what the drivers saw. */
  datatype Run = Run(outcome: Outcome, events: seq<Event>)

  /** A completed call of one of the thunks built by the fold: how it ended,
      the contents of the capture slot `blk_return_value` afterwards, and the
      events. */
  datatype Thunk = Thunk(outcome: Outcome, captured: Value, events: seq<Event>)

  predicate AllYield(ds: seq<Driver>) {
    forall i | 0 <= i < |ds| :: ds[i].span.Yields()
  }

  predicate AllComplete(ds: seq<Driver>) {
    forall i | 0 <= i < |ds| :: ds[i].span.Completes()
  }

  predicate AllPropagate(ds: seq<Driver>) {
    forall i | 0 <= i < |ds| :: ds[i].span.Propagates()
  }

  /** No driver keeps an error raised inside it from reaching its caller:
      none skips its inner block and none rescues. */
  predicate NoneShields(ds: seq<Driver>) {
    forall i | 0 <= i < |ds| :: !ds[i].span.Skip? && !ds[i].span.Rescue?
  }

  predicate SomeFail(ds: seq<Driver>) {
    exists i | 0 <= i < |ds| :: ds[i].span.Raising()
  }

  /** Some driver in `ds` raises `e` of its own. */
  predicate RaisedBySome(ds: seq<Driver>, e: Error) {
    exists i | 0 <= i < |ds| :: ds[i].span.Raising() && ds[i].span.e == e
  }

  /** The value the capture slot holds once the block has run: its return
      value, or the initial `nil` if it raised. */
  function CaptureOf(block: Run): Value {
    if block.outcome.Returned? then block.outcome.value else Nil
  }

  /** The lambda that runs the block and stores its value in the slot. */
  function Capture(block: Run): (t: Thunk)
    ensures t.outcome == block.outcome && t.events == block.events
    ensures t.captured == CaptureOf(block)
  {
    Thunk(block.outcome, CaptureOf(block), block.events)
  }

  /** One driver's `instrument`, given what calling the inner thunk would
      produce. A driver that does not yield never runs the inner thunk, so
      the capture slot keeps its initial `nil` and none of its events occur.
      A driver that raises leaves without an exit event. */
  function Span(d: Driver, name: Name, inner: Thunk): (t: Thunk)
    ensures d.span.Yields() ==> t.captured == inner.captured
    ensures |t.events| > 0 && t.events[0] == Enter(d, name)
    ensures !d.span.Yields() ==> t.captured == Nil && t.events[1..] == (if d.span.Skip? then [Exit(d, name)] else [])
    ensures d.span.Yields() ==>
              |t.events| > |inner.events| && t.events[..|inner.events| + 1] == [Enter(d, name)] + inner.events
    ensures d.span.Completes() && inner.outcome.Returned? ==>
              t.outcome.Returned? && t.events == [Enter(d, name)] + inner.events + [Exit(d, name)]
    ensures d.span.Yields() && !d.span.Rescue? && inner.outcome.Raised? ==>
              t.outcome == inner.outcome && t.events == [Enter(d, name)] + inner.events
    ensures d.span.YieldThenFail? && inner.outcome.Returned? ==> t.outcome == Raised(d.span.e)
    ensures t.outcome.Raised? ==> t.outcome == inner.outcome || (d.span.Raising() && d.span.e == t.outcome.error)
  {
    var enter := [Enter(d, name)];
    var exit := [Exit(d, name)];
    match d.span
    case PassThrough =>
      if inner.outcome.Raised? then Thunk(inner.outcome, inner.captured, enter + inner.events)
      else Thunk(inner.outcome, inner.captured, enter + inner.events + exit)
    case Substitute(v) =>
      if inner.outcome.Raised? then Thunk(inner.outcome, inner.captured, enter + inner.events)
      else Thunk(Returned(v), inner.captured, enter + inner.events + exit)
    case Skip(v) =>
      Thunk(Returned(v), Nil, enter + exit)
    case Fail(e) =>
      Thunk(Raised(e), Nil, enter)
    case Rescue(v) =>
      if inner.outcome.Raised? then Thunk(Returned(v), inner.captured, enter + inner.events + exit)
      else Thunk(inner.outcome, inner.captured, enter + inner.events + exit)
    case YieldThenFail(e) =>
      if inner.outcome.Raised? then Thunk(inner.outcome, inner.captured, enter + inner.events)
      else Thunk(Raised(e), inner.captured, enter + inner.events)
  }

  /** The `inject` fold over the registry, then called. The fold starts from
      the capturing lambda and wraps each driver's `instrument` around the
      thunk built so far, so the driver iterated last is outermost and the
      first one sits next to the block. */
  function Chain(ds: seq<Driver>, name: Name, block: Run): (t: Thunk)
    ensures AllYield(ds) ==> t.captured == CaptureOf(block)
    ensures AllComplete(ds) && block.outcome.Returned? ==> t.outcome.Returned?
    ensures !AllYield(ds) ==> t.captured == Nil
    ensures AllYield(ds) && NoneShields(ds) && block.outcome.Raised? ==> t.outcome == block.outcome
    ensures t.outcome.Raised? ==> t.outcome == block.outcome || RaisedBySome(ds, t.outcome.error)
    ensures NoneShields(ds) && SomeFail(ds) ==> t.outcome.Raised?
    decreases |ds|
  {
    if |ds| == 0 then Capture(block)
    else
      var n := |ds| - 1;
      var inner := Chain(ds[..n], name, block);
      assert forall i | 0 <= i < n :: ds[..n][i] == ds[i];
      Span(ds[n], name, inner)
  }

  /** `Measurometer.instrument(block_name, &blk)`. With no drivers the block's
      own run is the answer. Otherwise the composed chain is called once and
      the capture slot, not the chain's return value, is the result; an
      error raised anywhere in the chain reaches the caller. */
  function Instrument(ds: seq<Driver>, name: Name, block: Run): (r: Run)
    ensures |ds| == 0 ==> r == block
    ensures AllComplete(ds) && block.outcome.Returned? ==> r.outcome == block.outcome
    ensures AllYield(ds) && r.outcome.Returned? ==> r.outcome.value == CaptureOf(block)
    ensures AllPropagate(ds) ==> r.outcome == block.outcome
    ensures !AllYield(ds) && r.outcome.Returned? ==> r.outcome.value == Nil
    ensures r.outcome.Raised? ==> r.outcome == block.outcome || RaisedBySome(ds, r.outcome.error)
    ensures NoneShields(ds) && SomeFail(ds) ==> r.outcome.Raised?
  {
    if |ds| == 0 then block
    else
      var t := Chain(ds, name, block);
      Run(if t.outcome.Raised? then t.outcome else Returned(t.captured), t.events)
  }

  /** Every driver in `ds` accepts the call `c`. */
  predicate AllAccept(ds: seq<Driver>, c: Call) {
    forall i | 0 <= i < |ds| :: ds[i].ReactionTo(c).Accept?
  }

  lemma AllAcceptCons(ds: seq<Driver>, c: Call)
    requires |ds| > 0
    ensures AllAccept(ds, c) <==> ds[0].ReactionTo(c).Accept? && AllAccept(ds[1..], c)
  {
  }

  /** The body of the two fan-out methods: delivers the call to each driver
      in registry order, with the arguments unchanged, and returns nil unless
      a driver raised, which ends delivery. */
  function FanOut(ds: seq<Driver>, c: Call): (r: Run)
    ensures |r.events| <= |ds|
    ensures forall i | 0 <= i < |r.events| :: r.events[i] == Delivered(ds[i], c)
    ensures r.outcome.Returned? ==> r.outcome.value == Nil
    decreases |ds|
  {
    if |ds| == 0 then Run(Returned(Nil), [])
    else
      var here := Delivered(ds[0], c);
      match ds[0].ReactionTo(c)
      case Reject(e) => Run(Raised(e), [here])
      case Accept =>
        var rest := FanOut(ds[1..], c);
        assert forall i | 0 <= i < |rest.events| :: rest.events[i] == Delivered(ds[i + 1], c);
        Run(rest.outcome, [here] + rest.events)
  }

  /** A fan-out returns, having reached every driver, exactly when all of
      them accept the call. */
  lemma {:induction false} FanOutReachesAllIffAccepted(ds: seq<Driver>, c: Call)
    ensures FanOut(ds, c).outcome.Returned? <==> AllAccept(ds, c)
    ensures FanOut(ds, c).outcome.Returned? ==> |FanOut(ds, c).events| == |ds|
    decreases |ds|
  {
    if |ds| > 0 {
      AllAcceptCons(ds, c);
      if ds[0].ReactionTo(c).Accept? {
        FanOutReachesAllIffAccepted(ds[1..], c);
      }
    }
  }

  /** The position of the first driver that rejects `c`, or `|ds|` if all
      accept. */
  function FirstReject(ds: seq<Driver>, c: Call): (k: nat)
    ensures k <= |ds|
    ensures forall i | 0 <= i < k :: ds[i].ReactionTo(c).Accept?
    ensures k < |ds| ==> ds[k].ReactionTo(c).Reject?
    decreases |ds|
  {
    if |ds| == 0 || ds[0].ReactionTo(c).Reject? then 0
    else
      var k := FirstReject(ds[1..], c);
      assert forall i | 0 < i < k + 1 :: ds[i] == ds[1..][i - 1];
      k + 1
  }

  /** When the first driver accepts, the fan-out is its delivery followed by
      the fan-out to the rest, and the first rejecting driver is found one
      position further on. */
  lemma FanOutAcceptStep(ds: seq<Driver>, c: Call)
    requires |ds| > 0 && ds[0].ReactionTo(c).Accept?
    ensures FanOut(ds, c) == Run(FanOut(ds[1..], c).outcome, [Delivered(ds[0], c)] + FanOut(ds[1..], c).events)
    ensures FirstReject(ds, c) == FirstReject(ds[1..], c) + 1
  {
  }

  /** When the first driver rejects, it is the only one reached. */
  lemma FanOutRejectStep(ds: seq<Driver>, c: Call)
    requires |ds| > 0 && ds[0].ReactionTo(c).Reject?
    ensures FanOut(ds, c) == Run(Raised(ds[0].ReactionTo(c).e), [Delivered(ds[0], c)])
    ensures FirstReject(ds, c) == 0
  {
  }

  /** Delivery stops at the first driver that rejects the call: that driver
      is the last one reached and its error is the one the caller sees, so no
      later driver sees the call. */
  lemma {:induction false} FanOutStopsAtFirstFailure(ds: seq<Driver>, c: Call)
    requires FirstReject(ds, c) < |ds|
    ensures |FanOut(ds, c).events| == FirstReject(ds, c) + 1
    ensures FanOut(ds, c).outcome == Raised(ds[FirstReject(ds, c)].ReactionTo(c).e)
    decreases |ds|
  {
    if ds[0].ReactionTo(c).Accept? {
      var t := ds[1..];
      FanOutStopsAtFirstFailure(t, c);
      FanOutAcceptStep(ds, c);
      assert ds[FirstReject(t, c) + 1] == t[FirstReject(t, c)];
    } else {
      FanOutRejectStep(ds, c);
    }
  }

  /** `Measurometer.increment_counter(counter_path, by)`. */
  function IncrementCounter(ds: seq<Driver>, path: Name, amount: int): (r: Run)
    ensures forall e | e in r.events :: e.Delivered? && e.call == Counter(path, amount)
    ensures r.outcome.Returned? ==> r.outcome == Returned(Nil)
    ensures (forall i | 0 <= i < |ds| :: ds[i].onCounter.Accept?) ==>
              && r.outcome == Returned(Nil)
              && |r.events| == |ds|
              && forall i | 0 <= i < |ds| :: r.events[i].driver == ds[i]
  {
    FanOutReachesAllIffAccepted(ds, Counter(path, amount));
    FanOut(ds, Counter(path, amount))
  }

  /** `Measurometer.add_distribution_value(value_path, value)`. */
  function AddDistributionValue(ds: seq<Driver>, path: Name, value: real): (r: Run)
    ensures forall e | e in r.events :: e.Delivered? && e.call == Distribution(path, value)
    ensures r.outcome.Returned? ==> r.outcome == Returned(Nil)
    ensures (forall i | 0 <= i < |ds| :: ds[i].onDistribution.Accept?) ==>
              && r.outcome == Returned(Nil)
              && |r.events| == |ds|
              && forall i | 0 <= i < |ds| :: r.events[i].driver == ds[i]
  {
    FanOutReachesAllIffAccepted(ds, Distribution(path, value));
    FanOut(ds, Distribution(path, value))
  }

  /** The driver entries of a fully nested `instrument`, outermost first:
      the driver iterated last enters first. */
  function Opening(ds: seq<Driver>, name: Name): seq<Event> {
    seq(|ds|, i requires 0 <= i < |ds| => Enter(ds[|ds| - 1 - i], name))
  }

  /** The driver exits of a fully nested `instrument`, innermost first:
      the driver iterated first exits first. */
  function Closing(ds: seq<Driver>, name: Name): seq<Event> {
    seq(|ds|, i requires 0 <= i < |ds| => Exit(ds[i], name))
  }

  /** When every driver completes and the block returns, the trace is
      exactly the nest the fold builds: each driver is entered once with the
      same name, the driver iterated last is outermost, the block runs
      innermost, and the exits unwind in the opposite order. */
  lemma {:induction false} NestingOrder(ds: seq<Driver>, name: Name, block: Run)
    requires AllComplete(ds) && block.outcome.Returned?
    ensures Instrument(ds, name, block).events == Opening(ds, name) + block.events + Closing(ds, name)
  {
    if |ds| > 0 {
      ChainNesting(ds, name, block);
    }
  }

  lemma {:induction false} ChainNesting(ds: seq<Driver>, name: Name, block: Run)
    requires AllComplete(ds) && block.outcome.Returned?
    ensures Chain(ds, name, block).events == Opening(ds, name) + block.events + Closing(ds, name)
    decreases |ds|
  {
    if |ds| > 0 {
      var n := |ds| - 1;
      var front := ds[..n];
      FrontCompletes(ds);
      ChainNesting(front, name, block);
      var inner := Chain(front, name, block);
      assert Chain(ds, name, block) == Span(ds[n], name, inner);
      OpeningClosingSnoc(ds, name);
      Regroup(Enter(ds[n], name), Opening(front, name), block.events, Closing(front, name), Exit(ds[n], name));
    }
  }

  /** Whatever the block does, as long as every driver yields, the trace
      opens with the same nest: every driver is entered once, the driver
      iterated last first, and then the block's own events happen. */
  lemma {:induction false} EntriesPrecedeBlock(ds: seq<Driver>, name: Name, block: Run)
    requires AllYield(ds)
    ensures |Instrument(ds, name, block).events| >= |ds| + |block.events|
    ensures Instrument(ds, name, block).events[..|ds| + |block.events|] == Opening(ds, name) + block.events
  {
    if |ds| > 0 {
      ChainEntries(ds, name, block);
    }
  }

  lemma {:induction false} ChainEntries(ds: seq<Driver>, name: Name, block: Run)
    requires AllYield(ds)
    ensures |Chain(ds, name, block).events| >= |ds| + |block.events|
    ensures Chain(ds, name, block).events[..|ds| + |block.events|] == Opening(ds, name) + block.events
    decreases |ds|
  {
    if |ds| > 0 {
      var n := |ds| - 1;
      var front := ds[..n];
      FrontYields(ds);
      ChainEntries(front, name, block);
      var inner := Chain(front, name, block);
      var t := Span(ds[n], name, inner);
      ChainStep(ds, name, block);
      OpeningClosingSnoc(ds, name);
      PrefixStep(Enter(ds[n], name), inner.events, t.events, Opening(front, name), block.events);
    }
  }

  /** If `u` starts with `x` followed by `s`, and `s` starts with `a + b`,
      then `u` starts with `[x] + a` followed by `b`. */
  lemma PrefixStep<T>(x: T, s: seq<T>, u: seq<T>, a: seq<T>, b: seq<T>)
    requires |u| > |s| && u[..|s| + 1] == [x] + s
    requires |s| >= |a| + |b| && s[..|a| + |b|] == a + b
    ensures |u| >= |a| + 1 + |b|
    ensures u[..|a| + 1 + |b|] == ([x] + a) + b
  {
    assert u[..|a| + 1 + |b|] == u[..|s| + 1][..|a| + 1 + |b|];
  }

  /** When every driver yields and none rescues, a raising block is reported
      to the caller unchanged, and no driver exits: the trace is exactly the
      entries of the nest followed by the block's events. */
  lemma {:induction false} ErrorUnwindsWithoutExits(ds: seq<Driver>, name: Name, block: Run)
    requires AllYield(ds) && NoneShields(ds) && block.outcome.Raised?
    ensures Instrument(ds, name, block) == Run(block.outcome, Opening(ds, name) + block.events)
  {
    if |ds| > 0 {
      ChainUnwinds(ds, name, block);
    }
  }

  lemma {:induction false} ChainUnwinds(ds: seq<Driver>, name: Name, block: Run)
    requires AllYield(ds) && NoneShields(ds) && block.outcome.Raised?
    ensures Chain(ds, name, block).events == Opening(ds, name) + block.events
    decreases |ds|
  {
    if |ds| > 0 {
      var n := |ds| - 1;
      var front := ds[..n];
      FrontYields(ds);
      FrontShieldsNone(ds);
      ChainUnwinds(front, name, block);
      var inner := Chain(front, name, block);
      assert inner.outcome.Raised?;
      ChainStep(ds, name, block);
      OpeningClosingSnoc(ds, name);
      ConsAssoc(Enter(ds[n], name), Opening(front, name), block.events);
    }
  }

  lemma ConsAssoc<T>(x: T, a: seq<T>, b: seq<T>)
    ensures [x] + (a + b) == ([x] + a) + b
  {
  }

  lemma FrontShieldsNone(ds: seq<Driver>)
    requires NoneShields(ds) && |ds| > 0
    ensures NoneShields(ds[..|ds| - 1])
  {
  }

  /** One step of the fold: the last driver wraps the chain of the others. */
  lemma ChainStep(ds: seq<Driver>, name: Name, block: Run)
    requires |ds| > 0
    ensures Chain(ds, name, block) == Span(ds[|ds| - 1], name, Chain(ds[..|ds| - 1], name, block))
  {
  }

  lemma Regroup<T>(first: T, a: seq<T>, b: seq<T>, c: seq<T>, last: T)
    ensures [first] + (a + b + c) + [last] == ([first] + a) + b + (c + [last])
  {
  }

  lemma FrontYields(ds: seq<Driver>)
    requires AllYield(ds) && |ds| > 0
    ensures AllYield(ds[..|ds| - 1])
  {
  }

  lemma FrontCompletes(ds: seq<Driver>)
    requires AllComplete(ds) && |ds| > 0
    ensures AllComplete(ds[..|ds| - 1])
  {
  }

  /** Adding a driver at the end of the registry adds an outermost entry and
      a last exit. */
  lemma OpeningClosingSnoc(ds: seq<Driver>, name: Name)
    requires |ds| > 0
    ensures Opening(ds, name) == [Enter(ds[|ds| - 1], name)] + Opening(ds[..|ds| - 1], name)
    ensures Closing(ds, name) == Closing(ds[..|ds| - 1], name) + [Exit(ds[|ds| - 1], name)]
  {
  }

  /** Each registered driver is entered exactly once: the entries of the
      nest are duplicate-free and are entries of precisely the registered
      drivers, all under the same name. */
  lemma EnteredOnce(ds: seq<Driver>, name: Name)
    requires Registry.NoDups(ds)
    ensures Registry.NoDups(Opening(ds, name))
    ensures forall d :: Enter(d, name) in Opening(ds, name) <==> d in ds
    ensures forall e | e in Opening(ds, name) :: e.Enter? && e.name == name
  {
    var o := Opening(ds, name);
    forall d | d in ds ensures Enter(d, name) in o {
      var k :| 0 <= k < |ds| && ds[k] == d;
      assert o[|ds| - 1 - k] == Enter(d, name);
    }
  }

  /** A driver that never calls its inner block hides the block entirely:
      `instrument` then behaves the same whatever the block would have done,
      and can only return the capture slot's initial `nil` or raise. */
  lemma {:induction false} SkippedBlockIsInvisible(ds: seq<Driver>, name: Name, b1: Run, b2: Run)
    requires !AllYield(ds)
    ensures Instrument(ds, name, b1) == Instrument(ds, name, b2)
    ensures Instrument(ds, name, b1).outcome.Returned? ==> Instrument(ds, name, b1).outcome == Returned(Nil)
  {
    ChainIgnoresBlock(ds, name, b1, b2);
  }

  lemma {:induction false} ChainIgnoresBlock(ds: seq<Driver>, name: Name, b1: Run, b2: Run)
    requires !AllYield(ds)
    ensures Chain(ds, name, b1) == Chain(ds, name, b2)
    decreases |ds|
  {
    var n := |ds| - 1;
    var front := ds[..n];
    if ds[n].span.Yields() {
      assert !AllYield(front) by {
        var k :| 0 <= k < |ds| && !ds[k].span.Yields();
        assert k < n && front[k] == ds[k];
      }
      ChainIgnoresBlock(front, name, b1, b2);
    }
  }

  /** The test's "nasty" driver yields but returns nil; the block's own
      value still comes back from `instrument`. */
  lemma NastyDriverDoesNotLoseResult(id: DriverId, counter: Reaction, sample: Reaction)
    ensures Instrument([Driver(id, Substitute(Nil), counter, sample)], "foo", Run(Returned(Sym("block_result")), [])).outcome
            == Returned(Sym("block_result"))
  {
  }

  /** With every driver accepting, a fan-out is exactly a map over the
      registry: one delivery per driver, in registry order, arguments unchanged. */
  lemma FanOutIsMap(ds: seq<Driver>, c: Call)
    requires AllAccept(ds, c)
    ensures FanOut(ds, c) == Run(Returned(Nil), seq(|ds|, i requires 0 <= i < |ds| => Delivered(ds[i], c)))
  {
  }

  /** A driver that raises only after its block returned, inside a driver
      that rescues: the error never reaches the caller, and since the block
      did run, the captured value `:x` is what `instrument` returns. */
  lemma LateFailureRescuedKeepsValue(e: Error, v: Value, counter: Reaction, sample: Reaction)
    ensures var inner := Driver(0, YieldThenFail(e), counter, sample);
            var outer := Driver(1, Rescue(v), counter, sample);
            Instrument([inner, outer], "foo", Run(Returned(Sym("x")), [])).outcome == Returned(Sym("x"))
  {
  }
}
