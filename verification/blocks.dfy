/** Instrumented code as a small program tree, so that `instrument` calls can
    nest and can emit counters and samples from inside their blocks, as the
    application code around the dispatcher does. The registry does not change
    while a program runs. */
module Blocks {
  import opened Values
  import D = Dispatcher

  datatype Block =
    | Return(v: Value)
    | Raise(e: Error)
      /** Runs `first`, then, if it returned, `rest`; the value is `rest`'s. */
    | Then(first: Block, rest: Block)
    | Instrument(name: Name, body: Block)
    | IncrementCounter(path: Name, amount: int)
    | AddDistributionValue(path: Name, value: real)

  /** The outcome of a block when instrumentation is ignored altogether:
      each `instrument` is just its body and each fan-out returns nil. */
  function Plain(b: Block): Outcome {
    match b
    case Return(v) => Returned(v)
    case Raise(e) => Raised(e)
    case Then(first, rest) =>
      var o := Plain(first);
      if o.Raised? then o else Plain(rest)
    case Instrument(_, body) => Plain(body)
    case IncrementCounter(_, _) => Returned(Nil)
    case AddDistributionValue(_, _) => Returned(Nil)
  }

  /** Runs a block against a registry. With no drivers registered, nothing
      reaches any driver and the outcome is the uninstrumented one. */
  function Exec(ds: seq<D.Driver>, b: Block): (r: D.Run)
    ensures |ds| == 0 ==> r.events == [] && r.outcome == Plain(b)
  {
    match b
    case Return(v) => D.Run(Returned(v), [])
    case Raise(e) => D.Run(Raised(e), [])
    case Then(first, rest) =>
      var r1 := Exec(ds, first);
      if r1.outcome.Raised? then r1
      else
        var r2 := Exec(ds, rest);
        D.Run(r2.outcome, r1.events + r2.events)
    case Instrument(name, body) => D.Instrument(ds, name, Exec(ds, body))
    case IncrementCounter(path, amount) => D.IncrementCounter(ds, path, amount)
    case AddDistributionValue(path, value) => D.AddDistributionValue(ds, path, value)
  }

  /** Drivers that yield, pass errors on and accept every call. */
  predicate WellBehaved(ds: seq<D.Driver>) {
    forall i | 0 <= i < |ds| :: ds[i].span.Propagates() && ds[i].onCounter.Accept? && ds[i].onDistribution.Accept?
  }

  /** Instrumentation is transparent: with well-behaved drivers, however
      the calls nest, the program ends exactly as it would uninstrumented,
      whatever the drivers' own `instrument` wrappers return. */
  lemma {:induction false} Transparent(ds: seq<D.Driver>, b: Block)
    requires WellBehaved(ds)
    ensures Exec(ds, b).outcome == Plain(b)
  {
    match b
    case Return(_) =>
    case Raise(_) =>
    case Then(first, rest) =>
      Transparent(ds, first);
      Transparent(ds, rest);
    case Instrument(_, body) =>
      Transparent(ds, body);
    case IncrementCounter(path, amount) =>
      assert (D.IncrementCounter(ds, path, amount).outcome).Returned? by {
        assert forall i | 0 <= i < |ds| :: ds[i].ReactionTo(D.Counter(path, amount)).Accept?;
      }
    case AddDistributionValue(path, value) =>
      assert (D.AddDistributionValue(ds, path, value).outcome).Returned? by {
        assert forall i | 0 <= i < |ds| :: ds[i].ReactionTo(D.Distribution(path, value)).Accept?;
      }
  }

  /** The test where one recording driver sees a span with two nested spans,
      a counter and a sample: every span is reported under its own name, in
      nesting order, the counter and the sample arrive inside their spans, and
      the outer block's value comes back. */
  lemma NestedScenario(d: D.Driver, sample: real)
    requires d.span == D.PassThrough && d.onCounter.Accept? && d.onDistribution.Accept?
    ensures
      var program :=
        Instrument("something_amazing.foo",
          Then(Instrument("something_amazing.subtask",
                 IncrementCounter("something_amazing.subtasks_performed", 1)),
          Then(Instrument("something_amazing.another_subtask",
                 AddDistributionValue("something_amazing.another_subtask.sleep_durations", sample)),
               Return(Sym("task_finished")))));
      var r := Exec([d], program);
      && r.outcome == Returned(Sym("task_finished"))
      && r.events == [
           D.Enter(d, "something_amazing.foo"),
           D.Enter(d, "something_amazing.subtask"),
           D.Delivered(d, D.Counter("something_amazing.subtasks_performed", 1)),
           D.Exit(d, "something_amazing.subtask"),
           D.Enter(d, "something_amazing.another_subtask"),
           D.Delivered(d, D.Distribution("something_amazing.another_subtask.sleep_durations", sample)),
           D.Exit(d, "something_amazing.another_subtask"),
           D.Exit(d, "something_amazing.foo")]
  {
    var ds := [d];
    var count := IncrementCounter("something_amazing.subtasks_performed", 1);
    var sampled := AddDistributionValue("something_amazing.another_subtask.sleep_durations", sample);
    var inner1 := Instrument("something_amazing.subtask", count);
    var inner2 := Instrument("something_amazing.another_subtask", sampled);
    var tail := Then(inner2, Return(Sym("task_finished")));
    var body := Then(inner1, tail);
    var counted := D.Counter("something_amazing.subtasks_performed", 1);
    var distributed := D.Distribution("something_amazing.another_subtask.sleep_durations", sample);
    assert d.ReactionTo(counted).Accept? && d.ReactionTo(distributed).Accept?;
    assert Exec(ds, count) == D.Run(Returned(Nil), [D.Delivered(d, counted)]);
    assert Exec(ds, sampled) == D.Run(Returned(Nil), [D.Delivered(d, distributed)]);
    SingleNest(d, "something_amazing.subtask", Exec(ds, count));
    SingleNest(d, "something_amazing.another_subtask", Exec(ds, sampled));
    assert Exec(ds, tail).outcome == Returned(Sym("task_finished"));
    assert Exec(ds, body).outcome == Returned(Sym("task_finished"));
    assert Exec(ds, inner1).events == [
             D.Enter(d, "something_amazing.subtask"), D.Delivered(d, counted), D.Exit(d, "something_amazing.subtask")];
    assert Exec(ds, inner2).events == [
             D.Enter(d, "something_amazing.another_subtask"), D.Delivered(d, distributed),
             D.Exit(d, "something_amazing.another_subtask")];
    assert Exec(ds, tail).events == Exec(ds, inner2).events + [];
    assert Exec(ds, body).events == Exec(ds, inner1).events + Exec(ds, tail).events;
    assert Exec(ds, body).events == [
             D.Enter(d, "something_amazing.subtask"),
             D.Delivered(d, counted),
             D.Exit(d, "something_amazing.subtask"),
             D.Enter(d, "something_amazing.another_subtask"),
             D.Delivered(d, distributed),
             D.Exit(d, "something_amazing.another_subtask")];
    SingleNest(d, "something_amazing.foo", Exec(ds, body));
  }

  /** One pass-through driver wraps a returning block in one entry and one exit. */
  lemma SingleNest(d: D.Driver, name: Name, block: D.Run)
    requires d.span == D.PassThrough && block.outcome.Returned?
    ensures D.Instrument([d], name, block) == D.Run(block.outcome, [D.Enter(d, name)] + block.events + [D.Exit(d, name)])
  {
    D.NestingOrder([d], name, block);
    assert D.Opening([d], name) == [D.Enter(d, name)];
    assert D.Closing([d], name) == [D.Exit(d, name)];
  }
}
