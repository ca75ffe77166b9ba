/** `Measurometer::StatsdDriver`: adapts a statsd client to the driver
    interface. The client is observed as the append-only log of the calls it
    receives. The monotonic clock is not read here: the caller supplies the
    block's elapsed time in nanoseconds. */
module StatsdDriver {
  import opened Values
  import D = Dispatcher

  /** The statsd client primitives the driver uses. */
  datatype ClientCall =
    | Timing(name: Name, millis: int)
    | Increment(name: Name, amount: int)
    | Count(name: Name, value: real)
    | Gauge(name: Name, value: real)

  const NanosPerMilli: nat := 1000000

  /** The elapsed time in whole milliseconds: the fractional seconds are
      scaled by a thousand and truncated towards zero. */
  function Millis(elapsedNs: nat): (ms: nat)
    ensures ms * NanosPerMilli <= elapsedNs < (ms + 1) * NanosPerMilli
  {
    elapsedNs / NanosPerMilli
  }

  /** `log` followed by exactly one more call, `c`. */
  predicate AppendsOne(log: seq<ClientCall>, log': seq<ClientCall>, c: ClientCall) {
    |log'| == |log| + 1 && log'[..|log|] == log && log'[|log|] == c
  }

  datatype SpanResult = SpanResult(outcome: Outcome, log: seq<ClientCall>)

  /** The driver's `instrument`. `log` is the client's log when the block
      starts and `during` the calls the block itself caused. The block's
      value is returned unchanged; only after the block has returned is one
      timing sent, under the action's name. A raising block sends no timing. */
  function Instrument(log: seq<ClientCall>, name: Name, block: Outcome, during: seq<ClientCall>, elapsedNs: nat): (r: SpanResult)
    ensures r.outcome == block
    ensures block.Raised? ==> r.log == log + during
    ensures block.Returned? ==>
              && |r.log| == |log| + |during| + 1 && r.log[..|log| + |during|] == log + during
              && var t := r.log[|log| + |during|];
                 && t.Timing? && t.name == name
                 && t.millis * NanosPerMilli <= elapsedNs < (t.millis + 1) * NanosPerMilli
  {
    match block
    case Raised(_) => SpanResult(block, log + during)
    case Returned(_) => SpanResult(block, log + during + [Timing(name, Millis(elapsedNs))])
  }

  /** The driver behaves, towards the dispatcher, like a pass-through driver:
      whatever the inner block did, its `instrument` ends the same way. */
  lemma ActsAsPassThrough(log: seq<ClientCall>, d: D.Driver, name: Name, inner: D.Thunk, during: seq<ClientCall>, elapsedNs: nat)
    requires d.span == D.PassThrough
    ensures Instrument(log, name, inner.outcome, during, elapsedNs).outcome == D.Span(d, name, inner).outcome
  {
  }

  /** `increment_counter(counter_name, by)`. */
  function IncrementCounter(log: seq<ClientCall>, name: Name, amount: int): (r: seq<ClientCall>)
    ensures AppendsOne(log, r, Increment(name, amount))
  {
    log + [Increment(name, amount)]
  }

  /** `add_distribution_value(key_path, value)`. */
  function AddDistributionValue(log: seq<ClientCall>, path: Name, value: real): (r: seq<ClientCall>)
    ensures AppendsOne(log, r, Count(path, value))
  {
    log + [Count(path, value)]
  }

  /** `set_gauge(gauge_name, value)`. */
  function SetGauge(log: seq<ClientCall>, name: Name, value: real): (r: seq<ClientCall>)
    ensures AppendsOne(log, r, Gauge(name, value))
  {
    log + [Gauge(name, value)]
  }

  /** The driver's three value-reporting operations. */
  datatype Op =
    | CounterOp(name: Name, amount: int)
    | DistributionOp(path: Name, value: real)
    | GaugeOp(name: Name, value: real)

  /** The client primitive each operation is forwarded to, as a relation:
      same kind of metric, same name, same number. */
  predicate Forwards(op: Op, c: ClientCall) {
    match op
    case CounterOp(n, a) => c.Increment? && c.name == n && c.amount == a
    case DistributionOp(p, v) => c.Count? && c.name == p && c.value == v
    case GaugeOp(n, v) => c.Gauge? && c.name == n && c.value == v
  }

  function Apply(log: seq<ClientCall>, op: Op): seq<ClientCall> {
    match op
    case CounterOp(n, a) => IncrementCounter(log, n, a)
    case DistributionOp(p, v) => AddDistributionValue(log, p, v)
    case GaugeOp(n, v) => SetGauge(log, n, v)
  }

  /** Running operations one after another, first to last. */
  function ApplyAll(log: seq<ClientCall>, ops: seq<Op>): seq<ClientCall>
    decreases |ops|
  {
    if |ops| == 0 then log else ApplyAll(Apply(log, ops[0]), ops[1..])
  }

  /** Every operation reaches the client as exactly one call of the matching
      primitive with unchanged arguments, in the order issued, and nothing
      already logged is touched. */
  lemma {:induction false} OneCallPerOp(log: seq<ClientCall>, ops: seq<Op>)
    ensures |ApplyAll(log, ops)| == |log| + |ops|
    ensures ApplyAll(log, ops)[..|log|] == log
    ensures forall i | 0 <= i < |ops| :: Forwards(ops[i], ApplyAll(log, ops)[|log| + i])
    decreases |ops|
  {
    if |ops| > 0 {
      var next := Apply(log, ops[0]);
      assert |next| == |log| + 1 && next[..|log|] == log && Forwards(ops[0], next[|log|]);
      OneCallPerOp(next, ops[1..]);
      var r := ApplyAll(log, ops);
      assert r == ApplyAll(next, ops[1..]);
      assert r[..|log|] == next[..|next|][..|log|];
      forall i | 0 <= i < |ops| ensures Forwards(ops[i], r[|log| + i]) {
        if i == 0 {
          assert r[|log|] == r[..|next|][|log|] == next[|log|];
        } else {
          assert ops[i] == ops[1..][i - 1];
          assert |log| + i == |next| + (i - 1);
        }
      }
    }
  }
}
