/**
 What the fields of a channel are after any run since construction, told from the operations
 alone: who is listed, what the value of a ReadOnlyInt or ReadOnlyString is, who holds it, and
 whether the channel counts as valid.
 */
module ChannelHistory {
  import opened Wrappers
  import opened Channels
  import opened ChannelRounds
  import opened ChannelRuns

  // ---------- who is listed ----------

  /** x subscribed in the run and did not unsubscribe after that. */
  predicate Subscribes(ops: seq<Op>, x: Subscriber) {
    exists i | 0 <= i < |ops| :: ops[i] == OpSubscribe(x) && StaysFrom(ops, i, x)
  }

  /** x does not unsubscribe from the i-th operation on. */
  predicate StaysFrom(ops: seq<Op>, i: nat, x: Subscriber) {
    forall j | i <= j < |ops| :: ops[j] != OpUnsubscribe(x)
  }

  lemma SubscribesMore(ops: seq<Op>, op: Op, x: Subscriber)
    requires op != OpUnsubscribe(x) && Subscribes(ops, x)
    ensures Subscribes(ops + [op], x)
  {
    var i :| 0 <= i < |ops| && ops[i] == OpSubscribe(x) && StaysFrom(ops, i, x);
    assert (ops + [op])[i] == OpSubscribe(x) && StaysFrom(ops + [op], i, x);
  }

  lemma SubscribesFront(ops: seq<Op>, op: Op, x: Subscriber)
    requires op != OpSubscribe(x) && Subscribes(ops + [op], x)
    ensures op != OpUnsubscribe(x) && Subscribes(ops, x)
  {
    var all := ops + [op];
    var i :| 0 <= i < |all| && all[i] == OpSubscribe(x) && StaysFrom(all, i, x);
    assert all[|ops|] == op && i < |ops|;
    assert forall j | i <= j < |ops| :: ops[j] == all[j];
    assert ops[i] == OpSubscribe(x) && StaysFrom(ops, i, x);
  }

  lemma SubscribesSnoc(ops: seq<Op>, op: Op, x: Subscriber)
    ensures Subscribes(ops + [op], x) <==> op == OpSubscribe(x) || (op != OpUnsubscribe(x) && Subscribes(ops, x))
  {
    var all := ops + [op];
    if op == OpSubscribe(x) {
      assert all[|ops|] == OpSubscribe(x) && StaysFrom(all, |ops|, x);
    } else if Subscribes(all, x) {
      SubscribesFront(ops, op, x);
    }
    if op != OpUnsubscribe(x) && Subscribes(ops, x) {
      SubscribesMore(ops, op, x);
    }
  }

  lemma {:induction false} StepLists(kind: Kind, simulated: bool, s: State, op: Op, x: Subscriber)
    ensures x in Step(kind, simulated, s, op).subscribers <==>
            op == OpSubscribe(x) || (op != OpUnsubscribe(x) && x in s.subscribers)
  {
    match op
    case OpGet(r, bound) => GetKeeps(kind, s, simulated, bound, r);
    case OpSet(v, bound, ok) => SetKeeps(kind, s, bound, v, ok);
    case OpPoll(r, bound) => GetKeeps(kind, s, simulated, bound, r);
    case _ =>
  }

  /** Listed are exactly those who subscribed and have not unsubscribed since. */
  lemma {:induction false} ListedIff(kind: Kind, simulated: bool, v: Value, ops: seq<Op>, x: Subscriber)
    ensures x in Run(kind, simulated, Initial(kind, v), ops).subscribers <==> Subscribes(ops, x)
    decreases |ops|
  {
    if ops != [] {
      var front, op := ops[..|ops| - 1], ops[|ops| - 1];
      assert ops == front + [op];
      ListedIff(kind, simulated, v, front, x);
      SubscribesSnoc(front, op, x);
      StepLists(kind, simulated, Run(kind, simulated, Initial(kind, v), front), op, x);
    }
  }

  /** Whoever subscribed to a channel of a covered kind and has not unsubscribed since has been
      handed the present value after the next poll, whatever happened in between. */
  lemma SubscriberIsServed(kind: Kind, simulated: bool, v: Value, ops: seq<Op>, x: Subscriber, r: Reading, bound: bool)
    requires Covered(kind, simulated) && Subscribes(ops, x)
    ensures var t := Run(kind, simulated, Initial(kind, v), ops + [OpPoll(r, bound)]);
            x in t.subscribers && x in t.delivered && t.delivered[x] == t.value
  {
    var all := ops + [OpPoll(r, bound)];
    SubscribesSnoc(ops, OpPoll(r, bound), x);
    ListedIff(kind, simulated, v, all, x);
    CoveredKindsCatchUp(kind, simulated, v, all);
    assert CaughtUpAt(kind, simulated, Initial(kind, v), all, |ops|);
    assert all[..|ops| + 1] == all;
  }

  // ---------- the value of ReadOnlyInt and ReadOnlyString ----------

  /** The last simulated value of the run, or v if there is none. */
  function LastSimulated(v: Value, ops: seq<Op>): Value
    decreases |ops|
  {
    if ops == [] then v
    else
      var op := ops[|ops| - 1];
      if op.OpSimulate? then op.v else LastSimulated(v, ops[..|ops| - 1])
  }

  /** A successful read of a bound driver. */
  predicate ReadsDriver(op: Op) {
    (op.OpGet? || op.OpPoll?) && op.bound && op.r.ok
  }

  /** The last successful reading of the run, or v if there is none. */
  function LastReading(v: Value, ops: seq<Op>): Value
    decreases |ops|
  {
    if ops == [] then v
    else
      var op := ops[|ops| - 1];
      if ReadsDriver(op) then op.r.value else LastReading(v, ops[..|ops| - 1])
  }

  predicate ReadOnlyPlain(kind: Kind) {
    kind == Kind(IntData, ReadOnly) || kind == Kind(StringData, ReadOnly)
  }

  /** In simulated mode the value is the last one simulated, in driver mode the last one read; the
      constructor's as long as there is none. */
  lemma {:induction false} ReadOnlyValueIs(kind: Kind, simulated: bool, v: Value, ops: seq<Op>)
    requires ReadOnlyPlain(kind)
    ensures Run(kind, simulated, Initial(kind, v), ops).value ==
            if simulated then LastSimulated(v, ops) else LastReading(v, ops)
    decreases |ops|
  {
    if ops != [] {
      ReadOnlyValueIs(kind, simulated, v, ops[..|ops| - 1]);
    }
  }

  /** ... and after a poll everybody who subscribed and stayed has been handed exactly that. */
  lemma ReadOnlySubscribersHold(kind: Kind, simulated: bool, v: Value, ops: seq<Op>, x: Subscriber,
                                r: Reading, bound: bool)
    requires ReadOnlyPlain(kind) && Subscribes(ops, x)
    ensures var all := ops + [OpPoll(r, bound)];
            var t := Run(kind, simulated, Initial(kind, v), all);
            && x in t.delivered
            && t.delivered[x] == (if simulated then LastSimulated(v, all) else LastReading(v, all))
  {
    SubscriberIsServed(kind, simulated, v, ops, x, r, bound);
    ReadOnlyValueIs(kind, simulated, v, ops + [OpPoll(r, bound)]);
  }

  // ---------- the old value ----------

  /** For the double classes, and for the other read-only ones outside simulated mode, the old
      value is the one before the last change. */
  lemma OldValueIsPrevious(kind: Kind, simulated: bool, s: State, op: Op)
    requires kind.dataType == DoubleData || (ReadOnlyPlain(kind) && !simulated)
    requires !op.OpSimulate?
    ensures var t := Step(kind, simulated, s, op);
            t.oldValue == if t.value == s.value then s.oldValue else s.value
  {
  }

  // ---------- validity ----------

  /** The operations that make a channel valid: a simulated value, a successful read of one of the
      read-only classes outside simulated mode (of ReadOnlyDouble in either), an accepted write. */
  predicate Validates(kind: Kind, simulated: bool, op: Op) {
    match kind.accessMode
    case ReadOnly =>
      || (op.OpSimulate? && simulated)
      || (ReadsDriver(op) && kind.dataType != Unknown && (!simulated || kind.dataType == DoubleData))
    case ReadWrite => op.OpSet? && kind.dataType != Unknown && (!op.bound || op.ok)
    case Default => false
  }

  predicate SomeValidates(kind: Kind, simulated: bool, ops: seq<Op>) {
    exists i | 0 <= i < |ops| :: Validates(kind, simulated, ops[i])
  }

  lemma StepValid(kind: Kind, simulated: bool, s: State, op: Op)
    ensures Step(kind, simulated, s, op).valid <==> s.valid || Validates(kind, simulated, op)
  {
  }

  /** A channel is valid exactly once one of them has happened. */
  lemma {:induction false} ValidIff(kind: Kind, simulated: bool, v: Value, ops: seq<Op>)
    ensures Run(kind, simulated, Initial(kind, v), ops).valid <==> SomeValidates(kind, simulated, ops)
    decreases |ops|
  {
    if ops != [] {
      var front, op := ops[..|ops| - 1], ops[|ops| - 1];
      assert ops == front + [op];
      ValidIff(kind, simulated, v, front);
      StepValid(kind, simulated, Run(kind, simulated, Initial(kind, v), front), op);
      SomeValidatesSnoc(kind, simulated, front, op);
    }
  }

  lemma SomeValidatesSnoc(kind: Kind, simulated: bool, ops: seq<Op>, op: Op)
    ensures SomeValidates(kind, simulated, ops + [op]) <==>
            SomeValidates(kind, simulated, ops) || Validates(kind, simulated, op)
  {
    var all := ops + [op];
    if SomeValidates(kind, simulated, ops) {
      var i :| 0 <= i < |ops| && Validates(kind, simulated, ops[i]);
      assert Validates(kind, simulated, all[i]);
    }
    if Validates(kind, simulated, op) {
      assert Validates(kind, simulated, all[|ops|]);
    }
  }

  // ---------- construction and refusal ----------

  /** A constructed ReadWriteInt with a subscriber is where its runs start, whatever it was given. */
  lemma ConstructedIsNew(v: Value, x: Subscriber)
    ensures NewChannel(Run(READ_WRITE_INT, false, Initial(READ_WRITE_INT, v), [OpSubscribe(x)]))
  {
    RunOne(READ_WRITE_INT, false, Initial(READ_WRITE_INT, v), OpSubscribe(x));
  }

  /** A write that the driver refuses changes nothing, in any of the three classes. */
  lemma RefusedWriteChangesNothing(kind: Kind, simulated: bool, s: State, v: Value)
    ensures Step(kind, simulated, s, OpSet(v, true, false)) == s
  {
  }
}
