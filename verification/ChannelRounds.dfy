/**
 Rounds: what a channel goes through between two polls, the read of the second one included. A
 change raised by any read in the round is delivered at its end. For the kinds whose change
 detection is not reliable: exactly which rounds leave the subscribers behind.
 */
module ChannelRounds {
  import opened Wrappers
  import opened Channels

  predicate Inner(op: Op) {
    op.OpGet? || op.OpSet? || op.OpSimulate?
  }

  predicate IsRound(ops: seq<Op>) {
    ops != [] && ops[|ops| - 1].OpGet? && forall i | 0 <= i < |ops| :: Inner(ops[i])
  }

  function RoundEnd(kind: Kind, simulated: bool, s: State, ops: seq<Op>): State {
    Delivered(Run(kind, simulated, s, ops))
  }

  /** The last read of a round, with the delivery, is a poll. */
  lemma RoundEndsInPoll(kind: Kind, simulated: bool, s: State, ops: seq<Op>, r: Reading, bound: bool)
    ensures RoundEnd(kind, simulated, s, ops + [OpGet(r, bound)]) == Run(kind, simulated, s, ops + [OpPoll(r, bound)])
  {
    RunSnoc(kind, simulated, s, ops, OpGet(r, bound));
    RunSnoc(kind, simulated, s, ops, OpPoll(r, bound));
  }

  predicate Keeps(s: State, t: State) {
    t.subscribers == s.subscribers && t.delivered == s.delivered && (s.changed ==> t.changed)
  }

  lemma GetKeeps(kind: Kind, s: State, simulated: bool, bound: bool, r: Reading)
    ensures Keeps(s, Get(kind, s, simulated, bound, r))
  {
  }

  lemma SetKeeps(kind: Kind, s: State, bound: bool, v: Value, ok: bool)
    ensures Keeps(s, Set(kind, s, bound, v, ok))
  {
  }

  lemma InnerStep(kind: Kind, simulated: bool, s: State, op: Op)
    requires Inner(op)
    ensures Keeps(s, Step(kind, simulated, s, op))
  {
    match op
    case OpGet(r, bound) => GetKeeps(kind, s, simulated, bound, r);
    case OpSet(v, bound, ok) => SetKeeps(kind, s, bound, v, ok);
    case _ =>
  }

  lemma {:induction false} InnerKeeps(kind: Kind, simulated: bool, s: State, ops: seq<Op>)
    requires forall i | 0 <= i < |ops| :: Inner(ops[i])
    ensures Keeps(s, Run(kind, simulated, s, ops))
    decreases |ops|
  {
    if ops != [] {
      InnerKeeps(kind, simulated, s, ops[..|ops| - 1]);
      InnerStep(kind, simulated, Run(kind, simulated, s, ops[..|ops| - 1]), ops[|ops| - 1]);
    }
  }

  /** Somebody subscribes, nothing is flagged, and everybody holds the same value. */
  predicate Quiet(s: State, held: Value) {
    !s.changed && AllHold(s, held) && s.subscribers != []
  }

  /** ... the present one. */
  predicate UpToDate(s: State) {
    Quiet(s, s.value)
  }

  /** From any quiet state, whether the subscribers were behind or not: after a round they are up
      to date if and only if some read or write in it raised the flag or the value is what they
      held; and then all hold the value, otherwise what they held. */
  lemma RoundCoherent(kind: Kind, simulated: bool, s: State, held: Value, ops: seq<Op>)
    requires Quiet(s, held) && IsRound(ops)
    ensures var t, e := Run(kind, simulated, s, ops), RoundEnd(kind, simulated, s, ops);
            && e == t.(changed := false, delivered := e.delivered) && e.subscribers == s.subscribers
            && (Coherent(e) <==> t.changed || t.value == held)
            && Quiet(e, if t.changed then t.value else held)
  {
    InnerKeeps(kind, simulated, s, ops);
    var t := Run(kind, simulated, s, ops);
    UpdateAnnounces(t);
    assert s.subscribers[0] in s.subscribers;
  }

  /** The state after a run of rounds. */
  function RoundsEnd(kind: Kind, simulated: bool, s: State, rounds: seq<seq<Op>>): State
    decreases |rounds|
  {
    if rounds == [] then s else RoundsEnd(kind, simulated, RoundEnd(kind, simulated, s, rounds[0]), rounds[1..])
  }

  lemma QuietCoherent(s: State, held: Value)
    requires Quiet(s, held)
    ensures Coherent(s) <==> held == s.value
  {
    assert s.subscribers[0] in s.subscribers;
  }

  ghost predicate CoherentThroughout(kind: Kind, simulated: bool, s: State, rounds: seq<seq<Op>>)
    decreases |rounds|
  {
    rounds != [] ==>
      var t := RoundEnd(kind, simulated, s, rounds[0]);
      Coherent(t) && CoherentThroughout(kind, simulated, t, rounds[1..])
  }

  /** A round that starts with the flag set, as the first after construction or after a new
      subscription does, always ends up to date. */
  lemma FlaggedRound(kind: Kind, simulated: bool, s: State, ops: seq<Op>)
    requires s.changed && s.subscribers != [] && IsRound(ops)
    ensures UpToDate(RoundEnd(kind, simulated, s, ops))
  {
    InnerKeeps(kind, simulated, s, ops);
    UpdateAnnounces(Run(kind, simulated, s, ops));
  }

  // ---------- ReadWriteInt and ReadWriteString without a driver ----------

  predicate Logical(kind: Kind) {
    kind == Kind(IntData, ReadWrite) || kind == Kind(StringData, ReadWrite)
  }

  predicate Driverless(ops: seq<Op>) {
    forall i | 0 <= i < |ops| :: (ops[i].OpSet? || ops[i].OpGet?) && !ops[i].bound
  }

  /** The value after the first n operations. */
  function Written(g: Value, ops: seq<Op>, n: nat): Value
    requires n <= |ops|
  {
    if n == 0 then g else if ops[n - 1].OpSet? then ops[n - 1].v else Written(g, ops, n - 1)
  }

  /** A write that changes the value and is read before the next write. */
  predicate SeenWrite(g: Value, ops: seq<Op>, i: nat)
    requires i + 1 < |ops|
  {
    ops[i].OpSet? && ops[i + 1].OpGet? && ops[i].v != Written(g, ops, i)
  }

  predicate Shows(g: Value, ops: seq<Op>) {
    exists i | 0 <= i < |ops| - 1 :: SeenWrite(g, ops, i)
  }

  lemma {:induction false} WrittenSnoc(g: Value, ops: seq<Op>, op: Op, n: nat)
    requires n <= |ops|
    ensures Written(g, ops + [op], n) == Written(g, ops, n)
  {
    if n > 0 {
      WrittenSnoc(g, ops, op, n - 1);
    }
  }

  lemma ShowsSnoc(g: Value, ops: seq<Op>, op: Op)
    ensures Shows(g, ops + [op]) <==> Shows(g, ops) || (ops != [] && SeenWrite(g, ops + [op], |ops| - 1))
  {
    var all := ops + [op];
    forall i | 0 <= i < |ops| - 1
      ensures SeenWrite(g, all, i) <==> SeenWrite(g, ops, i)
    {
      WrittenSnoc(g, ops, op, i);
    }
    if Shows(g, ops) {
      var i :| 0 <= i < |ops| - 1 && SeenWrite(g, ops, i);
      assert SeenWrite(g, all, i);
    }
    if Shows(g, all) {
      var i :| 0 <= i < |all| - 1 && SeenWrite(g, all, i);
    }
  }

  /** What a run of writes and reads has done to a state whose two value fields agreed. */
  predicate Traced(s: State, ops: seq<Op>, t: State) {
    var n := |ops|;
    && t.value == Written(s.value, ops, n)
    && t.oldValue == (if ops != [] && ops[n - 1].OpSet? then Written(s.value, ops, n - 1) else t.value)
    && (t.changed <==> s.changed || Shows(s.value, ops))
  }

  lemma TracedStep(kind: Kind, simulated: bool, s: State, ops: seq<Op>, t: State, op: Op)
    requires Logical(kind) && Traced(s, ops, t) && (op.OpSet? || op.OpGet?) && !op.bound
    ensures Traced(s, ops + [op], Step(kind, simulated, t, op))
  {
    ShowsSnoc(s.value, ops, op);
    WrittenSnoc(s.value, ops, op, |ops|);
    if ops != [] {
      WrittenSnoc(s.value, ops, op, |ops| - 1);
    }
  }

  /** Writes and reads in any order, from any state a getValue leaves behind: the flag is up at
      the end if and only if it was up before or some write changed the value and was read
      before the next write; and the recorded old value lags exactly behind an unread write. */
  lemma {:induction false} RaisesIff(kind: Kind, simulated: bool, s: State, ops: seq<Op>)
    requires Logical(kind) && s.oldValue == s.value && Driverless(ops)
    ensures Traced(s, ops, Run(kind, simulated, s, ops))
    decreases |ops|
  {
    if ops != [] {
      var front, op := ops[..|ops| - 1], ops[|ops| - 1];
      assert ops == front + [op];
      RaisesIff(kind, simulated, s, front);
      TracedStep(kind, simulated, s, front, Run(kind, simulated, s, front), op);
    }
  }

  predicate VisibleWrites(g: Value, held: Value, ops: seq<Op>) {
    Shows(g, ops) || Written(g, ops, |ops|) == held
  }

  /** What the subscribers hold after a round. */
  function HeldAfterWrites(g: Value, held: Value, ops: seq<Op>): Value {
    if Shows(g, ops) then Written(g, ops, |ops|) else held
  }

  /** One round, whatever the subscribers hold: they are up to date at its poll if and only if a
      changing write was read before the next one, or the value is what they held. */
  lemma RoundCoherentIff(kind: Kind, simulated: bool, s: State, held: Value, ops: seq<Op>)
    requires Logical(kind) && Quiet(s, held) && s.oldValue == s.value && IsRound(ops) && Driverless(ops)
    ensures var e := RoundEnd(kind, simulated, s, ops);
            && (Coherent(e) <==> VisibleWrites(s.value, held, ops))
            && e.value == e.oldValue == Written(s.value, ops, |ops|) && e.subscribers == s.subscribers
            && Quiet(e, HeldAfterWrites(s.value, held, ops))
  {
    RaisesIff(kind, simulated, s, ops);
    RoundCoherent(kind, simulated, s, held, ops);
  }

  predicate AllVisibleWrites(g: Value, held: Value, rounds: seq<seq<Op>>)
    decreases |rounds|
  {
    rounds != [] ==>
      var w := Written(g, rounds[0], |rounds[0]|);
      VisibleWrites(g, held, rounds[0]) && AllVisibleWrites(w, w, rounds[1..])
  }

  /** Over any run of writes, reads and polls the subscribers are up to date after every poll if
      and only if no round hides a change. */
  lemma {:induction false} LogicalRunCoherentIff(kind: Kind, simulated: bool, s: State, held: Value,
                                                 rounds: seq<seq<Op>>)
    requires Logical(kind) && Quiet(s, held) && s.oldValue == s.value
    requires forall i | 0 <= i < |rounds| :: IsRound(rounds[i]) && Driverless(rounds[i])
    ensures CoherentThroughout(kind, simulated, s, rounds) <==> AllVisibleWrites(s.value, held, rounds)
    decreases |rounds|
  {
    if rounds != [] {
      RoundCoherentIff(kind, simulated, s, held, rounds[0]);
      var t := RoundEnd(kind, simulated, s, rounds[0]);
      if Coherent(t) {
        LogicalRunCoherentIff(kind, simulated, t, t.value, rounds[1..]);
      }
    }
  }

  /** The value after the rounds, and what the subscribers hold then. */
  function WritesOutcome(g: Value, held: Value, rounds: seq<seq<Op>>): (Value, Value)
    decreases |rounds|
  {
    if rounds == [] then (g, held)
    else WritesOutcome(Written(g, rounds[0], |rounds[0]|), HeldAfterWrites(g, held, rounds[0]), rounds[1..])
  }

  /** ... and at each single poll, lost rounds before it or not. */
  lemma {:induction false} LogicalRunHolds(kind: Kind, simulated: bool, s: State, held: Value, rounds: seq<seq<Op>>)
    requires Logical(kind) && Quiet(s, held) && s.oldValue == s.value
    requires forall i | 0 <= i < |rounds| :: IsRound(rounds[i]) && Driverless(rounds[i])
    ensures var t, (value, last) := RoundsEnd(kind, simulated, s, rounds), WritesOutcome(s.value, held, rounds);
            t.value == value && Quiet(t, last) && (Coherent(t) <==> last == value)
    decreases |rounds|
  {
    if rounds == [] {
      QuietCoherent(s, held);
    } else {
      RoundCoherentIff(kind, simulated, s, held, rounds[0]);
      var t, h := RoundEnd(kind, simulated, s, rounds[0]), HeldAfterWrites(s.value, held, rounds[0]);
      LogicalRunHolds(kind, simulated, t, h, rounds[1..]);
    }
  }

  /** Every write is read before the next one. */
  predicate ReadBetweenWrites(ops: seq<Op>) {
    forall i | 0 <= i < |ops| - 1 && ops[i].OpSet? :: ops[i + 1].OpGet?
  }

  lemma {:induction false} WrittenSame(g: Value, ops: seq<Op>, n: nat)
    requires n <= |ops| && forall i | 0 <= i < n && ops[i].OpSet? :: ops[i].v == Written(g, ops, i)
    ensures Written(g, ops, n) == g
  {
    if n > 0 {
      WrittenSame(g, ops, n - 1);
    }
  }

  lemma {:induction false} ReadWritesAreVisible(g: Value, rounds: seq<seq<Op>>)
    requires forall i | 0 <= i < |rounds| :: IsRound(rounds[i]) && ReadBetweenWrites(rounds[i])
    ensures AllVisibleWrites(g, g, rounds)
    decreases |rounds|
  {
    if rounds != [] {
      var ops := rounds[0];
      if !Shows(g, ops) {
        forall i | 0 <= i < |ops| && ops[i].OpSet?
          ensures ops[i].v == Written(g, ops, i)
        {
          assert !SeenWrite(g, ops, i);
        }
        WrittenSame(g, ops, |ops|);
      }
      ReadWritesAreVisible(Written(g, ops, |ops|), rounds[1..]);
    }
  }

  /** With a getValue between any two writes, by whomever, nothing is ever lost, from
      construction on; the first round may be any. */
  lemma OneWritePerGet(kind: Kind, simulated: bool, v: Value, s: State, first: seq<Op>, rounds: seq<seq<Op>>)
    requires Logical(kind) && s == Initial(kind, v).(subscribers := s.subscribers) && s.subscribers != []
    requires IsRound(first) && Driverless(first)
    requires forall i | 0 <= i < |rounds| ::
               IsRound(rounds[i]) && Driverless(rounds[i]) && ReadBetweenWrites(rounds[i])
    ensures CoherentThroughout(kind, simulated, s, [first] + rounds)
  {
    var t := RoundEnd(kind, simulated, s, first);
    FlaggedRound(kind, simulated, s, first);
    ReadWritesAreVisible(t.value, rounds);
    LogicalRunCoherentIff(kind, simulated, t, t.value, rounds);
    assert ([first] + rounds)[1..] == rounds;
  }

  // ---------- ReadWriteInt and ReadWriteString through a driver ----------

  predicate DriverBacked(ops: seq<Op>) {
    forall i | 0 <= i < |ops| :: (ops[i].OpSet? || ops[i].OpGet?) && ops[i].bound
  }

  /** A write the driver accepts, or a reading it delivers. */
  predicate Accepted(op: Op) {
    (op.OpSet? && op.ok) || (op.OpGet? && op.r.ok)
  }

  function Input(op: Op): Value
    requires op.OpSet? || op.OpGet?
  {
    if op.OpSet? then op.v else op.r.value
  }

  /** The value after the first n operations. */
  function Latest(g: Value, ops: seq<Op>, n: nat): Value
    requires n <= |ops| && DriverBacked(ops)
  {
    if n == 0 then g else if Accepted(ops[n - 1]) then Input(ops[n - 1]) else Latest(g, ops, n - 1)
  }

  /** The recorded old value after them: only a reading of an int moves it. */
  function OldAfter(kind: Kind, g: Value, past: Value, ops: seq<Op>, n: nat): Value
    requires n <= |ops| && DriverBacked(ops)
  {
    if n == 0 then past
    else
      var o, op := OldAfter(kind, g, past, ops, n - 1), ops[n - 1];
      if kind.dataType == IntData && op.OpGet? && op.r.ok && op.r.value != o then Latest(g, ops, n - 1) else o
  }

  /** An input that is compared, and differs from what the old value is before the round: every
      accepted write, and for an int every reading. */
  predicate Differs(kind: Kind, past: Value, op: Op) {
    (op.OpSet? || op.OpGet?) && Accepted(op) && (op.OpSet? || kind.dataType == IntData) && Input(op) != past
  }

  predicate Detected(kind: Kind, past: Value, ops: seq<Op>) {
    exists i | 0 <= i < |ops| :: Differs(kind, past, ops[i])
  }

  lemma {:induction false} LatestSnoc(kind: Kind, g: Value, past: Value, ops: seq<Op>, op: Op, n: nat)
    requires n <= |ops| && DriverBacked(ops + [op]) && DriverBacked(ops)
    ensures Latest(g, ops + [op], n) == Latest(g, ops, n)
    ensures OldAfter(kind, g, past, ops + [op], n) == OldAfter(kind, g, past, ops, n)
  {
    if n > 0 {
      LatestSnoc(kind, g, past, ops, op, n - 1);
    }
  }

  lemma DetectedSnoc(kind: Kind, past: Value, ops: seq<Op>, op: Op)
    ensures Detected(kind, past, ops + [op]) <==> Detected(kind, past, ops) || Differs(kind, past, op)
  {
    var all := ops + [op];
    if Detected(kind, past, ops) {
      var i :| 0 <= i < |ops| && Differs(kind, past, ops[i]);
      assert Differs(kind, past, all[i]);
    }
    if Differs(kind, past, op) {
      assert Differs(kind, past, all[|ops|]);
    }
  }

  /** What a driver-backed run has done to a state. */
  predicate BoundTraced(kind: Kind, s: State, ops: seq<Op>, t: State)
    requires DriverBacked(ops)
  {
    && t.value == Latest(s.value, ops, |ops|)
    && t.oldValue == OldAfter(kind, s.value, s.oldValue, ops, |ops|)
    && (t.changed <==> s.changed || Detected(kind, s.oldValue, ops))
    && (!Detected(kind, s.oldValue, ops) ==> t.oldValue == s.oldValue)
  }

  lemma LatestMore(kind: Kind, g: Value, past: Value, ops: seq<Op>, op: Op)
    requires DriverBacked(ops) && DriverBacked(ops + [op])
    ensures var all, n := ops + [op], |ops|;
            && Latest(g, all, n + 1) == (if Accepted(op) then Input(op) else Latest(g, ops, n))
            && OldAfter(kind, g, past, all, n + 1) ==
               var o := OldAfter(kind, g, past, ops, n);
               if op.OpGet? && Differs(kind, o, op) then Latest(g, ops, n) else o
  {
    LatestSnoc(kind, g, past, ops, op, |ops|);
  }

  lemma BoundTracedStep(kind: Kind, simulated: bool, s: State, ops: seq<Op>, t: State, op: Op)
    requires Logical(kind) && DriverBacked(ops) && BoundTraced(kind, s, ops, t)
    requires DriverBacked(ops + [op]) && (op.OpSet? || op.OpGet?) && op.bound
    ensures BoundTraced(kind, s, ops + [op], Step(kind, simulated, t, op))
  {
    LatestMore(kind, s.value, s.oldValue, ops, op);
    DetectedSnoc(kind, s.oldValue, ops, op);
  }

  /** Accepted and refused writes, readings and failed reads in any order: the flag is up at the
      end if and only if it was up before or some compared input differs from the old value that
      was recorded before the run. */
  lemma {:induction false} BoundRaisesIff(kind: Kind, simulated: bool, s: State, ops: seq<Op>)
    requires Logical(kind) && DriverBacked(ops)
    ensures BoundTraced(kind, s, ops, Run(kind, simulated, s, ops))
    decreases |ops|
  {
    if ops != [] {
      var front, op := ops[..|ops| - 1], ops[|ops| - 1];
      assert ops == front + [op];
      BoundRaisesIff(kind, simulated, s, front);
      BoundTracedStep(kind, simulated, s, front, Run(kind, simulated, s, front), op);
    }
  }

  predicate VisibleInputs(kind: Kind, g: Value, past: Value, held: Value, ops: seq<Op>)
    requires DriverBacked(ops)
  {
    Detected(kind, past, ops) || Latest(g, ops, |ops|) == held
  }

  function HeldAfterInputs(kind: Kind, g: Value, past: Value, held: Value, ops: seq<Op>): Value
    requires DriverBacked(ops)
  {
    if Detected(kind, past, ops) then Latest(g, ops, |ops|) else held
  }

  /** One round, whatever the subscribers hold: they are up to date at its poll if and only if some
      compared input differs from the recorded old value, or the value is what they held. */
  lemma BoundRoundCoherentIff(kind: Kind, simulated: bool, s: State, held: Value, ops: seq<Op>)
    requires Logical(kind) && Quiet(s, held) && IsRound(ops) && DriverBacked(ops)
    ensures var e := RoundEnd(kind, simulated, s, ops);
            && (Coherent(e) <==> VisibleInputs(kind, s.value, s.oldValue, held, ops))
            && e.value == Latest(s.value, ops, |ops|) && e.oldValue == OldAfter(kind, s.value, s.oldValue, ops, |ops|)
            && e.subscribers == s.subscribers && Quiet(e, HeldAfterInputs(kind, s.value, s.oldValue, held, ops))
  {
    BoundRaisesIff(kind, simulated, s, ops);
    RoundCoherent(kind, simulated, s, held, ops);
  }

  predicate AllVisibleInputs(kind: Kind, g: Value, past: Value, held: Value, rounds: seq<seq<Op>>)
    requires forall i | 0 <= i < |rounds| :: DriverBacked(rounds[i])
    decreases |rounds|
  {
    rounds != [] ==>
      var ops, n := rounds[0], |rounds[0]|;
      var x := Latest(g, ops, n);
      && VisibleInputs(kind, g, past, held, ops)
      && AllVisibleInputs(kind, x, OldAfter(kind, g, past, ops, n), x, rounds[1..])
  }

  /** ... and over any run of writes, reads and polls. */
  lemma {:induction false} BoundRunCoherentIff(kind: Kind, simulated: bool, s: State, held: Value, rounds: seq<seq<Op>>)
    requires Logical(kind) && Quiet(s, held)
    requires forall i | 0 <= i < |rounds| :: IsRound(rounds[i]) && DriverBacked(rounds[i])
    ensures CoherentThroughout(kind, simulated, s, rounds) <==>
            AllVisibleInputs(kind, s.value, s.oldValue, held, rounds)
    decreases |rounds|
  {
    if rounds != [] {
      BoundRoundCoherentIff(kind, simulated, s, held, rounds[0]);
      var t := RoundEnd(kind, simulated, s, rounds[0]);
      if Coherent(t) {
        BoundRunCoherentIff(kind, simulated, t, t.value, rounds[1..]);
      }
    }
  }

  /** The value and the recorded old value after the rounds, and what the subscribers hold then. */
  function InputsOutcome(kind: Kind, g: Value, past: Value, held: Value, rounds: seq<seq<Op>>): (Value, Value, Value)
    requires forall i | 0 <= i < |rounds| :: DriverBacked(rounds[i])
    decreases |rounds|
  {
    if rounds == [] then (g, past, held)
    else
      var ops, n := rounds[0], |rounds[0]|;
      InputsOutcome(kind, Latest(g, ops, n), OldAfter(kind, g, past, ops, n),
                    HeldAfterInputs(kind, g, past, held, ops), rounds[1..])
  }

  /** ... and at each single poll, lost rounds before it or not. */
  lemma {:induction false} BoundRunHolds(kind: Kind, simulated: bool, s: State, held: Value, rounds: seq<seq<Op>>)
    requires Logical(kind) && Quiet(s, held)
    requires forall i | 0 <= i < |rounds| :: IsRound(rounds[i]) && DriverBacked(rounds[i])
    ensures var t := RoundsEnd(kind, simulated, s, rounds);
            var (value, past, last) := InputsOutcome(kind, s.value, s.oldValue, held, rounds);
            t.value == value && t.oldValue == past && Quiet(t, last) && (Coherent(t) <==> last == value)
    decreases |rounds|
  {
    if rounds == [] {
      QuietCoherent(s, held);
    } else {
      var ops := rounds[0];
      BoundRoundCoherentIff(kind, simulated, s, held, ops);
      var t, h := RoundEnd(kind, simulated, s, ops), HeldAfterInputs(kind, s.value, s.oldValue, held, ops);
      BoundRunHolds(kind, simulated, t, h, rounds[1..]);
    }
  }

  /** For a ReadWriteInt whose subscribers are up to date a round is lost exactly if it has an
      accepted input, all of them equal the recorded old value, and the value was another. */
  lemma IntRoundLostIff(g: Value, past: Value, ops: seq<Op>)
    requires DriverBacked(ops)
    ensures !VisibleInputs(Kind(IntData, ReadWrite), g, past, g, ops) <==>
            && past != g
            && (exists i | 0 <= i < |ops| :: Accepted(ops[i]))
            && (forall i | 0 <= i < |ops| && Accepted(ops[i]) :: Input(ops[i]) == past)
  {
    var kind := Kind(IntData, ReadWrite);
    if forall i | 0 <= i < |ops| && Accepted(ops[i]) :: Input(ops[i]) == past {
      LatestIsInput(g, ops, |ops|, past);
    } else {
      var i :| 0 <= i < |ops| && Accepted(ops[i]) && Input(ops[i]) != past;
      assert Differs(kind, past, ops[i]);
    }
  }

  lemma {:induction false} LatestIsInput(g: Value, ops: seq<Op>, n: nat, x: Value)
    requires n <= |ops| && DriverBacked(ops) && forall i | 0 <= i < n && Accepted(ops[i]) :: Input(ops[i]) == x
    ensures Latest(g, ops, n) == if exists i | 0 <= i < n :: Accepted(ops[i]) then x else g
  {
    if n > 0 {
      LatestIsInput(g, ops, n - 1, x);
    }
  }

  /** A driver-backed ReadWriteString never raises the flag on a read: its subscribers agree
      with a reading only if they held it already. */
  lemma BoundStringNeverAnnounces(s: State, r: string, held: Value)
    requires !s.changed && s.subscribers != [] && AllHold(s, held)
    ensures var t := Polled(Kind(StringData, ReadWrite), s, false, true, Reading(true, StringValue(r)));
            && t.value == StringValue(r) && AllHold(t, held)
            && (Coherent(t) <==> held == StringValue(r))
  {
    assert s.subscribers[0] in s.subscribers;
  }

  /** A write through a driver that is read back at the next poll: it is announced unless it
      returns to the recorded old value while the subscribers hold something else. */
  lemma BoundWriteAnnouncedIff(kind: Kind, s: State, v: Value)
    requires Logical(kind) && !s.changed && Coherent(s) && s.subscribers != []
    ensures var t := Polled(kind, Set(kind, s, true, v, true), false, true, Reading(true, v));
            t.value == v && (Coherent(t) <==> v != s.oldValue || v == s.value)
  {
    assert s.subscribers[0] in s.subscribers;
    var w := Set(kind, s, true, v, true);
    UpdateAnnounces(Get(kind, w, false, true, Reading(true, v)));
  }

  // ---------- ReadOnlyDouble in simulated mode ----------

  const DOUBLE := Kind(DoubleData, ReadOnly)

  /** getValue of a ReadOnlyDouble does not look at the mode, so a bound driver still moves it. */
  predicate SimulatedOps(ops: seq<Op>) {
    forall i | 0 <= i < |ops| :: ops[i].OpSimulate? || ops[i].OpGet?
  }

  /** A reading outside the deadband around g. */
  predicate TakesOver(g: Value, op: Op) {
    op.OpGet? && op.bound && op.r.ok && Abs(AsReal(g) - AsReal(op.r.value)) >= ACCURACY
  }

  /** The value after the first n operations. */
  function Shown(g: Value, ops: seq<Op>, n: nat): Value
    requires n <= |ops|
  {
    if n == 0 then g
    else
      var x, op := Shown(g, ops, n - 1), ops[n - 1];
      if op.OpSimulate? then op.v else if TakesOver(x, op) then op.r.value else x
  }

  predicate TakesOverAt(g: Value, ops: seq<Op>, i: nat)
    requires i < |ops|
  {
    TakesOver(Shown(g, ops, i), ops[i])
  }

  predicate SomeTakesOver(g: Value, ops: seq<Op>) {
    exists i | 0 <= i < |ops| :: TakesOverAt(g, ops, i)
  }

  lemma {:induction false} ShownSnoc(g: Value, ops: seq<Op>, op: Op, n: nat)
    requires n <= |ops|
    ensures Shown(g, ops + [op], n) == Shown(g, ops, n)
  {
    if n > 0 {
      ShownSnoc(g, ops, op, n - 1);
    }
  }

  lemma SomeTakesOverSnoc(g: Value, ops: seq<Op>, op: Op)
    ensures SomeTakesOver(g, ops + [op]) <==> SomeTakesOver(g, ops) || TakesOver(Shown(g, ops, |ops|), op)
  {
    var all := ops + [op];
    forall i | 0 <= i < |ops|
      ensures TakesOverAt(g, all, i) <==> TakesOverAt(g, ops, i)
    {
      ShownSnoc(g, ops, op, i);
    }
    ShownSnoc(g, ops, op, |ops|);
    if SomeTakesOver(g, ops) {
      var i :| 0 <= i < |ops| && TakesOverAt(g, ops, i);
      assert TakesOverAt(g, all, i);
    }
    if TakesOver(Shown(g, ops, |ops|), op) {
      assert TakesOverAt(g, all, |ops|);
    }
  }

  lemma {:induction false} SimulatedRaisesIff(s: State, ops: seq<Op>)
    requires SimulatedOps(ops)
    ensures var t := Run(DOUBLE, true, s, ops);
            t.value == Shown(s.value, ops, |ops|) && (t.changed <==> s.changed || SomeTakesOver(s.value, ops))
    decreases |ops|
  {
    if ops != [] {
      var front, op := ops[..|ops| - 1], ops[|ops| - 1];
      assert ops == front + [op];
      SimulatedRaisesIff(s, front);
      SomeTakesOverSnoc(s.value, front, op);
      ShownSnoc(s.value, front, op, |front|);
    }
  }

  predicate VisibleSimulation(g: Value, held: Value, ops: seq<Op>) {
    SomeTakesOver(g, ops) || Shown(g, ops, |ops|) == held
  }

  function HeldAfterSimulation(g: Value, held: Value, ops: seq<Op>): Value {
    if SomeTakesOver(g, ops) then Shown(g, ops, |ops|) else held
  }

  predicate AllVisibleSimulation(g: Value, held: Value, rounds: seq<seq<Op>>)
    decreases |rounds|
  {
    rounds != [] ==>
      var x := Shown(g, rounds[0], |rounds[0]|);
      VisibleSimulation(g, held, rounds[0]) && AllVisibleSimulation(x, x, rounds[1..])
  }

  lemma SimulatedRoundIff(s: State, held: Value, ops: seq<Op>)
    requires Quiet(s, held) && IsRound(ops) && SimulatedOps(ops)
    ensures var e := RoundEnd(DOUBLE, true, s, ops);
            && (Coherent(e) <==> VisibleSimulation(s.value, held, ops))
            && e.value == Shown(s.value, ops, |ops|) && Quiet(e, HeldAfterSimulation(s.value, held, ops))
  {
    SimulatedRaisesIff(s, ops);
    RoundCoherent(DOUBLE, true, s, held, ops);
  }

  /** Over any run of simulated values, reads and polls: the subscribers of a ReadOnlyDouble in
      simulated mode are up to date after every poll if and only if each round has a driver
      reading outside the deadband or ends with the value they held. */
  lemma {:induction false} SimulatedDoubleRunIff(s: State, held: Value, rounds: seq<seq<Op>>)
    requires Quiet(s, held) && forall i | 0 <= i < |rounds| :: IsRound(rounds[i]) && SimulatedOps(rounds[i])
    ensures CoherentThroughout(DOUBLE, true, s, rounds) <==> AllVisibleSimulation(s.value, held, rounds)
    decreases |rounds|
  {
    if rounds != [] {
      SimulatedRoundIff(s, held, rounds[0]);
      var t := RoundEnd(DOUBLE, true, s, rounds[0]);
      if Coherent(t) {
        SimulatedDoubleRunIff(t, t.value, rounds[1..]);
      }
    }
  }

  /** The value after the rounds, and what the subscribers hold then. */
  function SimulationOutcome(g: Value, held: Value, rounds: seq<seq<Op>>): (Value, Value)
    decreases |rounds|
  {
    if rounds == [] then (g, held)
    else SimulationOutcome(Shown(g, rounds[0], |rounds[0]|), HeldAfterSimulation(g, held, rounds[0]), rounds[1..])
  }

  /** ... and at each single poll, lost rounds before it or not. */
  lemma {:induction false} SimulatedRunHolds(s: State, held: Value, rounds: seq<seq<Op>>)
    requires Quiet(s, held) && forall i | 0 <= i < |rounds| :: IsRound(rounds[i]) && SimulatedOps(rounds[i])
    ensures var t, (value, last) := RoundsEnd(DOUBLE, true, s, rounds), SimulationOutcome(s.value, held, rounds);
            t.value == value && Quiet(t, last) && (Coherent(t) <==> last == value)
    decreases |rounds|
  {
    if rounds == [] {
      QuietCoherent(s, held);
    } else {
      SimulatedRoundIff(s, held, rounds[0]);
      var t, h := RoundEnd(DOUBLE, true, s, rounds[0]), HeldAfterSimulation(s.value, held, rounds[0]);
      SimulatedRunHolds(t, h, rounds[1..]);
    }
  }

  lemma SimulatedPollIff(t: State, held: Value, r: Reading, bound: bool)
    requires !t.changed && AllHold(t, held) && t.subscribers != []
    ensures Coherent(Polled(DOUBLE, t, true, bound, r)) <==> held == t.value || TakesOver(t.value, OpGet(r, bound))
  {
    UpdateAnnounces(Get(DOUBLE, t, true, bound, r));
    assert t.subscribers[0] in t.subscribers;
  }

  /** One simulated value and a poll: announced if and only if it is the present value or the
      poll reads the driver and finds a value outside the deadband around it. */
  lemma SimulatedDoubleIff(s: State, v: Value, r: Reading, bound: bool)
    requires UpToDate(s)
    ensures Coherent(Run(DOUBLE, true, s, [OpSimulate(v), OpPoll(r, bound)])) <==>
            v == s.value || (bound && r.ok && Abs(AsReal(v) - AsReal(r.value)) >= ACCURACY)
  {
    RunTwo(DOUBLE, true, s, OpSimulate(v), OpPoll(r, bound));
    SimulatedPollIff(Step(DOUBLE, true, s, OpSimulate(v)), s.value, r, bound);
  }

  /** A run from construction that ends behind. */
  lemma SimulatedDoubleIsMissed(r: Reading)
    ensures var poll := OpPoll(r, false);
            var ops := [OpSubscribe(7), poll] + [OpSimulate(DoubleValue(5.0)), poll];
            !Coherent(Run(DOUBLE, true, Initial(DOUBLE, DoubleValue(1.0)), ops))
  {
    var poll := OpPoll(r, false);
    var start := Initial(DOUBLE, DoubleValue(1.0));
    var s := Run(DOUBLE, true, start, [OpSubscribe(7), poll]);
    RunTwo(DOUBLE, true, start, OpSubscribe(7), poll);
    assert s.subscribers == [7] && s.value == DoubleValue(1.0);
    UpdateAnnounces(Subscribed(start, 7));
    SimulatedDoubleIff(s, DoubleValue(5.0), r, false);
    RunAppend(DOUBLE, true, start, [OpSubscribe(7), poll], [OpSimulate(DoubleValue(5.0)), poll]);
  }

  lemma {:induction false} RunAppend(kind: Kind, simulated: bool, s: State, a: seq<Op>, b: seq<Op>)
    ensures Run(kind, simulated, s, a + b) == Run(kind, simulated, Run(kind, simulated, s, a), b)
    decreases |b|
  {
    if b == [] {
      assert a + b == a;
    } else {
      RunAppend(kind, simulated, s, a, b[..|b| - 1]);
      assert (a + b)[..|a + b| - 1] == a + b[..|b| - 1];
    }
  }
}
