/**
 Data points ("channels"). The six C++ subclasses of UntypedData become one class tagged by
 data type and access mode, the pair ObjectManager::execute itself dispatches on. Each method
 is proved against a function on State, the value of all the fields that matter to
 subscribers; `delivered` records what each subscriber was last handed.
 */
module Channels {
  import opened Wrappers

  datatype DataType = Unknown | IntData | StringData | DoubleData

  datatype AccessMode = Default | ReadOnly | ReadWrite

  datatype Kind = Kind(dataType: DataType, accessMode: AccessMode)

  datatype Value = IntValue(i: int) | DoubleValue(d: real) | StringValue(s: string)

  /** The union of member-function pointers, as a tag. */
  datatype Handler = NoHandler | ReadInt | ReadDouble | ReadString | WriteInt | WriteDouble | WriteString

  /** One call of a bound driver's read handler: whether it succeeded, and what it read. */
  datatype Reading = Reading(ok: bool, value: Value)

  type Subscriber = nat

  /** A driver; its node number is configured before the namespace starts. */
  class Driver {
    const nodeNumber: int

    constructor (nodeNumber: int)
      ensures this.nodeNumber == nodeNumber
    {
      this.nodeNumber := nodeNumber;
    }
  }

  datatype State = State(
    value: Value,
    oldValue: Value,
    changed: bool,
    valid: bool,
    subscribers: seq<Subscriber>,
    delivered: map<Subscriber, Value>)

  /** The fields that polling never touches. */
  datatype Config = Config(
    nodeNumber: int,
    channelNumber: int,
    driver: Option<Driver>,
    readHandler: Handler,
    writeHandler: Handler,
    simulated: bool)

  const ACCURACY: real := 0.01

  function Abs(x: real): real {
    if x < 0.0 then -x else x
  }

  function AsReal(v: Value): real {
    if v.DoubleValue? then v.d else 0.0
  }

  // ---------- what the operations do ----------

  function Initial(kind: Kind, v: Value): State {
    match kind
    case Kind(IntData, ReadOnly) => State(v, v, true, false, [], map[])
    case Kind(StringData, _) => State(v, StringValue(""), true, false, [], map[])
    case Kind(IntData, ReadWrite) => State(IntValue(0), IntValue(0), true, false, [], map[])
    case Kind(DoubleData, ReadWrite) => State(v, DoubleValue(0.0), false, false, [], map[])
    case _ => State(v, v, true, false, [], map[])
  }

  /** The change filter of the two double channels. */
  function Deadband(s: State, v: Value): State {
    if Abs(AsReal(s.value) - AsReal(v)) >= ACCURACY
    then s.(oldValue := s.value, value := v, changed := true)
    else s
  }

  /** getValue of a channel whose value lives in software only. */
  function LogicalGet(s: State): State {
    if s.oldValue != s.value then s.(changed := true, oldValue := s.value) else s
  }

  function ReadOnlyGet(s: State, simulated: bool, bound: bool, r: Reading): State {
    if simulated then LogicalGet(s)
    else if bound && r.ok then
      (if s.value != r.value then s.(oldValue := s.value, value := r.value, changed := true) else s).(valid := true)
    else s
  }

  function ReadOnlyDoubleGet(s: State, bound: bool, r: Reading): State {
    if bound && r.ok then Deadband(s, r.value).(valid := true) else s
  }

  /** The driver branch compares the reading with the value before the last one. */
  function ReadWriteIntGet(s: State, bound: bool, r: Reading): State {
    if !bound then LogicalGet(s)
    else if !r.ok then s
    else (if r.value != s.oldValue then s.(changed := true, oldValue := s.value) else s).(value := r.value)
  }

  function ReadWriteStringGet(s: State, bound: bool, r: Reading): State {
    if !bound then LogicalGet(s)
    else if !r.ok then s
    else s.(value := r.value)
  }

  function Get(kind: Kind, s: State, simulated: bool, bound: bool, r: Reading): State {
    match kind
    case Kind(IntData, ReadOnly) => ReadOnlyGet(s, simulated, bound, r)
    case Kind(DoubleData, ReadOnly) => ReadOnlyDoubleGet(s, bound, r)
    case Kind(StringData, ReadOnly) => ReadOnlyGet(s, simulated, bound, r)
    case Kind(IntData, ReadWrite) => ReadWriteIntGet(s, bound, r)
    case Kind(StringData, ReadWrite) => ReadWriteStringGet(s, bound, r)
    case _ => s
  }

  /** setValue of ReadWriteInt and ReadWriteString. */
  function ReadWriteSet(s: State, bound: bool, v: Value, ok: bool): State {
    if !bound then s.(oldValue := s.value, value := v, valid := true)
    else if !ok then s
    else s.(changed := s.changed || v != s.oldValue, value := v, valid := true)
  }

  function ReadWriteDoubleSet(s: State, bound: bool, v: Value, ok: bool): State {
    if bound && !ok then s else Deadband(s, v).(valid := true)
  }

  function Set(kind: Kind, s: State, bound: bool, v: Value, ok: bool): State {
    match kind
    case Kind(IntData, ReadWrite) => ReadWriteSet(s, bound, v, ok)
    case Kind(StringData, ReadWrite) => ReadWriteSet(s, bound, v, ok)
    case Kind(DoubleData, ReadWrite) => ReadWriteDoubleSet(s, bound, v, ok)
    case _ => s
  }

  function Subscribed(s: State, x: Subscriber): State {
    s.(changed := true, subscribers := if x in s.subscribers then s.subscribers else s.subscribers + [x])
  }

  function Without(xs: seq<Subscriber>, x: Subscriber): (r: seq<Subscriber>)
    ensures x !in r && forall y :: y != x ==> (y in r <==> y in xs)
  {
    if xs == [] then []
    else (if xs[0] == x then [] else [xs[0]]) + Without(xs[1..], x)
  }

  function Updated(s: State): State {
    s.(delivered := s.delivered + (map x | x in s.subscribers :: s.value), changed := false)
  }

  /** The deliveries after handing v to each of xs in turn. */
  function Give<V>(m: map<Subscriber, V>, xs: seq<Subscriber>, v: V): map<Subscriber, V>
    decreases |xs|
  {
    if xs == [] then m else Give(m[xs[0] := v], xs[1..], v)
  }

  lemma {:induction false} GiveAppend<V>(m: map<Subscriber, V>, xs: seq<Subscriber>, ys: seq<Subscriber>, v: V)
    ensures Give(Give(m, xs, v), ys, v) == Give(m, xs + ys, v)
    decreases |xs|
  {
    if xs == [] {
      assert xs + ys == ys;
    } else {
      GiveAppend(m[xs[0] := v], xs[1..], ys, v);
      assert (xs + ys)[1..] == xs[1..] + ys;
    }
  }

  lemma {:induction false} GiveAt<V>(m: map<Subscriber, V>, xs: seq<Subscriber>, v: V, x: Subscriber)
    ensures x in xs ==> x in Give(m, xs, v) && Give(m, xs, v)[x] == v
    ensures x !in xs ==> (x in Give(m, xs, v) <==> x in m) && (x in m ==> Give(m, xs, v)[x] == m[x])
    decreases |xs|
  {
    if xs != [] {
      GiveAt(m[xs[0] := v], xs[1..], v, x);
    }
  }

  lemma GiveAll<V>(m: map<Subscriber, V>, xs: seq<Subscriber>, v: V)
    ensures Give(m, xs, v) == m + map x | x in xs :: v
  {
    forall x
      ensures x in Give(m, xs, v) <==> x in m || x in xs
      ensures x in Give(m, xs, v) ==> Give(m, xs, v)[x] == if x in xs then v else m[x]
    {
      GiveAt(m, xs, v, x);
    }
  }

  function Delivered(s: State): State {
    if s.changed then Updated(s) else s
  }

  /** One visit of the poll sweep to a channel. */
  function Polled(kind: Kind, s: State, simulated: bool, bound: bool, r: Reading): State {
    Delivered(Get(kind, s, simulated, bound, r))
  }

  // ---------- the subscribers' view ----------

  predicate AllHold(s: State, v: Value) {
    forall x | x in s.subscribers :: x in s.delivered && s.delivered[x] == v
  }

  /** Every subscriber was last handed the channel's present value. */
  predicate Coherent(s: State) {
    AllHold(s, s.value)
  }

  predicate NoDuplicates(xs: seq<Subscriber>) {
    forall i, j | 0 <= i < j < |xs| :: xs[i] != xs[j]
  }

  /** The kinds whose subscribers always catch up at the next poll. */
  predicate Covered(kind: Kind, simulated: bool) {
    || kind == Kind(IntData, ReadOnly)
    || kind == Kind(StringData, ReadOnly)
    || (kind == Kind(DoubleData, ReadOnly) && !simulated)
    || kind == Kind(DoubleData, ReadWrite)
  }

  /** The field that the channel's own change detection compares against. */
  function Tracked(kind: Kind, simulated: bool, s: State): Value {
    if simulated && kind.accessMode == ReadOnly && kind.dataType != DoubleData then s.oldValue else s.value
  }

  /** A covered channel between operations: a change is flagged, or the subscribers hold what
      the next comparison starts from. */
  predicate Settled(kind: Kind, simulated: bool, s: State) {
    && NoDuplicates(s.subscribers)
    && (Covered(kind, simulated) ==> s.changed || AllHold(s, Tracked(kind, simulated, s)))
  }

  class Channel {
    const kind: Kind
    var nodeNumber: int
    var channelNumber: int
    var driver: Option<Driver>
    var readHandler: Handler
    var writeHandler: Handler
    var simulated: bool
    var value: Value
    var oldValue: Value
    var changed: bool
    var valid: bool
    var subscribers: seq<Subscriber>
    ghost var delivered: map<Subscriber, Value>

    ghost function S(): State
      reads this`value, this`oldValue, this`changed, this`valid, this`subscribers, this`delivered
    {
      State(value, oldValue, changed, valid, subscribers, delivered)
    }

    ghost function C(): Config
      reads this`nodeNumber, this`channelNumber, this`driver, this`readHandler, this`writeHandler, this`simulated
    {
      Config(nodeNumber, channelNumber, driver, readHandler, writeHandler, simulated)
    }

    predicate ReadBound()
      reads this
    {
      readHandler != NoHandler && driver.Some?
    }

    predicate WriteBound()
      reads this
    {
      writeHandler != NoHandler && driver.Some?
    }

    ghost predicate Valid()
      reads this
    {
      Settled(kind, simulated, S())
    }

    /** The constructors of UntypedData and of the six channel classes. */
    constructor (kind: Kind, v: Value, nodeNumber: int, channelNumber: int)
      ensures this.kind == kind && S() == Initial(kind, v) && !simulated
      ensures value == if kind == Kind(IntData, ReadWrite) then IntValue(0) else v
      ensures oldValue == match kind
                          case Kind(StringData, _) => StringValue("")
                          case Kind(IntData, ReadWrite) => IntValue(0)
                          case Kind(DoubleData, ReadWrite) => DoubleValue(0.0)
                          case _ => v
      ensures changed == (kind != Kind(DoubleData, ReadWrite)) && !valid && subscribers == [] && delivered == map[]
      ensures this.nodeNumber == nodeNumber && this.channelNumber == channelNumber
      ensures !ReadBound() && !WriteBound() && Valid()
    {
      this.kind := kind;
      this.nodeNumber, this.channelNumber := nodeNumber, channelNumber;
      this.driver, this.readHandler, this.writeHandler := None, NoHandler, NoHandler;
      this.simulated := false;
      this.value := if kind == Kind(IntData, ReadWrite) then IntValue(0) else v;
      this.oldValue := if kind == Kind(IntData, ReadWrite) then IntValue(0)
                       else if kind.dataType == StringData then StringValue("")
                       else if kind == Kind(DoubleData, ReadWrite) then DoubleValue(0.0)
                       else v;
      this.changed := kind != Kind(DoubleData, ReadWrite);
      this.valid := false;
      this.subscribers, this.delivered := [], map[];
    }

    method SetSimulated(on: bool)
      modifies this`simulated
      ensures simulated == on
    {
      simulated := on;
    }

    /** setSimulatedValue of the three read-only channels; it throws outside simulated mode. */
    method SetSimulatedValue(v: Value) returns (r: Result<(), string>)
      requires kind.accessMode == ReadOnly
      modifies this`value, this`valid
      ensures r.Success? <==> simulated
      ensures S() == if simulated then old(S()).(value := v, valid := true) else old(S())
      ensures old(Valid()) ==> Valid()
    {
      if simulated {
        value := v;
        valid := true;
        return Success(());
      }
      return Failure("can not be set simulated value in not simulated mode");
    }

    method ReadOnlyGetValue(r: Reading)
      modifies this
      ensures C() == old(C()) && S() == ReadOnlyGet(old(S()), simulated, ReadBound(), r)
    {
      if simulated {
        if value != oldValue {
          oldValue := value;
          changed := true;
        }
        return;
      }
      if driver.Some? && readHandler != NoHandler {
        if r.ok {
          if value != r.value {
            oldValue := value;
            value := r.value;
            changed := true;
          }
          valid := true;
        }
      }
    }

    method ReadOnlyDoubleGetValue(r: Reading)
      modifies this
      ensures C() == old(C()) && S() == ReadOnlyDoubleGet(old(S()), ReadBound(), r)
    {
      if driver.Some? && readHandler != NoHandler {
        if r.ok {
          if Abs(AsReal(value) - AsReal(r.value)) >= ACCURACY {
            oldValue := value;
            value := r.value;
            changed := true;
          }
          valid := true;
        }
      }
    }

    method ReadWriteIntGetValue(r: Reading)
      modifies this
      ensures C() == old(C()) && S() == ReadWriteIntGet(old(S()), ReadBound(), r)
    {
      if readHandler != NoHandler && driver.Some? {
        if r.ok {
          if r.value != oldValue {
            changed := true;
            oldValue := value;
          }
          value := r.value;
        }
      } else {
        if oldValue != value {
          changed := true;
          oldValue := value;
        }
      }
    }

    method ReadWriteStringGetValue(r: Reading)
      modifies this
      ensures C() == old(C()) && S() == ReadWriteStringGet(old(S()), ReadBound(), r)
    {
      if readHandler != NoHandler && driver.Some? {
        if r.ok {
          value := r.value;
        }
      } else {
        if oldValue != value {
          changed := true;
          oldValue := value;
        }
      }
    }

    /** setValue of ReadWriteInt and ReadWriteString; ok is the answer of the write handler. */
    method ReadWriteSetValue(v: Value, ok: bool)
      modifies this
      ensures C() == old(C()) && S() == ReadWriteSet(old(S()), WriteBound(), v, ok)
    {
      if writeHandler != NoHandler && driver.Some? {
        if ok {
          if v != oldValue {
            changed := true;
          }
          value := v;
          valid := true;
        }
      } else {
        oldValue := value;
        value := v;
        valid := true;
      }
    }

    method ReadWriteDoubleSetValue(v: Value, ok: bool)
      modifies this
      ensures C() == old(C()) && S() == ReadWriteDoubleSet(old(S()), WriteBound(), v, ok)
    {
      if driver.Some? && writeHandler != NoHandler {
        if ok {
          if Abs(AsReal(value) - AsReal(v)) >= ACCURACY {
            oldValue := value;
            value := v;
            changed := true;
          }
          valid := true;
        }
      } else {
        if Abs(AsReal(value) - AsReal(v)) >= ACCURACY {
          oldValue := value;
          value := v;
          changed := true;
        }
        valid := true;
      }
    }

    /** setValue, on whichever of the three read-write classes this is. */
    method SetValue(v: Value, ok: bool)
      requires kind.accessMode == ReadWrite && kind.dataType != Unknown
      modifies this
      ensures C() == old(C()) && S() == Set(kind, old(S()), WriteBound(), v, ok)
      ensures WriteBound() && !ok ==> S() == old(S())
      ensures old(Valid()) ==> Valid()
    {
      if kind.dataType == DoubleData {
        ReadWriteDoubleSetValue(v, ok);
      } else {
        ReadWriteSetValue(v, ok);
      }
    }

    /** A null subscriber is ignored; any other call raises the change flag. */
    method Subscribe(who: Option<Subscriber>)
      modifies this
      ensures C() == old(C())
      ensures S() == match who case None => old(S()) case Some(x) => Subscribed(old(S()), x)
      ensures who.Some? ==> changed && who.value in subscribers
      ensures forall y | who != Some(y) :: y in subscribers <==> y in old(subscribers)
      ensures old(subscribers) <= subscribers && |subscribers| <= |old(subscribers)| + 1
      ensures value == old(value) && delivered == old(delivered)
      ensures old(Valid()) ==> Valid()
    {
      if who.None? {
        return;
      }
      changed := true;
      var i := 0;
      while i < |subscribers|
        invariant 0 <= i <= |subscribers| && who.value !in subscribers[..i]
      {
        if subscribers[i] == who.value {
          return;
        }
        i := i + 1;
      }
      subscribers := subscribers + [who.value];
    }

    method Unsubscribe(x: Subscriber)
      modifies this`subscribers
      ensures S() == old(S()).(subscribers := Without(old(subscribers), x))
      ensures forall y :: y in subscribers <==> y != x && y in old(subscribers)
      ensures old(Valid()) ==> Valid()
    {
      ghost var before := subscribers;
      var i := 0;
      while i < |subscribers|
        invariant 0 <= i <= |subscribers|
        invariant subscribers[..i] + Without(subscribers[i..], x) == Without(before, x)
        decreases |subscribers| - i
      {
        WithoutHere(subscribers, i, x);
        if subscribers[i] == x {
          subscribers := subscribers[..i] + subscribers[i + 1..];
        } else {
          i := i + 1;
        }
      }
      assert subscribers == subscribers[..i] + Without(subscribers[i..], x);
      if old(Valid()) {
        WithoutKeepsDistinct(before, x);
      }
    }

    /** Hands the present value to every subscriber in list order and clears the flag. */
    method Update()
      modifies this
      ensures C() == old(C()) && S() == Updated(old(S()))
      ensures !changed && value == old(value) && subscribers == old(subscribers)
      ensures forall x | x in subscribers :: x in delivered && delivered[x] == value
      ensures forall x | x !in subscribers :: (x in delivered <==> x in old(delivered))
      ensures forall x | x in delivered && x !in subscribers :: delivered[x] == old(delivered)[x]
    {
      ghost var rest := subscribers;
      var i := 0;
      while i < |subscribers|
        invariant 0 <= i <= |subscribers| && rest == subscribers[i..]
        invariant Give(delivered, rest, value) == Give(old(delivered), old(subscribers), value)
        invariant C() == old(C()) && S() == old(S()).(delivered := delivered)
      {
        delivered := delivered[subscribers[i] := value];
        rest := rest[1..];
        i := i + 1;
      }
      GiveAll(old(delivered), old(subscribers), value);
      changed := false;
    }

    /** The virtual getValue that execute reaches through its chain of casts. */
    method GetValue(r: Reading)
      modifies this
      ensures C() == old(C()) && S() == Get(kind, old(S()), simulated, ReadBound(), r)
      ensures old(Valid()) ==> Valid()
    {
      if old(Valid()) {
        GetSettles(kind, old(S()), simulated, ReadBound(), r);
      }
      if kind.accessMode == ReadOnly && kind.dataType == IntData {
        ReadOnlyGetValue(r);
      } else if kind.accessMode == ReadOnly && kind.dataType == DoubleData {
        ReadOnlyDoubleGetValue(r);
      } else if kind.accessMode == ReadOnly && kind.dataType == StringData {
        ReadOnlyGetValue(r);
      } else if kind.accessMode == ReadWrite && kind.dataType == IntData {
        ReadWriteIntGetValue(r);
      } else if kind.accessMode == ReadWrite && kind.dataType == DoubleData {
        // getValue of ReadWriteDouble only returns the stored value
      } else if kind.accessMode == ReadWrite && kind.dataType == StringData {
        ReadWriteStringGetValue(r);
      }
    }

    /** The body of the sweep for one channel: the read, then the update if the flag is set. */
    method Poll(r: Reading)
      modifies this
      ensures C() == old(C()) && S() == Polled(kind, old(S()), simulated, ReadBound(), r)
      ensures old(Valid()) ==> Valid() && (Covered(kind, simulated) ==> Coherent(S()))
    {
      GetValue(r);
      if changed {
        Update();
      }
      if old(Valid()) {
        PollSettles(kind, old(S()), simulated, ReadBound(), r);
      }
    }

    method RegistChannelRead(handler: Handler, d: Driver)
      modifies this`readHandler, this`driver
      ensures readHandler == (if handler == NoHandler then old(readHandler) else handler)
      ensures driver == (if handler == NoHandler then old(driver) else Some(d))
    {
      if handler == NoHandler {
        return;
      }
      readHandler := handler;
      driver := Some(d);
    }

    method RegistChannelWrite(handler: Handler, d: Driver)
      modifies this`writeHandler, this`driver
      ensures writeHandler == (if handler == NoHandler then old(writeHandler) else handler)
      ensures driver == (if handler == NoHandler then old(driver) else Some(d))
    {
      if handler == NoHandler {
        return;
      }
      writeHandler := handler;
      driver := Some(d);
    }
  }

  /** One turn of the erasing loop. */
  lemma WithoutHere(xs: seq<Subscriber>, i: nat, x: Subscriber)
    requires i < |xs|
    ensures var all := xs[..i] + Without(xs[i..], x);
            if xs[i] == x then
              var ys := xs[..i] + xs[i + 1..];
              ys[..i] + Without(ys[i..], x) == all
            else
              xs[..i + 1] + Without(xs[i + 1..], x) == all
  {
    assert xs[i..][1..] == xs[i + 1..];
    if xs[i] == x {
      var ys := xs[..i] + xs[i + 1..];
      assert ys[..i] == xs[..i] && ys[i..] == xs[i + 1..];
    } else {
      assert xs[..i + 1] == xs[..i] + [xs[i]];
    }
  }

  lemma {:induction false} WithoutKeepsDistinct(xs: seq<Subscriber>, x: Subscriber)
    requires NoDuplicates(xs)
    ensures NoDuplicates(Without(xs, x))
    decreases |xs|
  {
    if xs != [] {
      WithoutKeepsDistinct(xs[1..], x);
      assert xs[0] !in xs[1..];
    }
  }

  /** The read of a covered channel either raises the flag or finds nothing to announce. */
  lemma GetFindsChanges(kind: Kind, s: State, simulated: bool, bound: bool, r: Reading)
    requires Covered(kind, simulated) && Settled(kind, simulated, s)
    ensures var g := Get(kind, s, simulated, bound, r);
            g.subscribers == s.subscribers && (g.changed || AllHold(g, g.value))
  {
  }

  /** A bare read keeps a channel settled. */
  lemma GetSettles(kind: Kind, s: State, simulated: bool, bound: bool, r: Reading)
    requires Settled(kind, simulated, s)
    ensures Settled(kind, simulated, Get(kind, s, simulated, bound, r))
  {
  }

  lemma UpdateAnnounces(s: State)
    ensures Coherent(Updated(s)) && Updated(s).subscribers == s.subscribers && Updated(s).value == s.value
  {
  }

  /** A poll of a settled channel leaves it settled, and coherent if its kind is covered. */
  lemma PollSettles(kind: Kind, s: State, simulated: bool, bound: bool, r: Reading)
    requires Settled(kind, simulated, s)
    ensures Settled(kind, simulated, Polled(kind, s, simulated, bound, r))
    ensures Covered(kind, simulated) ==> Coherent(Polled(kind, s, simulated, bound, r))
  {
    var g := Get(kind, s, simulated, bound, r);
    UpdateAnnounces(g);
    if Covered(kind, simulated) {
      GetFindsChanges(kind, s, simulated, bound, r);
      SimulatedReadCatchesUp(kind, s, simulated, bound, r);
    }
  }

  lemma SimulatedReadCatchesUp(kind: Kind, s: State, simulated: bool, bound: bool, r: Reading)
    requires Covered(kind, simulated)
    ensures var p := Polled(kind, s, simulated, bound, r); Tracked(kind, simulated, p) == p.value
  {
  }

  // ---------- every run of one channel ----------

  /** Whether the channel is bound may differ at each operation. */
  datatype Op =
    | OpSubscribe(x: Subscriber)
    | OpUnsubscribe(x: Subscriber)
    | OpSimulate(v: Value)
    | OpSet(v: Value, bound: bool, ok: bool)
    | OpGet(r: Reading, bound: bool)           // a read by anyone
    | OpPoll(r: Reading, bound: bool)          // the sweep's read, with the update behind it

  function Step(kind: Kind, simulated: bool, s: State, op: Op): State {
    match op
    case OpSubscribe(x) => Subscribed(s, x)
    case OpUnsubscribe(x) => s.(subscribers := Without(s.subscribers, x))
    case OpSimulate(v) => if simulated && kind.accessMode == ReadOnly then s.(value := v, valid := true) else s
    case OpSet(v, bound, ok) => Set(kind, s, bound, v, ok)
    case OpGet(r, bound) => Get(kind, s, simulated, bound, r)
    case OpPoll(r, bound) => Polled(kind, s, simulated, bound, r)
  }

  function Run(kind: Kind, simulated: bool, s: State, ops: seq<Op>): State
    decreases |ops|
  {
    if ops == [] then s else Step(kind, simulated, Run(kind, simulated, s, ops[..|ops| - 1]), ops[|ops| - 1])
  }

  lemma RunSnoc(kind: Kind, simulated: bool, s: State, ops: seq<Op>, op: Op)
    ensures Run(kind, simulated, s, ops + [op]) == Step(kind, simulated, Run(kind, simulated, s, ops), op)
  {
    assert (ops + [op])[..|ops|] == ops;
  }

  lemma StepSettles(kind: Kind, simulated: bool, s: State, op: Op)
    requires Settled(kind, simulated, s)
    ensures Settled(kind, simulated, Step(kind, simulated, s, op))
  {
    match op
    case OpUnsubscribe(x) => WithoutKeepsDistinct(s.subscribers, x);
    case OpGet(r, bound) => GetSettles(kind, s, simulated, bound, r);
    case OpPoll(r, bound) => PollSettles(kind, s, simulated, bound, r);
    case _ =>
  }

  lemma {:induction false} RunSettles(kind: Kind, simulated: bool, s: State, ops: seq<Op>)
    requires Settled(kind, simulated, s)
    ensures Settled(kind, simulated, Run(kind, simulated, s, ops))
    decreases |ops|
  {
    if ops != [] {
      RunSettles(kind, simulated, s, ops[..|ops| - 1]);
      StepSettles(kind, simulated, Run(kind, simulated, s, ops[..|ops| - 1]), ops[|ops| - 1]);
    }
  }

  /** Every poll of the run leaves every subscriber with the present value. */
  ghost predicate PollsCatchUp(kind: Kind, simulated: bool, s: State, ops: seq<Op>) {
    forall k | 0 <= k < |ops| && ops[k].OpPoll? :: CaughtUpAt(kind, simulated, s, ops, k)
  }

  ghost predicate CaughtUpAt(kind: Kind, simulated: bool, s: State, ops: seq<Op>, k: nat)
    requires k < |ops|
  {
    Coherent(Run(kind, simulated, s, ops[..k + 1]))
  }

  /** ... in every run from here on. */
  ghost predicate AlwaysCatchesUp(kind: Kind, simulated: bool, s: State) {
    forall ops :: PollsCatchUp(kind, simulated, s, ops)
  }

  lemma SettledCatchesUp(kind: Kind, simulated: bool, s: State, ops: seq<Op>)
    requires Covered(kind, simulated) && Settled(kind, simulated, s)
    ensures PollsCatchUp(kind, simulated, s, ops)
  {
    forall k | 0 <= k < |ops| && ops[k].OpPoll?
      ensures CaughtUpAt(kind, simulated, s, ops, k)
    {
      var before := Run(kind, simulated, s, ops[..k]);
      RunSettles(kind, simulated, s, ops[..k]);
      PollSettles(kind, before, simulated, ops[k].bound, ops[k].r);
      assert ops[..k + 1] == ops[..k] + [ops[k]];
      RunSnoc(kind, simulated, s, ops[..k], ops[k]);
    }
  }

  /** For a covered kind and a mode fixed from construction: in every run of subscribe,
      unsubscribe, simulate, write, read and poll, each poll leaves every subscriber with the
      present value, whatever the driver answers, and nobody is ever listed twice. */
  lemma CoveredKindsCatchUp(kind: Kind, simulated: bool, v: Value, ops: seq<Op>)
    requires Covered(kind, simulated)
    ensures PollsCatchUp(kind, simulated, Initial(kind, v), ops)
    ensures NoDuplicates(Run(kind, simulated, Initial(kind, v), ops).subscribers)
  {
    SettledCatchesUp(kind, simulated, Initial(kind, v), ops);
    RunSettles(kind, simulated, Initial(kind, v), ops);
  }

  // ---------- switching simulated mode ----------

  /** A ReadOnlyInt or ReadOnlyString whose mode is switched between operations: every run in
      the new mode has all its polls catch up if and only if, at the switch, a change is
      flagged, nobody subscribes, or the two value fields agree. */
  lemma ModeSwitch(kind: Kind, simulated: bool, s: State)
    requires kind == Kind(IntData, ReadOnly) || kind == Kind(StringData, ReadOnly)
    requires Settled(kind, simulated, s)
    ensures AlwaysCatchesUp(kind, !simulated, s) <==>
            s.changed || s.subscribers == [] || s.value == s.oldValue
  {
    if s.changed || s.subscribers == [] || s.value == s.oldValue {
      var mode := !simulated;
      forall ops
        ensures PollsCatchUp(kind, mode, s, ops)
      {
        SettledCatchesUp(kind, mode, s, ops);
      }
    } else {
      LosingContinuation(kind, simulated, s);
      assert !PollsCatchUp(kind, !simulated, s, AfterSwitch(simulated, s));
    }
  }

  /** Simulate the recorded old value and poll, or poll with a failed read. */
  function AfterSwitch(simulated: bool, s: State): seq<Op> {
    var poll := OpPoll(Reading(false, s.value), true);
    if simulated then [poll] else [OpSimulate(s.oldValue), poll]
  }

  lemma RunOne(kind: Kind, simulated: bool, s: State, op: Op)
    ensures Run(kind, simulated, s, [op]) == Step(kind, simulated, s, op)
  {
    RunSnoc(kind, simulated, s, [], op);
    assert [] + [op] == [op];
  }

  lemma RunTwo(kind: Kind, simulated: bool, s: State, a: Op, b: Op)
    ensures Run(kind, simulated, s, [a, b]) == Step(kind, simulated, Step(kind, simulated, s, a), b)
  {
    RunSnoc(kind, simulated, s, [a], b);
    assert [a] + [b] == [a, b];
    RunOne(kind, simulated, s, a);
  }

  /** A poll that finds nothing to announce leaves the subscribers with what they held. */
  lemma SilentPoll(kind: Kind, simulated: bool, s: State, held: Value)
    requires kind == Kind(IntData, ReadOnly) || kind == Kind(StringData, ReadOnly)
    requires !s.changed && s.subscribers != [] && AllHold(s, held) && held != s.value
    requires simulated ==> s.oldValue == s.value
    ensures forall v :: !Coherent(Step(kind, simulated, s, OpPoll(Reading(false, v), true)))
  {
    assert s.subscribers[0] in s.subscribers;
  }

  lemma LosingContinuation(kind: Kind, simulated: bool, s: State)
    requires kind == Kind(IntData, ReadOnly) || kind == Kind(StringData, ReadOnly)
    requires Settled(kind, simulated, s) && !s.changed && s.subscribers != [] && s.value != s.oldValue
    ensures !PollsCatchUp(kind, !simulated, s, AfterSwitch(simulated, s))
  {
    var ops := AfterSwitch(simulated, s);
    var poll := ops[|ops| - 1];
    assert ops[..|ops|] == ops;
    if simulated {
      RunOne(kind, false, s, poll);
      SilentPoll(kind, false, s, s.oldValue);
    } else {
      var t := Step(kind, true, s, ops[0]);
      RunTwo(kind, true, s, ops[0], poll);
      assert poll == OpPoll(Reading(false, s.value), true);
      assert !Coherent(Step(kind, true, t, poll)) by {
        SilentPoll(kind, true, t, s.value);
      }
    }
    assert !CaughtUpAt(kind, !simulated, s, ops, |ops| - 1);
  }

  /** For example: the driver moved a ReadOnlyInt from 1 to 2 and that was announced; after the
      switch the simulated value 1 equals the recorded old value and is never announced. */
  lemma ModeSwitchLosesAChange(x: Subscriber, r: Reading)
    ensures var kind := Kind(IntData, ReadOnly);
            var s1 := Polled(kind, Subscribed(Initial(kind, IntValue(1)), x), false, true, Reading(true, IntValue(2)));
            var s2 := Polled(kind, Step(kind, true, s1, OpSimulate(IntValue(1))), true, true, r);
            Coherent(s1) && !Coherent(s2)
  {
    var kind := Kind(IntData, ReadOnly);
    var s1 := Polled(kind, Subscribed(Initial(kind, IntValue(1)), x), false, true, Reading(true, IntValue(2)));
    assert s1.subscribers == [x] && s1.delivered[x] == IntValue(2);
  }
}
