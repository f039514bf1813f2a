/**
 One driver-backed setValue of a ReadWriteInt or ReadWriteString overlapping one visit of the poll
 thread. The writer stores the flag first and the value second; the poll thread reads the driver,
 looks at the flag, hands the value to each subscriber in turn, and clears the flag. Each store
 of the writer may fall anywhere between these steps.
 */
module WriteOverlap {
  import opened Wrappers
  import opened Channels

  /** Between which steps of the poll thread a store falls; Inside(k) is after k deliveries. When
      no update runs, everything behind the read is one place. */
  datatype Place = BeforeRead | AfterRead | Inside(served: nat) | AfterUpdate

  /** A write of v the driver accepts, and where its two stores fall. */
  datatype Write = Write(v: Value, raise: Place, store: Place)

  /** The fields that matter, and what each subscriber was last handed. */
  datatype Point = Point(value: Value, past: Value, flag: bool, held: seq<Value>)

  function Rank(p: Place, n: nat): nat {
    match p
    case BeforeRead => 0
    case AfterRead => 1
    case Inside(k) => 2 + k
    case AfterUpdate => 3 + n
  }

  /** The flag store is not behind the value store, and no place is behind the last subscriber. */
  predicate InOrder(o: Write, n: nat) {
    && Rank(o.raise, n) <= Rank(o.store, n)
    && (o.raise.Inside? ==> o.raise.served <= n) && (o.store.Inside? ==> o.store.served <= n)
  }

  predicate Early(p: Place) {
    p == BeforeRead || p == AfterRead
  }

  // ---------- the steps ----------

  /** The writer's stores at one place. */
  function Stored(w: Point, o: Write, p: Place): Point {
    var f := if o.raise == p && o.v != w.past then w.(flag := true) else w;
    if o.store == p then f.(value := o.v) else f
  }

  /** The read of the driver. */
  function ReadBy(kind: Kind, w: Point, r: Reading): Point {
    if !r.ok then w
    else if kind.dataType == IntData && r.value != w.past then
      w.(flag := true, past := w.value, value := r.value)
    else w.(value := r.value)
  }

  /** ... is getValue of the two classes. */
  lemma ReadIsGet(kind: Kind, s: State, simulated: bool, r: Reading, held: seq<Value>)
    requires kind == Kind(IntData, ReadWrite) || kind == Kind(StringData, ReadWrite)
    ensures var g := Get(kind, s, simulated, true, r);
            ReadBy(kind, Point(s.value, s.oldValue, s.changed, held), r) == Point(g.value, g.oldValue, g.changed, held)
  {
  }

  /** Both stores at once, in their order, are setValue. */
  lemma StoresAreSet(kind: Kind, s: State, v: Value, p: Place, held: seq<Value>)
    requires kind == Kind(IntData, ReadWrite) || kind == Kind(StringData, ReadWrite)
    ensures var g := Set(kind, s, true, v, true);
            Stored(Point(s.value, s.oldValue, s.changed, held), Write(v, p, p), p) ==
            Point(g.value, g.oldValue, g.changed, held)
  {
  }

  /** The deliveries from the k-th subscriber on. */
  function Served(w: Point, o: Write, k: nat): Point
    requires k <= |w.held|
    decreases |w.held| - k
  {
    var u := Stored(w, o, Inside(k));
    if k == |w.held| then u else Served(u.(held := u.held[k := u.value]), o, k + 1)
  }

  /** What the writer still has to do when no update runs. */
  function Leftover(w: Point, o: Write): Point {
    var f := if !Early(o.raise) && o.v != w.past then w.(flag := true) else w;
    if !Early(o.store) then f.(value := o.v) else f
  }

  function Visited(kind: Kind, w: Point, o: Write, r: Reading): Point {
    var b := Stored(ReadBy(kind, Stored(w, o, BeforeRead), r), o, AfterRead);
    if b.flag then Stored(Served(b, o, 0).(flag := false), o, AfterUpdate) else Leftover(b, o)
  }

  // ---------- what is lost ----------

  /** Flagged for the next sweep, or held by everyone. */
  predicate Announced(w: Point) {
    w.flag || forall i | 0 <= i < |w.held| :: w.held[i] == w.value
  }

  /** The value that the read finds, the old value it leaves, and the value it leaves. */
  function Found(w: Point, o: Write): Value {
    if o.store == BeforeRead then o.v else w.value
  }

  predicate ReadRaises(kind: Kind, w: Point, r: Reading) {
    r.ok && kind.dataType == IntData && r.value != w.past
  }

  function PastAfter(kind: Kind, w: Point, o: Write, r: Reading): Value {
    if ReadRaises(kind, w, r) then Found(w, o) else w.past
  }

  function Left(w: Point, o: Write, r: Reading): Value {
    if r.ok then r.value else Found(w, o)
  }

  /** The poll thread sees the flag and runs an update. */
  predicate Updates(kind: Kind, w: Point, o: Write, r: Reading) {
    || ReadRaises(kind, w, r)
    || (o.raise == BeforeRead && o.v != w.past)
    || (o.raise == AfterRead && o.v != PastAfter(kind, w, o, r))
  }

  /** With an update: the value store comes after a delivery of another value, and the flag store
      does not come after the clear to raise it again. Without: the value ends up another than
      the subscribers hold, and the flag store came too early or finds nothing to raise. */
  predicate Lost(kind: Kind, w: Point, o: Write, r: Reading) {
    if Updates(kind, w, o, r) then
      && !Early(o.store) && o.store != Inside(0) && Left(w, o, r) != o.v
      && !(o.raise == AfterUpdate && o.v != PastAfter(kind, w, o, r))
    else
      && (if o.store == BeforeRead then Left(w, o, r) else o.v) != w.value
      && (Early(o.raise) || o.v == w.past)
  }

  lemma {:induction false} ServedIs(w: Point, o: Write, k: nat)
    requires k <= |w.held|
    ensures var t := Served(w, o, k);
            && |t.held| == |w.held| && t.past == w.past
            && t.value == (if o.store.Inside? && k <= o.store.served <= |w.held| then o.v else w.value)
            && forall i | 0 <= i < |w.held| :: t.held[i] ==
                 if i < k then w.held[i] else if o.store.Inside? && k <= o.store.served <= i then o.v else w.value
    decreases |w.held| - k
  {
    if k < |w.held| {
      var u := Stored(w, o, Inside(k));
      ServedIs(u.(held := u.held[k := u.value]), o, k + 1);
    }
  }

  /** Exactly when one overlapping write is lost: for every place of its two stores and every
      reading, from subscribers that are up to date. */
  lemma OverlappingWriteLostIff(kind: Kind, w: Point, o: Write, r: Reading)
    requires kind == Kind(IntData, ReadWrite) || kind == Kind(StringData, ReadWrite)
    requires !w.flag && w.held != [] && forall i | 0 <= i < |w.held| :: w.held[i] == w.value
    requires InOrder(o, |w.held|)
    ensures Announced(Visited(kind, w, o, r)) <==> !Lost(kind, w, o, r)
  {
    var b := Stored(ReadBy(kind, Stored(w, o, BeforeRead), r), o, AfterRead);
    BeforeCheck(kind, w, o, r);
    if b.flag {
      UpdateLosesIff(b, o, Left(w, o, r));
    } else {
      assert w.held[0] == w.value;
    }
  }

  lemma BeforeCheck(kind: Kind, w: Point, o: Write, r: Reading)
    requires !w.flag && InOrder(o, |w.held|)
    ensures var b := Stored(ReadBy(kind, Stored(w, o, BeforeRead), r), o, AfterRead);
            && b.held == w.held && (b.flag <==> Updates(kind, w, o, r)) && b.past == PastAfter(kind, w, o, r)
            && b.value == if o.store == AfterRead then o.v else Left(w, o, r)
  {
  }

  lemma UpdateLosesIff(b: Point, o: Write, left: Value)
    requires b.held != [] && InOrder(o, |b.held|) && b.value == if o.store == AfterRead then o.v else left
    ensures var t := Stored(Served(b, o, 0).(flag := false), o, AfterUpdate);
            Announced(t) <==>
            !(!Early(o.store) && o.store != Inside(0) && left != o.v && !(o.raise == AfterUpdate && o.v != b.past))
  {
    ServedIs(b, o, 0);
    var t := Stored(Served(b, o, 0).(flag := false), o, AfterUpdate);
    assert t.held[0] == if o.store == Inside(0) then o.v else b.value;
  }
}
