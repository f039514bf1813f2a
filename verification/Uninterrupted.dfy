/**
 The steps of Interleaving are those of the operations: taken without interruption, they do to a
 ReadWriteDouble channel what Channels says the whole operation does.
 */
module Uninterrupted {
  import opened Wrappers
  import opened Channels
  import opened Interleaving

  const RWD := Kind(DoubleData, ReadWrite)

  /** The world and the channel agree on the fields both have. */
  predicate Shows(w: World, s: State) {
    s.value == DoubleValue(w.value) && s.changed == w.flag && s.subscribers == w.subscribers
  }

  /** Taking this run is possible, and then the world shows s with every thread where it was. */
  ghost predicate ActsAs(mutex: bool, w: World, run: seq<Action>, s: State) {
    exists t :: Leads(mutex, w, run, t) && Shows(t, s)
      && t.writer == w.writer && t.poller == w.poller && t.client == w.client
  }

  function SubscribeRun(x: Subscriber): seq<Action> {
    [LockSubscribe(x)] + ([SetFlag] + ([Push] + [ClientUnlock]))
  }

  /** subscribe, in either build, wherever the writer and the poll thread stand if the lock does nothing. */
  lemma SubscribeAlone(mutex: bool, w: World, s: State, x: Subscriber)
    requires Shows(w, s) && w.client == Away && (mutex ==> LockFree(w))
    ensures ActsAs(mutex, w, SubscribeRun(x), Subscribed(s, x))
  {
    var a := Do(mutex, w, LockSubscribe(x));
    var b := Do(mutex, a, SetFlag);
    var c := Do(mutex, b, Push);
    var t := Do(mutex, c, ClientUnlock);
    LeadsOne(mutex, c, ClientUnlock);
    LeadsFirst(mutex, b, Push, [ClientUnlock], t);
    LeadsFirst(mutex, a, SetFlag, [Push] + [ClientUnlock], t);
    LeadsFirst(mutex, w, LockSubscribe(x), [SetFlag] + ([Push] + [ClientUnlock]), t);
    assert Shows(t, Subscribed(s, x));
  }

  function UnsubscribeRun(x: Subscriber): seq<Action> {
    [LockUnsubscribe(x)] + ([Erase] + [ClientUnlock])
  }

  /** unsubscribe, between two updates. */
  lemma UnsubscribeAlone(mutex: bool, w: World, s: State, x: Subscriber)
    requires Shows(w, s) && w.client == Away && w.poller == Asleep
    ensures ActsAs(mutex, w, UnsubscribeRun(x), s.(subscribers := Without(s.subscribers, x)))
  {
    var a := Do(mutex, w, LockUnsubscribe(x));
    var b := Do(mutex, a, Erase);
    var t := Do(mutex, b, ClientUnlock);
    LeadsOne(mutex, b, ClientUnlock);
    LeadsFirst(mutex, a, Erase, [ClientUnlock], t);
    LeadsFirst(mutex, w, LockUnsubscribe(x), [Erase] + [ClientUnlock], t);
    assert Shows(t, s.(subscribers := Without(s.subscribers, x)));
  }

  /** A value inside the deadband takes no step at all. */
  function SetRun(s: State, v: real): seq<Action> {
    if Abs(AsReal(s.value) - v) >= ACCURACY then [Begin(v)] + ([StoreValue] + [StoreFlag]) else []
  }

  /** setValue without a driver, or with one that accepts the value. */
  lemma SetAlone(mutex: bool, w: World, s: State, v: real, bound: bool)
    requires Shows(w, s) && w.writer == Outside
    ensures ActsAs(mutex, w, SetRun(s, v), Set(RWD, s, bound, DoubleValue(v), true))
  {
    var q := Set(RWD, s, bound, DoubleValue(v), true);
    if Enabled(mutex, w, Begin(v)) {
      var a := Do(mutex, w, Begin(v));
      var b := Do(mutex, a, StoreValue);
      var t := Do(mutex, b, StoreFlag);
      LeadsOne(mutex, b, StoreFlag);
      LeadsFirst(mutex, a, StoreValue, [StoreFlag], t);
      LeadsFirst(mutex, w, Begin(v), [StoreValue] + [StoreFlag], t);
      assert Shows(t, q);
    } else {
      assert Leads(mutex, w, [], w) && Shows(w, q);
    }
  }

  /** The check of the flag, and the update if it is set. */
  function VisitRun(s: State): seq<Action> {
    if s.changed then Interleaving.Sweep(|s.subscribers|) else [CheckFlag]
  }

  /** A visit of the poll thread, whose read does nothing for this kind. */
  lemma VisitAlone(mutex: bool, w: World, s: State, simulated: bool, bound: bool, r: Reading)
    requires Shows(w, s) && w.poller == Asleep && (mutex ==> LockFree(w))
    ensures ActsAs(mutex, w, VisitRun(s), Polled(RWD, s, simulated, bound, r))
  {
    if s.changed {
      SweepReachesEveryone(mutex, w);
      var t :| Leads(mutex, w, VisitRun(s), t) && !t.flag && t.poller == Asleep && t.client == w.client
               && t.writer == w.writer && t.subscribers == w.subscribers && t.value == w.value;
      assert Shows(t, Updated(s));
    } else {
      LeadsOne(mutex, w, CheckFlag);
      assert Shows(w, s);
    }
  }
}
