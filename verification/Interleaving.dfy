/**
 A finer model of one ReadWriteDouble channel shared by three threads: a writer inside
 setValue, which takes no lock; the poll thread inside execute and update; and one client inside
 subscribe or unsubscribe. Each action is one store, one load, one list operation or one lock
 operation, and actions of different threads interleave arbitrarily (sequential consistency). A
 delivery hands over the value as it is at that moment, and the step of the loop to the next list
 node is an action of its own: once it has reached the end it stays there, whatever is appended.

 `mutex` says whether IMutex excludes: it does in the Windows build; in the Linux build both
 lock and unlock have empty bodies. `raced` and `dangling` record what only exclusion rules out:
 the flag cleared before a first subscribe has listed its subscriber, or that listing behind an
 update that has reached the end of the list; a repeated subscribe behind the back of an update
 that has already passed the subscriber; and the erasure of the list node an update stands at.
 */
module Interleaving {
  import opened Wrappers
  import opened Channels

  datatype Writer =
    | Outside
    | Accepted(v: real)             // passed the deadband test, nothing stored yet
    | Stored(during: Option<nat>)   // value stored, flag not yet; the update it fell into behind a delivery, if any

  datatype Poller =
    | Asleep
    | SawFlag                       // read the flag as set, about to lock
    | At(k: nat)                    // inside update, about to serve node k
    | Served(k: nat)                // node k served, the step to the next one to come
    | AtEnd                         // through the list, about to clear the flag
    | Cleared                       // flag cleared, lock still held

  datatype Client =
    | Away
    | Locked(x: Subscriber)         // subscribe holds the lock
    | Flagged(x: Subscriber)        // ... and has set the flag
    | Erasing(x: Subscriber)        // unsubscribe holds the lock
    | Leaving                       // done, lock still held

  datatype World = World(
    value: real,
    flag: bool,
    subscribers: seq<Subscriber>,
    delivered: map<Subscriber, real>,   // since each one's last subscribe call
    updates: nat,
    writer: Writer,
    poller: Poller,
    client: Client,
    lost: bool,       // since the last lock of an update: a setValue had both stores inside it, behind a delivery
    raced: bool,      // since then: a subscribe overlapped the update where its request to be served gets lost
    dangling: bool)   // ever: unsubscribe erased the node an update stood at, after which C++ leaves everything open

  datatype Action =
    | Begin(v: real) | StoreValue | StoreFlag
    | CheckFlag | PollLock | Deliver | Advance | Clear | PollUnlock
    | LockSubscribe(x: Subscriber) | SetFlag | Push
    | LockUnsubscribe(x: Subscriber) | Erase
    | ClientUnlock

  /** In the loop of update, or behind it with the flag still up. */
  predicate Updating(w: World) {
    w.poller.At? || w.poller.Served? || w.poller.AtEnd?
  }

  predicate PollerHolds(w: World) {
    Updating(w) || w.poller.Cleared?
  }

  predicate LockFree(w: World) {
    !PollerHolds(w) && w.client == Away
  }

  /** The place of an update before the k-th node, or at the end. */
  function Place(xs: seq<Subscriber>, k: nat): Poller {
    if k < |xs| then At(k) else AtEnd
  }

  /** How many of the listed nodes a running update has served. */
  function Reached(w: World): nat {
    match w.poller
    case At(k) => k
    case Served(k) => k + 1
    case AtEnd => |w.subscribers|
    case _ => 0
  }

  predicate Enabled(mutex: bool, w: World, a: Action) {
    match a
    case Begin(v) => w.writer == Outside && Abs(w.value - v) >= ACCURACY
    case StoreValue => w.writer.Accepted?
    case StoreFlag => w.writer.Stored?
    case CheckFlag => w.poller == Asleep
    case PollLock => w.poller == SawFlag && (mutex ==> LockFree(w))
    case Deliver => w.poller.At? && w.poller.k < |w.subscribers|
    case Advance => w.poller.Served?
    case Clear => w.poller == AtEnd
    case PollUnlock => w.poller == Cleared
    case LockSubscribe(x) => w.client == Away && (mutex ==> LockFree(w))
    case SetFlag => w.client.Locked?
    case Push => w.client.Flagged?
    case LockUnsubscribe(x) => w.client == Away && (mutex ==> LockFree(w))
    case Erase => w.client.Erasing?
    case ClientUnlock => w.client == Leaving
  }

  /** subscribe has set the flag for somebody who is not listed yet. */
  predicate HalfSubscribed(w: World) {
    w.client.Flagged? && w.client.x !in w.subscribers
  }

  /** A running update has already served x. */
  predicate Passed(w: World, x: Subscriber) {
    Updating(w) && Reached(w) <= |w.subscribers| && x in w.subscribers[..Reached(w)]
  }

  /** A running update stands at the node of x. */
  predicate StandsAt(w: World, x: Subscriber) {
    (w.poller.At? || w.poller.Served?) && w.poller.k < |w.subscribers| && w.subscribers[w.poller.k] == x
  }

  /** The place of an update after x has been erased: at the same node as before. */
  function PlaceWithout(p: Poller, xs: seq<Subscriber>, x: Subscriber): Poller {
    match p
    case At(k) => if k <= |xs| then At(|Without(xs[..k], x)|) else p
    case Served(k) => if k <= |xs| then Served(|Without(xs[..k], x)|) else p
    case _ => p
  }

  function Do(mutex: bool, w: World, a: Action): World
    requires Enabled(mutex, w, a)
  {
    match a
    case Begin(v) => w.(writer := Accepted(v))
    case StoreValue =>
      w.(value := w.writer.v,
         writer := Stored(if Updating(w) && Reached(w) > 0 then Some(w.updates) else None))
    case StoreFlag =>
      w.(flag := true, writer := Outside,
         lost := w.lost || (Updating(w) && w.writer.during == Some(w.updates)))
    case CheckFlag => if w.flag then w.(poller := SawFlag) else w
    case PollLock =>
      w.(poller := Place(w.subscribers, 0), updates := w.updates + 1, lost := false, raced := false)
    case Deliver =>
      w.(delivered := w.delivered[w.subscribers[w.poller.k] := w.value], poller := Served(w.poller.k))
    case Advance => w.(poller := Place(w.subscribers, w.poller.k + 1))
    case Clear => w.(flag := false, poller := Cleared, raced := w.raced || HalfSubscribed(w))
    case PollUnlock => w.(poller := Asleep)
    case LockSubscribe(x) => w.(client := Locked(x))
    case SetFlag =>
      w.(flag := true, delivered := w.delivered - {w.client.x}, client := Flagged(w.client.x),
         raced := w.raced || Passed(w, w.client.x))
    case Push =>
      w.(subscribers := if w.client.x in w.subscribers then w.subscribers else w.subscribers + [w.client.x],
         client := Leaving,
         raced := w.raced || (w.poller == AtEnd && HalfSubscribed(w)))
    case LockUnsubscribe(x) => w.(client := Erasing(x))
    case Erase =>
      w.(subscribers := Without(w.subscribers, w.client.x), client := Leaving,
         poller := PlaceWithout(w.poller, w.subscribers, w.client.x),
         dangling := w.dangling || StandsAt(w, w.client.x))
    case ClientUnlock => w.(client := Away)
  }

  /** Taking the actions of run one after another from w is possible and ends in t. */
  predicate Leads(mutex: bool, w: World, run: seq<Action>, t: World)
    decreases |run|
  {
    if run == [] then t == w
    else Enabled(mutex, w, run[0]) && Leads(mutex, Do(mutex, w, run[0]), run[1..], t)
  }

  function New(v: real, flag: bool): World {
    World(v, flag, [], map[], 0, Outside, Asleep, Away, false, false, false)
  }

  // ---------- what every action keeps ----------

  predicate Holds(w: World, i: nat)
    requires i < |w.subscribers|
  {
    w.subscribers[i] in w.delivered && w.delivered[w.subscribers[i]] == w.value
  }

  /** Every listed subscriber was last handed the present value. */
  predicate UpToDate(w: World) {
    forall i | 0 <= i < |w.subscribers| :: Holds(w, i)
  }

  /** Nothing has happened that only exclusion rules out. */
  predicate Orderly(w: World) {
    !w.raced && !w.dangling
  }

  /** An update stands at a node of the list, unless that node was erased. */
  predicate Standing(w: World) {
    w.poller.At? || w.poller.Served? ==>
      w.poller.k <= |w.subscribers| && (!w.dangling ==> w.poller.k < |w.subscribers|)
  }

  /** What holds in both builds, whatever happens; and, where the lock excludes, that it does. */
  ghost predicate Sound(mutex: bool, w: World) {
    && NoDuplicates(w.subscribers)
    && (mutex ==> Orderly(w) && (PollerHolds(w) ==> w.client == Away))
    && (w.poller == SawFlag ==> w.flag)
    && Standing(w)
    && (w.writer.Stored? && w.writer.during.Some? ==> w.writer.during.value <= w.updates)
  }

  /** Inside an update the subscribers reached so far have been served; otherwise every listed
      one has been served since it subscribed, or the flag is set. The flag is up for somebody
      who is about to be listed. */
  ghost predicate NobodyForgotten(w: World) {
    && (forall i | 0 <= i < |w.subscribers| :: AccountedFor(w, i))
    && (HalfSubscribed(w) ==> w.flag)
  }

  ghost predicate AccountedFor(w: World, i: nat)
    requires i < |w.subscribers|
  {
    w.subscribers[i] in w.delivered || (if Updating(w) then Reached(w) <= i else w.flag)
  }

  /** The value store of the writer fell into the running update behind a delivery. */
  predicate StoredHere(w: World) {
    w.writer.Stored? && w.writer.during == Some(w.updates)
  }

  /** While no loss has happened: inside an update the subscribers served so far are up to date
      or the writer still has to set the flag; outside, a change is flagged or about to be. */
  ghost predicate NothingLost(w: World) {
    if Updating(w) then
      StoredHere(w) || forall i | 0 <= i < Reached(w) && i < |w.subscribers| :: Holds(w, i)
    else
      w.flag || w.writer.Stored? || UpToDate(w)
  }

  ghost predicate Inv(mutex: bool, w: World) {
    && Sound(mutex, w)
    && (Orderly(w) ==> NobodyForgotten(w))
    && (Orderly(w) && !w.lost ==> NothingLost(w))
  }

  lemma {:induction false} WithoutAppend(xs: seq<Subscriber>, ys: seq<Subscriber>, x: Subscriber)
    ensures Without(xs + ys, x) == Without(xs, x) + Without(ys, x)
    decreases |xs|
  {
    if xs == [] {
      assert xs + ys == ys;
    } else {
      var first: seq<Subscriber> := if xs[0] == x then [] else [xs[0]];
      WithoutAppend(xs[1..], ys, x);
      assert (xs + ys)[1..] == xs[1..] + ys;
      assert first + (Without(xs[1..], x) + Without(ys, x)) == first + Without(xs[1..], x) + Without(ys, x);
    }
  }

  /** Where an update stands after an erasure: the nodes before it are those it had passed, and
      the node is the same unless it was the one erased. */
  lemma ErasedPrefix(xs: seq<Subscriber>, k: nat, x: Subscriber)
    requires k <= |xs|
    ensures var n := |Without(xs[..k], x)|;
            && n <= |Without(xs, x)| && Without(xs, x)[..n] == Without(xs[..k], x)
            && (k < |xs| && xs[k] != x ==> n < |Without(xs, x)| && Without(xs, x)[..n + 1] == Without(xs[..k + 1], x))
  {
    assert xs == xs[..k] + xs[k..];
    WithoutAppend(xs[..k], xs[k..], x);
    if k < |xs| && xs[k] != x {
      assert xs == xs[..k + 1] + xs[k + 1..] && xs[..k + 1] == xs[..k] + [xs[k]];
      WithoutAppend(xs[..k + 1], xs[k + 1..], x);
      WithoutAppend(xs[..k], [xs[k]], x);
      WithoutOne(xs[k], x);
    }
  }

  lemma WithoutOne(y: Subscriber, x: Subscriber)
    requires y != x
    ensures Without([y], x) == [y]
  {
    assert [y][1..] == [];
    assert Without([], x) == [];
  }

  lemma DoKeepsSound(mutex: bool, w: World, a: Action)
    requires Sound(mutex, w) && Enabled(mutex, w, a)
    ensures Sound(mutex, Do(mutex, w, a))
  {
    if a.Erase? {
      WithoutKeepsDistinct(w.subscribers, w.client.x);
      EraseKeepsStanding(w);
    }
  }

  lemma EraseKeepsStanding(w: World)
    requires Standing(w) && w.client.Erasing?
    ensures Standing(Do(false, w, Erase))
  {
    if w.poller.At? || w.poller.Served? {
      ErasedPrefix(w.subscribers, w.poller.k, w.client.x);
    }
  }

  /** How far an update has come, after an erasure that did not hit its node. */
  lemma ErasedReached(w: World)
    requires Standing(w) && w.client.Erasing? && !w.dangling && !StandsAt(w, w.client.x) && Updating(w)
    ensures var t := Do(false, w, Erase);
            && Reached(w) <= |w.subscribers| && Reached(t) <= |t.subscribers|
            && t.subscribers[..Reached(t)] == Without(w.subscribers[..Reached(w)], w.client.x)
  {
    var x := w.client.x;
    if w.poller.AtEnd? {
      assert w.subscribers[..|w.subscribers|] == w.subscribers;
      assert Without(w.subscribers, x)[..|Without(w.subscribers, x)|] == Without(w.subscribers, x);
    } else {
      ErasedPrefix(w.subscribers, w.poller.k, x);
    }
  }

  /** Every subscriber still listed after an erasure was listed before it, and on the same side
      of a running update. */
  lemma ErasedFrom(w: World, i: nat) returns (j: nat)
    requires Standing(w) && w.client.Erasing? && !w.dangling && !StandsAt(w, w.client.x)
    requires i < |Without(w.subscribers, w.client.x)|
    ensures j < |w.subscribers| && w.subscribers[j] == Without(w.subscribers, w.client.x)[i]
    ensures Updating(w) && i < Reached(Do(false, w, Erase)) ==> j < Reached(w)
  {
    var x, t := w.client.x, Do(false, w, Erase);
    var y := t.subscribers[i];
    assert y in t.subscribers;
    if Updating(w) && i < Reached(t) {
      ErasedReached(w);
      var front := w.subscribers[..Reached(w)];
      assert y == Without(front, x)[i] && y in Without(front, x);
      j :| 0 <= j < |front| && front[j] == y;
    } else {
      j :| 0 <= j < |w.subscribers| && w.subscribers[j] == y;
    }
  }

  lemma DoForgetsNobody(mutex: bool, w: World, a: Action)
    requires Inv(mutex, w) && Enabled(mutex, w, a) && Orderly(Do(mutex, w, a)) && a != PollLock
    ensures NobodyForgotten(Do(mutex, w, a))
  {
    var t := Do(mutex, w, a);
    forall i | 0 <= i < |t.subscribers|
      ensures AccountedFor(t, i)
    {
      if a.Erase? {
        var j := ErasedFrom(w, i);
        assert AccountedFor(w, j);
      } else if i < |w.subscribers| {
        assert AccountedFor(w, i);
      }
    }
  }

  lemma DoLosesNothing(mutex: bool, w: World, a: Action)
    requires Inv(mutex, w) && Enabled(mutex, w, a) && Orderly(Do(mutex, w, a))
    requires !Do(mutex, w, a).lost && a != PollLock
    ensures NothingLost(Do(mutex, w, a))
  {
    var t := Do(mutex, w, a);
    if a.Erase? {
      EraseLosesNothing(w);
    } else if a.SetFlag? {
      SetFlagLosesNothing(w);
    } else if a.Push? {
      PushLosesNothing(w);
    } else if a.Deliver? {
      DeliverLosesNothing(w);
    } else if t.value == w.value {
      SameView(w, t);
    }
  }

  lemma EraseLosesNothing(w: World)
    requires Standing(w) && w.client.Erasing? && NothingLost(w) && !w.dangling && !StandsAt(w, w.client.x)
    ensures NothingLost(Do(false, w, Erase))
  {
    var t := Do(false, w, Erase);
    if Updating(w) && !StoredHere(w) {
      forall i | 0 <= i < Reached(t) && i < |t.subscribers|
        ensures Holds(t, i)
      {
        var j := ErasedFrom(w, i);
        assert Holds(w, j);
      }
    } else if !Updating(w) && UpToDate(w) {
      forall i | 0 <= i < |t.subscribers|
        ensures Holds(t, i)
      {
        var j := ErasedFrom(w, i);
        assert Holds(w, j);
      }
    }
  }

  lemma SetFlagLosesNothing(w: World)
    requires Standing(w) && w.client.Locked? && NothingLost(w) && !w.dangling && !Passed(w, w.client.x)
    ensures NothingLost(Do(false, w, SetFlag))
  {
    var t := Do(false, w, SetFlag);
    if Updating(w) && !StoredHere(w) {
      forall i | 0 <= i < Reached(w) && i < |w.subscribers|
        ensures Holds(t, i)
      {
        assert Holds(w, i);
        assert w.subscribers[i] == w.subscribers[..Reached(w)][i];
      }
    }
  }

  lemma PushLosesNothing(w: World)
    requires Standing(w) && w.client.Flagged? && NothingLost(w) && NobodyForgotten(w) && Orderly(Do(false, w, Push))
    ensures NothingLost(Do(false, w, Push))
  {
    var t := Do(false, w, Push);
    if Updating(w) && !StoredHere(w) {
      forall i | 0 <= i < Reached(t) && i < |t.subscribers|
        ensures Holds(t, i)
      {
        assert Holds(w, i);
      }
    } else if t.subscribers == w.subscribers {
      SameView(w, t);
    }
  }

  lemma DeliverLosesNothing(w: World)
    requires Enabled(false, w, Deliver) && NothingLost(w)
    ensures NothingLost(Do(false, w, Deliver))
  {
    var t := Do(false, w, Deliver);
    if !StoredHere(w) {
      forall i | 0 <= i < Reached(t)
        ensures Holds(t, i)
      {
        if i < Reached(w) {
          assert Holds(w, i);
        }
      }
    }
  }

  lemma SameView(w: World, t: World)
    requires t.value == w.value && t.delivered == w.delivered && t.subscribers == w.subscribers
    ensures forall i | 0 <= i < |w.subscribers| :: Holds(t, i) <==> Holds(w, i)
  {
  }

  lemma DoKeepsInv(mutex: bool, w: World, a: Action)
    requires Inv(mutex, w) && Enabled(mutex, w, a)
    ensures Inv(mutex, Do(mutex, w, a))
  {
    DoKeepsSound(mutex, w, a);
    if a != PollLock && Orderly(Do(mutex, w, a)) {
      DoForgetsNobody(mutex, w, a);
      if !Do(mutex, w, a).lost {
        DoLosesNothing(mutex, w, a);
      }
    }
  }

  /** Both builds: every run keeps the invariant. */
  lemma {:induction false} RunKeepsInv(mutex: bool, w: World, run: seq<Action>, t: World)
    requires Inv(mutex, w) && Leads(mutex, w, run, t)
    ensures Inv(mutex, t)
    decreases |run|
  {
    if run != [] {
      DoKeepsInv(mutex, w, run[0]);
      RunKeepsInv(mutex, Do(mutex, w, run[0]), run[1..], t);
    }
  }

  /** Listing adds the subscriber and erasing removes it; nothing else changes who is listed. */
  lemma WhoIsListed(mutex: bool, w: World, a: Action, y: Subscriber)
    requires Enabled(mutex, w, a)
    ensures y in Do(mutex, w, a).subscribers <==>
            if a.Push? && y == w.client.x then true
            else if a.Erase? && y == w.client.x then false
            else y in w.subscribers
  {
  }

  // ---------- safety over every run ----------

  /** No subscription is missed, under any interleaving and in either build, as long as the run
      is orderly, which an excluding lock guarantees: outside an update each listed subscriber
      was served since it last subscribed or the flag is set. No one is ever listed twice. */
  lemma NoSubscriptionMissed(mutex: bool, v: real, flag: bool, run: seq<Action>, w: World)
    requires Leads(mutex, New(v, flag), run, w)
    ensures NoDuplicates(w.subscribers)
    ensures mutex ==> Orderly(w)
    ensures Orderly(w) && !Updating(w) ==> forall x | x in w.subscribers :: x in w.delivered || w.flag
  {
    RunKeepsInv(mutex, New(v, flag), run, w);
    forall x | x in w.subscribers && Orderly(w) && !Updating(w)
      ensures x in w.delivered || w.flag
    {
      var i :| 0 <= i < |w.subscribers| && w.subscribers[i] == x;
      assert AccountedFor(w, i);
    }
  }

  /** No change is missed either, unless since the last update locked some setValue had both its
      stores inside it, after its first delivery and before its clear; the next update repairs
      what was lost. */
  lemma NoChangeMissed(mutex: bool, v: real, flag: bool, run: seq<Action>, w: World)
    requires Leads(mutex, New(v, flag), run, w)
    ensures mutex ==> Orderly(w)
    ensures Orderly(w) && !w.lost && !Updating(w) && w.writer == Outside ==> w.flag || UpToDate(w)
  {
    RunKeepsInv(mutex, New(v, flag), run, w);
  }

  // ---------- the next sweep reaches everyone ----------

  /** n deliveries, each with the step to the next node. */
  function Deliveries(n: nat): seq<Action> {
    if n == 0 then [] else [Deliver] + ([Advance] + Deliveries(n - 1))
  }

  /** About to serve a node, or at the end. */
  predicate Ready(w: World) {
    (w.poller.At? && w.poller.k < |w.subscribers|) || w.poller.AtEnd?
  }

  function Handed(w: World, from: nat, to: nat): map<Subscriber, real>
    requires from <= to <= |w.subscribers|
  {
    Give(w.delivered, w.subscribers[from..to], w.value)
  }

  /** The poll thread after n more deliveries. */
  function After(w: World, n: nat): (t: World)
    requires Ready(w) && Reached(w) + n <= |w.subscribers|
    ensures Ready(t) && Reached(t) == Reached(w) + n
  {
    w.(delivered := Handed(w, Reached(w), Reached(w) + n), poller := Place(w.subscribers, Reached(w) + n))
  }

  lemma AfterNone(w: World)
    requires Ready(w)
    ensures After(w, 0) == w
  {
    assert w.subscribers[Reached(w)..Reached(w)] == [];
  }

  lemma AfterOneMore(mutex: bool, w: World, n: nat)
    requires Ready(w) && Reached(w) + n <= |w.subscribers| && n > 0
    ensures var t := Do(mutex, Do(mutex, w, Deliver), Advance);
            Ready(t) && Reached(t) == Reached(w) + 1 && t.subscribers == w.subscribers && After(t, n - 1) == After(w, n)
  {
    var k := Reached(w);
    var t := Do(mutex, Do(mutex, w, Deliver), Advance);
    assert t == w.(delivered := w.delivered[w.subscribers[k] := w.value], poller := Place(w.subscribers, k + 1));
    assert w.subscribers[k..k + n][0] == w.subscribers[k];
    assert w.subscribers[k..k + n][1..] == w.subscribers[k + 1..k + n];
    assert Handed(t, k + 1, k + n) == Handed(w, k, k + n);
  }

  lemma {:induction false} DeliverMany(mutex: bool, w: World, n: nat)
    requires Ready(w) && Reached(w) + n <= |w.subscribers|
    ensures Leads(mutex, w, Deliveries(n), After(w, n))
    decreases n
  {
    if n == 0 {
      AfterNone(w);
    } else {
      var d := Do(mutex, w, Deliver);
      var t := Do(mutex, d, Advance);
      AfterOneMore(mutex, w, n);
      DeliverMany(mutex, t, n - 1);
      LeadsFirst(mutex, d, Advance, Deliveries(n - 1), After(w, n));
      LeadsFirst(mutex, w, Deliver, [Advance] + Deliveries(n - 1), After(w, n));
    }
  }

  lemma {:induction false} LeadsAppend(mutex: bool, w: World, a: seq<Action>, u: World, b: seq<Action>, t: World)
    requires Leads(mutex, w, a, u) && Leads(mutex, u, b, t)
    ensures Leads(mutex, w, a + b, t)
    decreases |a|
  {
    if a == [] {
      assert a + b == b;
    } else {
      assert (a + b)[1..] == a[1..] + b;
      LeadsAppend(mutex, Do(mutex, w, a[0]), a[1..], u, b, t);
    }
  }

  lemma LeadsOne(mutex: bool, w: World, a: Action)
    requires Enabled(mutex, w, a)
    ensures Leads(mutex, w, [a], Do(mutex, w, a))
  {
    assert [a][1..] == [];
    assert Leads(mutex, Do(mutex, w, a), [], Do(mutex, w, a));
  }

  lemma LeadsFirst(mutex: bool, w: World, a: Action, run: seq<Action>, t: World)
    requires Enabled(mutex, w, a) && Leads(mutex, Do(mutex, w, a), run, t)
    ensures Leads(mutex, w, [a] + run, t)
  {
    assert ([a] + run)[1..] == run;
  }

  lemma DeliverThen(mutex: bool, w: World, n: nat, rest: seq<Action>, t: World)
    requires Ready(w) && Reached(w) + n <= |w.subscribers| && Leads(mutex, After(w, n), rest, t)
    ensures Leads(mutex, w, Deliveries(n) + rest, t)
  {
    DeliverMany(mutex, w, n);
    LeadsAppend(mutex, w, Deliveries(n), After(w, n), rest, t);
  }

  /** After all the deliveries that are left. */
  function Through(w: World): (t: World)
    requires Ready(w)
    ensures t.poller == AtEnd
  {
    After(w, |w.subscribers| - Reached(w))
  }

  function Sweep(n: nat): seq<Action> {
    [CheckFlag] + ([PollLock] + (Deliveries(n) + ([Clear] + [PollUnlock])))
  }

  /** With the flag set, and the lock free if it excludes, the poll thread's own next steps
      serve everyone. */
  lemma SweepReachesEveryone(mutex: bool, w: World)
    requires (mutex ==> LockFree(w)) && w.flag && w.poller == Asleep
    ensures exists t :: Leads(mutex, w, Sweep(|w.subscribers|), t)
              && UpToDate(t) && !t.flag && t.poller == Asleep && t.client == w.client && t.writer == w.writer
              && t.subscribers == w.subscribers && t.value == w.value
  {
    var n := |w.subscribers|;
    var saw := Do(mutex, w, CheckFlag);
    var start := Do(mutex, saw, PollLock);
    var t := Closed(mutex, Through(start));
    CloseLeads(mutex, Through(start));
    DeliverThen(mutex, start, n, [Clear] + [PollUnlock], t);
    LeadsFirst(mutex, saw, PollLock, Deliveries(n) + ([Clear] + [PollUnlock]), t);
    LeadsFirst(mutex, w, CheckFlag, [PollLock] + (Deliveries(n) + ([Clear] + [PollUnlock])), t);
    HandedToAll(start, t);
  }

  /** After the clear and the unlock. */
  function Closed(mutex: bool, w: World): World
    requires w.poller == AtEnd
  {
    Do(mutex, Do(mutex, w, Clear), PollUnlock)
  }

  lemma CloseLeads(mutex: bool, w: World)
    requires w.poller == AtEnd
    ensures Leads(mutex, w, [Clear] + [PollUnlock], Closed(mutex, w))
  {
    var c := Do(mutex, w, Clear);
    LeadsOne(mutex, c, PollUnlock);
    LeadsFirst(mutex, w, Clear, [PollUnlock], Closed(mutex, w));
  }

  lemma HandedToAll(start: World, t: World)
    requires t.delivered == Handed(start, 0, |start.subscribers|)
    requires t.subscribers == start.subscribers && t.value == start.value
    ensures UpToDate(t)
  {
    assert start.subscribers[0..|start.subscribers|] == start.subscribers;
    forall i | 0 <= i < |t.subscribers|
      ensures Holds(t, i)
    {
      GiveAt(start.delivered, start.subscribers, start.value, t.subscribers[i]);
    }
  }

  /** A store, or a listing that the loop will still come to, may change places with the step that
      follows a delivery; so below they are put behind it. */
  lemma StepCommutes(w: World, a: Action)
    requires w.poller.Served? && w.poller.k < |w.subscribers| && Enabled(false, w, a)
    requires a.StoreValue? || a.StoreFlag? || a.SetFlag?
             || (a.Push? && (w.poller.k + 1 < |w.subscribers| || w.client.x in w.subscribers))
    ensures Enabled(false, Do(false, w, Advance), a)
    ensures Do(false, Do(false, w, a), Advance) == Do(false, Do(false, w, Advance), a)
  {
  }

  // ---------- which overlaps lose a change ----------

  /** From the end of the list on. */
  function Finish(late: bool): seq<Action> {
    [Clear] + (if late then [StoreFlag] + [PollUnlock] else [PollUnlock])
  }

  /** What is left of the overlap when the flag store falls before the last m deliveries, or
      (late) after the clear. */
  function Tail(m: nat, late: bool): seq<Action> {
    if late then Deliveries(m) + Finish(true) else [StoreFlag] + (Deliveries(m) + Finish(false))
  }

  /** One setValue overlapping one update: its value store falls after i deliveries; its flag
      store after j, or (late) after the clear. */
  function Overlap(i: nat, j: nat, n: nat, late: bool): seq<Action>
    requires i <= j <= n
  {
    Deliveries(i) + ([StoreValue] + (Deliveries(j - i) + Tail(n - j, late)))
  }

  /** ... and the world at its end, from the value store on. */
  function Finished(b: World, late: bool): World
    requires Ready(b)
  {
    Through(b).(flag := late, poller := Asleep, writer := Outside,
                lost := b.lost || (!late && StoredHere(b)))
  }

  lemma FinishLeads(mutex: bool, w: World, late: bool)
    requires w.poller == AtEnd && w.client == Away
    requires if late then w.writer.Stored? else w.writer == Outside
    ensures Leads(mutex, w, Finish(late), w.(flag := late, poller := Asleep, writer := Outside))
  {
    var c := Do(mutex, w, Clear);
    var t := w.(flag := late, poller := Asleep, writer := Outside);
    if late {
      var f := Do(mutex, c, StoreFlag);
      LeadsOne(mutex, f, PollUnlock);
      LeadsFirst(mutex, c, StoreFlag, [PollUnlock], t);
      LeadsFirst(mutex, w, Clear, [StoreFlag] + [PollUnlock], t);
    } else {
      LeadsOne(mutex, c, PollUnlock);
      LeadsFirst(mutex, w, Clear, [PollUnlock], t);
    }
  }

  lemma AfterTwice(w: World, a: nat, b: nat)
    requires Ready(w) && Reached(w) + a + b <= |w.subscribers|
    ensures After(After(w, a), b) == After(w, a + b)
  {
    var k, xs := Reached(w), w.subscribers;
    assert xs[k..k + a + b] == xs[k..k + a] + xs[k + a..k + a + b];
    GiveAppend(w.delivered, xs[k..k + a], xs[k + a..k + a + b], w.value);
  }

  lemma LateLeads(mutex: bool, w: World, m: nat)
    requires Ready(w) && Reached(w) + m == |w.subscribers| && w.writer.Stored? && w.client == Away
    ensures Leads(mutex, w, Deliveries(m) + Finish(true), Finished(w, true))
  {
    FinishLeads(mutex, Through(w), true);
    DeliverThen(mutex, w, m, Finish(true), Finished(w, true));
  }

  lemma EarlyLeads(mutex: bool, w: World, m: nat)
    requires Ready(w) && Reached(w) + m == |w.subscribers| && w.writer.Stored? && w.client == Away
    ensures Leads(mutex, w, [StoreFlag] + (Deliveries(m) + Finish(false)), Finished(w, false))
  {
    var f, t := Do(mutex, w, StoreFlag), Finished(w, false);
    var e := Through(f);
    assert t == e.(flag := false, poller := Asleep, writer := Outside);
    FinishLeads(mutex, e, false);
    DeliverThen(mutex, f, m, Finish(false), t);
    LeadsFirst(mutex, w, StoreFlag, Deliveries(m) + Finish(false), t);
  }

  lemma TailLeads(mutex: bool, b: World, d: nat, m: nat, late: bool, tail: seq<Action>)
    requires Ready(b) && Reached(b) + d + m == |b.subscribers| && b.writer.Stored? && b.client == Away
    requires tail == Tail(m, late)
    ensures Leads(mutex, b, Deliveries(d) + tail, Finished(b, late))
  {
    var c := After(b, d);
    AfterTwice(b, d, m);
    if late {
      LateLeads(mutex, c, m);
    } else {
      EarlyLeads(mutex, c, m);
    }
    DeliverThen(mutex, b, d, tail, Finished(b, late));
  }

  /** A writer that passed the deadband test, at the start of an update. */
  predicate WriterReady(w: World) {
    w.poller == Place(w.subscribers, 0) && w.client == Away && w.writer.Accepted?
  }

  function StoredAfter(mutex: bool, w: World, i: nat): (b: World)
    requires WriterReady(w) && i <= |w.subscribers|
    ensures Ready(b) && Reached(b) == i && b.writer == Stored(if i > 0 then Some(w.updates) else None)
    ensures b.client == Away && b.subscribers == w.subscribers && b.updates == w.updates && b.lost == w.lost
  {
    Do(mutex, After(w, i), StoreValue)
  }

  lemma OverlapLeads(mutex: bool, w: World, i: nat, j: nat, late: bool, run: seq<Action>, t: World)
    requires WriterReady(w) && i <= j <= |w.subscribers|
    requires run == Overlap(i, j, |w.subscribers|, late) && t == Finished(StoredAfter(mutex, w, i), late)
    ensures Leads(mutex, w, run, t)
  {
    var tail := Deliveries(j - i) + Tail(|w.subscribers| - j, late);
    assert run == Deliveries(i) + ([StoreValue] + tail);
    TailLeads(mutex, StoredAfter(mutex, w, i), j - i, |w.subscribers| - j, late, Tail(|w.subscribers| - j, late));
    LeadsFirst(mutex, After(w, i), StoreValue, tail, t);
    DeliverThen(mutex, w, i, [StoreValue] + tail, t);
  }

  /** Of all the places where the value store of one setValue can fall inside an update, exactly
      those lose the change that come after a delivery with the flag store before the clear. */
  lemma OverlapLosesIff(mutex: bool, w: World, i: nat, j: nat, late: bool, t: World)
    requires WriterReady(w) && w.writer.v != w.value
    requires NoDuplicates(w.subscribers) && !w.lost && i <= j <= |w.subscribers|
    requires t == Finished(StoredAfter(mutex, w, i), late)
    ensures Leads(mutex, w, Overlap(i, j, |w.subscribers|, late), t)
    ensures t.value == w.writer.v && t.writer == Outside && t.poller == Asleep
    ensures t.flag || UpToDate(t) <==> i == 0 || late
    ensures t.lost <==> i > 0 && !late
  {
    OverlapLeads(mutex, w, i, j, late, Overlap(i, j, |w.subscribers|, late), t);
    if i > 0 {
      FirstIsBehind(mutex, w, i, late);
    } else {
      HandedToAll(StoredAfter(mutex, w, 0), t);
    }
  }

  lemma FirstIsServed(w: World, i: nat)
    requires Ready(w) && Reached(w) == 0 && 0 < i <= |w.subscribers|
    ensures var x, t := w.subscribers[0], After(w, i); x in t.delivered && t.delivered[x] == w.value
  {
    assert w.subscribers[0..i][0] == w.subscribers[0];
    GiveAt(w.delivered, w.subscribers[0..i], w.value, w.subscribers[0]);
  }

  lemma SliceToEnd(xs: seq<Subscriber>, k: nat)
    requires k <= |xs|
    ensures xs[k..|xs|] == xs[k..]
  {
  }

  lemma PassedStays(b: World, x: Subscriber)
    requires Ready(b) && x in b.delivered && x !in b.subscribers[Reached(b)..]
    ensures x in Through(b).delivered && Through(b).delivered[x] == b.delivered[x]
  {
    SliceToEnd(b.subscribers, Reached(b));
    GiveAt(b.delivered, b.subscribers[Reached(b)..], b.value, x);
  }

  lemma FirstIsBehind(mutex: bool, w: World, i: nat, late: bool)
    requires WriterReady(w) && w.writer.v != w.value && NoDuplicates(w.subscribers) && 0 < i <= |w.subscribers|
    ensures !UpToDate(Finished(StoredAfter(mutex, w, i), late))
  {
    var b := StoredAfter(mutex, w, i);
    FirstIsServed(w, i);
    assert b.subscribers[0] !in b.subscribers[i..];
    PassedStays(b, b.subscribers[0]);
    assert !Holds(Finished(b, late), 0);
  }

  /** The value store before the lock of the update, the flag store inside it or late: nothing
      is lost, because every delivery hands over the new value. */
  lemma StoreBeforeLockKeeps(mutex: bool, w: World, j: nat, late: bool)
    requires w.poller == Place(w.subscribers, 0) && w.client == Away && w.writer == Stored(None) && j <= |w.subscribers|
    ensures exists t :: Leads(mutex, w, Deliveries(j) + Tail(|w.subscribers| - j, late), t)
              && t.poller == Asleep && t.writer == Outside && UpToDate(t) && t.lost == w.lost
  {
    TailLeads(mutex, w, j, |w.subscribers| - j, late, Tail(|w.subscribers| - j, late));
    HandedToAll(w, Finished(w, late));
  }

  /** The value store after the clear: the flag store comes after it and stays. */
  lemma StoreAfterClearKeeps(mutex: bool, w: World, locked: bool)
    requires w.poller == AtEnd && w.client == Away && w.writer.Accepted?
    ensures var run := if locked then [StoreFlag] + [PollUnlock] else [PollUnlock] + [StoreFlag];
            exists t :: Leads(mutex, w, [Clear] + ([StoreValue] + run), t)
              && t.poller == Asleep && t.writer == Outside && t.value == w.writer.v && t.flag && t.lost == w.lost
  {
    var a, b := if locked then StoreFlag else PollUnlock, if locked then PollUnlock else StoreFlag;
    FourLead(mutex, w, Clear, StoreValue, a, b);
  }

  lemma FourLead(mutex: bool, w: World, a: Action, b: Action, c: Action, d: Action)
    requires Enabled(mutex, w, a) && Enabled(mutex, Do(mutex, w, a), b)
    requires Enabled(mutex, Do(mutex, Do(mutex, w, a), b), c)
    requires Enabled(mutex, Do(mutex, Do(mutex, Do(mutex, w, a), b), c), d)
    ensures Leads(mutex, w, [a] + ([b] + ([c] + [d])), Do(mutex, Do(mutex, Do(mutex, Do(mutex, w, a), b), c), d))
  {
    var u := Do(mutex, w, a);
    var v := Do(mutex, u, b);
    var x := Do(mutex, v, c);
    LeadsOne(mutex, x, d);
    LeadsFirst(mutex, v, c, [d], Do(mutex, x, d));
    LeadsFirst(mutex, u, b, [c] + [d], Do(mutex, x, d));
    LeadsFirst(mutex, w, a, [b] + ([c] + [d]), Do(mutex, x, d));
  }

  // ---------- without mutual exclusion: which overlaps forget a subscriber ----------

  /** subscribe has set the flag inside an update that is not through. */
  predicate FlaggedInside(b: World) {
    Ready(b) && b.client.Flagged? && b.client.x !in b.delivered
  }

  /** What is left of the overlap once the flag is stored: the listing falls after d more
      deliveries if that is before the end of the list; otherwise at the end, before the clear or
      (late) after it. */
  function SubscribeTail(b: World, d: nat, late: bool): seq<Action>
    requires FlaggedInside(b) && Reached(b) + d <= |b.subscribers|
  {
    var m := |b.subscribers| - Reached(b);
    if late then Deliveries(m) + ([Clear] + ([Push] + [PollUnlock]))
    else if d == m then Deliveries(m) + ([Push] + ([Clear] + [PollUnlock]))
    else
      var l := |Do(false, b, Push).subscribers| - Reached(b) - d;
      Deliveries(d) + ([Push] + (Deliveries(l) + ([Clear] + [PollUnlock])))
  }

  /** The worlds at its end. */
  function LateEnd(b: World): World
    requires FlaggedInside(b)
  {
    Do(false, Do(false, Do(false, Through(b), Clear), Push), PollUnlock)
  }

  function AtEndEnd(b: World): World
    requires FlaggedInside(b)
  {
    Closed(false, Do(false, Through(b), Push))
  }

  function EarlyEnd(b: World): World
    requires FlaggedInside(b) && b.poller.At?
  {
    Closed(false, Through(Do(false, b, Push)))
  }

  function SubscribeEnd(b: World, d: nat, late: bool): World
    requires FlaggedInside(b) && Reached(b) + d <= |b.subscribers|
  {
    if late then LateEnd(b) else if Reached(b) + d == |b.subscribers| then AtEndEnd(b) else EarlyEnd(b)
  }

  lemma LateEndLeads(b: World, m: nat)
    requires FlaggedInside(b) && Reached(b) + m == |b.subscribers|
    ensures Leads(false, b, Deliveries(m) + ([Clear] + ([Push] + [PollUnlock])), LateEnd(b))
  {
    var e := Through(b);
    var c := Do(false, e, Clear);
    var p := Do(false, c, Push);
    LeadsOne(false, p, PollUnlock);
    LeadsFirst(false, c, Push, [PollUnlock], LateEnd(b));
    LeadsFirst(false, e, Clear, [Push] + [PollUnlock], LateEnd(b));
    DeliverThen(false, b, m, [Clear] + ([Push] + [PollUnlock]), LateEnd(b));
  }

  lemma AtEndLeads(b: World, m: nat)
    requires FlaggedInside(b) && Reached(b) + m == |b.subscribers|
    ensures Leads(false, b, Deliveries(m) + ([Push] + ([Clear] + [PollUnlock])), AtEndEnd(b))
  {
    var e := Through(b);
    CloseLeads(false, Do(false, e, Push));
    LeadsFirst(false, e, Push, [Clear] + [PollUnlock], AtEndEnd(b));
    DeliverThen(false, b, m, [Push] + ([Clear] + [PollUnlock]), AtEndEnd(b));
  }

  /** A listing the loop will still come to commutes with deliveries before it. */
  lemma PushLater(b: World, d: nat)
    requires FlaggedInside(b) && Reached(b) + d < |b.subscribers|
    ensures b.poller.At? && Reached(Do(false, b, Push)) == Reached(b) && Ready(Do(false, b, Push))
    ensures Do(false, After(b, d), Push) == After(Do(false, b, Push), d)
  {
    var p, k := Do(false, b, Push), Reached(b);
    assert p.subscribers[k..k + d] == b.subscribers[k..k + d];
  }

  lemma CloseAfter(p: World, m: nat)
    requires Ready(p) && Reached(p) + m == |p.subscribers|
    ensures Leads(false, p, Deliveries(m) + ([Clear] + [PollUnlock]), Closed(false, Through(p)))
  {
    CloseLeads(false, Through(p));
    DeliverThen(false, p, m, [Clear] + [PollUnlock], Closed(false, Through(p)));
  }

  lemma EarlyEndLeads(b: World, d: nat, m: nat)
    requires FlaggedInside(b) && Reached(b) + d < |b.subscribers|
    requires Reached(b) + d + m == |Do(false, b, Push).subscribers|
    ensures b.poller.At?
    ensures Leads(false, b, Deliveries(d) + ([Push] + (Deliveries(m) + ([Clear] + [PollUnlock]))), EarlyEnd(b))
  {
    var p, t := Do(false, b, Push), EarlyEnd(b);
    PushLater(b, d);
    AfterTwice(p, d, m);
    CloseAfter(After(p, d), m);
    LeadsFirst(false, After(b, d), Push, Deliveries(m) + ([Clear] + [PollUnlock]), t);
    DeliverThen(false, b, d, [Push] + (Deliveries(m) + ([Clear] + [PollUnlock])), t);
  }

  lemma SubscribeTailLeads(b: World, d: nat, late: bool, run: seq<Action>, t: World)
    requires FlaggedInside(b) && Reached(b) + d <= |b.subscribers|
    requires run == SubscribeTail(b, d, late) && t == SubscribeEnd(b, d, late)
    ensures Leads(false, b, run, t)
  {
    var m := |b.subscribers| - Reached(b);
    if late {
      assert run == Deliveries(m) + ([Clear] + ([Push] + [PollUnlock])) && t == LateEnd(b);
      LateEndLeads(b, m);
    } else if d == m {
      assert run == Deliveries(m) + ([Push] + ([Clear] + [PollUnlock])) && t == AtEndEnd(b);
      AtEndLeads(b, m);
    } else {
      var l := |Do(false, b, Push).subscribers| - Reached(b) - d;
      assert run == Deliveries(d) + ([Push] + (Deliveries(l) + ([Clear] + [PollUnlock]))) && t == EarlyEnd(b);
      EarlyEndLeads(b, d, l);
    }
  }

  /** Whom the deliveries that are left serve. */
  lemma ThroughServes(w: World, x: Subscriber)
    requires Ready(w) && x !in w.delivered
    ensures x in Through(w).delivered <==> x in w.subscribers[Reached(w)..]
  {
    SliceToEnd(w.subscribers, Reached(w));
    GiveAt(w.delivered, w.subscribers[Reached(w)..], w.value, x);
  }

  /** Nobody is inside any more, x is listed, and the flag is down. */
  predicate Over(t: World, x: Subscriber) {
    t.poller == Asleep && t.client == Leaving && x in t.subscribers && !t.flag
  }

  /** When x is listed with the loop at its end, before or after the clear, it was served only if it
      was listed already and still ahead. */
  lemma EndServes(b: World, t: World)
    requires FlaggedInside(b) && (t == LateEnd(b) || t == AtEndEnd(b))
    ensures var x := b.client.x;
            && Over(t, x) && (x in t.delivered <==> x in b.subscribers[Reached(b)..])
            && t.dangling == b.dangling && (t.raced <==> b.raced || x !in b.subscribers)
  {
    ThroughServes(b, b.client.x);
  }

  /** When x is listed before that, it was served if it was new, or still ahead. */
  lemma EarlyEndServes(b: World)
    requires FlaggedInside(b) && b.poller.At?
    ensures var x, t := b.client.x, EarlyEnd(b);
            && Over(t, x) && (x in t.delivered <==> x in b.subscribers[Reached(b)..] || x !in b.subscribers)
            && t.dangling == b.dangling && t.raced == b.raced
  {
    var p, k, x := Do(false, b, Push), b.poller.k, b.client.x;
    ThroughServes(p, x);
    if x in b.subscribers {
      assert p.subscribers[k..] == b.subscribers[k..];
    } else {
      assert p.subscribers[k..] == b.subscribers[k..] + [x];
    }
  }

  lemma TailForgetsIff(b: World, d: nat, late: bool, t: World)
    requires FlaggedInside(b) && Reached(b) + d <= |b.subscribers| && t == SubscribeEnd(b, d, late)
    ensures var x, behind := b.client.x, late || Reached(b) + d == |b.subscribers|;
            && Over(t, x)
            && (x in t.delivered <==> x in b.subscribers[Reached(b)..] || (!behind && x !in b.subscribers))
            && t.dangling == b.dangling && (t.raced <==> b.raced || (behind && x !in b.subscribers))
  {
    if late || Reached(b) + d == |b.subscribers| {
      EndServes(b, t);
    } else {
      EarlyEndServes(b);
    }
  }

  /** subscribe holds what passes for a lock, at the start of an update. */
  predicate SubscriberReady(w: World) {
    w.poller == Place(w.subscribers, 0) && w.client.Locked?
  }

  /** The flag store after i deliveries. */
  function FlaggedAfter(w: World, i: nat): (b: World)
    requires SubscriberReady(w) && i <= |w.subscribers|
    ensures FlaggedInside(b) && Reached(b) == i && b.client.x == w.client.x && b.subscribers == w.subscribers
    ensures b.raced <==> w.raced || w.client.x in w.subscribers[..i]
    ensures b.dangling == w.dangling
  {
    Do(false, After(w, i), SetFlag)
  }

  /** Without exclusion, of all the places where the flag store of one subscribe can fall inside an
      update (after i deliveries) and its listing behind that (after j, or late, after the clear),
      exactly these forget the subscriber: it is listed already and the update has passed it when
      the flag is stored; or it is new and listed when the loop is at its end or later. The run is
      disorderly in just these cases. */
  lemma {:induction false} OverlapForgetsIff(w: World, x: Subscriber, i: nat, j: nat, late: bool, t: World)
    requires SubscriberReady(w) && w.client.x == x && i <= j <= |w.subscribers|
    requires NoDuplicates(w.subscribers) && Orderly(w) && t == SubscribeEnd(FlaggedAfter(w, i), j - i, late)
    ensures Leads(false, w, Deliveries(i) + ([SetFlag] + SubscribeTail(FlaggedAfter(w, i), j - i, late)), t)
    ensures Over(t, x)
    ensures x !in t.delivered <==>
            x in w.subscribers[..i] || ((late || j == |w.subscribers|) && x !in w.subscribers)
    ensures !Orderly(t) <==> x !in t.delivered
  {
    var b := FlaggedAfter(w, i);
    var tail := SubscribeTail(b, j - i, late);
    SubscribeTailLeads(b, j - i, late, tail, t);
    LeadsFirst(false, After(w, i), SetFlag, tail, t);
    DeliverThen(false, w, i, [SetFlag] + tail, t);
    TailForgetsIff(b, j - i, late, t);
    SplitAt(w.subscribers, i, x);
  }

  /** The flag store before the lock: forgotten exactly if the subscriber is new and listed when
      the loop is at its end or later. */
  lemma {:induction false} FlagBeforeLockForgetsIff(w: World, x: Subscriber, j: nat, late: bool)
    requires w.poller == SawFlag && w.client == Flagged(x) && x !in w.delivered && j <= |w.subscribers|
    requires NoDuplicates(w.subscribers) && !w.dangling
    ensures var b := Do(false, w, PollLock);
            var t := SubscribeEnd(b, j, late);
            && Leads(false, w, [PollLock] + SubscribeTail(b, j, late), t) && Over(t, x)
            && (x !in t.delivered <==> (late || j == |w.subscribers|) && x !in w.subscribers)
            && (!Orderly(t) <==> x !in t.delivered)
  {
    var b := Do(false, w, PollLock);
    var run, t := SubscribeTail(b, j, late), SubscribeEnd(b, j, late);
    SubscribeTailLeads(b, j, late, run, t);
    LeadsFirst(false, w, PollLock, run, t);
    TailForgetsIff(b, j, late, t);
    assert b.subscribers[0..] == w.subscribers;
  }

  /** A new subscriber flagged while the last one listed has been served and the step is to come. */
  predicate OnLastStep(w: World) {
    w.poller.Served? && w.poller.k + 1 == |w.subscribers| && HalfSubscribed(w) && w.client.x !in w.delivered
  }

  function SteppedToNew(w: World): (a: World)
    requires OnLastStep(w)
    ensures Ready(a) && Reached(a) + 1 == |a.subscribers| && a.subscribers == w.subscribers + [w.client.x]
    ensures a.client == Leaving && a.delivered == w.delivered && a.raced == w.raced && a.dangling == w.dangling
  {
    Do(false, Do(false, w, Push), Advance)
  }

  lemma SteppedToNewLeads(w: World, t: World)
    requires OnLastStep(w) && t == Closed(false, Through(SteppedToNew(w)))
    ensures Leads(false, w, [Push] + ([Advance] + (Deliveries(1) + ([Clear] + [PollUnlock]))), t)
  {
    var rest := Deliveries(1) + ([Clear] + [PollUnlock]);
    CloseAfter(SteppedToNew(w), 1);
    LeadsFirst(false, Do(false, w, Push), Advance, rest, t);
    LeadsFirst(false, w, Push, [Advance] + rest, t);
  }

  /** The one listing that does not commute with the step of the loop: between the last delivery and
      its step a new subscriber is still in time. */
  lemma ListedBeforeLastStepIsServed(w: World, t: World)
    requires OnLastStep(w) && Orderly(w) && t == Closed(false, Through(SteppedToNew(w)))
    ensures Leads(false, w, [Push] + ([Advance] + (Deliveries(1) + ([Clear] + [PollUnlock]))), t)
    ensures Over(t, w.client.x) && w.client.x in t.delivered && Orderly(t)
  {
    var a, x := SteppedToNew(w), w.client.x;
    SteppedToNewLeads(w, t);
    ThroughServes(a, x);
    assert a.subscribers[|a.subscribers| - 1] == x;
  }

  /** The flag store after the clear: the flag stays up, and the next update serves everyone. */
  lemma {:induction false} FlagAfterClearKeeps(w: World, x: Subscriber, locked: bool)
    requires w.poller == AtEnd && w.client == Locked(x) && Orderly(w)
    ensures var run := if locked then [Push] + [PollUnlock] else [PollUnlock] + [Push];
            exists t :: Leads(false, w, [Clear] + ([SetFlag] + run), t)
              && t.poller == Asleep && t.client == Leaving && x in t.subscribers && t.flag && Orderly(t)
  {
    var a, b := if locked then Push else PollUnlock, if locked then PollUnlock else Push;
    FourLead(false, w, Clear, SetFlag, a, b);
  }

  lemma SplitAt(xs: seq<Subscriber>, i: nat, x: Subscriber)
    requires i <= |xs| && NoDuplicates(xs)
    ensures x in xs <==> x in xs[..i] || x in xs[i..]
    ensures !(x in xs[..i] && x in xs[i..])
  {
    assert xs == xs[..i] + xs[i..];
  }

  // ---------- ... and a run that does, from the start ----------

  /** subscribe(x) has set the flag inside an update that had nobody to serve. */
  function Inside(v: real, x: Subscriber): World {
    World(v, true, [], map[], 1, Outside, AtEnd, Flagged(x), false, false, false)
  }

  lemma GetInside(v: real, x: Subscriber)
    ensures Leads(false, New(v, true), [CheckFlag] + ([PollLock] + ([LockSubscribe(x)] + [SetFlag])), Inside(v, x))
  {
    var none: map<Subscriber, real> := map[];
    assert none - {x} == none;
    FourLead(false, New(v, true), CheckFlag, PollLock, LockSubscribe(x), SetFlag);
  }

  /** Everybody has left, the flag is down, and x is listed without ever having been served. */
  function Forgotten(v: real, x: Subscriber): World {
    World(v, false, [x], map[], 1, Outside, Asleep, Away, false, true, false)
  }

  lemma GetForgotten(v: real, x: Subscriber)
    ensures Leads(false, Inside(v, x), [Clear] + ([PollUnlock] + ([Push] + [ClientUnlock])), Forgotten(v, x))
  {
    assert [] + [x] == [x];
    FourLead(false, Inside(v, x), Clear, PollUnlock, Push, ClientUnlock);
  }

  /** In the Linux build, where the lock does not exclude, an update can clear the flag between
      subscribe's two stores: at the end nobody is inside any operation, the flag is down, and
      the listed subscriber has never been served. */
  lemma {:induction false} EmptyLockForgetsSubscriber(v: real, x: Subscriber)
    ensures exists run, w ::
              && Leads(false, New(v, true), run, w)
              && LockFree(w) && w.writer == Outside && w.poller == Asleep
              && !w.flag && w.subscribers == [x] && x !in w.delivered
  {
    GetInside(v, x);
    GetForgotten(v, x);
    LeadsAppend(false, New(v, true), [CheckFlag] + ([PollLock] + ([LockSubscribe(x)] + [SetFlag])), Inside(v, x),
                [Clear] + ([PollUnlock] + ([Push] + [ClientUnlock])), Forgotten(v, x));
  }
}
