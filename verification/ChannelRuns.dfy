/**
 Runs of a driver-backed ReadWriteInt under polls alone: exactly which reading the subscribers
 hold after each. And the deadband of the double channels: how far it can drift, and how often
 it announces.
 */
module ChannelRuns {
  import opened Wrappers
  import opened Channels

  const READ_WRITE_INT := Kind(IntData, ReadWrite)

  // ---------- driver-backed ReadWriteInt ----------

  /** One poll; None is a failed read. */
  function PollInt(s: State, r: Option<int>): State {
    Polled(READ_WRITE_INT, s, false, true,
           match r case None => Reading(false, IntValue(0)) case Some(v) => Reading(true, IntValue(v)))
  }

  function AfterPolls(s: State, rs: seq<Option<int>>): State
    decreases |rs|
  {
    if rs == [] then s else PollInt(AfterPolls(s, rs[..|rs| - 1]), rs[|rs| - 1])
  }

  /** The constructor's 0 followed by the successful readings. */
  function Readings(rs: seq<Option<int>>): (q: seq<int>)
    ensures q != []
    decreases |rs|
  {
    if rs == [] then [0]
    else Readings(rs[..|rs| - 1]) + match rs[|rs| - 1] case None => [] case Some(v) => [v]
  }

  /** The subscribers are behind after the readings q: the last one returns to the value before
      the previous one while they were up to date, or it repeats while they were behind. */
  predicate Behind(q: seq<int>)
    decreases |q|
  {
    |q| >= 3 &&
    var a, b, c := q[|q| - 3], q[|q| - 2], q[|q| - 1];
    || (c == a && c != b && !Behind(q[..|q| - 1]))
    || (c == b && Behind(q[..|q| - 1]))
  }

  /** The reading the subscribers hold after q. */
  function Held(q: seq<int>): int
    requires q != []
    decreases |q|
  {
    if Behind(q) then Held(q[..|q| - 1]) else q[|q| - 1]
  }

  predicate NewChannel(s: State) {
    s.value == s.oldValue == IntValue(0) && s.changed && s.subscribers != []
  }

  ghost predicate Tracks(s: State, q: seq<int>)
    requires q != []
  {
    var n := |q|;
    && s.subscribers != []
    && s.value == IntValue(q[n - 1])
    && s.oldValue == IntValue(if Behind(q) || n == 1 then q[n - 1] else q[n - 2])
    && (Behind(q) ==> Held(q) != q[n - 1])
  }

  lemma TracksPoll(s: State, q: seq<int>, r: Option<int>)
    requires q != [] && Tracks(s, q) && (s.changed || AllHold(s, IntValue(Held(q))))
    requires s.changed ==> |q| == 1
    ensures var q' := q + match r case None => [] case Some(v) => [v];
            var s' := PollInt(s, r);
            Tracks(s', q') && !s'.changed && AllHold(s', IntValue(Held(q')))
  {
    var q' := q + match r case None => [] case Some(v) => [v];
    if r.Some? {
      assert q'[..|q'| - 1] == q;
    } else {
      assert q' == q;
    }
  }

  lemma {:induction false} PollsTrack(s: State, rs: seq<Option<int>>)
    requires NewChannel(s)
    ensures var q, t := Readings(rs), AfterPolls(s, rs);
            Tracks(t, q) && (if rs == [] then t == s else !t.changed && AllHold(t, IntValue(Held(q))))
    decreases |rs|
  {
    if rs != [] {
      var front := rs[..|rs| - 1];
      PollsTrack(s, front);
      TracksPoll(AfterPolls(s, front), Readings(front), rs[|rs| - 1]);
    }
  }

  /** After every poll, exactly: what the subscribers hold, and when that is not the last
      successful reading. */
  lemma SubscribersAfterPoll(s: State, rs: seq<Option<int>>)
    requires NewChannel(s) && rs != []
    ensures var q, t := Readings(rs), AfterPolls(s, rs);
            && t.value == IntValue(q[|q| - 1])
            && AllHold(t, IntValue(Held(q)))
            && (Coherent(t) <==> !Behind(q))
  {
    PollsTrack(s, rs);
    var t := AfterPolls(s, rs);
    assert t.subscribers[0] in t.subscribers;
  }

  /** Three readings in a row A, B, A. */
  predicate Returns(q: seq<int>) {
    exists i | 0 <= i < |q| - 2 :: ReturnAt(q, i)
  }

  predicate ReturnAt(q: seq<int>, i: nat)
    requires i + 2 < |q|
  {
    q[i] == q[i + 2] && q[i] != q[i + 1]
  }

  lemma {:induction false} BehindNeedsReturn(q: seq<int>)
    requires !Returns(q)
    ensures !Behind(q)
    decreases |q|
  {
    if |q| >= 3 {
      var front := q[..|q| - 1];
      forall i | 0 <= i < |front| - 2
        ensures !ReturnAt(front, i)
      {
        assert !ReturnAt(q, i);
      }
      BehindNeedsReturn(front);
      assert !ReturnAt(q, |q| - 3);
    }
  }

  ghost predicate AlwaysCoherent(s: State, rs: seq<Option<int>>) {
    forall k | 1 <= k <= |rs| :: CoherentAt(s, rs, k)
  }

  ghost predicate CoherentAt(s: State, rs: seq<Option<int>>, k: nat)
    requires k <= |rs|
  {
    Coherent(AfterPolls(s, rs[..k]))
  }

  lemma ReturnsMore(p: seq<int>, c: int)
    ensures Returns(p + [c]) <==> Returns(p) || (|p| >= 2 && ReturnAt(p + [c], |p| - 2))
  {
    var q := p + [c];
    assert forall i | 0 <= i < |p| - 2 :: ReturnAt(p, i) <==> ReturnAt(q, i);
    if Returns(q) {
      var i :| 0 <= i < |q| - 2 && ReturnAt(q, i);
    }
  }

  lemma CoherentMore(s: State, rs: seq<Option<int>>)
    requires rs != []
    ensures AlwaysCoherent(s, rs) <==> AlwaysCoherent(s, rs[..|rs| - 1]) && Coherent(AfterPolls(s, rs))
  {
    var front := rs[..|rs| - 1];
    assert rs[..|rs|] == rs;
    forall k: nat | 1 <= k <= |front|
      ensures CoherentAt(s, rs, k) <==> CoherentAt(s, front, k)
    {
      assert rs[..k] == front[..k];
    }
    assert CoherentAt(s, rs, |rs|) <==> Coherent(AfterPolls(s, rs));
  }

  /** The subscribers see every reading after every poll if and only if no three consecutive
      readings, the constructor's 0 included, are A, B, A. */
  lemma {:induction false} CoherentIffNoReturn(s: State, rs: seq<Option<int>>)
    requires NewChannel(s)
    ensures AlwaysCoherent(s, rs) <==> !Returns(Readings(rs))
    decreases |rs|
  {
    if rs != [] {
      var front, last := rs[..|rs| - 1], rs[|rs| - 1];
      var p := Readings(front);
      CoherentIffNoReturn(s, front);
      CoherentMore(s, rs);
      SubscribersAfterPoll(s, rs);
      if !Returns(p) {
        BehindNeedsReturn(p);
      }
      if last.Some? {
        ReturnsMore(p, last.value);
        assert (p + [last.value])[..|p|] == p;
        assert Readings(rs) == p + [last.value];
      } else {
        assert Readings(rs) == p;
      }
    }
  }

  lemma ReadingsMore(rs: seq<Option<int>>, c: int)
    ensures Readings(rs + [Some(c)]) == Readings(rs) + [c]
  {
    assert (rs + [Some(c)])[..|rs|] == rs;
  }

  lemma {:induction false} BehindMore(q: seq<int>, c: int)
    requires |q| >= 2
    ensures var a, b := q[|q| - 2], q[|q| - 1];
            Behind(q + [c]) <==> (c == a && c != b && !Behind(q)) || (c == b && Behind(q))
  {
    var r := q + [c];
    assert r[..|r| - 1] == q && r[|r| - 3] == q[|q| - 2] && r[|r| - 2] == q[|q| - 1];
  }

  lemma {:induction false} BehindStep(q: seq<int>, c: int)
    requires Behind(q)
    ensures Behind(q + [c]) <==> c == q[|q| - 1]
  {
    BehindMore(q, c);
  }

  lemma BehindRepeats(rs: seq<Option<int>>, v: int)
    requires var q := Readings(rs); Behind(q) && q[|q| - 1] == v
    ensures var q := Readings(rs + [Some(v)]); Behind(q) && q[|q| - 1] == v
  {
    ReadingsMore(rs, v);
    BehindStep(Readings(rs), v);
  }

  /** More polls, all of them successful. */
  function Then(rs: seq<Option<int>>, xs: seq<int>): seq<Option<int>>
    decreases |xs|
  {
    if xs == [] then rs else Then(rs, xs[..|xs| - 1]) + [Some(xs[|xs| - 1])]
  }

  lemma {:induction false} StillBehind(rs: seq<Option<int>>, same: seq<int>, v: int)
    requires Behind(Readings(rs)) && v == Readings(rs)[|Readings(rs)| - 1]
    requires forall i | 0 <= i < |same| :: same[i] == v
    ensures var q := Readings(Then(rs, same)); Behind(q) && q[|q| - 1] == v
    decreases |same|
  {
    if same != [] {
      var front := same[..|same| - 1];
      StillBehind(rs, front, v);
      BehindRepeats(Then(rs, front), v);
    }
  }

  /** Once behind, the subscribers stay behind exactly until a reading differs from the last. */
  lemma {:induction false} BehindUntilNextChange(s: State, rs: seq<Option<int>>, same: seq<int>, v: int, c: int)
    requires NewChannel(s) && rs != [] && !Coherent(AfterPolls(s, rs)) && v == Readings(rs)[|Readings(rs)| - 1]
    requires forall i | 0 <= i < |same| :: same[i] == v
    ensures Coherent(AfterPolls(s, Then(rs, same) + [Some(c)])) <==> c != v
  {
    SubscribersAfterPoll(s, rs);
    StillBehind(rs, same, v);
    ReadingsMore(Then(rs, same), c);
    BehindStep(Readings(Then(rs, same)), c);
    SubscribersAfterPoll(s, Then(rs, same) + [Some(c)]);
  }

  // ---------- the deadband ----------

  /** A successful driver read of ReadOnlyDouble, or an accepted write of ReadWriteDouble. */
  function Take(write: bool, bound: bool, s: State, x: real): State {
    if write then ReadWriteDoubleSet(s, bound, DoubleValue(x), true)
    else ReadOnlyDoubleGet(s, true, Reading(true, DoubleValue(x)))
  }

  function TakeAndPoll(write: bool, bound: bool, s: State, x: real): State {
    Delivered(Take(write, bound, s, x))
  }

  function Samples(write: bool, bound: bool, s: State, xs: seq<real>): State
    decreases |xs|
  {
    if xs == [] then s else Samples(write, bound, TakeAndPoll(write, bound, s, xs[0]), xs[1..])
  }

  /** How many of the samples replace the stored value. */
  function TakenOver(write: bool, bound: bool, s: State, xs: seq<real>): nat
    decreases |xs|
  {
    if xs == [] then 0
    else (if Take(write, bound, s, xs[0]).value != s.value then 1 else 0)
         + TakenOver(write, bound, TakeAndPoll(write, bound, s, xs[0]), xs[1..])
  }

  /** How many of the samples are followed by a delivery. */
  function Announced(write: bool, bound: bool, s: State, xs: seq<real>): nat
    decreases |xs|
  {
    if xs == [] then 0
    else (if Take(write, bound, s, xs[0]).changed then 1 else 0)
         + Announced(write, bound, TakeAndPoll(write, bound, s, xs[0]), xs[1..])
  }

  function Variation(from: real, xs: seq<real>): real
    decreases |xs|
  {
    if xs == [] then 0.0 else Abs(xs[0] - from) + Variation(xs[0], xs[1..])
  }

  predicate IsSample(v: Value, xs: seq<real>) {
    exists i | 0 <= i < |xs| :: v == DoubleValue(xs[i])
  }

  /** No drift, from any state: after any samples the stored value, the first one or one of the
      samples, is within the accuracy of the latest one; and every subscriber holds it, unless
      the samples started with an unflagged channel whose subscribers were already behind. */
  lemma {:induction false} NoDrift(write: bool, bound: bool, s: State, xs: seq<real>)
    requires s.value.DoubleValue? && xs != []
    ensures var t := Samples(write, bound, s, xs);
            && t.value.DoubleValue? && !t.changed
            && Abs(AsReal(t.value) - xs[|xs| - 1]) < ACCURACY
            && (s.changed || Coherent(s) ==> Coherent(t))
            && (t.value == s.value || IsSample(t.value, xs))
    decreases |xs|
  {
    var t := TakeAndPoll(write, bound, s, xs[0]);
    UpdateAnnounces(Take(write, bound, s, xs[0]));
    assert t.value == s.value || t.value == DoubleValue(xs[0]);
    if |xs| > 1 {
      NoDrift(write, bound, t, xs[1..]);
      if IsSample(Samples(write, bound, s, xs).value, xs[1..]) {
        var i :| 0 <= i < |xs[1..]| && Samples(write, bound, s, xs).value == DoubleValue(xs[1..][i]);
        assert xs[i + 1] == xs[1..][i];
      }
    } else {
      assert Samples(write, bound, t, xs[1..]) == t;
    }
  }

  /** Each sample taken over costs at least the accuracy in total variation, counted from the
      stored value; and apart from a flag that was up at the start, nothing else is announced. */
  lemma {:induction false} AnnouncementsBounded(write: bool, bound: bool, s: State, xs: seq<real>)
    requires s.value.DoubleValue?
    ensures TakenOver(write, bound, s, xs) as real * ACCURACY <= Variation(AsReal(s.value), xs)
    ensures Announced(write, bound, s, xs) <= TakenOver(write, bound, s, xs) + (if s.changed then 1 else 0)
    ensures !s.changed ==> Announced(write, bound, s, xs) == TakenOver(write, bound, s, xs)
    decreases |xs|
  {
    if xs != [] {
      var t := TakeAndPoll(write, bound, s, xs[0]);
      AnnouncementsBounded(write, bound, t, xs[1..]);
    }
  }

  /** In particular from construction on, for both kinds. */
  lemma DeadbandFromConstruction(write: bool, bound: bool, v: real, xs: seq<real>)
    ensures var s := Initial(Kind(DoubleData, if write then ReadWrite else ReadOnly), DoubleValue(v));
            && TakenOver(write, bound, s, xs) as real * ACCURACY <= Variation(v, xs)
            && (xs != [] ==> Abs(AsReal(Samples(write, bound, s, xs).value) - xs[|xs| - 1]) < ACCURACY)
  {
    var s := Initial(Kind(DoubleData, if write then ReadWrite else ReadOnly), DoubleValue(v));
    AnnouncementsBounded(write, bound, s, xs);
    if xs != [] {
      NoDrift(write, bound, s, xs);
    }
  }
}
