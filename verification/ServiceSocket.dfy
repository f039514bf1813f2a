/**
 IckStormServiceSocket and IckStormDebuggerSocket: the client's send queue and the two receive
 loops, with sends and receives as arbitrary outcomes.
 */
module ServiceSocket {
  import opened Wrappers
  import opened Text
  import opened Tokenizer
  import opened Wire
  import opened ReceiveLoop

  // ---------- the client side ----------

  class Client {
    var serviceToRun: seq<Request>
    var lastHeartBeatTime: int
    var locked: bool               // m_mutex after the last handler returned
    ghost var added: seq<Request>  // every request ever given to addService
    ghost var sent: seq<Item>      // everything the socket has taken
    ghost var wire: string         // ... as text

    /** Nothing is lost, duplicated or reordered between addService and the wire, and the text on
        the wire is that of the items sent. */
    ghost predicate Valid()
      reads this
    {
      added == Requests(sent) + serviceToRun && wire == Stream(sent)
    }

    constructor (now: int)
      ensures Valid() && !locked && added == [] && sent == []
    {
      serviceToRun, lastHeartBeatTime, locked := [], now, false;
      added, sent, wire := [], [], "";
    }

    /** addService; it would wait for ever on a mutex that was never released. */
    method AddService(objectName: string, serviceName: string, param: string)
      requires Valid() && !locked
      modifies this`serviceToRun, this`added
      ensures Valid()
      ensures serviceToRun == old(serviceToRun) + [Request(objectName, serviceName, param)]
      ensures added == old(added) + [Request(objectName, serviceName, param)]
    {
      serviceToRun := serviceToRun + [Request(objectName, serviceName, param)];
      added := added + [Request(objectName, serviceName, param)];
    }

    /** A successful send and the erase that follows it. */
    method SendFront()
      requires Valid() && serviceToRun != []
      modifies this`serviceToRun, this`sent, this`wire
      ensures Valid()
      ensures serviceToRun == old(serviceToRun)[1..] && sent == old(sent) + [Run(old(serviceToRun)[0])]
    {
      var it := serviceToRun[0];
      var str := "RunService:" + it.objectName + ":" + it.serviceName + ":" + it.param + ";";
      BodyText(it);
      StreamSnoc(sent, Run(it));
      RequestsSnoc(sent, Run(it));
      sent, wire := sent + [Run(it)], wire + str;
      serviceToRun := serviceToRun[1..];
    }

    /** A successful heart beat. */
    method SendBeat()
      requires Valid()
      modifies this`sent, this`wire
      ensures Valid() && sent == old(sent) + [Beat]
    {
      var str := "HeartBeat;";
      StreamSnoc(sent, Beat);
      RequestsSnoc(sent, Beat);
      sent, wire := sent + [Beat], wire + str;
    }

    /** The send loop; outcomes[i] says whether its i-th send succeeds. It stops at the first
        failure, keeping the request that failed at the head of the queue. */
    method SendAll(outcomes: seq<bool>) returns (ok: bool)
      requires Valid() && |outcomes| == |serviceToRun|
      modifies this`serviceToRun, this`sent, this`wire
      ensures Valid()
      ensures var k := Successes(outcomes);
              && serviceToRun == old(serviceToRun)[k..]
              && sent == old(sent) + Items(old(serviceToRun)[..k])
              && (ok <==> k == |outcomes|)
    {
      ghost var queue, before := serviceToRun, sent;
      assert queue[0..] == queue && before + Items(queue[..0]) == before;
      var i := 0;
      while |serviceToRun| > 0
        invariant 0 <= i <= |queue| && serviceToRun == queue[i..]
        invariant sent == before + Items(queue[..i])
        invariant Successes(outcomes) == i + Successes(outcomes[i..])
        invariant Valid()
        decreases |serviceToRun|
      {
        SuccessesFrom(outcomes, i);
        if !outcomes[i] {
          return false;
        }
        SentMore(before, queue, i);
        SendFront();
        i := i + 1;
      }
      assert outcomes[i..] == [];
      return true;
    }

    /** The client branch of socketConnectHandler: the queue, then a heart beat if the last one
        is over a minute ago. After a failed send it returns with the mutex still locked. */
    method SendQueue(now: int, outcomes: seq<bool>, beatOutcome: bool) returns (ok: bool)
      requires Valid() && !locked && |outcomes| == |serviceToRun|
      modifies this`serviceToRun, this`sent, this`wire, this`locked, this`lastHeartBeatTime
      ensures Valid()
      ensures locked <==> !ok
      ensures var k := Successes(outcomes);
              var due := k == |outcomes| && now - old(lastHeartBeatTime) > 60;
              && serviceToRun == old(serviceToRun)[k..]
              && sent == old(sent) + Items(old(serviceToRun)[..k]) + (if due && beatOutcome then [Beat] else [])
              && (ok <==> k == |outcomes| && (due ==> beatOutcome))
              && lastHeartBeatTime == if due && beatOutcome then now else old(lastHeartBeatTime)
    {
      locked := true;
      if |serviceToRun| > 0 {
        var all := SendAll(outcomes);
        if !all {
          return false;
        }
      }
      if now - lastHeartBeatTime > 60 {
        if !beatOutcome {
          return false;
        }
        SendBeat();
        lastHeartBeatTime := now;
      }
      locked := false;
      return true;
    }
  }

  lemma {:induction false} StreamSnoc(a: seq<Item>, item: Item)
    ensures Stream(a + [item]) == Stream(a) + (Body(item) + ";")
    decreases |a|
  {
    if a == [] {
      assert a + [item] == [item] && [item][1..] == [];
      assert Stream([]) == "" && Body(item) + ";" + "" == Body(item) + ";" == "" + (Body(item) + ";");
    } else {
      StreamSnoc(a[1..], item);
      assert (a + [item])[1..] == a[1..] + [item];
      Regroup(Body(a[0]) + ";", Stream(a[1..]), Body(item) + ";");
    }
  }

  function Items(rs: seq<Request>): (r: seq<Item>)
    ensures |r| == |rs|
  {
    if rs == [] then [] else [Run(rs[0])] + Items(rs[1..])
  }

  lemma {:induction false} ItemsSnoc(rs: seq<Request>, r: Request)
    ensures Items(rs + [r]) == Items(rs) + [Run(r)]
    decreases |rs|
  {
    if rs == [] {
      assert ([r])[1..] == [] && [] + [r] == [r];
      assert Items([]) == [];
    } else {
      ItemsSnoc(rs[1..], r);
      assert (rs + [r])[1..] == rs[1..] + [r];
    }
  }

  lemma SentMore(before: seq<Item>, queue: seq<Request>, i: nat)
    requires i < |queue|
    ensures before + Items(queue[..i + 1]) == before + Items(queue[..i]) + [Run(queue[i])]
    ensures queue[i..][0] == queue[i] && queue[i..][1..] == queue[i + 1..]
  {
    ItemsSnoc(queue[..i], queue[i]);
    assert queue[..i + 1] == queue[..i] + [queue[i]];
  }

  lemma {:induction false} RequestsSnoc(a: seq<Item>, item: Item)
    ensures Requests(a + [item]) == Requests(a) + (match item case Run(r) => [r] case Beat => [])
    decreases |a|
  {
    var one := match item case Run(r) => [r] case Beat => [];
    if a == [] {
      assert a + [item] == [item] && [item][1..] == [];
      assert Requests([]) + one == one + Requests([]) == one;
    } else {
      var first := match a[0] case Run(r) => [r] case Beat => [];
      RequestsSnoc(a[1..], item);
      assert (a + [item])[1..] == a[1..] + [item];
      assert first + (Requests(a[1..]) + one) == first + Requests(a[1..]) + one;
    }
  }

  /** How many sends succeed before the first failure. */
  function Successes(outcomes: seq<bool>): (k: nat)
    ensures k <= |outcomes| && (forall i | 0 <= i < k :: outcomes[i])
    ensures k < |outcomes| ==> !outcomes[k]
  {
    if outcomes == [] || !outcomes[0] then 0 else 1 + Successes(outcomes[1..])
  }

  lemma SuccessesFrom(outcomes: seq<bool>, i: nat)
    requires i < |outcomes|
    ensures Successes(outcomes[i..]) == if outcomes[i] then 1 + Successes(outcomes[i + 1..]) else 0
  {
    assert outcomes[i..][1..] == outcomes[i + 1..];
  }

  // ---------- the buffer ----------

  /** recv into the buffer behind the carried text. */
  method StoreChunk(buff: array<char>, at: nat, chunk: string)
    requires at + |chunk| <= buff.Length
    modifies buff
    ensures buff[..] == Overlay(old(buff[..]), at, chunk)
  {
    var i := 0;
    while i < |chunk|
      invariant 0 <= i <= |chunk|
      invariant forall k | 0 <= k < buff.Length :: buff[k] == if at <= k < at + i then chunk[k - at] else old(buff[k])
    {
      buff[at + i] := chunk[i];
      i := i + 1;
    }
  }

  /** std::string(buff). */
  method ReadText(buff: array<char>) returns (s: string)
    ensures s == CString(buff[..])
  {
    s := "";
    var i := 0;
    while i < buff.Length && buff[i] != '\0'
      invariant 0 <= i <= buff.Length
      invariant s + CString(buff[i..]) == CString(buff[..])
    {
      assert buff[i..][1..] == buff[i + 1..];
      assert s + ([buff[i]] + CString(buff[i + 1..])) == s + [buff[i]] + CString(buff[i + 1..]);
      s := s + [buff[i]];
      i := i + 1;
    }
    assert s + "" == s;
  }

  /** memset, then memcpy of a text. */
  method ResetBuffer(buff: array<char>, text: string)
    requires buff.Length == SIZE && |text| <= SIZE
    modifies buff
    ensures buff[..] == Padded(text)
  {
    var i := 0;
    while i < buff.Length
      invariant 0 <= i <= buff.Length
      invariant forall k | 0 <= k < i :: buff[k] == '\0'
    {
      buff[i] := '\0';
      i := i + 1;
    }
    StoreChunk(buff, 0, text);
  }

  // ---------- the server's message loop ----------

  /** One acknowledgement per call, in the same order. */
  predicate Acked(acks: seq<string>, calls: seq<Request>) {
    |acks| == |calls| && forall i | 0 <= i < |calls| :: acks[i] == Ack(calls[i])
  }

  function Ack(r: Request): string {
    "RunService:Success:" + r.objectName + ":" + r.serviceName + ";"
  }

  /** Names that an acknowledgement can carry. */
  predicate PlainNames(r: Request) {
    Free(r.objectName, ':') && Free(r.serviceName, ':') && Free(r.objectName, ';') && Free(r.serviceName, ';')
  }

  /** A message that, cut at its colons, is the acknowledgement of this request. */
  predicate AckRecord(m: string, r: Request) {
    Cut(m, ':') == ["RunService", "Success", r.objectName, r.serviceName]
  }

  /** Text that, cut at its semicolons, is one complete acknowledgement for each request, in order. */
  predicate AckRecords(text: string, rs: seq<Request>) {
    var ms := Cut(text, ';');
    |ms| == |rs| + 1 && Last(ms) == "" && forall i | 0 <= i < |rs| :: AckRecord(ms[i], rs[i])
  }

  lemma AckIsJoin(r: Request, ps: seq<string>)
    requires ps == ["RunService", "Success", r.objectName, r.serviceName]
    ensures Ack(r) == Join(ps, ':') + ";"
  {
    assert ps[1..] == ["Success", r.objectName, r.serviceName] && ps[1..][1..] == [r.objectName, r.serviceName];
    assert ps[1..][1..][1..] == [r.serviceName];
    assert Join([r.objectName, r.serviceName], ':') == r.objectName + ":" + r.serviceName;
    assert Join(ps[1..], ':') == "Success:" + (r.objectName + ":" + r.serviceName);
    assert Join(ps, ':') == "RunService:" + ("Success:" + (r.objectName + ":" + r.serviceName));
  }

  lemma {:induction false} JoinFree(ps: seq<string>, sep: char, c: char)
    requires c != sep && forall i | 0 <= i < |ps| :: Free(ps[i], c)
    ensures Free(Join(ps, sep), c)
    decreases |ps|
  {
    if |ps| > 1 {
      JoinFree(ps[1..], sep, c);
    }
  }

  /** The acknowledgement of a request with plain names is one complete message, and reads
      RunService, Success, the object's name, the service's name. */
  lemma AckReads(r: Request)
    requires PlainNames(r)
    ensures exists m :: Cut(Ack(r), ';') == [m, ""] && AckRecord(m, r)
  {
    var ps := ["RunService", "Success", r.objectName, r.serviceName];
    var m := Join(ps, ':');
    AckIsJoin(r, ps);
    JoinFree(ps, ':', ';');
    assert Ack(r) == m + [';'] + "";
    CutFirst(m, ';', "");
    CutJoin(ps, ':');
    assert Cut(Ack(r), ';') == [m] + Cut("", ';') == [m, ""];
  }

  /** The acknowledgements of a conversation, one after another on the wire: one record for each
      request, in their order. */
  lemma {:induction false} AcksReassemble(acks: seq<string>, rs: seq<Request>)
    requires Acked(acks, rs) && forall i | 0 <= i < |rs| :: PlainNames(rs[i])
    ensures AckRecords(Joined(acks), rs)
    decreases |rs|
  {
    if rs != [] {
      var n := |rs| - 1;
      var text := Joined(acks[..n]);
      AcksReassemble(acks[..n], rs[..n]);
      AckReads(rs[n]);
      var m :| Cut(Ack(rs[n]), ';') == [m, ""] && AckRecord(m, rs[n]);
      CutAppend(text, Ack(rs[n]), ';');
      assert "" + Ack(rs[n]) == Ack(rs[n]);
      OneMoreRecord(Cut(text, ';'), Cut(Joined(acks), ';'), m, rs);
    }
  }

  lemma OneMoreRecord(before: seq<string>, ms: seq<string>, m: string, rs: seq<Request>)
    requires rs != [] && |before| == |rs| && ms == Front(before) + [m, ""] && AckRecord(m, rs[|rs| - 1])
    requires forall i | 0 <= i < |rs| - 1 :: AckRecord(before[i], rs[..|rs| - 1][i])
    ensures |ms| == |rs| + 1 && Last(ms) == "" && forall i | 0 <= i < |rs| :: AckRecord(ms[i], rs[i])
  {
    forall i | 0 <= i < |rs|
      ensures AckRecord(ms[i], rs[i])
    {
      if i < |rs| - 1 {
        assert ms[i] == before[i] && rs[..|rs| - 1][i] == rs[i];
      }
    }
  }

  lemma {:induction false} RequestsPlain(items: seq<Item>)
    requires Deliverable(items)
    ensures forall i | 0 <= i < |Requests(items)| :: PlainNames(Requests(items)[i])
    decreases |items|
  {
    if items != [] {
      assert DeliverableItem(items[0]);
      RequestsPlain(items[1..]);
    }
  }

  /** The body of the message loop, for one message: acknowledge and call, or neither; ok is
      false if the acknowledgement cannot be sent, and then there is no call. */
  method HandleMessage(message: string, sends: bool, calls: seq<Request>, acks: seq<string>)
    returns (ok: bool, calls': seq<Request>, acks': seq<string>)
    requires !AllSpaces(message) && Acked(acks, calls)
    ensures ok <==> sends || !Parse(message).Call?
    ensures calls' == (if ok then calls + Calls([message]) else calls) && Acked(acks', calls')
  {
    ok, calls', acks' := true, calls, acks;
    assert [message][1..] == [];
    var tmp := ConverterSplit(message, ':');
    var size := |tmp|;
    if size > 2 && tmp[0] == RUN_SERVICE {
      var objectName := tmp[1];
      var serviceName := tmp[2];
      var params := if size > 3 then tmp[3] else "";
      if !sends {
        ok := false;
        return;
      }
      acks' := acks' + ["RunService:Success:" + objectName + ":" + serviceName + ";"];
      calls' := calls' + [Request(objectName, serviceName, params)];
    } else if size > 0 && tmp[0] == HEART_BEAT {
      // heart beat
    } else {
      // data format error: only logged
    }
  }

  lemma CallsSnoc(calls: seq<Request>, datas: seq<string>, i: nat)
    requires i < |datas|
    ensures calls + Calls(datas[..i + 1]) == calls + Calls(datas[..i]) + Calls([datas[i]])
  {
    CallsAppend(datas[..i], [datas[i]]);
    assert datas[..i + 1] == datas[..i] + [datas[i]];
  }

  /** The end of a turn of the message loop. */
  method ResetCarry(buff: array<char>, strTmp: string, len: nat, tail: string) returns (strTmp': string)
    requires buff.Length == SIZE && |strTmp| <= CAPACITY && |tail| <= CAPACITY
    modifies buff
    ensures strTmp' == (if len == CAPACITY - |strTmp| then tail else "") && buff[..] == Padded(strTmp')
  {
    if len == CAPACITY - |strTmp| {
      strTmp' := tail;
    } else {
      strTmp' := "";
    }
    ResetBuffer(buff, strTmp');
  }

  /** The variables of the message loop after i turns. */
  ghost predicate TurnedTo(i: nat, strTmp: string, len: nat, datas: seq<string>,
                           before: seq<Request>, filled: seq<char>, strTmp': string, buffer: seq<char>,
                           calls: seq<Request>, acks: seq<string>)
    requires i <= |datas|
  {
    && |strTmp'| <= CAPACITY && strTmp' == CarryAfter(i, len, strTmp, LastOf(datas))
    && buffer == (if i == 0 then filled else Padded(strTmp'))
    && calls == before + Calls(datas[..i]) && Acked(acks, calls)
  }

  /** One turn of the message loop. */
  method MessageTurn(buff: array<char>, strTmp: string, len: nat, datas: seq<string>, i: nat, sends: bool,
                     calls: seq<Request>, acks: seq<string>,
                     ghost first: string, ghost before: seq<Request>, ghost filled: seq<char>)
    returns (ok: bool, strTmp': string, calls': seq<Request>, acks': seq<string>)
    requires buff.Length == SIZE && i < |datas| && Short(datas) && !AllSpaces(datas[i])
    requires TurnedTo(i, first, len, datas, before, filled, strTmp, buff[..], calls, acks)
    modifies buff
    ensures ok <==> sends || !Parse(datas[i]).Call?
    ensures TurnedTo(if ok then i + 1 else i, first, len, datas, before, filled, strTmp', buff[..], calls', acks')
  {
    strTmp' := strTmp;
    ok, calls', acks' := HandleMessage(datas[i], sends, calls, acks);
    if ok {
      strTmp' := ResetCarry(buff, strTmp, len, datas[|datas| - 1]);
      TurnedOnce(i, first, len, datas, before, filled, strTmp, calls, strTmp', buff[..], calls', acks');
    }
  }

  lemma TurnedOnce(i: nat, first: string, len: nat, datas: seq<string>, before: seq<Request>, filled: seq<char>,
                   carry: string, calls: seq<Request>,
                   carry': string, buffer': seq<char>, calls': seq<Request>, acks': seq<string>)
    requires i < |datas| && Short(datas) && |carry| <= CAPACITY
    requires carry == CarryAfter(i, len, first, LastOf(datas)) && calls == before + Calls(datas[..i])
    requires carry' == (if len == CAPACITY - |carry| then Last(datas) else "") && |carry'| <= CAPACITY
    requires buffer' == Padded(carry') && calls' == calls + Calls([datas[i]]) && Acked(acks', calls')
    ensures TurnedTo(i + 1, first, len, datas, before, filled, carry', buffer', calls', acks')
  {
    CallsSnoc(before, datas, i);
  }

  /** The number of turns the loop completes when the acknowledgement of the message at `fails`
      cannot be sent, should that message ask for one. */
  function Turns(messages: seq<string>, fails: Option<nat>): (n: nat)
    ensures n <= |messages|
    ensures n < |messages| ==> fails == Some(n) && Parse(messages[n]).Call?
    ensures fails.Some? && fails.value < |messages| && Parse(messages[fails.value]).Call? ==> n == fails.value
  {
    if fails.Some? && fails.value < |messages| && Parse(messages[fails.value]).Call? then fails.value else |messages|
  }

  /** The service socket's message loop: each turn handles one message and then resets the
      carry and the buffer, comparing len with the room the current carry would leave. A failed
      acknowledgement leaves the loop before the call and before the reset. */
  method MessageLoop(buff: array<char>, strTmp: string, len: nat, datas: seq<string>, dataSize: nat, fails: Option<nat>,
                     calls: seq<Request>, acks: seq<string>, ghost filled: seq<char>)
    returns (strTmp': string, calls': seq<Request>, acks': seq<string>)
    requires buff.Length == SIZE && buff[..] == filled
    requires |strTmp| <= CAPACITY && dataSize <= |datas| && Acked(acks, calls) && Short(datas)
    requires forall k | 0 <= k < |datas| :: !AllSpaces(datas[k])
    modifies buff
    ensures var d := Turns(datas[..dataSize], fails);
            && strTmp' == CarryAfter(d, len, strTmp, LastOf(datas)) && |strTmp'| <= CAPACITY
            && buff[..] == (if d == 0 then filled else Padded(strTmp'))
            && calls' == calls + Calls(datas[..d]) && Acked(acks', calls')
  {
    strTmp', calls', acks' := strTmp, calls, acks;
    ghost var messages := datas[..dataSize];
    ghost var d := Turns(messages, fails);
    var i := 0;
    while i < dataSize
      invariant 0 <= i <= d
      invariant TurnedTo(i, strTmp, len, datas, calls, filled, strTmp', buff[..], calls', acks')
    {
      assert messages[i] == datas[i];
      var ok;
      ok, strTmp', calls', acks' :=
        MessageTurn(buff, strTmp', len, datas, i, fails != Some(i), calls', acks', strTmp, calls, filled);
      if !ok {
        break;
      }
      i := i + 1;
    }
    assert i == d;
  }

  function LastOf(datas: seq<string>): string {
    if datas == [] then "" else datas[|datas| - 1]
  }

  // ---------- the receive loops ----------

  /** One receive of the service socket, and the first message of it, if any, whose
      acknowledgement cannot be sent. */
  datatype Receipt = Receipt(chunk: string, fails: Option<nat>)

  /** ... and what the service socket makes of it. */
  function Interrupted(st: Recv, r: Receipt): (t: Recv)
    requires Shaped(st) && |st.carry| + |r.chunk| <= CAPACITY
    ensures Shaped(t)
  {
    var datas := DataTokens(st, r.chunk);
    var d := MessageCount(|r.chunk| == CAPACITY - |st.carry|, datas);
    Turned(st, Overlay(st.buffer, |st.carry|, r.chunk), datas, |r.chunk|, Turns(datas[..d], r.fails))
  }

  function InterruptedAll(rs: seq<Receipt>): (t: Recv)
    ensures Shaped(t)
    decreases |rs|
  {
    if rs == [] then TidyIsShaped(EMPTY); EMPTY
    else
      var s, r := InterruptedAll(rs[..|rs| - 1]), rs[|rs| - 1];
      if |s.carry| + |r.chunk| <= CAPACITY then Interrupted(s, r) else s
  }

  /** A receive no longer than the room left, giving data that the tokenizer accepts. */
  predicate Acceptable(loop: Loop, st: Recv, chunk: string) {
    && Shaped(st) && |st.carry| + |chunk| <= CAPACITY
    && !AllSpaces(Data(st, chunk))
    && (loop == DebuggerLoop ==> Data(st, chunk) != "")
  }

  /** The receives a run of the service socket's loop can make. */
  predicate Servable(rs: seq<Receipt>) {
    forall i | 0 <= i < |rs| :: Acceptable(ServiceLoop, InterruptedAll(rs[..i]), rs[i].chunk)
  }

  /** The receives a run of the debugger socket's loop can make. */
  predicate Receivable(chunks: seq<string>) {
    TidyIsShaped(EMPTY);
    forall i | 0 <= i < |chunks| :: Acceptable(DebuggerLoop, ReceivedAll(DebuggerLoop, EMPTY, chunks[..i]), chunks[i])
  }

  /** The receive and the split at the top of both loops. */
  method ReceiveData(buff: array<char>, strTmp: string, chunk: string, ghost st: Recv) returns (datas: seq<string>)
    requires Shaped(st) && |st.carry| + |chunk| <= CAPACITY && !AllSpaces(Data(st, chunk))
    requires buff[..] == st.buffer && strTmp == st.carry
    modifies buff
    ensures buff[..] == Overlay(st.buffer, |st.carry|, chunk)
    ensures datas == DataTokens(st, chunk)
  {
    StoreChunk(buff, |strTmp|, chunk);
    var data := ReadText(buff);
    datas := ConverterSplit(data, ';');
  }

  /** One turn of the service socket's outer loop. */
  method ServiceReceive(buff: array<char>, strTmp: string, r: Receipt, calls: seq<Request>, acks: seq<string>,
                        ghost st: Recv)
    returns (strTmp': string, calls': seq<Request>, acks': seq<string>)
    requires Acceptable(ServiceLoop, st, r.chunk)
    requires buff[..] == st.buffer && strTmp == st.carry && calls == Calls(st.handled) && Acked(acks, calls)
    modifies buff
    ensures var t := Interrupted(st, r);
            buff[..] == t.buffer && strTmp' == t.carry && calls' == Calls(t.handled) && Acked(acks', calls')
  {
    var len := |r.chunk|;
    var datas := ReceiveData(buff, strTmp, r.chunk, st);
    var dataSize := if len == CAPACITY - |strTmp| then |datas| - 1 else |datas|;
    var count := if dataSize < 0 then 0 else dataSize;
    InterruptedIs(st, r, datas, count);
    strTmp', calls', acks' := MessageLoop(buff, strTmp, len, datas, count, r.fails, calls, acks, buff[..]);
  }

  lemma InterruptedIs(st: Recv, r: Receipt, datas: seq<string>, count: nat)
    requires Shaped(st) && |st.carry| + |r.chunk| <= CAPACITY && datas == DataTokens(st, r.chunk)
    requires count == MessageCount(|r.chunk| == CAPACITY - |st.carry|, datas)
    ensures var t, d := Interrupted(st, r), Turns(datas[..count], r.fails);
            && t.carry == CarryAfter(d, |r.chunk|, st.carry, LastOf(datas))
            && t.buffer == (if d == 0 then Overlay(st.buffer, |st.carry|, r.chunk) else Padded(t.carry))
            && Calls(t.handled) == Calls(st.handled) + Calls(datas[..d])
  {
    var d := Turns(datas[..count], r.fails);
    CallsAppend(st.handled, datas[..d]);
    assert st.handled + datas[..0] == st.handled;
  }

  /** The server branch of socketConnectHandler over any run of receives. */
  method ServeRequests(rs: seq<Receipt>) returns (calls: seq<Request>, acks: seq<string>)
    requires Servable(rs)
    ensures calls == Calls(InterruptedAll(rs).handled) && Acked(acks, calls)
  {
    var buff := new char[SIZE];
    ResetBuffer(buff, "");
    var strTmp := "";
    calls, acks := [], [];
    ghost var st := EMPTY;
    var i := 0;
    while i < |rs|
      invariant 0 <= i <= |rs| && st == InterruptedAll(rs[..i])
      invariant buff[..] == st.buffer && strTmp == st.carry && calls == Calls(st.handled) && Acked(acks, calls)
    {
      assert Acceptable(ServiceLoop, InterruptedAll(rs[..i]), rs[i].chunk);
      assert rs[..i + 1][..i] == rs[..i];
      strTmp, calls, acks := ServiceReceive(buff, strTmp, rs[i], calls, acks, st);
      st := Interrupted(st, rs[i]);
      i := i + 1;
    }
    assert rs[..i] == rs;
  }

  /** The debugger socket's message loop; what it does with a message has no effect here. */
  method HandleAll(handled: seq<string>, datas: seq<string>, dataSize: nat) returns (handled': seq<string>)
    requires dataSize <= |datas|
    ensures handled' == handled + datas[..dataSize]
  {
    handled' := handled;
    var i := 0;
    while i < dataSize
      invariant 0 <= i <= dataSize && handled' == handled + datas[..i]
    {
      handled' := handled' + [datas[i]];
      i := i + 1;
    }
  }

  /** One turn of the debugger socket's outer loop: the carry is set once, after the messages. */
  method DebuggerReceive(buff: array<char>, strTmp: string, chunk: string, handled: seq<string>, ghost st: Recv)
    returns (strTmp': string, handled': seq<string>)
    requires Acceptable(DebuggerLoop, st, chunk)
    requires buff[..] == st.buffer && strTmp == st.carry && handled == st.handled
    modifies buff
    ensures Recv(buff[..], strTmp', handled') == Received(DebuggerLoop, st, chunk)
  {
    var len := |chunk|;
    var datas := ReceiveData(buff, strTmp, chunk, st);
    TokensExist(Data(st, chunk));
    var dataSize := if len == CAPACITY - |strTmp| then |datas| - 1 else |datas|;
    handled' := HandleAll(handled, datas, dataSize);
    if len == CAPACITY - |strTmp| {
      strTmp' := datas[|datas| - 1];
      ResetBuffer(buff, strTmp');
    } else {
      strTmp' := "";
      ResetBuffer(buff, "");
    }
  }

  /** The debugger socket's handler over any run of receives. */
  method ServeDebugger(chunks: seq<string>) returns (handled: seq<string>)
    requires Receivable(chunks)
    ensures Shaped(EMPTY) && handled == ReceivedAll(DebuggerLoop, EMPTY, chunks).handled
  {
    var buff := new char[SIZE];
    ResetBuffer(buff, "");
    TidyIsShaped(EMPTY);
    var strTmp := "";
    handled := [];
    ghost var st := EMPTY;
    var i := 0;
    while i < |chunks|
      invariant 0 <= i <= |chunks| && st == ReceivedAll(DebuggerLoop, EMPTY, chunks[..i])
      invariant buff[..] == st.buffer && strTmp == st.carry && handled == st.handled
    {
      assert Acceptable(DebuggerLoop, ReceivedAll(DebuggerLoop, EMPTY, chunks[..i]), chunks[i]);
      assert chunks[..i + 1][..i] == chunks[..i];
      strTmp, handled := DebuggerReceive(buff, strTmp, chunks[i], handled, st);
      st := Received(DebuggerLoop, st, chunks[i]);
      i := i + 1;
    }
    assert chunks[..i] == chunks;
  }

  // ---------- acknowledgements ----------

  /** The receives of these chunks with every acknowledgement sent. */
  function AllSent(chunks: seq<string>): (rs: seq<Receipt>)
    ensures |rs| == |chunks| && forall i | 0 <= i < |rs| :: rs[i] == Receipt(chunks[i], None)
  {
    seq(|chunks|, i requires 0 <= i < |chunks| => Receipt(chunks[i], None))
  }

  /** Then the run is the plain one. */
  lemma {:induction false} AllSentIsPlain(chunks: seq<string>)
    ensures Shaped(EMPTY) && InterruptedAll(AllSent(chunks)) == ReceivedAll(ServiceLoop, EMPTY, chunks)
    decreases |chunks|
  {
    TidyIsShaped(EMPTY);
    if chunks != [] {
      var front := chunks[..|chunks| - 1];
      AllSentIsPlain(front);
      assert AllSent(chunks)[..|chunks| - 1] == AllSent(front);
    }
  }

  /** The turns that a receive completes. */
  function TurnsOf(st: Recv, r: Receipt): nat
    requires Shaped(st) && |st.carry| + |r.chunk| <= CAPACITY
  {
    var datas := DataTokens(st, r.chunk);
    Turns(datas[..MessageCount(|r.chunk| == CAPACITY - |st.carry|, datas)], r.fails)
  }

  /** The buffer holds the carry and, behind it, this rest of older text. */
  predicate LeftBehind(st: Recv, rest: string) {
    && |st.carry| + |rest| <= CAPACITY
    && st.buffer == st.carry + rest + Zeros(SIZE - |st.carry| - |rest|)
    && Free(st.carry + rest, '\0')
  }

  /** What n new characters leave of a text. */
  function Remains(a: string, n: nat): string {
    if n <= |a| then a[n..] else ""
  }

  /** A chunk over the rest of older text. */
  function Over(rest: string, chunk: string): string {
    chunk + Remains(rest, |chunk|)
  }

  lemma OverlayOver(carry: string, rest: string, chunk: string)
    requires |carry| + |rest| <= CAPACITY && |carry| + |chunk| <= CAPACITY
    ensures |carry| + |Over(rest, chunk)| <= CAPACITY
    ensures Overlay(carry + rest + Zeros(SIZE - |carry| - |rest|), |carry|, chunk) ==
            carry + Over(rest, chunk) + Zeros(SIZE - |carry| - |Over(rest, chunk)|)
  {
    var zeros := Zeros(SIZE - |carry| - |rest|);
    var buffer := carry + rest + zeros;
    assert buffer[..|carry|] == carry;
    if |chunk| <= |rest| {
      assert buffer[|carry| + |chunk|..] == rest[|chunk|..] + zeros;
    } else {
      assert buffer[|carry| + |chunk|..] == zeros[|chunk| - |rest|..];
    }
  }

  lemma FreeOver(carry: string, rest: string, chunk: string)
    requires Free(carry + rest, '\0') && Free(chunk, '\0')
    ensures Free(carry + Over(rest, chunk), '\0')
  {
    var text := carry + Over(rest, chunk);
    forall i | 0 <= i < |text|
      ensures text[i] != '\0'
    {
      if i < |carry| || |carry| + |chunk| <= i {
        assert text[i] == (carry + rest)[i];
      } else {
        assert text[i] == chunk[i - |carry|];
      }
    }
  }

  /** What the loop sees when a chunk comes in over the rest of older text. */
  lemma {:induction false} SeenOver(st: Recv, rest: string, chunk: string)
    requires LeftBehind(st, rest) && |st.carry| + |chunk| <= CAPACITY && Free(chunk, '\0')
    ensures Data(st, chunk) == st.carry + Over(rest, chunk)
    ensures LeftBehind(Recv(Overlay(st.buffer, |st.carry|, chunk), st.carry, st.handled), Over(rest, chunk))
  {
    var q := Over(rest, chunk);
    OverlayOver(st.carry, rest, chunk);
    var b := Overlay(st.buffer, |st.carry|, chunk);
    assert b == st.carry + q + Zeros(SIZE - |st.carry| - |q|);
    FreeOver(st.carry, rest, chunk);
    CStringOfPadded(st.carry + q, SIZE - |st.carry| - |q|);
    assert LeftBehind(Recv(b, st.carry, st.handled), q);
  }

  /** One receive, from any such state: if it completes a turn the buffer is reset to the carry; if
      it completes none the carry stays and its text joins the rest. */
  lemma ReceiptLeaves(st: Recv, rest: string, r: Receipt)
    requires LeftBehind(st, rest) && Shaped(st) && |st.carry| + |r.chunk| <= CAPACITY && Free(r.chunk, '\0')
    ensures var t := Interrupted(st, r);
            if TurnsOf(st, r) == 0 then
              t.carry == st.carry && t.handled == st.handled && LeftBehind(t, Over(rest, r.chunk))
            else LeftBehind(t, "")
  {
    SeenOver(st, rest, r.chunk);
    if TurnsOf(st, r) > 0 {
      TurnResets(st, r);
    }
  }

  lemma TurnResets(st: Recv, r: Receipt)
    requires Shaped(st) && |st.carry| + |r.chunk| <= CAPACITY && TurnsOf(st, r) > 0
    requires Free(Data(st, r.chunk), '\0')
    ensures LeftBehind(Interrupted(st, r), "")
  {
    var t, datas := Interrupted(st, r), DataTokens(st, r.chunk);
    TokensFree(Data(st, r.chunk), '\0');
    assert Last(datas) in datas;
    var d := TurnsOf(st, r);
    assert t.carry == CarryAfter(d, |r.chunk|, st.carry, Last(datas)) && t.buffer == Padded(t.carry);
    assert t.carry + "" == t.carry;
  }

  lemma TokensFree(text: string, c: char)
    requires Free(text, c) && c != ';'
    ensures forall t | t in ConverterTokens(text, ';') :: Free(t, c)
  {
    var ps := Cut(text, ';');
    forall i | 0 <= i < |ps|
      ensures Free(ps[i], c)
    {
      PieceFree(text, c, i);
    }
    PolishedIsFree(ps, c);
    forall t | t in DropLastEmpty(Polish(ps), ';')
      ensures Free(t, c)
    {
      assert t in Polish(ps) || t == [';'];
    }
  }

  /** The rest of older text after a run of receives: each that completes no turn is laid over it,
      each that completes one wipes it out. */
  function RestAfter(rs: seq<Receipt>): string
    decreases |rs|
  {
    if rs == [] then ""
    else
      var front, r := rs[..|rs| - 1], rs[|rs| - 1];
      var s := InterruptedAll(front);
      if |s.carry| + |r.chunk| > CAPACITY then RestAfter(front)
      else if TurnsOf(s, r) > 0 then ""
      else Over(RestAfter(front), r.chunk)
  }

  lemma {:induction false} RunLeaves(rs: seq<Receipt>)
    requires forall i | 0 <= i < |rs| :: Free(rs[i].chunk, '\0')
    ensures LeftBehind(InterruptedAll(rs), RestAfter(rs))
    decreases |rs|
  {
    if rs == [] {
      assert EMPTY.carry + "" == "" && EMPTY.buffer == "" + "" + Zeros(SIZE);
    } else {
      var front, r := rs[..|rs| - 1], rs[|rs| - 1];
      RunLeaves(front);
      if |InterruptedAll(front).carry| + |r.chunk| <= CAPACITY {
        ReceiptLeaves(InterruptedAll(front), RestAfter(front), r);
      }
    }
  }

  /** Exactly when older text shows through: after any run of receives, failed acknowledgements
      included, the next one is seen behind the carry with what it does not cover of the rest; it
      is seen alone if and only if it is no shorter than that rest. */
  lemma {:induction false} OldTextShowsIff(rs: seq<Receipt>, b: string)
    requires (forall i | 0 <= i < |rs| :: Free(rs[i].chunk, '\0')) && Free(b, '\0')
    requires |InterruptedAll(rs).carry| + |b| <= CAPACITY
    ensures var t, rest := InterruptedAll(rs), RestAfter(rs);
            && Data(t, b) == t.carry + (b + Remains(rest, |b|))
            && (Data(t, b) == t.carry + b <==> |b| >= |rest|)
  {
    var t, rest := InterruptedAll(rs), RestAfter(rs);
    RunLeaves(rs);
    SeenOver(t, rest, b);
    if |b| < |rest| {
      assert |t.carry + Over(rest, b)| > |t.carry + b|;
    } else {
      assert b + "" == b;
    }
  }

  /** After one more receive the rest is empty exactly if that receive completed a turn. */
  lemma RestIsLastTurn(rs: seq<Receipt>, r: Receipt)
    requires |InterruptedAll(rs).carry| + |r.chunk| <= CAPACITY && r.chunk != ""
    ensures RestAfter(rs + [r]) == "" <==> TurnsOf(InterruptedAll(rs), r) > 0
  {
    assert (rs + [r])[..|rs|] == rs;
  }

  /** No turn is completed exactly if there is no complete message, or the first one is a call
      whose acknowledgement cannot be sent. */
  lemma NoTurnIff(st: Recv, r: Receipt)
    requires Shaped(st) && |st.carry| + |r.chunk| <= CAPACITY
    ensures var datas := DataTokens(st, r.chunk);
            var d := MessageCount(|r.chunk| == CAPACITY - |st.carry|, datas);
            TurnsOf(st, r) == 0 <==> d == 0 || (r.fails == Some(0) && Parse(datas[0]).Call?)
  {
    var datas := DataTokens(st, r.chunk);
    var d := MessageCount(|r.chunk| == CAPACITY - |st.carry|, datas);
    assert d > 0 ==> datas[..d][0] == datas[0];
  }

  // ---------- from addService to call ----------

  lemma {:induction false} BodyFree(item: Item)
    requires DeliverableItem(item)
    ensures Free(Body(item), ';') && Free(Body(item), '\0') && Body(item) != "" && Body(item)[0] != ' '
  {
  }

  lemma {:induction false} StreamIsJoin(items: seq<Item>)
    ensures Stream(items) == Join(Bodies(items) + [""], ';')
    decreases |items|
  {
    if items == [] {
      assert Bodies(items) + [""] == [""];
    } else {
      StreamIsJoin(items[1..]);
      var ps := Bodies(items) + [""];
      assert ps[1..] == Bodies(items[1..]) + [""];
      assert ps[0] == Body(items[0]);
    }
  }

  lemma {:induction false} StreamFree(items: seq<Item>)
    requires Deliverable(items)
    ensures Free(Stream(items), '\0')
    decreases |items|
  {
    if items != [] {
      assert DeliverableItem(items[0]);
      BodyFree(items[0]);
      StreamFree(items[1..]);
    }
  }

  lemma {:induction false} StreamPieces(items: seq<Item>)
    requires Deliverable(items)
    ensures Cut(Stream(items), ';') == Bodies(items) + [""] && Pieces(Cut(Stream(items), ';'))
  {
    var ps := Bodies(items) + [""];
    forall i | 0 <= i < |items|
      ensures Free(ps[i], ';') && ps[i] != "" && ps[i][0] != ' '
    {
      assert DeliverableItem(items[i]);
      BodyFree(items[i]);
      assert ps[i] == Body(items[i]);
    }
    StreamIsJoin(items);
    CutJoin(ps, ';');
  }

  /** However the sent text is cut into fair receives, the server calls exactly the requests
      that were sent, in order, heart beats left out. */
  lemma {:induction false} RequestsArrive(items: seq<Item>, chunks: seq<string>)
    requires Deliverable(items) && Joined(chunks) == Stream(items) && FairChunks(ServiceLoop, chunks)
    ensures Shaped(EMPTY) && Calls(ReceivedAll(ServiceLoop, EMPTY, chunks).handled) == Requests(items)
  {
    StreamPieces(items);
    StreamFree(items);
    Reassembled(ServiceLoop, chunks);
    assert Front(Bodies(items) + [""]) == Bodies(items);
    CallsOfBodies(items);
  }

  lemma FairIsAcceptable(loop: Loop, st: Recv, chunk: string)
    requires Tidy(st) && FairChunk(st.carry, chunk) && Free(st.carry, '\0') && Free(chunk, '\0')
    ensures Acceptable(loop, st, chunk)
  {
    TidyIsShaped(st);
    TidyData(st, chunk);
    var data := st.carry + chunk;
    assert data[|data| - 1] == chunk[|chunk| - 1];
  }

  /** Fair receives of a stream in pieces can be made by both loops, every one of them. */
  lemma FairIsReceivable(loop: Loop, chunks: seq<string>, i: nat)
    requires FairChunks(loop, chunks) && Pieces(Cut(Joined(chunks), ';')) && Free(Joined(chunks), '\0')
    requires i < |chunks|
    ensures Shaped(EMPTY) && Acceptable(loop, ReceivedAll(loop, EMPTY, chunks[..i]), chunks[i])
  {
    FairPrefix(loop, chunks, i);
    Reassembled(loop, chunks[..i]);
    assert FairAt(loop, chunks, i);
    PrefixFree(loop, chunks, i);
    FairIsAcceptable(loop, ReceivedAll(loop, EMPTY, chunks[..i]), chunks[i]);
  }

  lemma {:induction false} PrefixFree(loop: Loop, chunks: seq<string>, i: nat)
    requires FairChunks(loop, chunks) && Pieces(Cut(Joined(chunks), ';')) && Free(Joined(chunks), '\0')
    requires i < |chunks|
    ensures Free(chunks[i], '\0') && Free(Last(Cut(Joined(chunks[..i]), ';')), '\0')
  {
    FairPrefix(loop, chunks, i + 1);
    JoinedMore(chunks, i);
    FreeParts(Joined(chunks[..i]), chunks[i]);
  }

  lemma {:induction false} FairPrefix(loop: Loop, chunks: seq<string>, i: nat)
    requires FairChunks(loop, chunks) && Pieces(Cut(Joined(chunks), ';')) && Free(Joined(chunks), '\0')
    requires i <= |chunks|
    ensures FairChunks(loop, chunks[..i]) && Pieces(Cut(Joined(chunks[..i]), ';')) && Free(Joined(chunks[..i]), '\0')
    decreases |chunks| - i
  {
    if i == |chunks| {
      assert chunks[..i] == chunks;
    } else {
      FairPrefix(loop, chunks, i + 1);
      JoinedMore(chunks, i);
      assert chunks[..i + 1][..i] == chunks[..i];
      FairFront(loop, chunks[..i + 1]);
      FreeParts(Joined(chunks[..i]), chunks[i]);
      ChunkIsFragment(Joined(chunks[..i]), chunks[i]);
    }
  }

  /** The two ends joined: whatever items the client put on the wire, and however the text was
      cut into fair receives, the buffer loop makes exactly the calls that were sent, in order,
      each acknowledged. */
  method ServeConversation(ghost items: seq<Item>, chunks: seq<string>) returns (calls: seq<Request>, acks: seq<string>)
    requires Deliverable(items) && Joined(chunks) == Stream(items) && FairChunks(ServiceLoop, chunks)
    ensures calls == Requests(items) && Acked(acks, calls) && AckRecords(Joined(acks), calls)
  {
    StreamPieces(items);
    StreamFree(items);
    var rs := AllSent(chunks);
    forall i | 0 <= i < |rs|
      ensures Acceptable(ServiceLoop, InterruptedAll(rs[..i]), rs[i].chunk)
    {
      assert rs[..i] == AllSent(chunks[..i]);
      AllSentIsPlain(chunks[..i]);
      FairIsReceivable(ServiceLoop, chunks, i);
    }
    AllSentIsPlain(chunks);
    RequestsArrive(items, chunks);
    RequestsPlain(items);
    calls, acks := ServeRequests(rs);
    AcksReassemble(acks, calls);
  }

  /** The debugger socket's loop likewise handles the complete messages of its text, in order. */
  method ServeDebuggerText(chunks: seq<string>) returns (handled: seq<string>)
    requires FairChunks(DebuggerLoop, chunks) && Pieces(Cut(Joined(chunks), ';')) && Free(Joined(chunks), '\0')
    ensures handled == Front(Cut(Joined(chunks), ';'))
  {
    forall i | 0 <= i < |chunks|
      ensures Shaped(EMPTY) && Acceptable(DebuggerLoop, ReceivedAll(DebuggerLoop, EMPTY, chunks[..i]), chunks[i])
    {
      FairIsReceivable(DebuggerLoop, chunks, i);
    }
    TidyIsShaped(EMPTY);
    Reassembled(DebuggerLoop, chunks);
    handled := ServeDebugger(chunks);
  }
}
