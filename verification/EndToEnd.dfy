/**
 The whole text path: a client adds requests with encoded arguments to its queue, sends them,
 the server reassembles the stream and calls, and the call fills the declared parameters.
 */
module EndToEnd {
  import opened Wrappers
  import opened Text
  import opened Tokenizer
  import opened Escape
  import opened Conversions
  import opened Services
  import opened ArgumentPassing
  import opened Wire
  import opened ReceiveLoop
  import opened ServiceSocket

  datatype RemoteCall = RemoteCall(objectName: string, serviceName: string, args: seq<string>)

  function RequestOf(c: RemoteCall): Request {
    Request(c.objectName, c.serviceName, ArgumentText(c.args))
  }

  function RequestsOf(cs: seq<RemoteCall>): (r: seq<Request>)
    ensures |r| == |cs| && forall i | 0 <= i < |cs| :: r[i] == RequestOf(cs[i])
  {
    if cs == [] then [] else [RequestOf(cs[0])] + RequestsOf(cs[1..])
  }

  predicate NameField(s: string) {
    PlainField(s) && Free(s, ';') && Free(s, '\0')
  }

  /** Names without structure characters, clean arguments without ';' and NUL, and not both the
      service name and the argument list empty. */
  predicate GoodCall(c: RemoteCall) {
    && NameField(c.objectName) && NameField(c.serviceName)
    && Clean(c.args) && (forall i | 0 <= i < |c.args| :: Free(c.args[i], ';') && Free(c.args[i], '\0'))
    && (c.serviceName != "" || c.args != [])
  }

  // ---------- argument text is a plain field ----------

  lemma {:induction false} JoinEnd(ps: seq<string>, sep: char)
    requires ps != [] && sep != ' ' && (Last(ps) != "" ==> Last(ps)[|Last(ps)| - 1] != ' ')
    ensures Join(ps, sep) != "" ==> Join(ps, sep)[|Join(ps, sep)| - 1] != ' '
    decreases |ps|
  {
    if |ps| > 1 {
      JoinEnd(ps[1..], sep);
      assert [ps[0]] + ps[1..] == ps;
    }
  }

  lemma EncodedEnds(a: string)
    ensures TrimLeft(a) == a && Encode(a) != "" ==> Encode(a)[0] != ' '
    ensures Trim(a) == a && Encode(a) != "" ==> Encode(a)[0] != ' ' && Encode(a)[|Encode(a)| - 1] != ' '
  {
    EncodeTrimLeft(a);
    EncodeTrim(a);
    TrimOuter(Encode(a));
  }

  lemma ArgumentTextFree(args: seq<string>)
    requires forall i | 0 <= i < |args| :: Free(args[i], ';') && Free(args[i], '\0')
    ensures Free(ArgumentText(args), ':') && Free(ArgumentText(args), ';') && Free(ArgumentText(args), '\0')
  {
    var es := EncodeAll(args);
    forall i | 0 <= i < |es|
      ensures Free(es[i], ':') && Free(es[i], ';') && Free(es[i], '\0')
    {
      EncodedIsFree(args[i]);
    }
    JoinFree(es, ',', ':');
    JoinFree(es, ',', ';');
    JoinFree(es, ',', '\0');
  }

  lemma JoinEnds(es: seq<string>)
    requires es != [] && (es[0] != "" ==> es[0][0] != ' ') && (Last(es) != "" ==> Last(es)[|Last(es)| - 1] != ' ')
    ensures NoOuterSpace(Join(es, ','))
  {
    JoinEnd(es, ',');
  }

  lemma ArgumentTextEnds(args: seq<string>)
    requires Clean(args) && args != []
    ensures NoOuterSpace(ArgumentText(args))
  {
    var es, first, last := EncodeAll(args), args[0], args[|args| - 1];
    assert Trimmed(args, 0) == first && Trimmed(args, |args| - 1) == last;
    EncodedEnds(first);
    EncodedEnds(last);
    assert es[0] == Encode(first) && Last(es) == Encode(last);
    JoinEnds(es);
  }

  lemma ArgumentTextField(args: seq<string>)
    requires Clean(args)
    requires forall i | 0 <= i < |args| :: Free(args[i], ';') && Free(args[i], '\0')
    ensures PlainField(ArgumentText(args)) && Free(ArgumentText(args), ';') && Free(ArgumentText(args), '\0')
  {
    ArgumentTextFree(args);
    if args != [] {
      ArgumentTextEnds(args);
    }
  }

  lemma GoodCallDelivers(c: RemoteCall)
    requires GoodCall(c)
    ensures DeliverableItem(Run(RequestOf(c)))
  {
    ArgumentTextField(c.args);
  }

  // ---------- the theorems ----------

  lemma {:induction false} RequestsDeliverable(items: seq<Item>, cs: seq<RemoteCall>)
    requires Requests(items) == RequestsOf(cs) && forall i | 0 <= i < |cs| :: GoodCall(cs[i])
    ensures Deliverable(items)
    decreases |items|
  {
    if items != [] {
      var item, rest := items[0], items[1..];
      assert items == [item] + rest;
      match item {
        case Run(r) =>
          assert cs != [] && RequestsOf(cs) == [RequestOf(cs[0])] + RequestsOf(cs[1..]);
          assert [r] + Requests(rest) == [RequestOf(cs[0])] + RequestsOf(cs[1..]);
          SameTails(r, Requests(rest), RequestOf(cs[0]), RequestsOf(cs[1..]));
          GoodCallDelivers(cs[0]);
          RequestsDeliverable(rest, cs[1..]);
        case Beat =>
          assert [] + Requests(rest) == Requests(rest);
          RequestsDeliverable(rest, cs);
      }
    }
  }

  lemma SameTails<T>(x: T, xs: seq<T>, y: T, ys: seq<T>)
    requires [x] + xs == [y] + ys
    ensures x == y && xs == ys
  {
    assert ([x] + xs)[0] == x && ([y] + ys)[0] == y;
    assert ([x] + xs)[1..] == xs && ([y] + ys)[1..] == ys;
  }

  /** Whatever heart beats the client mixes in and however the stream is cut into fair receives,
      the server makes exactly the calls that were sent, in order, each with its own request. */
  lemma {:induction false} CallsArrive(items: seq<Item>, cs: seq<RemoteCall>, chunks: seq<string>)
    requires Requests(items) == RequestsOf(cs) && forall i | 0 <= i < |cs| :: GoodCall(cs[i])
    requires Joined(chunks) == Stream(items) && FairChunks(ServiceLoop, chunks)
    ensures Shaped(EMPTY) && Calls(ReceivedAll(ServiceLoop, EMPTY, chunks).handled) == RequestsOf(cs)
  {
    RequestsDeliverable(items, cs);
    RequestsArrive(items, chunks);
  }

  /** ... and the i-th of them, on a service with as many distinctly named parameters, executes
      with argument j, converted, in the j-th declared parameter. */
  lemma {:induction false} RemoteCallExecutes(items: seq<Item>, cs: seq<RemoteCall>, chunks: seq<string>, i: nat,
                           ds: seq<Declaration>, before: ParamMap)
    requires Requests(items) == RequestsOf(cs) && forall k | 0 <= k < |cs| :: GoodCall(cs[k])
    requires Joined(chunks) == Stream(items) && FairChunks(ServiceLoop, chunks)
    requires i < |cs| && DistinctNames(ds) && |ds| == |cs[i].args|
    ensures Shaped(EMPTY) && |Calls(ReceivedAll(ServiceLoop, EMPTY, chunks).handled)| == |cs|
    ensures var call := Calls(ReceivedAll(ServiceLoop, EMPTY, chunks).handled)[i];
            var (result, after) := Outcome(Some(DeclareAll(ds)), before, call.param);
            && call.objectName == cs[i].objectName && call.serviceName == cs[i].serviceName
            && result == Executed && Holding(ds, before, cs[i].args, after)
  {
    CallsArrive(items, cs, chunks);
    ArgumentsArrive(ds, before, cs[i].args);
  }

  // ---------- a whole conversation ----------

  type Target = (string, string)

  /** What execute has seen, run by run. */
  datatype Execution = Execution(target: Target, params: ParamMap)

  /** The services the server can find, by object and service name, with their declared
      parameters; what each one holds; and every execution so far. */
  datatype Server = Server(declared: map<Target, seq<Declaration>>, params: map<Target, ParamMap>, log: seq<Execution>)

  function TargetOf(r: Request): Target {
    (r.objectName, r.serviceName)
  }

  function ParamsAt(s: Server, t: Target): ParamMap {
    if t in s.params then s.params[t] else map[]
  }

  /** One call: nothing happens if the object or the service is not there. */
  function Called(s: Server, r: Request): Server {
    var t := TargetOf(r);
    if t !in s.declared then s
    else
      var (result, after) := Outcome(Some(DeclareAll(s.declared[t])), ParamsAt(s, t), r.param);
      Server(s.declared, s.params[t := after], if result == Executed then s.log + [Execution(t, after)] else s.log)
  }

  function CalledAll(s: Server, rs: seq<Request>): Server
    decreases |rs|
  {
    if rs == [] then s else CalledAll(Called(s, rs[0]), rs[1..])
  }

  /** A call to a service that is there, with as many arguments as it has parameters. */
  predicate Fits(s: Server, c: RemoteCall) {
    var t := TargetOf(RequestOf(c));
    t in s.declared && |s.declared[t]| == |c.args|
  }

  function Fitting(s: Server, cs: seq<RemoteCall>): seq<RemoteCall> {
    if cs == [] then [] else (if Fits(s, cs[0]) then [cs[0]] else []) + Fitting(s, cs[1..])
  }

  /** The parameter declared j-th holds argument j, converted to its type. */
  predicate Carries(ds: seq<Declaration>, args: seq<string>, params: ParamMap) {
    |ds| == |args| &&
    forall j | 0 <= j < |ds| :: ds[j].0 in params && CarriesOne(ds[j].1, args[j], params[ds[j].0])
  }

  predicate CarriesOne(t: ParamType, arg: string, p: ServiceParam) {
    match t
    case IntParam => p.intValue == Atoi(arg)
    case DoubleParam => p.doubleValue == Atof(arg)
    case StringParam => p.stringValue == arg
  }

  /** This call's own execution. */
  predicate Executes(s: Server, c: RemoteCall, e: Execution) {
    e.target == TargetOf(RequestOf(c)) && e.target in s.declared && Carries(s.declared[e.target], c.args, e.params)
  }

  ghost predicate Declares(s: Server) {
    forall t | t in s.declared :: DistinctNames(s.declared[t])
  }

  lemma HoldingCarries(ds: seq<Declaration>, before: ParamMap, args: seq<string>, after: ParamMap)
    requires |ds| == |args| && Holding(ds, before, args, after)
    ensures Carries(ds, args, after)
  {
  }

  lemma {:induction false} CalledOutcome(ds: seq<Declaration>, before: ParamMap, args: seq<string>)
    requires DistinctNames(ds) && Clean(args)
    ensures var (result, after) := Outcome(Some(DeclareAll(ds)), before, ArgumentText(args));
            if |ds| == |args| then result == Executed && Carries(ds, args, after) else result == WrongCount
  {
    DistinctDeclarations(ds);
    WrongCountIff(DeclareAll(ds), before, args);
    if |ds| == |args| {
      ArgumentsArrive(ds, before, args);
      HoldingCarries(ds, before, args, Outcome(Some(DeclareAll(ds)), before, ArgumentText(args)).1);
    }
  }

  lemma CalledOnce(s: Server, c: RemoteCall)
    requires Declares(s) && GoodCall(c)
    ensures var r := Called(s, RequestOf(c));
            && r.declared == s.declared
            && (if Fits(s, c) then exists e :: r.log == s.log + [e] && Executes(s, c, e) else r.log == s.log)
  {
    var t := TargetOf(RequestOf(c));
    if t in s.declared {
      CalledOutcome(s.declared[t], ParamsAt(s, t), c.args);
      var r := Called(s, RequestOf(c));
      if Fits(s, c) {
        assert r.log == s.log + [Execution(t, r.params[t])] && Executes(s, c, Execution(t, r.params[t]));
      }
    }
  }

  /** Over a whole conversation of good calls, to any services there or not, the server executes
      exactly the calls that fit, once each and in the order sent, each with its own arguments
      in the parameters of their positions. */
  lemma {:induction false} ConversationExecutes(s: Server, cs: seq<RemoteCall>)
    requires Declares(s) && forall i | 0 <= i < |cs| :: GoodCall(cs[i])
    ensures var t := CalledAll(s, RequestsOf(cs)); t.declared == s.declared && Continues(s, Fitting(s, cs), t)
    decreases |cs|
  {
    if cs != [] {
      var c, u := cs[0], Called(s, RequestOf(cs[0]));
      var t, rest := CalledAll(u, RequestsOf(cs[1..])), Fitting(s, cs[1..]);
      assert RequestsOf(cs)[1..] == RequestsOf(cs[1..]);
      CalledOnce(s, c);
      ConversationExecutes(u, cs[1..]);
      FittingSame(s, u, cs[1..]);
      if Fits(s, c) {
        var e :| u.log == s.log + [e] && Executes(s, c, e);
        ExecutedContinues(s, u, t, c, e, rest);
      } else {
        SkippedContinues(s, u, t, rest);
        assert [] + rest == rest;
      }
    } else {
      assert s.log[..|s.log|] == s.log;
    }
  }

  /** The log of t goes on from that of s with one execution for each of these calls. */
  predicate Continues(s: Server, fits: seq<RemoteCall>, t: Server) {
    && |t.log| == |s.log| + |fits| && t.log[..|s.log|] == s.log
    && forall k | 0 <= k < |fits| :: Executes(s, fits[k], t.log[|s.log| + k])
  }

  lemma SkippedContinues(s: Server, u: Server, t: Server, rest: seq<RemoteCall>)
    requires u.declared == s.declared && u.log == s.log && Continues(u, rest, t)
    ensures Continues(s, rest, t)
  {
    forall k | 0 <= k < |rest|
      ensures Executes(s, rest[k], t.log[|s.log| + k])
    {
      assert Executes(u, rest[k], t.log[|u.log| + k]);
    }
  }

  lemma ExecutedContinues(s: Server, u: Server, t: Server, c: RemoteCall, e: Execution, rest: seq<RemoteCall>)
    requires u.declared == s.declared && u.log == s.log + [e] && Executes(s, c, e) && Continues(u, rest, t)
    ensures Continues(s, [c] + rest, t)
  {
    var n, fits := |s.log|, [c] + rest;
    assert t.log[..n] == t.log[..n + 1][..n] == s.log;
    assert t.log[n] == t.log[..n + 1][n] == e;
    forall k | 0 <= k < |fits|
      ensures Executes(s, fits[k], t.log[n + k])
    {
      if k > 0 {
        assert fits[k] == rest[k - 1] && Executes(u, rest[k - 1], t.log[|u.log| + (k - 1)]);
      }
    }
  }

  lemma {:induction false} FittingSame(s: Server, u: Server, cs: seq<RemoteCall>)
    requires s.declared == u.declared
    ensures Fitting(s, cs) == Fitting(u, cs)
    decreases |cs|
  {
    if cs != [] {
      FittingSame(s, u, cs[1..]);
    }
  }

  /** The whole path with the real buffer loop in it: whatever heart beats the client mixes in and
      however its stream is cut into fair receives, the loop makes the calls that were sent, and
      on any server they execute as ConversationExecutes says. */
  method ServeRemoteCalls(ghost items: seq<Item>, ghost cs: seq<RemoteCall>, chunks: seq<string>, ghost s: Server)
    returns (calls: seq<Request>, acks: seq<string>)
    requires Requests(items) == RequestsOf(cs) && forall i | 0 <= i < |cs| :: GoodCall(cs[i])
    requires Joined(chunks) == Stream(items) && FairChunks(ServiceLoop, chunks) && Declares(s)
    ensures calls == RequestsOf(cs) && Acked(acks, calls) && AckRecords(Joined(acks), calls)
    ensures Continues(s, Fitting(s, cs), CalledAll(s, calls))
  {
    RequestsDeliverable(items, cs);
    ConversationExecutes(s, cs);
    calls, acks := ServeConversation(items, chunks);
  }

  lemma PlainArgument(s: string)
    requires s != "" && Free(s, ' ') && Free(s, '%')
    ensures Clean([s])
  {
    TrimIsIdentity(s);
    assert !Holds(s, COLON) && !Holds(s, COMMA);
  }

  /** A number written with convertToString is a clean argument, and an int parameter that
      receives it holds the number. */
  lemma NumbersArrive(n: int, p: ServiceParam)
    ensures Clean([Show(n)]) && Store(p, IntParam, Show(n)).intValue == n
  {
    AtoiShow(n);
    var s := Show(n);
    ShowNatDigits(if n < 0 then -n else n);
    assert forall k | 0 <= k < |s| :: s[k] == '-' || IsDigit(s[k]);
    PlainArgument(s);
  }

  /** A decimal text is a clean argument, and a double parameter that receives it holds the number
      it spells. */
  lemma DecimalsArrive(sign: string, w: string, f: string, p: ServiceParam)
    requires IsSign(sign) && w != "" && AllDigits(w) && AllDigits(f)
    ensures var text, x := sign + (w + ("." + f)), Digits(w) as real + Fraction(f);
            Clean([text]) && Store(p, DoubleParam, text).doubleValue == if sign == "-" then -x else x
  {
    var text := sign + (w + ("." + f));
    AtofReads("", sign, w, f, w + ("." + f));
    assert "" + text == text;
    DecimalIsPlain(sign, w, f);
    PlainArgument(text);
  }

  lemma DecimalIsPlain(sign: string, w: string, f: string)
    requires IsSign(sign) && AllDigits(w) && AllDigits(f)
    ensures Free(sign + (w + ("." + f)), ' ') && Free(sign + (w + ("." + f)), '%')
  {
    var t := w + ("." + f);
    var text := sign + t;
    forall k | 0 <= k < |text|
      ensures text[k] != ' ' && text[k] != '%'
    {
      if k >= |sign| {
        assert text[k] == t[k - |sign|];
        assert t[k - |sign|] == '.' || IsDigit(t[k - |sign|]);
      }
    }
  }
}
