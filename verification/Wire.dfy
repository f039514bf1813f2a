/** One service request on the wire: how the client writes it and how the server reads it. */
module Wire {
  import opened Text
  import opened Tokenizer

  datatype Request = Request(objectName: string, serviceName: string, param: string)

  /** What the client sends. */
  datatype Item = Run(request: Request) | Beat

  datatype Parsed = Call(request: Request) | HeartBeat | Malformed

  const RUN_SERVICE := "RunService"
  const HEART_BEAT := "HeartBeat"

  /** The text of an item without its closing semicolon. */
  function Body(item: Item): string {
    match item
    case Run(r) => RUN_SERVICE + ":" + r.objectName + ":" + r.serviceName + ":" + r.param
    case Beat => HEART_BEAT
  }

  /** What the server makes of one message. */
  function Parse(message: string): Parsed {
    var tmp := ConverterTokens(message, ':');
    if |tmp| > 2 && tmp[0] == RUN_SERVICE then
      Call(Request(tmp[1], tmp[2], if |tmp| > 3 then tmp[3] else ""))
    else if |tmp| > 0 && tmp[0] == HEART_BEAT then HeartBeat
    else Malformed
  }

  /** Which messages are calls, which heart beats, and which malformed. */
  lemma ParseExact(message: string)
    ensures var ts, p := ConverterTokens(message, ':'), Parse(message);
            && (p.Call? <==> |ts| > 2 && ts[0] == "RunService")
            && (p.Call? ==> p.request == Request(ts[1], ts[2], if |ts| > 3 then ts[3] else ""))
            && (p == HeartBeat <==> |ts| > 0 && ts[0] == "HeartBeat")
            && (p == Malformed <==> ts == [] || (ts[0] != "HeartBeat" && (ts[0] != "RunService" || |ts| <= 2)))
  {
  }

  /** The texts the client writes. */
  lemma BodyText(r: Request)
    ensures Body(Run(r)) == "RunService:" + r.objectName + ":" + r.serviceName + ":" + r.param
  {
    assert RUN_SERVICE + ":" == "RunService:";
  }

  function Calls(messages: seq<string>): seq<Request> {
    if messages == [] then []
    else (match Parse(messages[0]) case Call(r) => [r] case _ => []) + Calls(messages[1..])
  }

  lemma {:induction false} CallsAppend(a: seq<string>, b: seq<string>)
    ensures Calls(a + b) == Calls(a) + Calls(b)
    decreases |a|
  {
    if a == [] {
      assert a + b == b;
    } else {
      CallsAppend(a[1..], b);
      assert (a + b)[1..] == a[1..] + b;
      Regroup(match Parse(a[0]) case Call(r) => [r] case _ => [], Calls(a[1..]), Calls(b));
    }
  }

  /** Fields that cannot be mistaken for structure and that trimming leaves alone. */
  predicate PlainField(s: string) {
    Free(s, ':') && NoOuterSpace(s)
  }

  predicate PlainRequest(r: Request) {
    PlainField(r.objectName) && PlainField(r.serviceName) && PlainField(r.param)
  }

  lemma BodyIsJoin(r: Request)
    ensures Body(Run(r)) == Join([RUN_SERVICE, r.objectName, r.serviceName, r.param], ':')
  {
    var ps := [RUN_SERVICE, r.objectName, r.serviceName, r.param];
    assert ps[1..] == [r.objectName, r.serviceName, r.param];
    assert ps[1..][1..] == [r.serviceName, r.param];
    assert ps[1..][1..][1..] == [r.param];
    assert Join([r.serviceName, r.param], ':') == r.serviceName + ":" + r.param;
    assert Join(ps[1..], ':') == r.objectName + ":" + (r.serviceName + ":" + r.param);
    assert Join(ps, ':') == RUN_SERVICE + ":" + (r.objectName + ":" + (r.serviceName + ":" + r.param));
  }

  lemma TokensOfBody(r: Request)
    requires PlainRequest(r)
    ensures ConverterTokens(Body(Run(r)), ':') ==
            DropLastEmpty([RUN_SERVICE, r.objectName, r.serviceName, r.param], ':')
  {
    BodyIsJoin(r);
    ConverterTokensOfPieces([RUN_SERVICE, r.objectName, r.serviceName, r.param], ':');
  }

  /** The server reads back the request it was sent if and only if the service name and the
      parameters are not both empty; when both are, it reads the parameters ":". */
  lemma ParseOfBody(r: Request)
    requires PlainRequest(r)
    ensures Parse(Body(Run(r))) == Call(r) <==> r.serviceName != "" || r.param != ""
    ensures r.serviceName == "" && r.param == "" ==> Parse(Body(Run(r))) == Call(r.(param := ":"))
  {
    TokensOfBody(r);
  }

  lemma {:induction false} ParseOfBeat()
    ensures Parse(Body(Beat)) == HeartBeat
  {
    assert Join([HEART_BEAT], ':') == HEART_BEAT;
    ConverterTokensOfPieces([HEART_BEAT], ':');
  }

  // ---------- a whole conversation ----------

  function Requests(items: seq<Item>): seq<Request> {
    if items == [] then []
    else (match items[0] case Run(r) => [r] case Beat => []) + Requests(items[1..])
  }

  function Bodies(items: seq<Item>): (r: seq<string>)
    ensures |r| == |items| && forall i | 0 <= i < |items| :: r[i] == Body(items[i])
  {
    if items == [] then [] else [Body(items[0])] + Bodies(items[1..])
  }

  /** The text that items put on the wire. */
  function Stream(items: seq<Item>): string {
    if items == [] then "" else Body(items[0]) + ";" + Stream(items[1..])
  }

  /** Items whose fields hold neither structure characters nor NUL nor outer spaces, and whose
      service name and parameters are not both empty. */
  predicate Deliverable(items: seq<Item>) {
    forall i | 0 <= i < |items| :: DeliverableItem(items[i])
  }

  predicate DeliverableItem(item: Item) {
    item.Run? ==>
      var r := item.request;
      && PlainRequest(r) && (r.serviceName != "" || r.param != "")
      && Free(r.objectName, ';') && Free(r.serviceName, ';') && Free(r.param, ';')
      && Free(r.objectName, '\0') && Free(r.serviceName, '\0') && Free(r.param, '\0')
  }

  lemma {:induction false} CallsOfBodies(items: seq<Item>)
    requires Deliverable(items)
    ensures Calls(Bodies(items)) == Requests(items)
    decreases |items|
  {
    if items != [] {
      CallsOfBodies(items[1..]);
      assert Bodies(items)[1..] == Bodies(items[1..]);
      match items[0] {
        case Run(r) =>
          assert DeliverableItem(items[0]);
          ParseOfBody(r);
        case Beat => ParseOfBeat();
      }
    }
  }
}
