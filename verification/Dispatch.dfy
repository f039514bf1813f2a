/** CmdTarget::dispatchMsg: lookup through the chain of class message tables, arity, call. */
module Dispatch {
  import opened Wrappers
  import opened Text
  import opened Tokenizer
  import opened Conversions

  datatype MethodType =
    | End
    | V | B | I | D | S
    | II | DD | SS | ID | DI | DS | SD | IS | SI
    | III | DDD | SSS | IID | IIS | DDI | DDS | SSI | SSD
    | IDI | IDD | IDS | ISI | ISD | ISS
    | DII | DID | DIS | DSI | DSD | DSS
    | SII | SID | SIS | SDI | SDD | SDS

  /** One MSG_ENTITY; `handler` stands for its member-function pointer. */
  datatype Entry = Entry(msg: string, msgType: MethodType, handler: nat)

  /** A class's table and the chain of its base classes' tables. */
  datatype MsgMap = NoMap | MsgMap(entries: seq<Entry>, baseMap: MsgMap)

  datatype Arg = BoolArg(b: bool) | IntArg(i: int) | DoubleArg(d: real) | StringArg(s: string)

  datatype Problem = NotFound | TypeNotSupported | WrongCount

  datatype Outcome =
    | Invoked(handler: nat, args: seq<Arg>)
    | Ignored(entry: Entry)                 // the switch has no case for the type: no call, no error
    | Throws(problem: Problem)

  /** A table is an array ended by an entry with the empty name. */
  predicate Terminated(es: seq<Entry>) {
    exists k | 0 <= k < |es| :: es[k].msg == ""
  }

  predicate WellFormed(m: MsgMap) {
    m.MsgMap? ==> Terminated(m.entries) && WellFormed(m.baseMap)
  }

  /** The number of parameters the code expects of a type; none for a type it rejects. */
  function ParamNum(t: MethodType): Option<nat> {
    match t
    case B | I | D | S => Some(1)
    case II | DD | SS | ID | IS | DI | DS | SI | SD => Some(2)
    case III | DDD | SSS | IID | IIS | DDI | DDS | SSI | SSD
       | IDD | ISS | DII | DSS | SII | SDD | IDI | IDS | DID | DIS | SID | SIS => Some(3)
    case End | V | ISI | ISD | DSI | DSD | SDI | SDS => None
  }

  /** The parameter kinds of the types the switch has a case for. */
  function Signature(t: MethodType): Option<string> {
    match t
    case B => Some("b")
    case S => Some("s")
    case I => Some("i")
    case SI => Some("si")
    case IS => Some("is")
    case SS => Some("ss")
    case II => Some("ii")
    case SSS => Some("sss")
    case SSI => Some("ssi")
    case SIS => Some("sis")
    case SDD => Some("sdd")
    case SII => Some("sii")
    case DDD => Some("ddd")
    case III => Some("iii")
    case _ => None
  }

  function Convert(kind: char, token: string): Arg {
    if kind == 'b' then BoolArg(token == "true" || token == "1")
    else if kind == 'i' then IntArg(Atoi(token))
    else if kind == 'd' then DoubleArg(Atof(token))
    else StringArg(token)
  }

  function ConvertAll(kinds: string, tokens: seq<string>): (r: seq<Arg>)
    requires |kinds| == |tokens|
    ensures |r| == |tokens| && forall i | 0 <= i < |tokens| :: r[i] == Convert(kinds[i], tokens[i])
  {
    if kinds == "" then [] else [Convert(kinds[0], tokens[0])] + ConvertAll(kinds[1..], tokens[1..])
  }

  /** The first entry of a table with the name, before the terminator. */
  function FindIn(es: seq<Entry>, name: string): Option<Entry> {
    if es == [] || es[0].msg == "" then None
    else if es[0].msg == name then Some(es[0])
    else FindIn(es[1..], name)
  }

  /** ... in the most derived class that has one. */
  function Find(m: MsgMap, name: string): Option<Entry> {
    match m
    case NoMap => None
    case MsgMap(es, base) => if FindIn(es, name).Some? then FindIn(es, name) else Find(base, name)
  }

  /** What happens once the entry is found. */
  function Deliver(e: Entry, tokens: seq<string>): Outcome {
    match ParamNum(e.msgType)
    case None => Throws(TypeNotSupported)
    case Some(n) =>
      if |tokens| != n then Throws(WrongCount)
      else match Signature(e.msgType)
           case None => Ignored(e)
           case Some(kinds) => if |kinds| == n then Invoked(e.handler, ConvertAll(kinds, tokens)) else Ignored(e)
  }

  function Dispatched(m: MsgMap, name: string, params: string): Outcome {
    match Find(m, name)
    case None => Throws(NotFound)
    case Some(e) => Deliver(e, Tokens(params, ','))
  }

  /** The switch, for the types of one, two and three parameters. */
  method CallOne(e: Entry, param: seq<string>) returns (r: Outcome)
    requires |param| == 1 && ParamNum(e.msgType) == Some(1)
    ensures r == Deliver(e, param)
  {
    match e.msgType {
      case B => r := Invoked(e.handler, [BoolArg(param[0] == "true" || param[0] == "1")]);
      case S => r := Invoked(e.handler, [StringArg(param[0])]);
      case I => r := Invoked(e.handler, [IntArg(Atoi(param[0]))]);
      case _ => r := Ignored(e);
    }
  }

  method CallTwo(e: Entry, param: seq<string>) returns (r: Outcome)
    requires |param| == 2 && ParamNum(e.msgType) == Some(2)
    ensures r == Deliver(e, param)
  {
    match e.msgType {
      case SI => r := Invoked(e.handler, [StringArg(param[0]), IntArg(Atoi(param[1]))]);
      case IS => r := Invoked(e.handler, [IntArg(Atoi(param[0])), StringArg(param[1])]);
      case SS => r := Invoked(e.handler, [StringArg(param[0]), StringArg(param[1])]);
      case II => r := Invoked(e.handler, [IntArg(Atoi(param[0])), IntArg(Atoi(param[1]))]);
      case _ => r := Ignored(e);
    }
  }

  method CallThree(e: Entry, param: seq<string>) returns (r: Outcome)
    requires |param| == 3 && ParamNum(e.msgType) == Some(3)
    ensures r == Deliver(e, param)
  {
    match e.msgType {
      case SSS => r := Invoked(e.handler, [StringArg(param[0]), StringArg(param[1]), StringArg(param[2])]);
      case SSI => r := Invoked(e.handler, [StringArg(param[0]), StringArg(param[1]), IntArg(Atoi(param[2]))]);
      case SIS => r := Invoked(e.handler, [StringArg(param[0]), IntArg(Atoi(param[1])), StringArg(param[2])]);
      case SDD => r := Invoked(e.handler, [StringArg(param[0]), DoubleArg(Atof(param[1])), DoubleArg(Atof(param[2]))]);
      case SII => r := Invoked(e.handler, [StringArg(param[0]), IntArg(Atoi(param[1])), IntArg(Atoi(param[2]))]);
      case DDD =>
        r := Invoked(e.handler, [DoubleArg(Atof(param[0])), DoubleArg(Atof(param[1])), DoubleArg(Atof(param[2]))]);
      case III => r := Invoked(e.handler, [IntArg(Atoi(param[0])), IntArg(Atoi(param[1])), IntArg(Atoi(param[2]))]);
      case _ => r := Ignored(e);
    }
  }

  /** dispatchMsg on the message tables of the object's class. */
  method DispatchMsg(m: MsgMap, msgName: string, params: string) returns (r: Outcome)
    requires WellFormed(m) && !AllSpaces(params)
    ensures r == Dispatched(m, msgName, params)
  {
    var msgMap := m;
    while msgMap.MsgMap?
      invariant WellFormed(msgMap)
      invariant Find(m, msgName) == Find(msgMap, msgName)
      decreases msgMap
    {
      var es := msgMap.entries;
      var i := 0;
      while es[i].msg != ""
        invariant 0 <= i < |es| && Terminated(es[i..])
        invariant FindIn(es, msgName) == FindIn(es[i..], msgName)
        decreases |es| - i
      {
        if es[i].msg == msgName {
          var e := es[i];
          var paramNum := ParamNum(e.msgType);
          if paramNum.None? {
            return Throws(TypeNotSupported);
          }
          var param := Split(params, ',');
          if |param| != paramNum.value {
            return Throws(WrongCount);
          }
          if |param| == 1 {
            r := CallOne(e, param);
          } else if |param| == 2 {
            r := CallTwo(e, param);
          } else {
            r := CallThree(e, param);
          }
          return r;
        }
        i := i + 1;
      }
      msgMap := msgMap.baseMap;
    }
    return Throws(NotFound);
  }

  // ---------- overriding ----------

  /** A table as a map: its own entries, the first of a name winning. */
  function Own(es: seq<Entry>): map<string, Entry> {
    if es == [] || es[0].msg == "" then map[]
    else Own(es[1..])[es[0].msg := es[0]]
  }

  /** The chain as one map, built from the base class up, each class overriding its base. */
  function Overriding(m: MsgMap): map<string, Entry> {
    match m
    case NoMap => map[]
    case MsgMap(es, base) => Overriding(base) + Own(es)
  }

  lemma {:induction false} FindInIsOwn(es: seq<Entry>, name: string)
    ensures FindIn(es, name) == if name in Own(es) then Some(Own(es)[name]) else None
    decreases |es|
  {
    if es != [] && es[0].msg != "" {
      FindInIsOwn(es[1..], name);
    }
  }

  /** The lookup resolves as in the overriding map. */
  lemma {:induction false} FindIsOverriding(m: MsgMap, name: string)
    ensures Find(m, name) == if name in Overriding(m) then Some(Overriding(m)[name]) else None
    decreases m
  {
    match m {
      case NoMap =>
      case MsgMap(es, base) =>
        FindInIsOwn(es, name);
        FindIsOverriding(base, name);
    }
  }

  /** The call can be made: the type has a case in the switch and the tokens fit it. */
  predicate Callable(e: Entry, tokens: seq<string>) {
    Signature(e.msgType).Some? && ParamNum(e.msgType) == Some(|tokens|)
  }

  /** A dispatch fails to find the name exactly if no class defines it. */
  lemma NotFoundIff(m: MsgMap, name: string, params: string)
    ensures Dispatched(m, name, params) == Throws(NotFound) <==> name !in Overriding(m)
  {
    FindIsOverriding(m, name);
  }

  /** Otherwise it calls a handler exactly if the overriding entry is callable with the tokens:
      that entry's own, with one argument a token, each of the kind its type asks for. */
  lemma InvokesIff(m: MsgMap, name: string, params: string)
    requires name in Overriding(m)
    ensures var e, tokens, r := Overriding(m)[name], Tokens(params, ','), Dispatched(m, name, params);
            && (r.Invoked? <==> Callable(e, tokens))
            && (r.Invoked? ==>
                  && r.handler == e.handler && |r.args| == |tokens| == |Signature(e.msgType).value|
                  && forall i | 0 <= i < |tokens| :: r.args[i] == Convert(Signature(e.msgType).value[i], tokens[i]))
  {
    FindIsOverriding(m, name);
  }

  /** What is handed over to a handler of one parameter, type by type. */
  lemma HandsOverOne(e: Entry, a: string)
    ensures var r := Deliver(e, [a]);
            && (e.msgType == B ==> r == Invoked(e.handler, [BoolArg(a == "true" || a == "1")]))
            && (e.msgType == S ==> r == Invoked(e.handler, [StringArg(a)]))
            && (e.msgType == I ==> r == Invoked(e.handler, [IntArg(Atoi(a))]))
            && (e.msgType == D ==> r == Ignored(e))
  {
  }

  /** ... of two: the tokens in their order, a string as it is, a number as atoi reads it. */
  lemma HandsOverTwo(e: Entry, a: string, b: string)
    ensures var r := Deliver(e, [a, b]);
            && (e.msgType == SI ==> r == Invoked(e.handler, [StringArg(a), IntArg(Atoi(b))]))
            && (e.msgType == IS ==> r == Invoked(e.handler, [IntArg(Atoi(a)), StringArg(b)]))
            && (e.msgType == SS ==> r == Invoked(e.handler, [StringArg(a), StringArg(b)]))
            && (e.msgType == II ==> r == Invoked(e.handler, [IntArg(Atoi(a)), IntArg(Atoi(b))]))
            && (e.msgType in {DD, ID, DI, DS, SD} ==> r == Ignored(e))
  {
    assert [a, b][1..] == [b];
  }

  lemma DeliverThree(e: Entry, kinds: string, tokens: seq<string>)
    requires |kinds| == |tokens| == 3 && ParamNum(e.msgType) == Some(3) && Signature(e.msgType) == Some(kinds)
    ensures Deliver(e, tokens) ==
            Invoked(e.handler,
                    [Convert(kinds[0], tokens[0]), Convert(kinds[1], tokens[1]), Convert(kinds[2], tokens[2])])
  {
    var args := ConvertAll(kinds, tokens);
    assert args == [args[0], args[1], args[2]];
  }

  /** ... of three. */
  lemma {:induction false} HandsOverThree(e: Entry, a: string, b: string, c: string)
    ensures var r, h := Deliver(e, [a, b, c]), e.handler;
            && (e.msgType == SSS ==> r == Invoked(h, [StringArg(a), StringArg(b), StringArg(c)]))
            && (e.msgType == SSI ==> r == Invoked(h, [StringArg(a), StringArg(b), IntArg(Atoi(c))]))
            && (e.msgType == SIS ==> r == Invoked(h, [StringArg(a), IntArg(Atoi(b)), StringArg(c)]))
            && (e.msgType == SII ==> r == Invoked(h, [StringArg(a), IntArg(Atoi(b)), IntArg(Atoi(c))]))
            && (e.msgType == III ==> r == Invoked(h, [IntArg(Atoi(a)), IntArg(Atoi(b)), IntArg(Atoi(c))]))
            && (e.msgType == SDD ==> r == Invoked(h, [StringArg(a), DoubleArg(Atof(b)), DoubleArg(Atof(c))]))
            && (e.msgType == DDD ==> r == Invoked(h, [DoubleArg(Atof(a)), DoubleArg(Atof(b)), DoubleArg(Atof(c))]))
            && (e.msgType in {IID, IIS, DDI, DDS, SSD, IDD, ISS, DII, DSS, IDI, IDS, DID, DIS, SID} ==> r == Ignored(e))
  {
    var kinds := match e.msgType
      case SSS => "sss" case SSI => "ssi" case SIS => "sis" case SII => "sii"
      case III => "iii" case SDD => "sdd" case DDD => "ddd" case _ => "";
    if kinds != "" {
      DeliverThree(e, kinds, [a, b, c]);
    }
  }

  predicate TakesThree(t: MethodType) {
    t in {III, DDD, SSS, IID, IIS, DDI, DDS, SSI, SSD, IDD, ISS, DII, DSS, SII, SDD, IDI, IDS, DID, DIS, SID, SIS}
  }

  /** How many parameters each type takes, and which types are rejected whatever comes with them. */
  lemma Arities(e: Entry, tokens: seq<string>)
    ensures var t, n, r := e.msgType, |tokens|, Deliver(e, tokens);
            && (t in {B, I, D, S} ==> (r == Throws(WrongCount) <==> n != 1))
            && (t in {II, DD, SS, ID, IS, DI, DS, SI, SD} ==> (r == Throws(WrongCount) <==> n != 2))
            && (TakesThree(t) ==> (r == Throws(WrongCount) <==> n != 3))
            && (r == Throws(TypeNotSupported) <==> t in {End, V, ISI, ISD, DSI, DSD, SDI, SDS})
  {
  }

  /** A dispatch delivers to the overriding entry, whose tokens the lemmas above take apart. */
  lemma DeliversToOverriding(m: MsgMap, name: string, params: string)
    requires name in Overriding(m)
    ensures Dispatched(m, name, params) == Deliver(Overriding(m)[name], Tokens(params, ','))
  {
    FindIsOverriding(m, name);
  }

  /** A corollary of NotFoundIff and InvokesIff, for the calls that are not made: it throws on a
      rejected type and on a wrong token count; a type that has a parameter count but no case in
      the switch is accepted and nothing is called. */
  lemma ThrowsOrIgnores(m: MsgMap, name: string, params: string)
    requires name in Overriding(m)
    ensures var e, tokens, r := Overriding(m)[name], Tokens(params, ','), Dispatched(m, name, params);
            && (r == Throws(TypeNotSupported) <==> ParamNum(e.msgType) == None)
            && (r == Throws(WrongCount) <==> ParamNum(e.msgType).Some? && ParamNum(e.msgType) != Some(|tokens|))
            && (r == Ignored(e) <==> Signature(e.msgType) == None && ParamNum(e.msgType) == Some(|tokens|))
  {
    FindIsOverriding(m, name);
  }
}
