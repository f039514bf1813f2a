/**
 Declared services and the text call: ServiceInfo::addServiceParam, INSERT_PARAM_INFO and
 ControlObject::call(string, string).
 */
module Services {
  import opened Wrappers
  import opened Text
  import opened Tokenizer
  import opened Escape
  import opened Conversions
  import opened OrderedKeys

  datatype ParamType = IntParam | DoubleParam | StringParam

  datatype ServiceParam = ServiceParam(
    intValue: int,
    doubleValue: real,
    stringValue: string,
    paramType: ParamType,
    paramIndex: int,
    paramName: string)

  type ParamMap = map<string, ServiceParam>

  /** A ServiceInfo as the vectors of the service map hold it, by value. */
  datatype InfoRecord = InfoRecord(name: string, params: ParamMap)

  datatype TypeError = InvalidType

  const BLANK := ServiceParam(0, 0.0, "", IntParam, 0, "")

  function TypeOf(t: string): Result<ParamType, TypeError> {
    if t == "I" || t == "int" then Success(IntParam)
    else if t == "D" || t == "double" then Success(DoubleParam)
    else if t == "S" || t == "string" then Success(StringParam)
    else Failure(InvalidType)
  }

  /** The six texts that name a type, and no others. */
  lemma TypeOfExact(t: string)
    ensures TypeOf(t) == Success(IntParam) <==> t in {"I", "int"}
    ensures TypeOf(t) == Success(DoubleParam) <==> t in {"D", "double"}
    ensures TypeOf(t) == Success(StringParam) <==> t in {"S", "string"}
    ensures TypeOf(t) == Failure(InvalidType) <==> t !in {"I", "int", "D", "double", "S", "string"}
  {
  }

  /** The map after declaring one parameter: its index is the number of names before the call,
      whether or not the name is new. */
  function Declared(ps: ParamMap, name: string, t: ParamType): ParamMap {
    ps[name := ServiceParam(0, 0.0, "", t, |ps|, name)]
  }

  class ServiceInfo {
    var name: string
    var params: ParamMap

    constructor ()
      ensures name == "" && params == map[]
    {
      name, params := "", map[];
    }

    method AddServiceParam(paramName: string, paramType: string) returns (r: Result<(), TypeError>)
      modifies this`params
      ensures match TypeOf(paramType)
              case Success(t) => r == Success(()) && params == Declared(old(params), paramName, t)
              case Failure(e) => r == Failure(e) && params == old(params)
      ensures r.Success? <==> paramType in {"I", "int", "D", "double", "S", "string"}
      ensures r.Success? ==> paramName in params && params[paramName].paramName == paramName
      ensures r.Success? ==> params[paramName].paramIndex == |old(params)|
      ensures r.Success? ==> (params[paramName].paramType == IntParam <==> paramType in {"I", "int"})
      ensures r.Success? ==> (params[paramName].paramType == DoubleParam <==> paramType in {"D", "double"})
      ensures r.Success? ==> (params[paramName].paramType == StringParam <==> paramType in {"S", "string"})
    {
      var paramNum := |params|;
      var t := TypeOf(paramType);
      if t.Failure? {
        return Failure(t.error);
      }
      var paramInfo := ServiceParam(0, 0.0, "", t.value, paramNum, paramName);
      if paramName !in params {
        params := params[paramName := paramInfo];
        paramNum := paramNum + 1;
      } else {
        params := params[paramName := paramInfo];
      }
      return Success(());
    }

    /** INSERT_PARAM_INFO: declare the parameter, then put a copy of this info into the list,
        over the first entry of the same service name or at the end. */
    method InsertParamInfo(v: seq<InfoRecord>, service: string, param: string, paramType: string)
      returns (r: Result<seq<InfoRecord>, TypeError>)
      modifies this
      ensures name == service
      ensures match TypeOf(paramType)
              case Success(t) =>
                && params == Declared(old(params), param, t)
                && r == Success(Put(v, InfoRecord(service, params)))
              case Failure(e) => r == Failure(e) && params == old(params)
    {
      name := service;
      var added := AddServiceParam(param, paramType);
      if added.Failure? {
        return Failure(added.error);
      }
      var info := InfoRecord(name, params);
      var i := 0;
      while i < |v|
        invariant 0 <= i <= |v|
        invariant Put(v, info) == v[..i] + Put(v[i..], info)
      {
        assert v[i..][0] == v[i] && v[i..][1..] == v[i + 1..];
        if v[i].name == service {
          Replaced(v, i, info);
          return Success(v[i := info]);
        }
        assert v[..i] + ([v[i]] + Put(v[i + 1..], info)) == v[..i + 1] + Put(v[i + 1..], info);
        i := i + 1;
      }
      assert v[..i] == v && v[i..] == [];
      return Success(v + [info]);
    }

    /** INSERT_SERVICE_INFO: put a copy of this info at the end of the list, unless the list has
        an entry of the service name. */
    method InsertServiceInfo(v: seq<InfoRecord>, service: string) returns (r: seq<InfoRecord>)
      modifies this`name
      ensures r == Listed(v, InfoRecord(service, params))
      ensures name == if FindInfo(v, service).Some? then old(name) else service
    {
      var exist := false;
      var i := 0;
      while i < |v|
        invariant 0 <= i <= |v|
        invariant exist || FindInfo(v[i..], service).Some? <==> FindInfo(v, service).Some?
      {
        assert v[i..][0] == v[i] && v[i..][1..] == v[i + 1..];
        if v[i].name == service {
          exist := true;
        }
        i := i + 1;
      }
      assert v[i..] == [];
      r := v;
      if !exist {
        name := service;
        r := r + [InfoRecord(name, params)];
      }
    }
  }

  lemma Replaced<T>(v: seq<T>, i: nat, x: T)
    requires i < |v|
    ensures v[i := x] == v[..i] + ([x] + v[i + 1..])
  {
  }

  function Put(v: seq<InfoRecord>, info: InfoRecord): seq<InfoRecord> {
    if v == [] then [info]
    else if v[0].name == info.name then [info] + v[1..]
    else [v[0]] + Put(v[1..], info)
  }

  function NamesIn(v: seq<InfoRecord>): (r: seq<string>)
    ensures |r| == |v| && forall i | 0 <= i < |v| :: r[i] == v[i].name
  {
    if v == [] then [] else [v[0].name] + NamesIn(v[1..])
  }

  /** An entry goes where its service already stands, otherwise to the end. */
  lemma {:induction false} PutPlace(v: seq<InfoRecord>, info: InfoRecord)
    ensures NamesIn(Put(v, info)) == if info.name in NamesIn(v) then NamesIn(v) else NamesIn(v) + [info.name]
    decreases |v|
  {
    if v == [] {
      assert NamesIn([info])[0] == info.name;
    } else if v[0].name != info.name {
      PutPlace(v[1..], info);
    }
  }

  function Listed(v: seq<InfoRecord>, info: InfoRecord): seq<InfoRecord> {
    if FindInfo(v, info.name).Some? then v else v + [info]
  }

  /** A new entry goes behind the others, and an old one stays what it was. */
  lemma {:induction false} ListedPlace(v: seq<InfoRecord>, info: InfoRecord)
    ensures v <= Listed(v, info)
    ensures NamesIn(Listed(v, info)) == if info.name in NamesIn(v) then NamesIn(v) else NamesIn(v) + [info.name]
    ensures FindInfo(Listed(v, info), info.name) ==
            if info.name in NamesIn(v) then FindInfo(v, info.name) else Some(info.params)
    decreases |v|
  {
    if v == [] {
      assert NamesIn([info])[0] == info.name;
    } else {
      ListedPlace(v[1..], info);
      assert (v + [info])[1..] == v[1..] + [info];
    }
  }

  // ---------- parameter indices ----------

  type Declaration = (string, ParamType)

  function DeclareAll(ds: seq<Declaration>): ParamMap
    decreases |ds|
  {
    if ds == [] then map[]
    else Declared(DeclareAll(ds[..|ds| - 1]), ds[|ds| - 1].0, ds[|ds| - 1].1)
  }

  predicate DistinctNames(ds: seq<Declaration>) {
    forall i, j | 0 <= i < j < |ds| :: ds[i].0 != ds[j].0
  }

  ghost predicate HasIndex(ps: ParamMap, i: int) {
    exists k | k in ps :: ps[k].paramIndex == i
  }

  /** The indices of the declared parameters are 0 to n-1, one each. */
  ghost predicate IndexedOnce(ps: ParamMap) {
    && (forall k | k in ps :: 0 <= ps[k].paramIndex < |ps|)
    && (forall j, k | j in ps && k in ps && j != k :: ps[j].paramIndex != ps[k].paramIndex)
    && (forall i | 0 <= i < |ps| :: HasIndex(ps, i))
  }

  lemma {:induction false} DeclaredNames(ds: seq<Declaration>, k: string)
    ensures k in DeclareAll(ds) <==> exists i | 0 <= i < |ds| :: ds[i].0 == k
    decreases |ds|
  {
    if ds != [] {
      DeclaredNames(ds[..|ds| - 1], k);
    }
  }

  lemma {:induction false} DistinctDeclarations(ds: seq<Declaration>)
    requires DistinctNames(ds)
    ensures var ps := DeclareAll(ds);
            && |ps| == |ds|
            && forall i | 0 <= i < |ds| :: ds[i].0 in ps && ps[ds[i].0] == ServiceParam(0, 0.0, "", ds[i].1, i, ds[i].0)
    decreases |ds|
  {
    if ds != [] {
      var front := ds[..|ds| - 1];
      DistinctDeclarations(front);
      DeclaredNames(front, ds[|ds| - 1].0);
    }
  }

  /** The declared names in order of first declaration. */
  function FirstDeclared(ds: seq<Declaration>): seq<string>
    decreases |ds|
  {
    if ds == [] then []
    else
      var r, name := FirstDeclared(ds[..|ds| - 1]), ds[|ds| - 1].0;
      if name in r then r else r + [name]
  }

  /** The first declarations list the keys of the map, each once. */
  lemma {:induction false} FirstDeclaredKeys(ds: seq<Declaration>)
    ensures var ps, names := DeclareAll(ds), FirstDeclared(ds);
            && |ps| == |names|
            && (forall k :: k in ps <==> k in names)
            && (forall q, r | 0 <= q < r < |names| :: names[q] != names[r])
    decreases |ds|
  {
    if ds != [] {
      FirstDeclaredKeys(ds[..|ds| - 1]);
    }
  }

  /** Every index is at least the rank of its name's first declaration. */
  lemma {:induction false} IndexAtLeastRank(ds: seq<Declaration>, r: nat)
    requires r < |FirstDeclared(ds)|
    ensures FirstDeclared(ds)[r] in DeclareAll(ds) && DeclareAll(ds)[FirstDeclared(ds)[r]].paramIndex >= r
    decreases |ds|
  {
    var front, last := ds[..|ds| - 1], ds[|ds| - 1].0;
    FirstDeclaredKeys(front);
    if last != FirstDeclared(ds)[r] {
      IndexAtLeastRank(front, r);
    }
  }

  /** ... and strictly above it for some name once any name has been declared twice. */
  lemma {:induction false} SomeIndexAboveRank(ds: seq<Declaration>) returns (r: nat)
    requires !DistinctNames(ds)
    ensures r < |FirstDeclared(ds)| && FirstDeclared(ds)[r] in DeclareAll(ds)
    ensures DeclareAll(ds)[FirstDeclared(ds)[r]].paramIndex > r
    decreases |ds|
  {
    var front, last := ds[..|ds| - 1], ds[|ds| - 1].0;
    FirstDeclaredKeys(front);
    if last in FirstDeclared(front) {
      r :| 0 <= r < |FirstDeclared(front)| && FirstDeclared(front)[r] == last;
    } else {
      DeclaredNames(front, last);
      r := SomeIndexAboveRank(front);
    }
  }

  lemma Apart(f: seq<int>, k: nat, m: nat)
    requires forall q, r | 0 <= q < r < |f| :: f[q] != f[r]
    requires k < m < |f|
    ensures f[k] != f[m]
  {
  }

  /** An injection of 0..n-1 into itself that never goes below the diagonal is the identity. */
  lemma {:induction false} NeverBelowIsIdentity(f: seq<int>, k: nat)
    requires k <= |f|
    requires forall r | 0 <= r < |f| :: r <= f[r] < |f|
    requires forall q, r | 0 <= q < r < |f| :: f[q] != f[r]
    ensures forall r | k <= r < |f| :: f[r] == r
    decreases |f| - k
  {
    if k < |f| {
      NeverBelowIsIdentity(f, k + 1);
      var m := f[k];
      if m != k {
        Apart(f, k, m);
      }
    }
  }

  lemma DistinctIsIndexedOnce(ds: seq<Declaration>)
    requires DistinctNames(ds)
    ensures IndexedOnce(DeclareAll(ds))
  {
    var ps := DeclareAll(ds);
    DistinctDeclarations(ds);
    forall i | 0 <= i < |ps|
      ensures HasIndex(ps, i)
    {
      assert ds[i].0 in ps && ps[ds[i].0].paramIndex == i;
    }
  }

  lemma RepeatedIsNotIndexedOnce(ds: seq<Declaration>)
    requires !DistinctNames(ds)
    ensures !IndexedOnce(DeclareAll(ds))
  {
    var ps, names := DeclareAll(ds), FirstDeclared(ds);
    FirstDeclaredKeys(ds);
    var f := Indices(ps, names);
    RanksBound(ds);
    var r := SomeIndexAboveRank(ds);
    if IndexedOnce(ps) {
      NeverBelowIsIdentity(f, 0);
    }
    assert f[r] > r;
  }

  lemma RanksBound(ds: seq<Declaration>)
    requires forall n | n in FirstDeclared(ds) :: n in DeclareAll(ds)
    ensures forall r | 0 <= r < |FirstDeclared(ds)| :: Indices(DeclareAll(ds), FirstDeclared(ds))[r] >= r
  {
    forall r | 0 <= r < |FirstDeclared(ds)|
      ensures Indices(DeclareAll(ds), FirstDeclared(ds))[r] >= r
    {
      IndexAtLeastRank(ds, r);
    }
  }

  function Indices(ps: ParamMap, names: seq<string>): (f: seq<int>)
    requires forall n | n in names :: n in ps
    ensures |f| == |names| && forall r | 0 <= r < |f| :: f[r] == ps[names[r]].paramIndex
  {
    if names == [] then [] else [ps[names[0]].paramIndex] + Indices(ps, names[1..])
  }

  /** The indices are 0 to n-1, one each, if and only if no name was declared twice. */
  lemma IndexedOnceIffDistinct(ds: seq<Declaration>)
    ensures IndexedOnce(DeclareAll(ds)) <==> DistinctNames(ds)
  {
    if DistinctNames(ds) {
      DistinctIsIndexedOnce(ds);
    } else {
      RepeatedIsNotIndexedOnce(ds);
    }
  }

  lemma {:induction false} OntoIsIdentity(f: seq<int>, k: nat)
    requires k <= |f|
    requires forall r | 0 <= r < |f| :: f[r] >= r
    requires forall i | 0 <= i < |f| :: i in f
    ensures forall r | 0 <= r < k :: f[r] == r
  {
    if k > 0 {
      OntoIsIdentity(f, k - 1);
      assert k - 1 in f;
      var r :| 0 <= r < |f| && f[r] == k - 1;
      assert r == k - 1;
    }
  }

  /** If a name was declared twice, some argument position belongs to no parameter, so an
      argument of a call with the right count is dropped. */
  lemma RepeatedDropsArgument(ds: seq<Declaration>)
    requires !DistinctNames(ds)
    ensures exists i | 0 <= i < |DeclareAll(ds)| :: SlotOf(DeclareAll(ds), i) == None
  {
    var ps, names := DeclareAll(ds), FirstDeclared(ds);
    FirstDeclaredKeys(ds);
    var f := Indices(ps, names);
    RanksBound(ds);
    var above := SomeIndexAboveRank(ds);
    SomethingMissing(f, above);
    var i :| 0 <= i < |f| && i !in f;
    NoSlotFor(ps, names, i);
  }

  lemma NoSlotFor(ps: ParamMap, names: seq<string>, i: int)
    requires forall k :: k in ps <==> k in names
    requires i !in Indices(ps, names)
    ensures SlotOf(ps, i) == None
  {
    var f := Indices(ps, names);
    forall k | k in Ordered(ps.Keys)
      ensures ps[k].paramIndex != i
    {
      assert k in names;
      var r :| 0 <= r < |names| && names[r] == k;
      assert f[r] in f;
    }
  }

  lemma SomethingMissing(f: seq<int>, above: nat)
    requires forall r | 0 <= r < |f| :: f[r] >= r
    requires above < |f| && f[above] > above
    ensures exists i | 0 <= i < |f| :: i !in f
  {
    if forall i | 0 <= i < |f| :: i in f {
      OntoIsIdentity(f, |f|);
    }
  }

  // ---------- the call ----------

  /** The declared parameter that takes argument i: the first in map order with that index. */
  function Slot(keys: seq<string>, ps: ParamMap, i: int): (r: Option<string>)
    requires forall k | k in keys :: k in ps
    ensures r.Some? ==> r.value in keys && ps[r.value].paramIndex == i
  {
    if keys == [] then None
    else if ps[keys[0]].paramIndex == i then Some(keys[0])
    else Slot(keys[1..], ps, i)
  }

  function SlotOf(ps: ParamMap, i: int): (r: Option<string>)
    ensures r.Some? ==> r.value in ps && ps[r.value].paramIndex == i
  {
    Slot(Ordered(ps.Keys), ps, i)
  }

  /** It is the one with the least name, and there is none only if no parameter has the index. */
  lemma {:induction false} SlotIsFirst(keys: seq<string>, ps: ParamMap, i: int)
    requires Ascending(keys) && forall k | k in keys :: k in ps
    ensures Slot(keys, ps, i) == None <==> forall k | k in keys :: ps[k].paramIndex != i
    ensures forall k | k in keys && ps[k].paramIndex == i ::
              Slot(keys, ps, i) == Some(k) || Less(Slot(keys, ps, i).value, k)
    decreases |keys|
  {
    if keys != [] {
      SlotIsFirst(keys[1..], ps, i);
      forall k | k in keys[1..]
        ensures Less(keys[0], k)
      {
        var j :| 0 <= j < |keys[1..]| && keys[1..][j] == k;
        assert keys[j + 1] == k;
      }
    }
  }

  lemma SlotExact(ps: ParamMap, i: int)
    ensures SlotOf(ps, i) == None <==> forall k | k in ps :: ps[k].paramIndex != i
    ensures forall k | k in ps && ps[k].paramIndex == i :: SlotOf(ps, i) == Some(k) || Less(SlotOf(ps, i).value, k)
  {
    OrderedAscends(ps.Keys);
    SlotIsFirst(Ordered(ps.Keys), ps, i);
    assert forall k :: k in Ordered(ps.Keys) <==> k in ps;
  }

  lemma {:induction false} SlotUnique(keys: seq<string>, ps: ParamMap, k: string)
    requires forall j | j in keys :: j in ps
    requires k in keys && forall j | j in keys && j != k :: ps[j].paramIndex != ps[k].paramIndex
    ensures Slot(keys, ps, ps[k].paramIndex) == Some(k)
    decreases |keys|
  {
    if keys[0] != k {
      SlotUnique(keys[1..], ps, k);
    }
  }

  /** The entry after setValue with the converted text. */
  function Store(p: ServiceParam, t: ParamType, text: string): ServiceParam {
    match t
    case IntParam => p.(intValue := Atoi(text))
    case DoubleParam => p.(doubleValue := Atof(text))
    case StringParam => p.(stringValue := text)
  }

  /** q is p with at most the value of this type changed. */
  predicate OnlyValueChanged(p: ServiceParam, t: ParamType, q: ServiceParam) {
    && q.paramType == p.paramType && q.paramIndex == p.paramIndex && q.paramName == p.paramName
    && (t != IntParam ==> q.intValue == p.intValue)
    && (t != DoubleParam ==> q.doubleValue == p.doubleValue)
    && (t != StringParam ==> q.stringValue == p.stringValue)
  }

  /** A text goes into the field of its type and nowhere else; a string goes there as it is. */
  lemma StoreKeeps(p: ServiceParam, t: ParamType, text: string)
    ensures OnlyValueChanged(p, t, Store(p, t, text))
    ensures t == StringParam ==> Store(p, t, text).stringValue == text
  {
  }

  /** Params[name] creates a blank entry for a name that is not there. */
  function Entry(ps: ParamMap, name: string): ServiceParam {
    if name in ps then ps[name] else BLANK
  }

  datatype Filling = Filled(params: ParamMap) | Threw(params: ParamMap)

  /** One argument. */
  function FillOne(info: ParamMap, params: ParamMap, i: int, token: string): Filling {
    match SlotOf(info, i)
    case None => Filled(params)
    case Some(k) =>
      match Decode(token)
      case Failure(_) => Threw(params)
      case Success(text) =>
        var p := info[k];
        Filled(params[p.paramName := Store(Entry(params, p.paramName), p.paramType, text)])
  }

  /** The first n arguments; decoding may throw, and what was stored before stays. */
  function Fill(info: ParamMap, params: ParamMap, tokens: seq<string>, n: nat): Filling
    requires n <= |tokens|
  {
    if n == 0 then Filled(params)
    else match Fill(info, params, tokens, n - 1)
         case Threw(p) => Threw(p)
         case Filled(p) => FillOne(info, p, n - 1, tokens[n - 1])
  }

  datatype CallResult = NoSuchService | NoServiceInfo | WrongCount | DecodeThrew | Executed

  /** A service object; `runs` is what execute has seen in Params, call by call. */
  class Service {
    var params: ParamMap
    var runs: seq<ParamMap>

    constructor ()
      ensures params == map[] && runs == []
    {
      params, runs := map[], [];
    }

    method Execute()
      modifies this`runs
      ensures runs == old(runs) + [params]
    {
      runs := runs + [params];
    }
  }

  function FindInfo(v: seq<InfoRecord>, name: string): Option<ParamMap> {
    if v == [] then None
    else if v[0].name == name then Some(v[0].params)
    else FindInfo(v[1..], name)
  }

  /** The first entry of the name is found, and nothing only if there is none. */
  lemma {:induction false} FoundIff(v: seq<InfoRecord>, name: string)
    ensures FindInfo(v, name) == None <==> forall i | 0 <= i < |v| :: v[i].name != name
    ensures forall i | 0 <= i < |v| && v[i].name == name && (forall j | 0 <= j < i :: v[j].name != name) ::
              FindInfo(v, name) == Some(v[i].params)
    decreases |v|
  {
    if v != [] {
      FoundIff(v[1..], name);
    }
  }

  /** No service of the class has this name. */
  predicate NoInfo(serviceMap: map<string, seq<InfoRecord>>, className: string, name: string) {
    var v := ListOf(serviceMap, className);
    forall i | 0 <= i < |v| :: v[i].name != name
  }

  function ListOf(serviceMap: map<string, seq<InfoRecord>>, className: string): seq<InfoRecord> {
    if className in serviceMap then serviceMap[className] else []
  }

  function InfoOf(serviceMap: map<string, seq<InfoRecord>>, className: string, name: string): Option<ParamMap> {
    if className in serviceMap then FindInfo(serviceMap[className], name) else None
  }

  /** What a call does, given the declared parameters and the service's own. */
  function Outcome(info: Option<ParamMap>, params: ParamMap, text: string): (CallResult, ParamMap) {
    if info.None? then (NoServiceInfo, params)
    else
      var tokens := Tokens(text, ',');
      if |info.value| != |tokens| then (WrongCount, params)
      else match Fill(info.value, params, tokens, |tokens|)
           case Threw(p) => (DecodeThrew, p)
           case Filled(p) => (Executed, p)
  }

  class ControlObject {
    const className: string
    var serviceMap: map<string, seq<InfoRecord>>
    var services: map<string, Service>

    constructor (className: string)
      ensures this.className == className && serviceMap == map[] && services == map[]
    {
      this.className := className;
      serviceMap, services := map[], map[];
    }

    /** REG_SERVICEINFO_LIST: the list of a class, in place of any earlier one. */
    method RegisterList(owner: string, list: seq<InfoRecord>)
      modifies this`serviceMap
      ensures serviceMap == old(serviceMap)[owner := list]
    {
      serviceMap := serviceMap[owner := list];
    }

    /** registerService: one more entry at the end of a class's list. */
    method RegisterService(className: string, info: InfoRecord)
      modifies this`serviceMap
      ensures serviceMap == old(serviceMap)[className := ListOf(old(serviceMap), className) + [info]]
    {
      if className in serviceMap {
        serviceMap := serviceMap[className := serviceMap[className] + [info]];
      } else {
        assert [] + [info] == [info];
        serviceMap := serviceMap[className := [info]];
      }
    }

    method FindServiceInfo(serviceName: string) returns (info: Option<ParamMap>)
      ensures info == InfoOf(serviceMap, className, serviceName)
    {
      info := None;
      if className in serviceMap {
        var v := serviceMap[className];
        var i := 0;
        while i < |v|
          invariant 0 <= i <= |v|
          invariant FindInfo(v, serviceName) == FindInfo(v[i..], serviceName)
        {
          assert v[i..][1..] == v[i + 1..];
          if v[i].name == serviceName {
            return Some(v[i].params);
          }
          i := i + 1;
        }
        assert v[i..] == [];
      }
    }

    /** The inner loop of call: search the declared parameters for index i and store. */
    method StoreArgument(service: Service, info: ParamMap, i: int, token: string) returns (ok: bool)
      modifies service`params
      ensures FillOne(info, old(service.params), i, token) ==
              if ok then Filled(service.params) else Threw(service.params)
    {
      var keys := Ordered(info.Keys);
      var j := 0;
      while j < |keys|
        invariant 0 <= j <= |keys|
        invariant service.params == old(service.params)
        invariant SlotOf(info, i) == Slot(keys[j..], info, i)
      {
        assert keys[j..][1..] == keys[j + 1..];
        var p := info[keys[j]];
        if i == p.paramIndex {
          var text := DecodeData(token);
          if text.Failure? {
            return false;
          }
          var entry := if p.paramName in service.params then service.params[p.paramName] else BLANK;
          match p.paramType {
            case IntParam => entry := entry.(intValue := Atoi(text.value));
            case DoubleParam => entry := entry.(doubleValue := Atof(text.value));
            case StringParam => entry := entry.(stringValue := text.value);
          }
          service.params := service.params[p.paramName := entry];
          return true;
        }
        j := j + 1;
      }
      assert keys[j..] == [];
      return true;
    }

    /** The outer loop of call: every argument in turn, until one throws. */
    method StoreArguments(service: Service, info: ParamMap, tokens: seq<string>) returns (ok: bool)
      modifies service`params
      ensures Fill(info, old(service.params), tokens, |tokens|) ==
              if ok then Filled(service.params) else Threw(service.params)
    {
      ghost var before := service.params;
      var i := 0;
      while i < |tokens|
        invariant 0 <= i <= |tokens|
        invariant Fill(info, before, tokens, i) == Filled(service.params)
      {
        ok := StoreArgument(service, info, i, tokens[i]);
        if !ok {
          ThrewStays(info, before, tokens, i + 1, |tokens|);
          return false;
        }
        i := i + 1;
      }
      return true;
    }

    /** call(serviceName, params). */
    method Call(serviceName: string, text: string) returns (r: CallResult)
      requires !AllSpaces(text)
      modifies services.Values
      ensures serviceName !in services ==> r == NoSuchService
      ensures serviceName in services ==>
                var s := services[serviceName];
                var (result, params) := Outcome(InfoOf(serviceMap, className, serviceName), old(s.params), text);
                && r == result && s.params == params
                && s.runs == if result == Executed then old(s.runs) + [params] else old(s.runs)
      ensures forall s | s in services.Values && (serviceName !in services || s != services[serviceName]) ::
                s.params == old(s.params) && s.runs == old(s.runs)
      ensures serviceName in services && NoInfo(serviceMap, className, serviceName) ==>
                var s := services[serviceName];
                r == NoServiceInfo && s.params == old(s.params) && s.runs == old(s.runs)
    {
      FoundIff(ListOf(serviceMap, className), serviceName);
      var info := FindServiceInfo(serviceName);
      if serviceName !in services {
        return NoSuchService;
      }
      var service := services[serviceName];
      if info.None? {
        return NoServiceInfo;
      }
      var tokens := Split(text, ',');
      if |info.value| != |tokens| {
        return WrongCount;
      }
      var ok := StoreArguments(service, info.value, tokens);
      if !ok {
        return DecodeThrew;
      }
      service.Execute();
      return Executed;
    }
  }

  lemma {:induction false} ThrewStays(info: ParamMap, params: ParamMap, tokens: seq<string>, i: nat, n: nat)
    requires i <= n <= |tokens| && Fill(info, params, tokens, i).Threw?
    ensures Fill(info, params, tokens, n) == Fill(info, params, tokens, i)
    decreases n - i
  {
    if i < n {
      ThrewStays(info, params, tokens, i, n - 1);
    }
  }
}
