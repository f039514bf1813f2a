/**
 The declaration macros of a control object's class: what the service table that call looks a
 service up in holds after any run of them.
 */
module ServiceTables {
  import opened Wrappers
  import opened Services
  import opened ArgumentPassing

  /** ADD_SERVICE_INFO and ADD_PARAM_INFO, with the type already recognised. */
  datatype Macro =
    | AddService(service: string)
    | AddParam(service: string, declaration: Declaration)

  /** The static ServiceInfo of every service, and the static list of the class. */
  datatype Tables = Tables(infos: map<string, ParamMap>, list: seq<InfoRecord>)

  function ParamsIn(infos: map<string, ParamMap>, service: string): ParamMap {
    if service in infos then infos[service] else map[]
  }

  function Expand(t: Tables, m: Macro): Tables {
    match m
    case AddService(s) => t.(list := Listed(t.list, InfoRecord(s, ParamsIn(t.infos, s))))
    case AddParam(s, d) =>
      var params := Declared(ParamsIn(t.infos, s), d.0, d.1);
      Tables(t.infos[s := params], Put(t.list, InfoRecord(s, params)))
  }

  function ExpandAll(ms: seq<Macro>): Tables
    decreases |ms|
  {
    if ms == [] then Tables(map[], []) else Expand(ExpandAll(ms[..|ms| - 1]), ms[|ms| - 1])
  }

  /** The parameters declared for one service, in order. */
  function DeclaredFor(ms: seq<Macro>, service: string): seq<Declaration>
    decreases |ms|
  {
    if ms == [] then []
    else
      var ds, m := DeclaredFor(ms[..|ms| - 1], service), ms[|ms| - 1];
      if m.AddParam? && m.service == service then ds + [m.declaration] else ds
  }

  predicate Mentions(ms: seq<Macro>, service: string) {
    exists i | 0 <= i < |ms| :: ms[i].service == service
  }

  /** Putting an entry in place changes what is found under its name only. */
  lemma {:induction false} PutFinds(v: seq<InfoRecord>, info: InfoRecord, name: string)
    ensures FindInfo(Put(v, info), name) == if name == info.name then Some(info.params) else FindInfo(v, name)
    decreases |v|
  {
    if v != [] && v[0].name != info.name {
      PutFinds(v[1..], info, name);
    }
  }

  /** registerService of a name that is in the list already has no effect on calls. */
  lemma {:induction false} AppendFinds(v: seq<InfoRecord>, info: InfoRecord, name: string)
    ensures FindInfo(v + [info], name) ==
            if FindInfo(v, name).Some? then FindInfo(v, name)
            else if name == info.name then Some(info.params) else None
    decreases |v|
  {
    if v != [] {
      AppendFinds(v[1..], info, name);
      assert (v + [info])[1..] == v[1..] + [info];
    }
  }

  /** However the macros of a class's services are interleaved, the table holds for each service
      it mentions exactly the parameters declared for it, in their order of declaration. */
  lemma {:induction false} TableHolds(ms: seq<Macro>, s: string)
    ensures ParamsIn(ExpandAll(ms).infos, s) == DeclareAll(DeclaredFor(ms, s))
    ensures FindInfo(ExpandAll(ms).list, s) == if Mentions(ms, s) then Some(DeclareAll(DeclaredFor(ms, s))) else None
    decreases |ms|
  {
    if ms != [] {
      var front, m := ms[..|ms| - 1], ms[|ms| - 1];
      assert ms == front + [m];
      var t := ExpandAll(front);
      TableHolds(front, s);
      assert Mentions(ms, s) <==> Mentions(front, s) || m.service == s;
      match m {
        case AddService(q) =>
          AppendFinds(t.list, InfoRecord(q, ParamsIn(t.infos, q)), s);
        case AddParam(q, d) =>
          PutFinds(t.list, InfoRecord(q, Declared(ParamsIn(t.infos, q), d.0, d.1)), s);
      }
    }
  }

  /** A service declared by the macros, with no parameter named twice, once its class is
      registered: call with as many clean arguments executes it with argument i in the
      parameter declared i-th for it, whatever other services the class declares. */
  lemma DeclaredServiceExecutes(ms: seq<Macro>, serviceMap: map<string, seq<InfoRecord>>, owner: string, s: string,
                                before: ParamMap, args: seq<string>)
    requires Mentions(ms, s) && DistinctNames(DeclaredFor(ms, s)) && |DeclaredFor(ms, s)| == |args| && Clean(args)
    ensures var info := InfoOf(serviceMap[owner := ExpandAll(ms).list], owner, s);
            var (result, after) := Outcome(info, before, ArgumentText(args));
            result == Executed && Holding(DeclaredFor(ms, s), before, args, after)
  {
    TableHolds(ms, s);
    ArgumentsArrive(DeclaredFor(ms, s), before, args);
  }
}
