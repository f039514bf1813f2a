/**
 ObjectManager: registration of data points with the prefix index beside the flat map, the
 binding of channels to drivers at start, and the poll sweep over all channels.
 */
module ObjectManager {
  import opened Wrappers
  import opened Tokenizer
  import opened Text
  import opened OrderedKeys
  import opened Channels
  import opened NamespaceIndex

  datatype RegisterError = NoLeadingSlash | RootName | AlreadyRegistered

  /** A ControlObject in the object map, as far as startNamespace looks at it. */
  datatype ControlEntity = DriverEntity(driver: Driver) | OtherEntity

  /** The children recorded under one index key. */
  class NodeName {
    var nodeList: map<string, string>

    constructor ()
      ensures nodeList == map[]
    {
      nodeList := map[];
    }

    method AddNodeName(nodeName: string)
      modifies this
      ensures nodeList.Keys == old(nodeList.Keys) + {nodeName}
    {
      if nodeName !in nodeList {
        nodeList := nodeList[nodeName := nodeName];
      }
    }

    /** The children in map order. */
    method GetNodeList() returns (list: seq<string>)
      ensures list == Ordered(nodeList.Keys)
    {
      list := [];
      var keys := Ordered(nodeList.Keys);
      for i := 0 to |keys|
        invariant list == keys[..i]
      {
        list := list + [keys[i]];
      }
    }
  }

  /** The answer to a registration attempt when these names are taken. */
  function Verdict(taken: set<string>, hasData: bool, name: string): Result<bool, RegisterError> {
    if !hasData || name == "" then Success(false)
    else if name[0] != '/' then Failure(NoLeadingSlash)
    else if name == "/" then Failure(RootName)
    else if name in taken then Failure(AlreadyRegistered)
    else Success(true)
  }

  /** The index with one more child, unless the component is empty. */
  function WithChild(ix: Index, key: string, c: string): Index {
    if c == "" then ix else ix[key := Children(ix, key) + {c}]
  }

  // ---------- specification of binding and polling ----------

  /** What registChannels does to a channel of its driver's node. */
  function BoundConfig(kind: Kind, c: Config, d: Driver): Config {
    match kind
    case Kind(IntData, ReadOnly) => c.(readHandler := ReadInt, driver := Some(d))
    case Kind(DoubleData, ReadOnly) => c.(readHandler := ReadDouble, driver := Some(d))
    case Kind(StringData, ReadOnly) => c.(readHandler := ReadString, driver := Some(d))
    case Kind(IntData, ReadWrite) => c.(readHandler := ReadInt, writeHandler := WriteInt, driver := Some(d))
    case Kind(DoubleData, ReadWrite) => c.(readHandler := ReadDouble, writeHandler := WriteDouble, driver := Some(d))
    case Kind(StringData, ReadWrite) => c.(readHandler := ReadString, writeHandler := WriteString, driver := Some(d))
    case _ => c
  }

  /** The configuration after the drivers have run, given the last one of the channel's node. */
  function Matched(kind: Kind, c: Config, last: Option<Driver>): Config {
    if c.nodeNumber != 0 && c.channelNumber != 0 && last.Some? then BoundConfig(kind, c, last.value) else c
  }

  /** The last driver of a node among the named entities. */
  ghost function LastDriver(names: seq<string>, es: map<string, ControlEntity>, node: int): Option<Driver>
    requires forall n | n in names :: n in es
    decreases |names|
  {
    if names == [] then None
    else
      var e := es[names[|names| - 1]];
      if e.DriverEntity? && e.driver.nodeNumber == node then Some(e.driver)
      else LastDriver(names[..|names| - 1], es, node)
  }

  ghost predicate DriverOf(es: map<string, ControlEntity>, n: string, node: int)
  {
    n in es && es[n].DriverEntity? && es[n].driver.nodeNumber == node
  }

  /** Of the named drivers of a node, n has the greatest name. */
  ghost predicate GreatestDriver(names: seq<string>, es: map<string, ControlEntity>, node: int, n: string) {
    n in names && DriverOf(es, n, node) && forall m | m in names && DriverOf(es, m, node) :: m == n || Less(m, n)
  }

  /** In map order the last driver of a node is the one with the greatest name. */
  lemma {:induction false} LastDriverIsGreatest(names: seq<string>, es: map<string, ControlEntity>, node: int)
    requires Ascending(names) && forall n | n in names :: n in es
    ensures match LastDriver(names, es, node)
            case None => forall n | n in names :: !DriverOf(es, n, node)
            case Some(d) => exists n :: GreatestDriver(names, es, node, n) && es[n].driver == d
    decreases |names|
  {
    if names != [] {
      var front, last := names[..|names| - 1], names[|names| - 1];
      assert names == front + [last];
      if DriverOf(es, last, node) {
        assert forall m | m in front :: Less(m, last);
        assert GreatestDriver(names, es, node, last);
      } else {
        LastDriverIsGreatest(front, es, node);
        if LastDriver(front, es, node).Some? {
          var n :| GreatestDriver(front, es, node, n) && es[n].driver == LastDriver(front, es, node).value;
          assert GreatestDriver(names, es, node, n);
        }
      }
    }
  }

  /** All channel states after the visits of a sweep, in name order; a channel known by
      several names is visited once by each. */
  ghost function Visited(states: map<Channel, State>, configs: map<Channel, Config>, names: seq<string>,
                         datas: map<string, Channel>, readings: map<string, Reading>): (r: map<Channel, State>)
    requires forall n | n in names :: n in datas && n in readings && datas[n] in states && datas[n] in configs
    ensures r.Keys == states.Keys
    decreases |names|
  {
    if names == [] then states
    else
      var n := names[|names| - 1];
      var r := Visited(states, configs, names[..|names| - 1], datas, readings);
      var ch := datas[n];
      r[ch := PolledBy(ch.kind, r[ch], configs[ch], readings[n])]
  }

  lemma VisitedSnoc(states: map<Channel, State>, configs: map<Channel, Config>, names: seq<string>,
                    datas: map<string, Channel>, readings: map<string, Reading>, i: nat)
    requires forall n | n in names :: n in datas && n in readings && datas[n] in states && datas[n] in configs
    requires i < |names|
    ensures var r, ch := Visited(states, configs, names[..i], datas, readings), datas[names[i]];
            Visited(states, configs, names[..i + 1], datas, readings) ==
            r[ch := PolledBy(ch.kind, r[ch], configs[ch], readings[names[i]])]
  {
    assert names[..i + 1][..i] == names[..i];
  }

  ghost function PolledBy(kind: Kind, s: State, c: Config, r: Reading): State {
    Polled(kind, s, c.simulated, c.readHandler != NoHandler && c.driver.Some?, r)
  }

  /** Binding the named channels to one driver, one after another. */
  ghost function BoundAll(configs: map<Channel, Config>, ds: map<string, Channel>, names: seq<string>, d: Driver)
    : (r: map<Channel, Config>)
    requires forall n | n in names :: n in ds && ds[n] in configs
    ensures r.Keys == configs.Keys
    decreases |names|
  {
    if names == [] then configs
    else
      var r := BoundAll(configs, ds, names[..|names| - 1], d);
      var ch := ds[names[|names| - 1]];
      r[ch := BoundConfig(ch.kind, r[ch], d)]
  }

  lemma BoundAllSnoc(configs: map<Channel, Config>, ds: map<string, Channel>, names: seq<string>, d: Driver, i: nat)
    requires forall n | n in names :: n in ds && ds[n] in configs
    requires i < |names|
    ensures var r, ch := BoundAll(configs, ds, names[..i], d), ds[names[i]];
            BoundAll(configs, ds, names[..i + 1], d) == r[ch := BoundConfig(ch.kind, r[ch], d)]
  {
    assert names[..i + 1][..i] == names[..i];
  }

  lemma {:induction false} BoundAllAt(configs: map<Channel, Config>, ds: map<string, Channel>, names: seq<string>,
                                      d: Driver, ch: Channel)
    requires forall n | n in names :: n in ds && ds[n] in configs
    requires ch in configs
    ensures BoundAll(configs, ds, names, d)[ch] ==
            if exists n | n in names :: ds[n] == ch then BoundConfig(ch.kind, configs[ch], d) else configs[ch]
    decreases |names|
  {
    if names != [] {
      var front, last := names[..|names| - 1], names[|names| - 1];
      assert names == front + [last];
      BoundAllAt(configs, ds, front, d, ch);
    }
  }

  predicate NodeConfig(c: Config, node: int) {
    c.nodeNumber != 0 && c.channelNumber != 0 && c.nodeNumber == node
  }

  /** Binding every channel of one node. */
  ghost function BoundNode(configs: map<Channel, Config>, d: Driver, node: int): map<Channel, Config> {
    map ch | ch in configs ::
      if NodeConfig(configs[ch], node) then BoundConfig(ch.kind, configs[ch], d) else configs[ch]
  }

  lemma BoundAllIsNode(configs: map<Channel, Config>, ds: map<string, Channel>, names: seq<string>,
                       d: Driver, node: int)
    requires forall n | n in names :: n in ds && ds[n] in configs
    requires forall ch | ch in configs :: (exists n | n in names :: ds[n] == ch) <==> NodeConfig(configs[ch], node)
    ensures BoundAll(configs, ds, names, d) == BoundNode(configs, d, node)
  {
    forall ch | ch in configs
      ensures BoundAll(configs, ds, names, d)[ch] == BoundNode(configs, d, node)[ch]
    {
      BoundAllAt(configs, ds, names, d, ch);
    }
  }

  /** All configurations after the named entities have run: each by the last driver of its node. */
  ghost function Started(configs: map<Channel, Config>, names: seq<string>, es: map<string, ControlEntity>)
    : map<Channel, Config>
    requires forall n | n in names :: n in es
  {
    map ch | ch in configs :: Matched(ch.kind, configs[ch], LastDriver(names, es, configs[ch].nodeNumber))
  }

  lemma StartedSnoc(configs: map<Channel, Config>, names: seq<string>, es: map<string, ControlEntity>, i: nat)
    requires i < |names| && forall n | n in names :: n in es
    ensures var e, now := es[names[i]], Started(configs, names[..i], es);
            Started(configs, names[..i + 1], es) ==
            if e.DriverEntity? then BoundNode(now, e.driver, e.driver.nodeNumber) else now
  {
    assert names[..i + 1][..i] == names[..i];
    var e, now := es[names[i]], Started(configs, names[..i], es);
    forall ch | ch in configs && e.DriverEntity?
      ensures Started(configs, names[..i + 1], es)[ch] == BoundNode(now, e.driver, e.driver.nodeNumber)[ch]
    {
      Rebind(ch.kind, configs[ch], LastDriver(names[..i], es, configs[ch].nodeNumber), e.driver);
    }
  }

  lemma Rebind(kind: Kind, c: Config, last: Option<Driver>, d: Driver)
    ensures Matched(kind, Matched(kind, c, last), Some(d)) == Matched(kind, c, Some(d))
    ensures Matched(kind, c, None) == c
    ensures Matched(kind, c, last).nodeNumber == c.nodeNumber
  {
  }

  ghost predicate HaveConfigs(m: map<Channel, Config>)
    reads m.Keys
  {
    forall ch | ch in m :: ch.C() == m[ch]
  }

  ghost predicate HaveStates(m: map<Channel, State>)
    reads m.Keys
  {
    forall ch | ch in m :: ch.S() == m[ch]
  }

  // ---------- the loop of execute ----------

  method PollStep(data: Channel, r: Reading, ghost configs: map<Channel, Config>, ghost states: map<Channel, State>)
    requires data in states && data in configs && HaveConfigs(configs) && HaveStates(states)
    modifies data
    ensures HaveConfigs(configs) && HaveStates(states[data := PolledBy(data.kind, states[data], configs[data], r)])
  {
    data.Poll(r);
  }

  /** The visit to the i-th name. */
  method PollNamed(ds: map<string, Channel>, names: seq<string>, i: nat, readings: map<string, Reading>,
                   ghost configs: map<Channel, Config>, ghost states: map<Channel, State>)
    requires forall n | n in names :: n in ds && n in readings && ds[n] in states && ds[n] in configs
    requires i < |names| && HaveConfigs(configs) && HaveStates(Visited(states, configs, names[..i], ds, readings))
    modifies ds[names[i]]
    ensures HaveConfigs(configs) && HaveStates(Visited(states, configs, names[..i + 1], ds, readings))
  {
    VisitedSnoc(states, configs, names, ds, readings, i);
    PollStep(ds[names[i]], readings[names[i]], configs, Visited(states, configs, names[..i], ds, readings));
  }

  /** The loop over the names. */
  method PollNames(ds: map<string, Channel>, names: seq<string>, readings: map<string, Reading>,
                   ghost channels: set<Channel>, ghost configs: map<Channel, Config>, ghost states: map<Channel, State>)
    requires forall n | n in names ::
               n in ds && n in readings && ds[n] in states && ds[n] in configs && ds[n] in channels
    requires HaveConfigs(configs) && HaveStates(states)
    modifies channels
    ensures HaveConfigs(configs) && HaveStates(Visited(states, configs, names, ds, readings))
  {
    var i := 0;
    assert names[..i] == [];
    while i < |names|
      invariant 0 <= i <= |names|
      invariant HaveConfigs(configs) && HaveStates(Visited(states, configs, names[..i], ds, readings))
    {
      assert names[i] in names;
      PollNamed(ds, names, i, readings, configs, states);
      i := i + 1;
    }
    assert names[..i] == names;
  }

  /** One turn over a map of channels in name order, whatever the drivers answer. */
  method PollAll(ds: map<string, Channel>, readings: map<string, Reading>,
                 ghost configs: map<Channel, Config>, ghost states: map<Channel, State>)
    requires ds.Keys <= readings.Keys
    requires configs.Keys == states.Keys == ds.Values && HaveConfigs(configs) && HaveStates(states)
    modifies ds.Values
    ensures HaveConfigs(configs) && HaveStates(Visited(states, configs, Ordered(ds.Keys), ds, readings))
  {
    var names := Ordered(ds.Keys);
    forall n | n in names
      ensures n in ds && n in readings && ds[n] in ds.Values
    {
      assert n in ds.Keys;
    }
    PollNames(ds, names, readings, ds.Values, configs, states);
  }

  class ObjectManager {
    var entities: map<string, ControlEntity>
    var datas: map<string, Channel>
    var dataNodeNames: map<string, NodeName>
    ghost var registered: set<string>   // the names registerObject accepted; aliases are not among them
    ghost var index: Index              // what the node objects hold
    ghost var nodes: set<NodeName>      // all node objects

    /** The node objects hold exactly this index. */
    ghost predicate Represents(ix: Index)
      reads this`dataNodeNames, this`nodes, nodes
    {
      && dataNodeNames.Keys == ix.Keys
      && forall key | key in dataNodeNames :: dataNodeNames[key] in nodes && dataNodeNames[key].nodeList.Keys == ix[key]
    }

    ghost predicate Separate()
      reads this`dataNodeNames
    {
      forall j, k | j in dataNodeNames && k in dataNodeNames && j != k :: dataNodeNames[j] != dataNodeNames[k]
    }

    /** The index is the one recomputed from the registered names. */
    ghost predicate Indexed()
      reads this`registered, this`index, this`dataNodeNames, this`nodes, nodes
    {
      Separate() && Represents(index) && index == IndexOf(registered)
    }

    ghost predicate Valid()
      reads this, nodes
    {
      registered <= datas.Keys && Indexed()
    }

    constructor ()
      ensures Valid() && datas == map[] && registered == {} && entities == map[]
    {
      entities, datas, dataNodeNames := map[], map[], map[];
      registered, index, nodes := {}, map[], {};
      assert IndexOf({}) == map[];
    }

    // ---------- names ----------

    /** Records one component under a key, creating the key's node on first use. */
    method AddChild(key: string, c: string, ghost ix: Index)
      requires Separate() && Represents(ix)
      modifies this`dataNodeNames, this`nodes, nodes
      ensures Separate() && fresh(nodes - old(nodes))
      ensures Represents(ix[key := Children(ix, key) + {c}])
    {
      if key !in dataNodeNames {
        var node := new NodeName();
        node.AddNodeName(c);
        dataNodeNames := dataNodeNames[key := node];
        nodes := nodes + {node};
      } else {
        dataNodeNames[key].AddNodeName(c);
      }
    }

    /** One turn of the loop: an empty token is skipped. */
    method IndexToken(nodeName: string, token: string, ghost ix: Index) returns (nodeName': string)
      requires Separate() && Represents(ix)
      modifies this`dataNodeNames, this`nodes, nodes
      ensures Separate() && fresh(nodes - old(nodes))
      ensures nodeName' == if token == "" then nodeName else nodeName + token + "/"
      ensures Represents(WithChild(ix, nodeName, token))
    {
      nodeName' := nodeName;
      if token != "" {
        AddChild(nodeName, token, ix);
        nodeName' := nodeName + token + "/";
      }
    }

    /** The loop of registerObject over the tokens of an accepted name. */
    method IndexTokens(nodeNames: seq<string>, ghost ix: Index)
      requires Separate() && Represents(ix)
      modifies this`dataNodeNames, this`nodes, nodes
      ensures Separate() && fresh(nodes - old(nodes))
      ensures Represents(Inserted(ix, NonEmpty(nodeNames)))
    {
      var nodeName := "/";
      ghost var now, path := ix, [];
      var i := 0;
      while i < |nodeNames|
        invariant 0 <= i <= |nodeNames| && path == NonEmpty(nodeNames[..i])
        invariant Separate() && fresh(nodes - old(nodes))
        invariant nodeName == Key(path) && now == Inserted(ix, path)
        invariant Represents(now)
      {
        ghost var next := NonEmpty(nodeNames[..i + 1]);
        NonEmptySnoc(nodeNames, i);
        InsertedSnoc(ix, path, nodeNames[i], next);
        nodeName := IndexToken(nodeName, nodeNames[i], now);
        path, now := next, WithChild(now, Key(path), nodeNames[i]);
        i := i + 1;
      }
      assert nodeNames[..i] == nodeNames;
    }

    method EnterNodes(fullName: string)
      requires Separate() && Represents(index) && fullName != "" && fullName[0] == '/'
      modifies this`dataNodeNames, this`index, this`nodes, nodes
      ensures Separate() && Represents(index) && index == Inserted(old(index), Components(fullName))
      ensures fresh(nodes - old(nodes))
    {
      var nodeNames := ConverterSplit(fullName, '/');
      IndexTokens(nodeNames, index);
      index := Inserted(index, NonEmpty(nodeNames));
    }

    /** The index part of registerObject for a name it accepts. */
    method EnterName(fullName: string)
      requires Indexed() && Acceptable(fullName)
      modifies this`dataNodeNames, this`registered, this`index, this`nodes, nodes
      ensures Indexed() && registered == old(registered) + {fullName}
      ensures fresh(nodes - old(nodes))
    {
      EnterNodes(fullName);
      InsertIntoIndex(registered, fullName);
      registered := registered + {fullName};
    }

    /** What registerObject does with a name it accepts. */
    method Enter(data: Channel, fullName: string)
      requires Valid() && Acceptable(fullName) && fullName !in datas
      modifies this`datas, this`dataNodeNames, this`registered, this`index, this`nodes, nodes
      ensures Valid() && fresh(nodes - old(nodes))
      ensures datas == old(datas)[fullName := data] && registered == old(registered) + {fullName}
    {
      datas := datas[fullName := data];
      EnterName(fullName);
    }

    /** registerObject for a data point; Success(false) is the silent refusal of a null object
        or an empty name. */
    method RegisterData(data: Option<Channel>, fullName: string) returns (r: Result<bool, RegisterError>)
      requires Valid()
      modifies this`datas, this`dataNodeNames, this`registered, this`index, this`nodes, nodes
      ensures Valid() && fresh(nodes - old(nodes))
      ensures r == Verdict(old(datas).Keys, data.Some?, fullName)
      ensures r == Success(true) <==> data.Some? && Acceptable(fullName) && fullName !in old(datas)
      ensures r == Success(false) <==> data.None? || fullName == ""
      ensures r == Failure(NoLeadingSlash) <==> data.Some? && fullName != "" && fullName[0] != '/'
      ensures r == Failure(RootName) <==> data.Some? && fullName == "/"
      ensures r == Failure(AlreadyRegistered) <==> data.Some? && Acceptable(fullName) && fullName in old(datas)
      ensures r == Success(true) ==>
                datas == old(datas)[fullName := data.value] && registered == old(registered) + {fullName}
      ensures r != Success(true) ==>
                datas == old(datas) && registered == old(registered)
    {
      if data.None? {
        return Success(false);
      }
      if fullName == "" {
        return Success(false);
      }
      if fullName[0] != '/' {
        return Failure(NoLeadingSlash);
      }
      if fullName == "/" {
        return Failure(RootName);
      }
      if fullName in datas {
        return Failure(AlreadyRegistered);
      }
      Enter(data.value, fullName);
      return Success(true);
    }

    /** Any run of registrations, refused ones included: the flat map gains exactly the acceptable
        names that were free, each with the first object it came with, and the index is the one
        that AttemptsIndexNames speaks of. */
    method RegisterAll(attempts: seq<Attempt>)
      requires Valid()
      modifies this`datas, this`dataNodeNames, this`registered, this`index, this`nodes, nodes
      ensures Valid() && fresh(nodes - old(nodes))
      ensures registered == old(registered) + (AcceptableOf(NamesOf(attempts)) - old(datas).Keys)
      ensures datas == EnteredAll(old(datas), attempts)
      ensures index == AfterAttempts(old(index), old(datas).Keys, NamesOf(attempts))
    {
      var i := 0;
      while i < |attempts|
        invariant 0 <= i <= |attempts|
        invariant Valid() && fresh(nodes - old(nodes))
        invariant registered + (AcceptableOf(NamesOf(attempts[i..])) - datas.Keys) ==
                  old(registered) + (AcceptableOf(NamesOf(attempts)) - old(datas).Keys)
        invariant EnteredAll(datas, attempts[i..]) == EnteredAll(old(datas), attempts)
        invariant AfterAttempts(index, datas.Keys, NamesOf(attempts[i..])) ==
                  AfterAttempts(old(index), old(datas).Keys, NamesOf(attempts))
      {
        ghost var rest, a := attempts[i + 1..], attempts[i];
        assert attempts[i..] == [a] + rest;
        AttemptFirst(index, registered, datas, a, rest);
        var r := RegisterData(attempts[i].data, attempts[i].fullName);
        i := i + 1;
      }
      assert attempts[i..] == [];
    }

    /** createAlias for a data point: whatever it prints, it inserts unless the alias exists,
        and never touches the index. */
    method CreateAlias(data: Option<Channel>, alias: string) returns (warned: bool)
      requires Valid()
      modifies this`datas
      ensures Valid()
      ensures datas == if data.None? || alias == "" || alias in old(datas) then old(datas)
                       else old(datas)[alias := data.value]
      ensures warned <==> data.Some? && alias != "" && (alias in old(datas) || data.value !in old(datas).Values)
    {
      warned := false;
      if data.None? || alias == "" {
        return;
      }
      if alias in datas {
        warned := true;
      } else {
        var objectExist := false;
        var names := Ordered(datas.Keys);
        var i := 0;
        while i < |names| && !objectExist
          invariant 0 <= i <= |names|
          invariant objectExist <==> exists j | 0 <= j < i :: datas[names[j]] == data.value
        {
          objectExist := datas[names[i]] == data.value;
          i := i + 1;
        }
        assert objectExist <==> data.value in datas.Values by {
          if data.value in datas.Values {
            var n :| n in datas && datas[n] == data.value;
            assert n in names;
          }
        }
        warned := !objectExist;
      }
      if alias !in datas {
        datas := datas[alias := data.value];
      }
    }

    /** The children under a key, in map order; none for an unknown key. */
    method GetChannelNodeList(node: string) returns (list: seq<string>)
      requires Valid()
      ensures list == Ordered(Children(IndexOf(registered), node))
    {
      if node in dataNodeNames {
        list := dataNodeNames[node].GetNodeList();
      } else {
        list := [];
      }
    }

    // ---------- binding ----------

    static predicate OfNode(ch: Channel, nodeNumber: int)
      reads ch`nodeNumber, ch`channelNumber
    {
      ch.nodeNumber != 0 && ch.channelNumber != 0 && ch.nodeNumber == nodeNumber
    }

    /** getDatas(int): the named channels of one node. */
    method GetDatas(nodeNumber: int) returns (res: map<string, Channel>)
      ensures forall n :: n in res <==> n in datas && OfNode(datas[n], nodeNumber)
      ensures forall n | n in res :: res[n] == datas[n]
    {
      res := map[];
      var names := Ordered(datas.Keys);
      for i := 0 to |names|
        invariant forall n :: n in res <==> n in names[..i] && OfNode(datas[n], nodeNumber)
        invariant forall n | n in res :: res[n] == datas[n]
      {
        var ch := datas[names[i]];
        assert names[..i + 1] == names[..i] + [names[i]];
        if ch.nodeNumber != 0 && ch.channelNumber != 0 && ch.nodeNumber == nodeNumber {
          res := res[names[i] := ch];
        }
      }
      assert names[..|names|] == names;
    }

    /** One row of the table in registChannels. */
    method BindChannel(data: Channel, d: Driver)
      modifies data`driver, data`readHandler, data`writeHandler
      ensures data.C() == BoundConfig(data.kind, old(data.C()), d)
    {
      var dataType, accessMode := data.kind.dataType, data.kind.accessMode;
      if dataType == IntData && accessMode == ReadOnly {
        data.RegistChannelRead(ReadInt, d);
      } else if dataType == DoubleData && accessMode == ReadOnly {
        data.RegistChannelRead(ReadDouble, d);
      } else if dataType == StringData && accessMode == ReadOnly {
        data.RegistChannelRead(ReadString, d);
      } else if dataType == IntData && accessMode == ReadWrite {
        data.RegistChannelRead(ReadInt, d);
        data.RegistChannelWrite(WriteInt, d);
      } else if dataType == DoubleData && accessMode == ReadWrite {
        data.RegistChannelRead(ReadDouble, d);
        data.RegistChannelWrite(WriteDouble, d);
      } else if dataType == StringData && accessMode == ReadWrite {
        data.RegistChannelRead(ReadString, d);
        data.RegistChannelWrite(WriteString, d);
      }
    }

    method BindStep(data: Channel, d: Driver, ghost configs: map<Channel, Config>, ghost states: map<Channel, State>)
      requires data in configs && HaveConfigs(configs) && HaveStates(states)
      modifies data`driver, data`readHandler, data`writeHandler
      ensures HaveConfigs(configs[data := BoundConfig(data.kind, configs[data], d)]) && HaveStates(states)
    {
      BindChannel(data, d);
    }

    /** The binding of the i-th name's channel. */
    method BindNamed(ds: map<string, Channel>, names: seq<string>, i: nat, d: Driver,
                     ghost configs: map<Channel, Config>, ghost states: map<Channel, State>)
      requires forall n | n in names :: n in ds && ds[n] in configs
      requires i < |names| && HaveConfigs(BoundAll(configs, ds, names[..i], d)) && HaveStates(states)
      modifies ds[names[i]]
      ensures HaveConfigs(BoundAll(configs, ds, names[..i + 1], d)) && HaveStates(states)
    {
      BoundAllSnoc(configs, ds, names, d, i);
      BindStep(ds[names[i]], d, BoundAll(configs, ds, names[..i], d), states);
    }

    /** The loop of registChannels over the channels of a node. */
    method BindAll(ds: map<string, Channel>, names: seq<string>, d: Driver,
                   ghost configs: map<Channel, Config>, ghost states: map<Channel, State>)
      requires forall n | n in names :: n in ds && ds[n] in configs
      requires HaveConfigs(configs) && HaveStates(states)
      modifies ds.Values
      ensures HaveConfigs(BoundAll(configs, ds, names, d)) && HaveStates(states)
    {
      var i := 0;
      while i < |names|
        invariant 0 <= i <= |names|
        invariant HaveConfigs(BoundAll(configs, ds, names[..i], d)) && HaveStates(states)
      {
        BindNamed(ds, names, i, d, configs, states);
        i := i + 1;
      }
      assert names[..i] == names;
    }

    /** IDriver::registChannels of one driver: the channels of its node, and no others. */
    method RegistChannels(d: Driver, ghost configs: map<Channel, Config>, ghost states: map<Channel, State>)
      requires configs.Keys == datas.Values && HaveConfigs(configs) && HaveStates(states)
      modifies datas.Values
      ensures HaveStates(states) && HaveConfigs(BoundNode(configs, d, d.nodeNumber))
    {
      var ds := GetDatas(d.nodeNumber);
      var names := Ordered(ds.Keys);
      BoundAllIsNode(configs, ds, names, d, d.nodeNumber);
      BindAll(ds, names, d, configs, states);
    }

    /** One entity: a driver binds its node's channels. */
    method StartEntity(e: ControlEntity, ghost configs: map<Channel, Config>, ghost states: map<Channel, State>)
      requires configs.Keys == datas.Values && HaveConfigs(configs) && HaveStates(states)
      modifies datas.Values
      ensures HaveStates(states)
      ensures HaveConfigs(if e.DriverEntity? then BoundNode(configs, e.driver, e.driver.nodeNumber) else configs)
    {
      match e {
        case DriverEntity(d) => RegistChannels(d, configs, states);
        case OtherEntity =>
      }
    }

    /** The first loop of startNamespace: every driver in name order binds its node's channels.
        Each channel ends up with the last of its node's drivers; the others are unchanged. */
    method StartNamespace(ghost configs: map<Channel, Config>, ghost states: map<Channel, State>)
      requires configs.Keys == datas.Values && HaveConfigs(configs) && HaveStates(states)
      modifies datas.Values
      ensures HaveStates(states) && HaveConfigs(Started(configs, Ordered(entities.Keys), entities))
    {
      var es := entities;
      var names := Ordered(es.Keys);
      var i := 0;
      while i < |names|
        invariant 0 <= i <= |names|
        invariant HaveConfigs(Started(configs, names[..i], es)) && HaveStates(states)
      {
        StartNamed(es, names, i, configs, states);
        i := i + 1;
      }
      assert names[..i] == names;
    }

    /** The turn of the i-th name. */
    method StartNamed(es: map<string, ControlEntity>, names: seq<string>, i: nat,
                      ghost configs: map<Channel, Config>, ghost states: map<Channel, State>)
      requires i < |names| && forall n | n in names :: n in es
      requires configs.Keys == datas.Values && HaveConfigs(Started(configs, names[..i], es)) && HaveStates(states)
      modifies datas.Values
      ensures HaveConfigs(Started(configs, names[..i + 1], es)) && HaveStates(states)
    {
      StartedSnoc(configs, names, es, i);
      StartEntity(es[names[i]], Started(configs, names[..i], es), states);
    }

    // ---------- the poll sweep ----------

    /** One pass of execute: every channel ends in the state its visits give it, still settled,
        and every subscriber of a covered channel holds that channel's value. */
    method Sweep(readings: map<string, Reading>, ghost configs: map<Channel, Config>, ghost states: map<Channel, State>)
      requires datas.Keys <= readings.Keys
      requires configs.Keys == states.Keys == datas.Values && HaveConfigs(configs) && HaveStates(states)
      requires AllSettled(states, configs)
      modifies datas.Values
      ensures HaveConfigs(configs) && HaveStates(Visited(states, configs, Ordered(datas.Keys), datas, readings))
      ensures forall n | n in datas :: datas[n].Valid()
      ensures forall n | n in datas :: Covered(datas[n].kind, datas[n].simulated) ==> Coherent(datas[n].S())
    {
      PollAll(datas, readings, configs, states);
      VisitedSettles(states, configs, Ordered(datas.Keys), datas, readings);
    }
  }

  // ---------- runs of registrations ----------

  datatype Attempt = Attempt(data: Option<Channel>, fullName: string)

  /** The names of the attempts that come with an object. */
  ghost function NamesOf(attempts: seq<Attempt>): seq<string> {
    if attempts == [] then []
    else (if attempts[0].data.Some? then [attempts[0].fullName] else []) + NamesOf(attempts[1..])
  }

  /** The flat map after the attempts: every acceptable name stays with the first object it got. */
  ghost function EnteredAll(datas: map<string, Channel>, attempts: seq<Attempt>): map<string, Channel>
    decreases |attempts|
  {
    if attempts == [] then datas
    else
      var a := attempts[0];
      var next := if a.data.Some? && Acceptable(a.fullName) && a.fullName !in datas
                  then datas[a.fullName := a.data.value] else datas;
      EnteredAll(next, attempts[1..])
  }

  /** Exactly: names that were there keep their object; an acceptable name that was not gets the
      object of the first attempt with one; no other name enters. */
  lemma {:induction false} EnteredAt(datas: map<string, Channel>, attempts: seq<Attempt>, name: string)
    ensures var t := EnteredAll(datas, attempts);
            && (name in datas ==> name in t && t[name] == datas[name])
            && (name !in datas ==> (name in t <==> Acceptable(name) && FirstWith(attempts, name).Some?))
            && (name !in datas && name in t ==> FirstWith(attempts, name) == Some(t[name]))
    decreases |attempts|
  {
    if attempts != [] {
      var a := attempts[0];
      var next := if a.data.Some? && Acceptable(a.fullName) && a.fullName !in datas
                  then datas[a.fullName := a.data.value] else datas;
      EnteredAt(next, attempts[1..], name);
    }
  }

  /** The object of the first attempt with this name that has one. */
  ghost function FirstWith(attempts: seq<Attempt>, name: string): Option<Channel> {
    if attempts == [] then None
    else if attempts[0].fullName == name && attempts[0].data.Some? then attempts[0].data
    else FirstWith(attempts[1..], name)
  }

  /** One attempt of a run, in terms of the rest. */
  lemma AttemptFirst(index: Index, registered: set<string>, datas: map<string, Channel>, a: Attempt, rest: seq<Attempt>)
    requires index == IndexOf(registered) && registered <= datas.Keys
    ensures var accepted := a.data.Some? && Acceptable(a.fullName) && a.fullName !in datas;
            var names := NamesOf([a] + rest);
            if accepted then
              var next := datas[a.fullName := a.data.value];
              && AfterAttempts(index, datas.Keys, names) ==
                 AfterAttempts(IndexOf(registered + {a.fullName}), next.Keys, NamesOf(rest))
              && EnteredAll(datas, [a] + rest) == EnteredAll(next, rest)
              && registered + (AcceptableOf(names) - datas.Keys) ==
                 registered + {a.fullName} + (AcceptableOf(NamesOf(rest)) - next.Keys)
            else
              && AfterAttempts(index, datas.Keys, names) == AfterAttempts(index, datas.Keys, NamesOf(rest))
              && EnteredAll(datas, [a] + rest) == EnteredAll(datas, rest)
              && AcceptableOf(names) - datas.Keys == AcceptableOf(NamesOf(rest)) - datas.Keys
  {
    assert ([a] + rest)[1..] == rest;
    if a.data.Some? {
      var n := a.fullName;
      assert NamesOf([a] + rest) == [n] + NamesOf(rest) && ([n] + NamesOf(rest))[1..] == NamesOf(rest);
      if Acceptable(n) && n !in datas {
        InsertIntoIndex(registered, n);
        assert datas[n := a.data.value].Keys == datas.Keys + {n};
      }
    } else {
      assert NamesOf([a] + rest) == [] + NamesOf(rest) == NamesOf(rest);
    }
  }

  ghost predicate AllSettled(states: map<Channel, State>, configs: map<Channel, Config>)
    requires states.Keys == configs.Keys
  {
    forall ch | ch in states :: Settled(ch.kind, configs[ch].simulated, states[ch])
  }

  /** A visit keeps every channel settled, leaves the one visited caught up, and every other as it was. */
  lemma {:induction false} VisitSettles(states: map<Channel, State>, configs: map<Channel, Config>, ch: Channel,
                                        r: Reading)
    requires states.Keys == configs.Keys && ch in states && AllSettled(states, configs)
    ensures var q := states[ch := PolledBy(ch.kind, states[ch], configs[ch], r)];
            AllSettled(q, configs) && CaughtUp(ch.kind, configs[ch].simulated, q[ch])
  {
    var c := configs[ch];
    PollSettles(ch.kind, states[ch], c.simulated, c.readHandler != NoHandler && c.driver.Some?, r);
  }

  /** A sweep keeps every channel settled and leaves the visited ones caught up. */
  lemma {:induction false} VisitedSettles(states: map<Channel, State>, configs: map<Channel, Config>,
                                          names: seq<string>, datas: map<string, Channel>,
                                          readings: map<string, Reading>)
    requires states.Keys == configs.Keys && AllSettled(states, configs)
    requires forall n | n in names :: n in datas && n in readings && datas[n] in states
    ensures var r := Visited(states, configs, names, datas, readings);
            && AllSettled(r, configs)
            && forall n | n in names :: CaughtUp(datas[n].kind, configs[datas[n]].simulated, r[datas[n]])
    decreases |names|
  {
    if names != [] {
      var front, n := names[..|names| - 1], names[|names| - 1];
      var r := Visited(states, configs, front, datas, readings);
      VisitedSettles(states, configs, front, datas, readings);
      VisitSettles(r, configs, datas[n], readings[n]);
      assert names == front + [n];
    }
  }

  ghost predicate CaughtUp(kind: Kind, simulated: bool, s: State) {
    Covered(kind, simulated) ==> Coherent(s)
  }

  lemma NonEmptySnoc(ps: seq<string>, i: nat)
    requires i < |ps|
    ensures NonEmpty(ps[..i + 1]) == NonEmpty(ps[..i]) + (if ps[i] == "" then [] else [ps[i]])
  {
    assert ps[..i + 1] == ps[..i] + [ps[i]];
    NonEmptyAppend(ps[..i], [ps[i]]);
    assert [ps[i]][1..] == [];
    assert NonEmpty([]) == [];
  }

  /** One more token extends the key and the index, unless it is empty. */
  lemma InsertedSnoc(ix: Index, path: Path, token: string, next: Path)
    requires next == path + (if token == "" then [] else [token])
    ensures Key(next) == (if token == "" then Key(path) else Key(path) + token + "/")
    ensures Inserted(ix, next) == WithChild(Inserted(ix, path), Key(path), token)
  {
    if token != "" {
      assert next[..|next| - 1] == path && next[|next| - 1] == token;
    } else {
      assert next == path;
    }
  }

  // ---------- who is bound to whom ----------

  function ReadHandlerOf(t: DataType): Handler {
    match t
    case IntData => ReadInt
    case DoubleData => ReadDouble
    case StringData => ReadString
    case Unknown => NoHandler
  }

  function WriteHandlerOf(t: DataType): Handler {
    match t
    case IntData => WriteInt
    case DoubleData => WriteDouble
    case StringData => WriteString
    case Unknown => NoHandler
  }

  /** The channels that registChannels binds, if a driver has their node. */
  predicate Bindable(kind: Kind, c: Config) {
    c.nodeNumber != 0 && c.channelNumber != 0 && kind.dataType != Unknown && kind.accessMode != Default
  }

  /** After the binding loop: a bindable channel is bound to the driver of its node with the
      greatest name, with the handlers of its own type and mode, ... */
  lemma BoundToLastDriver(configs: map<Channel, Config>, es: map<string, ControlEntity>, ch: Channel, n: string)
    requires ch in configs && Bindable(ch.kind, configs[ch])
    requires GreatestDriver(Ordered(es.Keys), es, configs[ch].nodeNumber, n)
    ensures var c := configs[ch];
            Started(configs, Ordered(es.Keys), es)[ch] ==
            c.(driver := Some(es[n].driver),
               readHandler := ReadHandlerOf(ch.kind.dataType),
               writeHandler := if ch.kind.accessMode == ReadWrite
                               then WriteHandlerOf(ch.kind.dataType) else c.writeHandler)
  {
    var c, names := configs[ch], Ordered(es.Keys);
    OrderedAscends(es.Keys);
    LastDriverIsGreatest(names, es, c.nodeNumber);
    var k :| GreatestDriver(names, es, c.nodeNumber, k) && es[k].driver == LastDriver(names, es, c.nodeNumber).value;
    LessTotal(n, k);
  }

  /** ... and every other channel, and every channel whose node no driver has, is as it was. */
  lemma OthersUnbound(configs: map<Channel, Config>, es: map<string, ControlEntity>, ch: Channel)
    requires ch in configs
    requires !Bindable(ch.kind, configs[ch]) || forall n :: !DriverOf(es, n, configs[ch].nodeNumber)
    ensures Started(configs, Ordered(es.Keys), es)[ch] == configs[ch]
  {
    OrderedAscends(es.Keys);
    LastDriverIsGreatest(Ordered(es.Keys), es, configs[ch].nodeNumber);
  }
}
