/**
 The engine's registry: workflows by name, and for each MDM request type the
 names of the workflows that want every response to it.
 */
module Registry {
  import opened Wrappers
  import opened Records

  // A duration of 0 or less is no timeout.
  // The events are a mask of event flags.
  datatype Config = Config(timeout: Time, exclusive: bool, allResponses: seq<string>, events: int)

  // Whether the mask has the flag, which is a power of two.
  predicate HasFlag(events: int, flag: int) {
    flag > 0 && (events / flag) % 2 == 1
  }

  const FLAGS := [1, 2, 4, 8, 16, 32, 64]

  function If(b: bool, n: int): int {
    if b then n else 0
  }

  // The mask that adds up some of the flags.
  function Mask(on: seq<bool>): int
    requires |on| == 7
  {
    If(on[0], 1) + If(on[1], 2) + If(on[2], 4) + If(on[3], 8) + If(on[4], 16) + If(on[5], 32) + If(on[6], 64)
  }

  // It has exactly these.
  lemma HasFlagExact(on: seq<bool>, k: nat)
    requires |on| == 7 && k < 7
    ensures HasFlag(Mask(on), FLAGS[k]) <==> on[k]
  {
    if k < 2 {
      LowFlag(on, k);
    } else if k < 4 {
      MiddleFlag(on, k);
    } else {
      HighFlag(on, k);
    }
  }

  lemma LowFlag(on: seq<bool>, k: nat)
    requires |on| == 7 && k < 2
    ensures HasFlag(Mask(on), FLAGS[k]) <==> on[k]
  {
    var rest := If(on[1], 1) + 2 * (If(on[2], 1) + If(on[3], 2) + If(on[4], 4) + If(on[5], 8) + If(on[6], 16));
    if k == 0 {
      EvenPart(If(on[0], 1), rest);
    } else {
      EvenPart(If(on[0], 1), rest);
      EvenPart(If(on[1], 1), If(on[2], 1) + If(on[3], 2) + If(on[4], 4) + If(on[5], 8) + If(on[6], 16));
    }
    assert Mask(on) == If(on[0], 1) + 2 * rest;
  }

  lemma EvenPart(bit: int, rest: int)
    requires 0 <= bit <= 1
    ensures (bit + 2 * rest) / 2 == rest && (bit + 2 * rest) % 2 == bit
  {
  }

  lemma MiddleFlag(on: seq<bool>, k: nat)
    requires |on| == 7 && 2 <= k < 4
    ensures HasFlag(Mask(on), FLAGS[k]) <==> on[k]
  {
    var events := Mask(on);
    var rest := If(on[3], 1) + 2 * (If(on[4], 1) + If(on[5], 2) + If(on[6], 4));
    assert events / 8 == rest;
    assert events / 4 == If(on[2], 1) + 2 * rest;
  }

  lemma HighFlag(on: seq<bool>, k: nat)
    requires |on| == 7 && 4 <= k < 7
    ensures HasFlag(Mask(on), FLAGS[k]) <==> on[k]
  {
    var events := Mask(on);
    match k
    case 4 => assert (events / 16) % 2 == If(on[4], 1);
    case 5 => assert (events / 32) % 2 == If(on[5], 1);
    case _ => assert (events / 64) % 2 == If(on[6], 1);
  }

  predicate Hears(config: Option<Config>, flag: int) {
    config.Some? && HasFlag(config.value.events, flag)
  }

  datatype RegOp = Register(name: string, config: Option<Config>) | Unregister(name: string)

  // The position of i in s, or -1.
  method In(s: seq<string>, i: string) returns (pos: int)
    ensures pos == -1 ==> i !in s
    ensures pos != -1 ==> 0 <= pos < |s| && s[pos] == i && i !in s[..pos]
  {
    for j := 0 to |s|
      invariant i !in s[..j]
    {
      if s[j] == i {
        return j;
      }
      assert s[..j + 1] == s[..j] + [s[j]];
    }
    assert s[..|s|] == s;
    return -1;
  }

  function Wants(config: Option<Config>): seq<string> {
    if config.Some? then config.value.allResponses else []
  }

  /* ---- What a history of calls says ---- */

  ghost function Registered(ops: seq<RegOp>): map<string, Option<Config>> {
    if ops == [] then map[]
    else
      var before := Registered(ops[..|ops| - 1]);
      match ops[|ops| - 1]
      case Register(name, config) => before[name := config]
      case Unregister(name) => before - {name}
  }

  // The workflow has been registered for the request type since it was last
  // unregistered.
  ghost predicate Listens(ops: seq<RegOp>, name: string, reqType: string) {
    ops != [] &&
    var before := Listens(ops[..|ops| - 1], name, reqType);
    match ops[|ops| - 1]
    case Register(n, config) => before || (n == name && reqType in Wants(config))
    case Unregister(n) => before && n != name
  }

  lemma {:induction false} ListenersAreRegistered(ops: seq<RegOp>, name: string, reqType: string)
    requires Listens(ops, name, reqType)
    ensures name in Registered(ops)
  {
    var before := ops[..|ops| - 1];
    if Listens(before, name, reqType) {
      ListenersAreRegistered(before, name, reqType);
    }
  }

  // Every name is always registered with the same configuration.
  ghost predicate FixedConfigs(ops: seq<RegOp>, configOf: string -> Option<Config>) {
    forall m :: 0 <= m < |ops| && ops[m].Register? ==> ops[m].config == configOf(ops[m].name)
  }

  // With fixed configurations the index says what the registered workflows'
  // configurations say.
  lemma {:induction false} ListensExact(ops: seq<RegOp>, configOf: string -> Option<Config>, name: string,
                                        reqType: string)
    requires FixedConfigs(ops, configOf)
    ensures Listens(ops, name, reqType)
            <==> name in Registered(ops)
                 && configOf(name).Some? && reqType in configOf(name).value.allResponses
    ensures name in Registered(ops) ==> Registered(ops)[name] == configOf(name)
  {
    if ops != [] {
      ListensExact(ops[..|ops| - 1], configOf, name, reqType);
    }
  }

  // The workflow has been registered for the type by a call after which it has
  // not been unregistered.
  ghost predicate ListedOnce(ops: seq<RegOp>, name: string, reqType: string) {
    exists m :: 0 <= m < |ops| && ListedAt(ops, m, name, reqType)
  }

  ghost predicate ListedAt(ops: seq<RegOp>, m: nat, name: string, reqType: string)
    requires m < |ops|
  {
    && ops[m].Register? && ops[m].name == name && reqType in Wants(ops[m].config)
    && forall n :: m < n < |ops| ==> ops[n] != Unregister(name)
  }

  lemma {:induction false} ListensSince(ops: seq<RegOp>, name: string, reqType: string)
    ensures Listens(ops, name, reqType) <==> ListedOnce(ops, name, reqType)
  {
    if ops != [] {
      var past := ops[..|ops| - 1];
      var op := ops[|ops| - 1];
      ListensSince(past, name, reqType);
      if ListedOnce(past, name, reqType) && op != Unregister(name) {
        var m :| 0 <= m < |past| && ListedAt(past, m, name, reqType);
        assert ListedAt(ops, m, name, reqType);
      }
      if op.Register? && op.name == name && reqType in Wants(op.config) {
        assert ListedAt(ops, |ops| - 1, name, reqType);
      }
      if ListedOnce(ops, name, reqType) {
        var m :| 0 <= m < |ops| && ListedAt(ops, m, name, reqType);
        assert m < |past| ==> ListedAt(past, m, name, reqType) && ops[|ops| - 1] != Unregister(name);
      }
    }
  }

  // The configuration that the name has now lists the type.
  ghost predicate WantedNow(ops: seq<RegOp>, name: string, reqType: string) {
    name in Registered(ops) && reqType in Wants(Registered(ops)[name])
  }

  // The index agrees with the configurations of the registered workflows
  // exactly if no workflow was registered, since it was last unregistered, for
  // a type that its latest configuration leaves out.
  lemma IndexCurrentExact(ops: seq<RegOp>)
    ensures (forall n, t :: Listens(ops, n, t) <==> WantedNow(ops, n, t))
            <==> (forall m, n, t :: 0 <= m < |ops| && ListedAt(ops, m, n, t) ==> WantedNow(ops, n, t))
  {
    forall n, t
      ensures Listens(ops, n, t) <==> ListedOnce(ops, n, t)
      ensures WantedNow(ops, n, t) ==> Listens(ops, n, t)
    {
      ListensSince(ops, n, t);
      LatestListens(ops, n, t);
    }
    hide WantedNow;
    hide Listens;
    hide ListedAt;
  }

  // What the latest configuration lists is always in the index.
  lemma {:induction false} LatestListens(ops: seq<RegOp>, name: string, reqType: string)
    ensures WantedNow(ops, name, reqType) ==> Listens(ops, name, reqType)
  {
    if ops != [] {
      LatestListens(ops[..|ops| - 1], name, reqType);
    }
  }

  /* ---- The index ---- */

  type Index = map<string, seq<string>>

  function Names(allResps: Index, reqType: string): seq<string> {
    if reqType in allResps then allResps[reqType] else []
  }

  // Each list has exactly the listening names, once each.
  ghost predicate Indexes(allResps: Index, ops: seq<RegOp>) {
    forall t :: Distinct(Names(allResps, t)) && forall n :: n in Names(allResps, t) <==> Listens(ops, n, t)
  }

  ghost predicate Added(allResps: Index, allResps': Index, name: string, types: seq<string>) {
    forall t ::
      && (Distinct(Names(allResps, t)) ==> Distinct(Names(allResps', t)))
      && forall n :: n in Names(allResps', t) <==> n in Names(allResps, t) || (n == name && t in types)
  }

  lemma AddedOne(allResps: Index, cur: Index, next: Index, name: string, types: seq<string>, t: string)
    requires Added(allResps, cur, name, types)
    requires next == if name in Names(cur, t) then cur else cur[t := Names(cur, t) + [name]]
    ensures Added(allResps, next, name, types + [t])
  {
    forall u
      ensures Distinct(Names(allResps, u)) ==> Distinct(Names(next, u))
      ensures forall n :: n in Names(next, u) <==> n in Names(allResps, u) || (n == name && u in types + [t])
    {
      assert Distinct(Names(allResps, u)) ==> Distinct(Names(cur, u));
      assert u != t ==> Names(next, u) == Names(cur, u);
    }
  }

  method RegisterAllResp(allResps: Index, name: string, types: seq<string>) returns (allResps': Index)
    ensures Added(allResps, allResps', name, types)
  {
    allResps' := allResps;
    for m := 0 to |types|
      invariant Added(allResps, allResps', name, types[..m])
    {
      var regNames := Names(allResps', types[m]);
      assert types[..m + 1] == types[..m] + [types[m]];
      ghost var cur := allResps';
      var pos := In(regNames, name);
      if pos == -1 {
        allResps' := allResps'[types[m] := regNames + [name]];
      }
      AddedOne(allResps, cur, allResps', name, types[..m], types[m]);
    }
    assert types[..|types|] == types;
  }

  function Cut(s: seq<string>, pos: int): seq<string>
    requires 0 <= pos < |s|
  {
    s[..pos] + s[pos + 1..]
  }

  // Taking one position out of a list without repetition takes the name out.
  lemma CutExact(s: seq<string>, pos: int)
    requires 0 <= pos < |s| && Distinct(s)
    ensures Distinct(Cut(s, pos))
    ensures forall n :: n in Cut(s, pos) <==> n in s && n != s[pos]
  {
    forall n | n in s && n != s[pos]
      ensures n in Cut(s, pos)
    {
      var m :| 0 <= m < |s| && s[m] == n;
      assert Cut(s, pos)[if m < pos then m else m - 1] == n;
    }
  }

  ghost predicate Removed(allResps: Index, allResps': Index, name: string) {
    forall t :: Distinct(Names(allResps, t)) ==>
      Distinct(Names(allResps', t)) && forall n :: n in Names(allResps', t) <==> n in Names(allResps, t) && n != name
  }

  ghost predicate RemovedFrom(allResps: Index, cur: Index, name: string, types: seq<string>) {
    && cur.Keys == allResps.Keys
    && forall t :: if t in types && Distinct(Names(allResps, t))
         then Distinct(Names(cur, t)) && forall n :: n in Names(cur, t) <==> n in Names(allResps, t) && n != name
         else t in types || Names(cur, t) == Names(allResps, t)
  }

  lemma RemovedOne(allResps: Index, cur: Index, v: seq<string>, name: string, types: seq<string>, t: string)
    requires RemovedFrom(allResps, cur, name, types) && t in allResps && t !in types
    requires Distinct(allResps[t]) ==> Distinct(v) && forall n :: n in v <==> n in allResps[t] && n != name
    ensures RemovedFrom(allResps, cur[t := v], name, types + [t])
  {
    hide Distinct;
  }

  method UnregisterAllResp(allResps: Index, name: string) returns (allResps': Index)
    ensures Removed(allResps, allResps', name)
  {
    allResps' := allResps;
    var types := Elements(allResps.Keys);
    for m := 0 to |types|
      invariant RemovedFrom(allResps, allResps', name, types[..m])
    {
      var t := types[m];
      assert t in types && t !in types[..m] && types[..m + 1] == types[..m] + [t];
      var v := allResps'[t];
      assert v == Names(allResps, t) == Names(allResps', t);
      hide RemovedFrom;
      ghost var cur := allResps';
      var pos := In(v, name);
      if pos >= 0 {
        if Distinct(v) {
          CutExact(v, pos);
        }
        allResps' := allResps'[t := Cut(v, pos)];
      } else {
        assert cur[t := v] == cur;
      }
      hide Distinct;
      RemovedOne(allResps, cur, allResps'[t], name, types[..m], t);
    }
    assert types[..|types|] == types;
  }

  lemma UnregisteredIndex(allResps: Index, allResps': Index, ops: seq<RegOp>, name: string)
    requires Indexes(allResps, ops) && Removed(allResps, allResps', name)
    ensures Indexes(allResps', ops + [Unregister(name)])
  {
    assert (ops + [Unregister(name)])[..|ops|] == ops;
    forall t
      ensures Distinct(Names(allResps', t))
      ensures forall n :: n in Names(allResps', t) <==> Listens(ops + [Unregister(name)], n, t)
    {
      assert Distinct(Names(allResps, t));
      assert forall n :: Listens(ops + [Unregister(name)], n, t) <==> Listens(ops, n, t) && n != name;
    }
  }

  lemma RegisteredAfter(ops: seq<RegOp>, name: string)
    ensures Registered(ops + [Unregister(name)]) == Registered(ops) - {name}
    ensures name !in Registered(ops) ==> Registered(ops) - {name} == Registered(ops)
  {
    assert (ops + [Unregister(name)])[..|ops|] == ops;
  }

  lemma UnknownIndex(allResps: Index, ops: seq<RegOp>, name: string)
    requires Indexes(allResps, ops) && name !in Registered(ops)
    ensures Indexes(allResps, ops + [Unregister(name)])
  {
    assert (ops + [Unregister(name)])[..|ops|] == ops;
    forall t
      ensures !Listens(ops, name, t)
    {
      if Listens(ops, name, t) {
        ListenersAreRegistered(ops, name, t);
      }
    }
    assert forall n, t :: Listens(ops + [Unregister(name)], n, t) <==> Listens(ops, n, t) && n != name;
  }

  class Registry {
    var workflows: map<string, Option<Config>>
    var allResps: Index
    ghost var history: seq<RegOp>

    ghost predicate Valid()
      reads this
    {
      workflows == Registered(history) && Indexes(allResps, history)
    }

    constructor ()
      ensures Valid() && history == []
    {
      workflows, allResps, history := map[], map[], [];
    }

    method RegisterWorkflow(name: string, config: Option<Config>)
      requires Valid()
      modifies this
      ensures Valid() && history == old(history) + [Register(name, config)]
    {
      assert (history + [Register(name, config)])[..|history|] == history;
      workflows := workflows[name := config];
      if config.Some? {
        allResps := RegisterAllResp(allResps, name, config.value.allResponses);
      }
      history := history + [Register(name, config)];
    }

    // An unknown name changes nothing.
    method UnregisterWorkflow(name: string)
      requires Valid()
      modifies this
      ensures Valid() && history == old(history) + [Unregister(name)]
      ensures name !in old(workflows) ==> workflows == old(workflows) && allResps == old(allResps)
    {
      hide Indexes;
      hide Registered;
      hide Listens;
      hide Removed;
      ghost var ops := history;
      RegisteredAfter(ops, name);
      if name in workflows {
        workflows := workflows - {name};
        allResps := UnregisterAllResp(allResps, name);
        UnregisteredIndex(old(allResps), allResps, ops, name);
      } else {
        UnknownIndex(allResps, ops, name);
      }
      history := history + [Unregister(name)];
    }

    // The workflows that get every response to the request type.
    method AllRespWorkflows(reqType: string) returns (names: seq<string>)
      requires Valid()
      ensures Distinct(names) && forall n :: n in names <==> Listens(history, n, reqType)
    {
      names := [];
      var listed := Names(allResps, reqType);
      for m := 0 to |listed|
        invariant names == listed[..m]
      {
        assert listed[m] in listed && Listens(history, listed[m], reqType);
        ListenersAreRegistered(history, listed[m], reqType);
        if listed[m] in workflows {
          names := names + [listed[m]];
        }
      }
    }

    // The workflows that are configured for the event, in no particular order.
    method EventWorkflows(flag: int) returns (names: seq<string>)
      ensures Distinct(names)
      ensures forall n :: n in names
                <==> n in workflows && workflows[n].Some? && HasFlag(workflows[n].value.events, flag)
    {
      names := [];
      var keys := Elements(workflows.Keys);
      for m := 0 to |keys|
        invariant Distinct(names)
        invariant forall n :: n in names <==> n in keys[..m] && n in workflows && Hears(workflows[n], flag)
      {
        assert keys[m] in keys && keys[m] !in keys[..m] && keys[..m + 1] == keys[..m] + [keys[m]];
        if Hears(workflows[keys[m]], flag) {
          names := names + [keys[m]];
        }
      }
      assert keys[..|keys|] == keys;
    }
  }
}
