/**
 The profile workflow: it compares the profiles that are asked for with those on
 the device and enqueues the installs and removals that make up the difference.
 */
module Profile {
  import opened Wrappers
  import opened Text
  import opened Records

  /* ---- The context: a comma-joined list ---- */

  type Names = seq<string>

  function MarshalNames(names: Names): Bytes {
    Join(names, ',')
  }

  function UnmarshalNames(data: Bytes): Names {
    Split(data, ',')
  }

  // What Start hands to the list step comes back as it was exactly when there
  // is a name and no name holds a comma.
  lemma NamesRoundTripExact(names: Names)
    ensures UnmarshalNames(MarshalNames(names)) == names <==> names != [] && AllLack(names, ',')
  {
    SplitJoinExact(names, ',');
  }

  /* ---- What is asked for ---- */

  datatype Manage = InstallReq | RemoveReq | ToInstall | ToRemove

  type Managing = map<string, Manage>

  // A leading minus asks for removal; the last mention of a name counts.
  function Asked(names: Names): Managing {
    if names == [] then map[]
    else
      var name := names[|names| - 1];
      var before := Asked(names[..|names| - 1]);
      if HasPrefix(name, "-") then before[name[1..] := RemoveReq] else before[name := ToInstall]
  }

  // The entry asks for something of the name: for its removal with a minus before
  // it, otherwise for its installation.
  ghost predicate Mentions(entry: string, name: string) {
    entry == "-" + name || (entry == name && !(name != "" && name[0] == '-'))
  }

  ghost predicate LastMention(s: Names, n: nat, name: string) {
    n < |s| && Mentions(s[n], name) && forall m :: n < m < |s| ==> !Mentions(s[m], name)
  }

  ghost function AskedBy(entry: string, name: string): Manage {
    if entry == "-" + name then RemoveReq else ToInstall
  }

  // The name is managed as its last mention in the list says.
  ghost predicate AsMentioned(s: Names, asked: Managing, name: string) {
    && (name in asked <==> exists n: nat :: LastMention(s, n, name))
    && forall n: nat :: LastMention(s, n, name) ==> asked[name] == AskedBy(s[n], name)
  }

  lemma MentionExact(entry: string, name: string)
    ensures Mentions(entry, name) <==> name == if HasPrefix(entry, "-") then entry[1..] else entry
    ensures Mentions(entry, name) ==> (entry == "-" + name <==> HasPrefix(entry, "-"))
  {
    if HasPrefix(entry, "-") {
      assert entry == "-" + entry[1..];
    }
    assert ("-" + name)[1..] == name && ("-" + name)[..1] == "-";
  }

  lemma {:induction false} AskedExact(s: Names, name: string)
    ensures AsMentioned(s, Asked(s), name)
  {
    if s != [] {
      var last := |s| - 1;
      AskedExact(s[..last], name);
      MentionExact(s[last], name);
      if Mentions(s[last], name) {
        assert LastMention(s, last, name);
        assert forall n: nat :: LastMention(s, n, name) ==> n == last;
      } else {
        assert name in Asked(s) <==> name in Asked(s[..last]);
        assert name in Asked(s) ==> Asked(s)[name] == Asked(s[..last])[name];
        MentionedBefore(s, Asked(s[..last]), Asked(s), name);
      }
    }
  }

  lemma MentionedBefore(s: Names, before: Managing, asked: Managing, name: string)
    requires s != [] && !Mentions(s[|s| - 1], name) && AsMentioned(s[..|s| - 1], before, name)
    requires name in asked <==> name in before
    requires name in asked ==> asked[name] == before[name]
    ensures AsMentioned(s, asked, name)
  {
    var rest := s[..|s| - 1];
    forall n: nat
      ensures LastMention(s, n, name) <==> LastMention(rest, n, name)
      ensures LastMention(rest, n, name) ==> n < |rest| && rest[n] == s[n]
      ensures LastMention(s, n, name) ==> n < |s|
    {
      EarlierMention(s, n, name);
    }
    hide Mentions;
    hide LastMention;
    if name in asked {
      var n :| LastMention(rest, n, name);
      assert LastMention(s, n, name);
    }
    forall n: nat | LastMention(s, n, name)
      ensures name in asked && asked[name] == AskedBy(s[n], name)
    {
      assert LastMention(rest, n, name);
    }
  }

  lemma EarlierMention(s: Names, n: nat, name: string)
    requires s != [] && !Mentions(s[|s| - 1], name)
    ensures LastMention(s, n, name) <==> LastMention(s[..|s| - 1], n, name)
  {
    hide Mentions;
    var rest := s[..|s| - 1];
    assert forall m :: 0 <= m < |rest| ==> rest[m] == s[m];
    if LastMention(s, n, name) {
      forall m | n < m < |rest|
        ensures !Mentions(rest[m], name)
      {
        assert rest[m] == s[m];
      }
    }
    if LastMention(rest, n, name) {
      forall m | n < m < |s|
        ensures !Mentions(s[m], name)
      {
        assert m < |rest| ==> rest[m] == s[m];
      }
    }
  }

  method SplitInstallRemove(s: Names) returns (all: seq<string>, ret: Managing)
    ensures ret == Asked(s) && forall name :: AsMentioned(s, ret, name)
    ensures |all| == |s| && forall name :: name in all <==> name in ret
  {
    hide AsMentioned;
    forall name {
      AskedExact(s, name);
    }
    ret, all := map[], [];
    for n := 0 to |s|
      invariant ret == Asked(s[..n])
      invariant |all| == n && forall name :: name in all <==> name in ret
    {
      var name := s[n];
      assert s[..n + 1][..n] == s[..n];
      if HasPrefix(name, "-") {
        ret := ret[name[1..] := RemoveReq];
        all := all + [name[1..]];
      } else {
        ret := ret[name := ToInstall];
        all := all + [name];
      }
    }
    assert s[..|s|] == s;
  }

  lemma {:induction false} AskedStyles(names: Names)
    ensures forall name :: name in Asked(names) ==> Asked(names)[name] == ToInstall || Asked(names)[name] == RemoveReq
  {
    if names != [] {
      AskedStyles(names[..|names| - 1]);
    }
  }

  /* ---- Comparing with the device ---- */

  datatype ProfileInfo = ProfileInfo(identifier: string, uuid: string)

  datatype StoredProfile = StoredProfile(info: ProfileInfo, raw: Bytes)

  type Store = map<string, StoredProfile>

  datatype Command = InstallProfile(payload: Bytes) | RemoveProfile(identifier: string)

  datatype WorkflowError = ProfileNotFound

  ghost predicate Listed(items: seq<ProfileInfo>, identifier: string) {
    exists m :: 0 <= m < |items| && items[m].identifier == identifier
  }

  // What becomes of a name once the device's list is known.
  ghost function Decided(asked: Manage, info: ProfileInfo, items: seq<ProfileInfo>): Manage {
    if asked == RemoveReq && Listed(items, info.identifier) then ToRemove
    else if asked == ToInstall && info in items then InstallReq
    else asked
  }

  method DecideOne(asked: Manage, info: ProfileInfo, items: seq<ProfileInfo>) returns (style: Manage)
    ensures style == Decided(asked, info, items)
  {
    for m := 0 to |items|
      invariant asked == RemoveReq ==> !Listed(items[..m], info.identifier)
      invariant asked == ToInstall ==> info !in items[..m]
    {
      assert items[..m + 1] == items[..m] + [items[m]];
      if items[m].identifier == info.identifier {
        if asked == RemoveReq {
          return ToRemove;
        }
        if asked == ToInstall && items[m].uuid == info.uuid {
          assert items[m] == info;
          return InstallReq;
        }
      }
    }
    assert items[..|items|] == items;
    style := asked;
  }

  ghost function AllDecided(store: Store, asked: Managing, items: seq<ProfileInfo>): Managing
    requires asked.Keys <= store.Keys
  {
    map name | name in asked :: Decided(asked[name], store[name].info, items)
  }

  // The commands for the decided names, in the order of the names.
  ghost function CommandsFor(store: Store, decided: Managing, order: seq<string>): seq<Command>
    requires decided.Keys <= store.Keys && forall name :: name in order ==> name in decided
  {
    if order == [] then []
    else
      CommandsFor(store, decided, order[..|order| - 1]) + CommandFor(store, decided, order[|order| - 1])
  }

  function CommandFor(store: Store, decided: Managing, name: string): seq<Command>
    requires name in decided && name in store
  {
    match decided[name]
    case ToInstall => [InstallProfile(store[name].raw)]
    case ToRemove => [RemoveProfile(store[name].info.identifier)]
    case _ => []
  }

  method AllStored(all: seq<string>, store: Store) returns (ok: bool)
    ensures ok <==> forall name :: name in all ==> name in store
  {
    for n := 0 to |all|
      invariant forall name :: name in all[..n] ==> name in store
    {
      if all[n] !in store {
        assert all[n] in all;
        return false;
      }
      assert all[..n + 1] == all[..n] + [all[n]];
    }
    assert all[..|all|] == all;
    ok := true;
  }

  // Some names decided, the others still as asked.
  ghost predicate DecidedSome(store: Store, asked: Managing, items: seq<ProfileInfo>, done: seq<string>, cur: Managing)
    requires asked.Keys <= store.Keys
  {
    && cur.Keys == asked.Keys
    && forall name :: name in asked ==>
         cur[name] == if name in done then Decided(asked[name], store[name].info, items) else asked[name]
  }

  // The names are visited in whatever order the map gives.
  method DecideAll(asked: Managing, items: seq<ProfileInfo>, store: Store) returns (manageMap: Managing)
    requires asked.Keys <= store.Keys
    ensures manageMap == AllDecided(store, asked, items)
  {
    manageMap := asked;
    var names := Elements(asked.Keys);
    hide Decided;
    for n := 0 to |names|
      invariant DecidedSome(store, asked, items, names[..n], manageMap)
    {
      var name := names[n];
      assert name in names && name !in names[..n] && names[..n + 1] == names[..n] + [name];
      var style := DecideOne(manageMap[name], store[name].info, items);
      manageMap := manageMap[name := style];
    }
    assert names[..|names|] == names;
  }

  method ListCommands(store: Store, manageMap: Managing) returns (commands: seq<Command>, ghost order: seq<string>)
    requires manageMap.Keys <= store.Keys
    ensures Distinct(order) && forall name :: name in order <==> name in manageMap
    ensures commands == CommandsFor(store, manageMap, order)
  {
    var names := Elements(manageMap.Keys);
    order := names;
    commands := [];
    for n := 0 to |names|
      invariant commands == CommandsFor(store, manageMap, names[..n])
    {
      assert names[n] in names && names[..n + 1][..n] == names[..n];
      commands := commands + CommandFor(store, manageMap, names[n]);
    }
    assert names[..|names|] == names;
  }

  /* ---- What the commands do ---- */

  // The device's profiles: one UUID per identifier.
  type Device = map<string, string>

  ghost predicate Reports(device: Device, items: seq<ProfileInfo>) {
    forall info :: info in items <==> info.identifier in device && device[info.identifier] == info.uuid
  }

  // How a payload reads; the store is to hold each profile's own metadata.
  ghost predicate Truthful(store: Store, read: Bytes -> ProfileInfo) {
    forall name :: name in store ==> read(store[name].raw) == store[name].info
  }

  ghost function Applied(device: Device, command: Command, read: Bytes -> ProfileInfo): Device {
    match command
    case InstallProfile(payload) => device[read(payload).identifier := read(payload).uuid]
    case RemoveProfile(identifier) => device - {identifier}
  }

  ghost function AllApplied(device: Device, commands: seq<Command>, read: Bytes -> ProfileInfo): Device {
    if commands == [] then device
    else Applied(AllApplied(device, commands[..|commands| - 1], read), commands[|commands| - 1], read)
  }

  // The UUID that a name asks for under its identifier, or its absence.
  ghost function Goal(store: Store, asked: Managing, name: string): Option<string>
    requires name in asked && name in store
  {
    if asked[name] == ToInstall then Some(store[name].info.uuid) else None
  }

  ghost function On(device: Device, identifier: string): Option<string> {
    if identifier in device then Some(device[identifier]) else None
  }

  ghost predicate Met(store: Store, asked: Managing, device: Device, name: string)
    requires name in asked && name in store
  {
    On(device, store[name].info.identifier) == Goal(store, asked, name)
  }

  // A name causes a command exactly when the device does not have what it asks
  // for, and it is the command that gives it that.
  lemma CommandExact(store: Store, names: Names, device: Device, items: seq<ProfileInfo>, name: string,
                     read: Bytes -> ProfileInfo)
    requires Asked(names).Keys <= store.Keys && name in Asked(names) && Reports(device, items) && Truthful(store, read)
    ensures var commands := CommandFor(store, AllDecided(store, Asked(names), items), name);
            && |commands| <= 1
            && (commands == [] <==> Met(store, Asked(names), device, name))
            && forall d: Device ::
                 AllApplied(d, commands, read)
                 == if commands == [] then d
                    else match Goal(store, Asked(names), name)
                         case Some(uuid) => d[store[name].info.identifier := uuid]
                         case None => d - {store[name].info.identifier}
  {
    AskedStyles(names);
    var info := store[name].info;
    ListedExact(device, items, info.identifier);
    var commands := CommandFor(store, AllDecided(store, Asked(names), items), name);
    hide Asked;
    if commands != [] {
      forall d: Device
        ensures AllApplied(d, commands, read) == Applied(d, commands[0], read)
      {
        assert commands[..|commands| - 1] == [];
      }
    }
  }

  lemma ListedExact(device: Device, items: seq<ProfileInfo>, identifier: string)
    requires Reports(device, items)
    ensures Listed(items, identifier) <==> identifier in device
  {
    if identifier in device {
      assert ProfileInfo(identifier, device[identifier]) in items;
    }
  }

  // No two names ask for different things under one identifier.
  ghost predicate Compatible(store: Store, asked: Managing)
    requires asked.Keys <= store.Keys
  {
    forall n, m :: n in asked && m in asked && store[n].info.identifier == store[m].info.identifier ==>
      Goal(store, asked, n) == Goal(store, asked, m)
  }

  lemma {:induction false} AppliedInTurn(device: Device, a: seq<Command>, b: seq<Command>, read: Bytes -> ProfileInfo)
    ensures AllApplied(device, a + b, read) == AllApplied(AllApplied(device, a, read), b, read)
  {
    if b == [] {
      assert a + b == a;
    } else {
      assert (a + b)[..|a + b| - 1] == a + b[..|b| - 1];
      AppliedInTurn(device, a, b[..|b| - 1], read);
    }
  }

  // Along the commands, what has been visited or was right from the start is right.
  lemma {:induction false} MetSoFar(store: Store, names: Names, device: Device, items: seq<ProfileInfo>,
                                    order: seq<string>,
                                    read: Bytes -> ProfileInfo, name: string)
    requires Asked(names).Keys <= store.Keys && Reports(device, items) && Truthful(store, read)
    requires Compatible(store, Asked(names)) && name in Asked(names)
    requires forall n :: n in order ==> n in Asked(names)
    requires name in order || Met(store, Asked(names), device, name)
    ensures var commands := CommandsFor(store, AllDecided(store, Asked(names), items), order);
            Met(store, Asked(names), AllApplied(device, commands, read), name)
  {
    hide Asked;
    hide Decided;
    hide CommandFor;
    hide AllApplied;
    hide Reports;
    hide Truthful;
    hide Compatible;
    if order == [] {
      NothingApplied(device, read);
    } else {
      var last := order[|order| - 1];
      var rest := order[..|order| - 1];
      assert last in order && order == rest + [last];
      var decided := AllDecided(store, Asked(names), items);
      CommandExact(store, names, device, items, last, read);
      AppliedInTurn(device, CommandsFor(store, decided, rest), CommandFor(store, decided, last), read);
      if name in rest || Met(store, Asked(names), device, name) {
        MetSoFar(store, names, device, items, rest, read, name);
      }
      CompatibleGoals(store, Asked(names), last, name);
    }
  }

  lemma NothingApplied(device: Device, read: Bytes -> ProfileInfo)
    ensures AllApplied(device, [], read) == device
  {
  }

  lemma CompatibleGoals(store: Store, asked: Managing, a: string, b: string)
    requires asked.Keys <= store.Keys && Compatible(store, asked) && a in asked && b in asked
    ensures store[a].info.identifier == store[b].info.identifier ==> Goal(store, asked, a) == Goal(store, asked, b)
  {
  }

  // Running the commands, in whatever order the maps gave them, leaves nothing
  // to do exactly when no two names contradict each other.
  lemma ConvergesExact(store: Store, names: Names, device: Device, items: seq<ProfileInfo>, order: seq<string>,
                       read: Bytes -> ProfileInfo)
    requires Asked(names).Keys <= store.Keys && Reports(device, items) && Truthful(store, read)
    requires Distinct(order) && forall name :: name in order <==> name in Asked(names)
    ensures var commands := CommandsFor(store, AllDecided(store, Asked(names), items), order);
            var after := AllApplied(device, commands, read);
            (forall name :: name in Asked(names) ==> Met(store, Asked(names), after, name))
            <==> Compatible(store, Asked(names))
  {
    if Compatible(store, Asked(names)) {
      forall name | name in Asked(names) {
        MetSoFar(store, names, device, items, order, read, name);
      }
    }
    hide Asked;
  }

  // A second run over such a device enqueues nothing.
  lemma {:induction false} SecondRunIdle(store: Store, names: Names, device: Device, items: seq<ProfileInfo>,
                                         order: seq<string>,
                                         read: Bytes -> ProfileInfo)
    requires Asked(names).Keys <= store.Keys && Reports(device, items) && Truthful(store, read)
    requires forall name :: name in order ==> name in Asked(names)
    ensures CommandsFor(store, AllDecided(store, Asked(names), items), order) == []
            <==> forall name :: name in order ==> Met(store, Asked(names), device, name)
  {
    if order != [] {
      var last := order[|order| - 1];
      var rest := order[..|order| - 1];
      assert last in order && order == rest + [last];
      CommandExact(store, names, device, items, last, read);
      SecondRunIdle(store, names, device, items, rest, read);
      hide Asked;
      hide CommandFor;
    }
  }

  /* ---- In terms of the list ---- */

  // The UUID that a mention of the name asks for under the name's identifier, or
  // its absence.
  ghost function WantOf(store: Store, entry: string, name: string): Option<string>
    requires name in store
  {
    if entry == "-" + name then None else Some(store[name].info.uuid)
  }

  // The device has what the last mention of each name asks for.
  ghost predicate AllMet(store: Store, s: Names, device: Device) {
    forall n: nat, name :: LastMention(s, n, name) ==>
      name in store && On(device, store[name].info.identifier) == WantOf(store, s[n], name)
  }

  // No two last mentions ask for different things under one identifier.
  ghost predicate NoContradiction(store: Store, s: Names) {
    forall n: nat, a, m: nat, b :: LastMention(s, n, a) && LastMention(s, m, b) && a in store && b in store
                                   && store[a].info.identifier == store[b].info.identifier ==>
      WantOf(store, s[n], a) == WantOf(store, s[m], b)
  }

  // The identifier belongs to none of the names.
  ghost predicate Unmentioned(store: Store, s: Names, identifier: string) {
    forall n: nat, name :: LastMention(s, n, name) && name in store ==> store[name].info.identifier != identifier
  }

  // There are no commands exactly if the device has everything; after them it has
  // everything exactly if the list does not contradict itself; and they leave
  // all other profiles alone.
  ghost predicate Achieves(store: Store, s: Names, device: Device, commands: seq<Command>, read: Bytes -> ProfileInfo) {
    var after := AllApplied(device, commands, read);
    && (commands == [] <==> AllMet(store, s, device))
    && (AllMet(store, s, after) <==> NoContradiction(store, s))
    && forall identifier :: Unmentioned(store, s, identifier) ==> On(after, identifier) == On(device, identifier)
  }

  lemma MentionedAreAsked(s: Names, store: Store)
    ensures Asked(s).Keys <= store.Keys <==> forall n: nat, name :: LastMention(s, n, name) ==> name in store
  {
    hide Asked;
    hide LastMention;
    if forall n: nat, name :: LastMention(s, n, name) ==> name in store {
      forall name | name in Asked(s)
        ensures name in store
      {
        var n := AskedIsMentioned(s, name);
      }
    }
    if Asked(s).Keys <= store.Keys {
      forall n: nat, name | LastMention(s, n, name)
        ensures name in store
      {
        AskedExact(s, name);
      }
    }
  }

  lemma MentionInList(s: Names)
    ensures forall n: nat, name :: LastMention(s, n, name) ==> n < |s|
  {
  }

  lemma GoalIsWant(store: Store, s: Names, n: nat, name: string)
    requires LastMention(s, n, name) && name in store
    ensures name in Asked(s) && Goal(store, Asked(s), name) == WantOf(store, s[n], name)
  {
    AskedExact(s, name);
    hide Asked;
    hide LastMention;
  }

  lemma AskedIsMentioned(s: Names, name: string) returns (n: nat)
    requires name in Asked(s)
    ensures LastMention(s, n, name)
  {
    AskedExact(s, name);
    hide Asked;
    hide LastMention;
    n :| LastMention(s, n, name);
  }

  lemma AllMetExact(store: Store, s: Names, device: Device)
    requires Asked(s).Keys <= store.Keys
    ensures AllMet(store, s, device) <==> forall name :: name in Asked(s) ==> Met(store, Asked(s), device, name)
  {
    MentionedAreAsked(s, store);
    MentionInList(s);
    hide LastMention;
    hide Asked;
    hide Goal;
    hide WantOf;
    if AllMet(store, s, device) {
      forall name | name in Asked(s)
        ensures Met(store, Asked(s), device, name)
      {
        var n := AskedIsMentioned(s, name);
        GoalIsWant(store, s, n, name);
      }
    }
    if forall name :: name in Asked(s) ==> Met(store, Asked(s), device, name) {
      forall n: nat, name | LastMention(s, n, name)
        ensures name in store && On(device, store[name].info.identifier) == WantOf(store, s[n], name)
      {
        GoalIsWant(store, s, n, name);
      }
    }
  }

  lemma NoContradictionExact(store: Store, s: Names)
    requires Asked(s).Keys <= store.Keys
    ensures NoContradiction(store, s) <==> Compatible(store, Asked(s))
  {
    MentionInList(s);
    hide LastMention;
    hide Asked;
    hide Goal;
    hide WantOf;
    if NoContradiction(store, s) {
      forall a, b | a in Asked(s) && b in Asked(s) && store[a].info.identifier == store[b].info.identifier
        ensures Goal(store, Asked(s), a) == Goal(store, Asked(s), b)
      {
        var n := AskedIsMentioned(s, a);
        var m := AskedIsMentioned(s, b);
        GoalIsWant(store, s, n, a);
        GoalIsWant(store, s, m, b);
      }
    }
    if Compatible(store, Asked(s)) {
      forall n: nat, a, m: nat, b | LastMention(s, n, a) && LastMention(s, m, b) && a in store && b in store
                                    && store[a].info.identifier == store[b].info.identifier
        ensures WantOf(store, s[n], a) == WantOf(store, s[m], b)
      {
        GoalIsWant(store, s, n, a);
        GoalIsWant(store, s, m, b);
      }
    }
  }

  lemma {:induction false} OthersUntouched(store: Store, s: Names, device: Device, items: seq<ProfileInfo>,
                                           order: seq<string>, read: Bytes -> ProfileInfo, identifier: string)
    requires Asked(s).Keys <= store.Keys && Truthful(store, read) && forall name :: name in order ==> name in Asked(s)
    requires forall name :: name in order ==> store[name].info.identifier != identifier
    ensures var after := AllApplied(device, CommandsFor(store, AllDecided(store, Asked(s), items), order), read);
            On(after, identifier) == On(device, identifier)
  {
    if order != [] {
      var last := order[|order| - 1];
      var rest := order[..|order| - 1];
      var decided := AllDecided(store, Asked(s), items);
      assert last in order && order == rest + [last];
      OthersUntouched(store, s, device, items, rest, read, identifier);
      var commands := CommandFor(store, decided, last);
      AppliedInTurn(device, CommandsFor(store, decided, rest), commands, read);
      OneTouches(AllApplied(device, CommandsFor(store, decided, rest), read), store, decided, last, read, identifier);
      hide Asked;
      hide AllDecided;
      hide CommandFor;
      hide AllApplied;
    }
  }

  lemma OneTouches(device: Device, store: Store, decided: Managing, name: string, read: Bytes -> ProfileInfo,
                   identifier: string)
    requires name in decided && name in store && Truthful(store, read) && store[name].info.identifier != identifier
    ensures On(AllApplied(device, CommandFor(store, decided, name), read), identifier) == On(device, identifier)
  {
    var commands := CommandFor(store, decided, name);
    if commands != [] {
      assert commands[..|commands| - 1] == [];
    }
  }

  lemma CommandsAchieve(store: Store, s: Names, device: Device, items: seq<ProfileInfo>, order: seq<string>,
                        read: Bytes -> ProfileInfo)
    requires Asked(s).Keys <= store.Keys && Reports(device, items) && Truthful(store, read)
    requires Distinct(order) && forall name :: name in order <==> name in Asked(s)
    ensures Achieves(store, s, device, CommandsFor(store, AllDecided(store, Asked(s), items), order), read)
  {
    var commands := CommandsFor(store, AllDecided(store, Asked(s), items), order);
    var after := AllApplied(device, commands, read);
    hide LastMention;
    hide Asked;
    hide AllDecided;
    hide CommandsFor;
    hide AllApplied;
    hide Met;
    hide Goal;
    hide WantOf;
    hide Compatible;
    hide On;
    ConvergesExact(store, s, device, items, order, read);
    SecondRunIdle(store, s, device, items, order, read);
    AllMetExact(store, s, device);
    AllMetExact(store, s, after);
    NoContradictionExact(store, s);
    hide AllMet;
    hide NoContradiction;
    forall identifier | Unmentioned(store, s, identifier)
      ensures On(after, identifier) == On(device, identifier)
    {
      forall name | name in order
        ensures store[name].info.identifier != identifier
      {
        var n := AskedIsMentioned(s, name);
      }
      OthersUntouched(store, s, device, items, order, read, identifier);
    }
  }

  method ListStepCompleted(manageList: Names, items: seq<ProfileInfo>, store: Store)
    returns (r: Result<seq<Command>, WorkflowError>, ghost order: seq<string>)
    ensures r.Err? <==> !(Asked(manageList).Keys <= store.Keys)
    ensures r.Err? <==> exists n: nat, name :: LastMention(manageList, n, name) && name !in store
    ensures r.Ok? ==>
              && Distinct(order) && (forall name :: name in order <==> name in Asked(manageList))
              && r.value == CommandsFor(store, AllDecided(store, Asked(manageList), items), order)
    ensures r.Ok? ==>
              forall device, read :: Reports(device, items) && Truthful(store, read) ==>
                Achieves(store, manageList, device, r.value, read)
  {
    order := [];
    MentionedAreAsked(manageList, store);
    hide LastMention;
    var all, manageMap := SplitInstallRemove(manageList);
    var stored := AllStored(all, store);
    if !stored {
      return Err(ProfileNotFound), order;
    }
    manageMap := DecideAll(manageMap, items, store);
    var commands;
    commands, order := ListCommands(store, manageMap);
    forall device, read | Reports(device, items) && Truthful(store, read)
      ensures Achieves(store, manageList, device, commands, read)
    {
      CommandsAchieve(store, manageList, device, items, order, read);
    }
    r := Ok(commands);
  }
}
