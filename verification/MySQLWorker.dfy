/**
 The MySQL backend's passes for the worker: marking steps with a process ID and
 collecting what belongs to them, row by row.
 */
module MySQLWorker {
  import opened Wrappers
  import opened Records
  import opened Tracker
  import opened MySQL

  /* ---- Releasing delayed steps ---- */

  // The enrollments of the listed commands that belong to step n.
  ghost function OwnersIn(t: IDCommands, listed: seq<CmdKey>, n: int): seq<string> {
    if listed == [] then []
    else
      var c := listed[|listed| - 1];
      OwnersIn(t, listed[..|listed| - 1], n) + if c in t && t[c].stepID == n then [c.owner] else []
  }

  ghost function CommandsOf(t: IDCommands, n: int, i: string): set<CmdKey> {
    set c | c in t && t[c].stepID == n && c.owner == i
  }

  // Each enrollment is listed once per command of the step.
  lemma {:induction false} OwnersCount(t: IDCommands, listed: seq<CmdKey>, n: int, i: string)
    requires Distinct(listed)
    ensures multiset(OwnersIn(t, listed, n))[i] == |set c | c in listed && c in CommandsOf(t, n, i)|
  {
    if listed != [] {
      var rest := listed[..|listed| - 1];
      var c := listed[|listed| - 1];
      assert listed == rest + [c];
      DistinctExtend(rest, c);
      OwnersCount(t, rest, n, i);
      var before := set k | k in rest && k in CommandsOf(t, n, i);
      assert (set k | k in listed && k in CommandsOf(t, n, i))
             == if c in CommandsOf(t, n, i) then before + {c} else before;
    }
  }

  ghost function RawsIn(t: map<StepCommandKey, StepCommand>, listed: seq<StepCommandKey>, n: int): seq<StepCommandRaw> {
    if listed == [] then []
    else
      var p := listed[|listed| - 1];
      RawsIn(t, listed[..|listed| - 1], n)
      + if p in t && p.1 == n then [StepCommandRaw(p.0, t[p].requestType, t[p].command)] else []
  }

  ghost predicate IsRawOf(t: map<StepCommandKey, StepCommand>, listed: seq<StepCommandKey>, n: int,
                          sc: StepCommandRaw) {
    (sc.commandUUID, n) in listed && (sc.commandUUID, n) in t && t[(sc.commandUUID, n)] == StepCommandOf(sc)
  }

  // The raw commands of a step, each once.
  lemma {:induction false} RawsExact(t: map<StepCommandKey, StepCommand>, listed: seq<StepCommandKey>, n: int)
    requires Distinct(listed)
    ensures Distinct(RawsIn(t, listed, n))
    ensures forall sc :: sc in RawsIn(t, listed, n) <==> IsRawOf(t, listed, n, sc)
  {
    if listed != [] {
      var rest := listed[..|listed| - 1];
      var p := listed[|listed| - 1];
      assert listed == rest + [p];
      DistinctExtend(rest, p);
      RawsExact(t, rest, n);
      if p in t && p.1 == n {
        var sc := StepCommandRaw(p.0, t[p].requestType, t[p].command);
        assert RawsIn(t, listed, n) == RawsIn(t, rest, n) + [sc];
        assert !IsRawOf(t, rest, n, sc);
        DistinctExtend(RawsIn(t, rest, n), sc);
      }
    }
  }

  // What a release hands out for step n: no context, every enrollment once per
  // command, every raw command once, in no particular order.
  ghost predicate EnqueuedAs(db: DB, n: int, se: StepEnqueueing) {
    && n in db.steps
    && se.ctx == ContextOf(db.steps[n]).(context := "")
    && (forall i :: multiset(se.ids)[i] == |CommandsOf(db.idCommands, n, i)|)
    && Distinct(se.commands)
    && forall sc :: sc in se.commands
         <==> (sc.commandUUID, n) in db.stepCommands && db.stepCommands[(sc.commandUUID, n)] == StepCommandOf(sc)
  }

  ghost function ReleasedTables(db: DB, before: Time, processID: string, now: Time): DB {
    var due := DueSteps(db, before);
    Marked(db, due, processID).(
      stepCommands := map p | p in db.stepCommands && p.1 !in due :: db.stepCommands[p],
      idCommands := map c | c in db.idCommands ::
        if db.idCommands[c].stepID in due then db.idCommands[c].(lastPush := Some(now)) else db.idCommands[c])
  }

  lemma ReleasedByQueries(db: DB, before: Time, processID: string, now: Time)
    requires FreshProcess(db, processID)
    ensures UpdateLastPushByProcessID(
              RemoveStepCommandsByProcessID(Marked(db, DueSteps(db, before), processID), processID), processID, now)
            == ReleasedTables(db, before, processID, now)
  {
    var marked := Marked(db, DueSteps(db, before), processID);
    MarkedExact(db, DueSteps(db, before), processID);
    var dropped := RemoveStepCommandsByProcessID(marked, processID);
    assert StepsByProcessID(dropped, processID) == StepsByProcessID(marked, processID);
    hide DueSteps;
    hide StepsByProcessID;
  }

  type Enqueueings = map<int, StepEnqueueing>

  // The steps under way, after the listed commands have been added.
  ghost predicate Filled(db: DB, steps: set<int>, seID: Enqueueings, cmdIDs: seq<CmdKey>, cmds: seq<StepCommandKey>) {
    && seID.Keys == steps
    && forall n :: n in steps ==>
         && n in db.steps
         && seID[n] == StepEnqueueing(ContextOf(db.steps[n]).(context := ""), OwnersIn(db.idCommands, cmdIDs, n),
                                      RawsIn(db.stepCommands, cmds, n))
  }

  lemma FilledID(db: DB, steps: set<int>, seID: Enqueueings, cmdIDs: seq<CmdKey>, c: CmdKey)
    requires Filled(db, steps, seID, cmdIDs, []) && c in db.idCommands
    ensures var n := db.idCommands[c].stepID;
            if n in seID then Filled(db, steps, seID[n := seID[n].(ids := seID[n].ids + [c.owner])], cmdIDs + [c], [])
            else Filled(db, steps, seID, cmdIDs + [c], [])
  {
    hide RawsIn;
    assert (cmdIDs + [c])[..|cmdIDs|] == cmdIDs;
  }

  lemma FilledCommand(db: DB, steps: set<int>, seID: Enqueueings, cmdIDs: seq<CmdKey>, cmds: seq<StepCommandKey>,
                      p: StepCommandKey)
    requires Filled(db, steps, seID, cmdIDs, cmds) && p in db.stepCommands
    ensures var sc := StepCommandRaw(p.0, db.stepCommands[p].requestType, db.stepCommands[p].command);
            if p.1 in seID
            then Filled(db, steps, seID[p.1 := seID[p.1].(commands := seID[p.1].commands + [sc])], cmdIDs, cmds + [p])
            else Filled(db, steps, seID, cmdIDs, cmds + [p])
  {
    hide OwnersIn;
    assert (cmds + [p])[..|cmds|] == cmds;
  }

  // Collects the marked steps with their enrollments and raw commands.
  method CollectEnqueueings(db: DB, steps: set<int>, cmdIDs: seq<CmdKey>,
                            cmds: seq<StepCommandKey>) returns (seID: Enqueueings)
    requires steps <= db.steps.Keys
    requires (forall c :: c in cmdIDs ==> c in db.idCommands) && forall p :: p in cmds ==> p in db.stepCommands
    ensures Filled(db, steps, seID, cmdIDs, cmds)
  {
    seID := map n | n in steps :: StepEnqueueing(ContextOf(db.steps[n]).(context := ""), [], []);
    hide Filled;
    assert Filled(db, steps, seID, cmdIDs[..0], []) by {
      hide *;
      NothingFilled(db, steps);
    }
    for m := 0 to |cmdIDs|
      invariant Filled(db, steps, seID, cmdIDs[..m], [])
    {
      var c := cmdIDs[m];
      assert c in cmdIDs && cmdIDs[..m + 1] == cmdIDs[..m] + [c];
      FilledID(db, steps, seID, cmdIDs[..m], c);
      var n := db.idCommands[c].stepID;
      if n in seID {
        seID := seID[n := seID[n].(ids := seID[n].ids + [c.owner])];
      }
    }
    assert cmdIDs[..|cmdIDs|] == cmdIDs;
    for m := 0 to |cmds|
      invariant Filled(db, steps, seID, cmdIDs, cmds[..m])
    {
      var p := cmds[m];
      assert p in cmds && cmds[..m + 1] == cmds[..m] + [p];
      FilledCommand(db, steps, seID, cmdIDs, cmds[..m], p);
      if p.1 in seID {
        var sc := StepCommandRaw(p.0, db.stepCommands[p].requestType, db.stepCommands[p].command);
        seID := seID[p.1 := seID[p.1].(commands := seID[p.1].commands + [sc])];
      }
    }
    assert cmds[..|cmds|] == cmds;
  }

  lemma NothingFilled(db: DB, steps: set<int>)
    requires steps <= db.steps.Keys
    ensures var seID := map n | n in steps :: StepEnqueueing(ContextOf(db.steps[n]).(context := ""), [], []);
            Filled(db, steps, seID, [], [])
  {
  }

  lemma FilledEntry(db: DB, steps: set<int>, seID: Enqueueings, cmdIDs: seq<CmdKey>, cmds: seq<StepCommandKey>, n: int)
    requires Filled(db, steps, seID, cmdIDs, cmds) && n in steps
    requires Distinct(cmdIDs) && (forall c :: c in cmdIDs <==> c in db.idCommands && db.idCommands[c].stepID in steps)
    requires Distinct(cmds) && (forall p :: p in cmds <==> p in db.stepCommands && p.1 in steps)
    ensures n in seID && EnqueuedAs(db, n, seID[n])
  {
    RawsExact(db.stepCommands, cmds, n);
    forall i
      ensures multiset(OwnersIn(db.idCommands, cmdIDs, n))[i] == |CommandsOf(db.idCommands, n, i)|
    {
      OwnersCount(db.idCommands, cmdIDs, n, i);
      assert (set c | c in cmdIDs && c in CommandsOf(db.idCommands, n, i)) == CommandsOf(db.idCommands, n, i);
    }
  }

  ghost predicate AllEnqueued(db: DB, due: seq<int>, ret: seq<StepEnqueueing>) {
    |ret| == |due| && forall m :: 0 <= m < |due| ==> EnqueuedAs(db, due[m], ret[m])
  }

  // The collected steps, in no particular order.
  method ListEnqueueings(ghost db: DB, seID: Enqueueings) returns (ret: seq<StepEnqueueing>, ghost due: seq<int>)
    requires forall n :: n in seID ==> EnqueuedAs(db, n, seID[n])
    ensures Distinct(due) && (forall n :: n in due <==> n in seID)
    ensures AllEnqueued(db, due, ret)
  {
    hide EnqueuedAs;
    var ids := Elements(seID.Keys);
    ret := [];
    for m := 0 to |ids|
      invariant AllEnqueued(db, ids[..m], ret)
    {
      assert ids[m] in ids && ids[..m + 1] == ids[..m] + [ids[m]];
      ret := ret + [seID[ids[m]]];
    }
    assert ids[..|ids|] == ids;
    due := ids;
  }

  // Marking a step changes nothing that a release hands out.
  lemma MarkedEnqueued(db: DB, steps: set<int>, processID: string, n: int, se: StepEnqueueing)
    requires EnqueuedAs(Marked(db, steps, processID), n, se)
    ensures EnqueuedAs(db, n, se)
  {
  }

  // The release as one transaction over the tables.
  method ReleaseSteps(db: DB, processID: string, pushTime: Time, now: Time)
    returns (ret: seq<StepEnqueueing>, db': DB, ghost due: seq<int>)
    requires FreshProcess(db, processID)
    ensures Distinct(due) && (forall n :: n in due <==> n in DueSteps(db, pushTime))
    ensures AllEnqueued(db, due, ret)
    ensures db' == ReleasedTables(db, pushTime, processID, now)
  {
    var tx := Marked(db, DueSteps(db, pushTime), processID);
    MarkedExact(db, DueSteps(db, pushTime), processID);
    ReleasedByQueries(db, pushTime, processID, now);
    var steps := StepsByProcessID(tx, processID);
    var cmdIDs := Elements(IDCommandsByProcessID(tx, processID));
    var cmds := Elements(StepCommandsByProcessID(tx, processID));
    assert tx.steps.Keys == db.steps.Keys;
    hide DueSteps;
    hide EnqueuedAs;
    hide Filled;
    hide Marked;
    var seID := CollectEnqueueings(tx, steps, cmdIDs, cmds);
    assert seID.Keys == steps by {
      FilledKeys(tx, steps, seID, cmdIDs, cmds);
    }
    forall n | n in seID
      ensures EnqueuedAs(tx, n, seID[n])
    {
      FilledEntry(tx, steps, seID, cmdIDs, cmds, n);
    }
    ret, due := ListEnqueueings(tx, seID);
    forall m | 0 <= m < |due|
      ensures EnqueuedAs(db, due[m], ret[m])
    {
      MarkedEnqueued(db, DueSteps(db, pushTime), processID, due[m], ret[m]);
    }
    tx := RemoveStepCommandsByProcessID(tx, processID);
    db' := UpdateLastPushByProcessID(tx, processID, now);
  }

  lemma FilledKeys(db: DB, steps: set<int>, seID: Enqueueings, cmdIDs: seq<CmdKey>, cmds: seq<StepCommandKey>)
    requires Filled(db, steps, seID, cmdIDs, cmds)
    ensures seID.Keys == steps
  {
  }

  /* ---- Timing steps out ---- */

  // ORDER BY step_id.
  ghost predicate Ordered(t: IDCommands, listed: seq<CmdKey>) {
    && (forall c :: c in listed ==> c in t)
    && forall a, b :: 0 <= a < b < |listed| ==> t[listed[a]].stepID <= t[listed[b]].stepID
  }

  lemma LowestExists(t: IDCommands, rest: set<CmdKey>)
    requires rest != {} && forall c :: c in rest ==> c in t
    ensures exists c :: c in rest && forall d :: d in rest ==> t[c].stepID <= t[d].stepID
    decreases rest
  {
    var c :| c in rest;
    if rest != {c} {
      LowestExists(t, rest - {c});
      var low :| low in rest - {c} && forall d :: d in rest - {c} ==> t[low].stepID <= t[d].stepID;
      var best := if t[c].stepID <= t[low].stepID then c else low;
      assert forall d :: d in rest ==> d == c || d in rest - {c};
      assert best in rest && forall d :: d in rest ==> t[best].stepID <= t[d].stepID;
    }
  }

  method InStepOrder(t: IDCommands, keys: set<CmdKey>) returns (listed: seq<CmdKey>)
    requires forall c :: c in keys ==> c in t
    ensures Distinct(listed) && (forall c :: c in listed <==> c in keys)
    ensures Ordered(t, listed)
  {
    listed := [];
    var rest := keys;
    while rest != {}
      invariant rest <= keys && Distinct(listed)
      invariant forall c :: c in listed <==> c in keys && c !in rest
      invariant Ordered(t, listed)
      invariant forall a, d :: 0 <= a < |listed| && d in rest ==> t[listed[a]].stepID <= t[d].stepID
      decreases rest
    {
      LowestExists(t, rest);
      var c :| c in rest && forall d :: d in rest ==> t[c].stepID <= t[d].stepID;
      listed := listed + [c];
      rest := rest - {c};
    }
  }

  function DetailOf(t: IDCommands, c: CmdKey): StepCommandResult
    requires c in t
  {
    StepCommandResult(c.uuid, t[c].requestType, if t[c].result.Some? then t[c].result.value else "", t[c].completed)
  }

  // The commands of one enrollment among those listed.
  ghost function Own(listed: seq<CmdKey>, i: string): seq<CmdKey> {
    if listed == [] then []
    else
      var c := listed[|listed| - 1];
      Own(listed[..|listed| - 1], i) + if c.owner == i then [c] else []
  }

  lemma {:induction false} OwnExact(t: IDCommands, listed: seq<CmdKey>, i: string)
    requires Distinct(listed) && Ordered(t, listed)
    ensures Distinct(Own(listed, i)) && Ordered(t, Own(listed, i))
    ensures forall c :: c in Own(listed, i) <==> c in listed && c.owner == i
  {
    if listed != [] {
      var rest := listed[..|listed| - 1];
      var c := listed[|listed| - 1];
      assert listed == rest + [c];
      DistinctExtend(rest, c);
      OwnExact(t, rest, i);
      DistinctExtend(Own(rest, i), c);
      forall d | d in rest
        ensures t[d].stepID <= t[c].stepID
      {
        var a :| 0 <= a < |rest| && rest[a] == d;
        assert listed[a] == d;
      }
    }
  }

  // What a timeout hands out for the enrollment that owns these commands: all
  // of them, under the context of the first one's step.
  ghost predicate GroupedAs(db: DB, own: seq<CmdKey>, i: string, sr: StepResult) {
    && own != [] && (forall c :: c in own ==> c in db.idCommands) && db.idCommands[own[0]].stepID in db.steps
    && sr.ids == [i]
    && sr.ctx == ContextOf(db.steps[db.idCommands[own[0]].stepID])
    && |sr.commands| == |own|
    && forall m :: 0 <= m < |own| ==> sr.commands[m] == DetailOf(db.idCommands, own[m])
  }

  ghost predicate Grouped(db: DB, listed: seq<CmdKey>, rID: map<string, StepResult>) {
    forall i :: GroupedFor(db, Own(listed, i), rID, i)
  }

  ghost predicate GroupedFor(db: DB, own: seq<CmdKey>, rID: map<string, StepResult>, i: string) {
    (i in rID <==> own != []) && (i in rID ==> GroupedAs(db, own, i, rID[i]))
  }

  lemma OwnNext(listed: seq<CmdKey>, c: CmdKey, i: string)
    ensures Own(listed + [c], i) == Own(listed, i) + if c.owner == i then [c] else []
  {
    assert (listed + [c])[..|listed|] == listed;
  }

  // One more command for its enrollment.
  lemma GroupedOne(db: DB, own: seq<CmdKey>, i: string, sr: StepResult, c: CmdKey)
    requires c in db.idCommands && db.idCommands[c].stepID in db.steps
    requires if own == [] then sr == StepResult(ContextOf(db.steps[db.idCommands[c].stepID]), [i], [])
             else GroupedAs(db, own, i, sr)
    ensures GroupedAs(db, own + [c], i, sr.(commands := sr.commands + [DetailOf(db.idCommands, c)]))
  {
    hide DetailOf;
    hide ContextOf;
  }

  lemma GroupedNext(db: DB, listed: seq<CmdKey>, rID: map<string, StepResult>, c: CmdKey)
    requires Grouped(db, listed, rID) && c in db.idCommands && db.idCommands[c].stepID in db.steps
    ensures var sr := if c.owner in rID then rID[c.owner]
                      else StepResult(ContextOf(db.steps[db.idCommands[c].stepID]), [c.owner], []);
            Grouped(db, listed + [c], rID[c.owner := sr.(commands := sr.commands + [DetailOf(db.idCommands, c)])])
  {
    var sr := if c.owner in rID then rID[c.owner]
              else StepResult(ContextOf(db.steps[db.idCommands[c].stepID]), [c.owner], []);
    hide GroupedAs;
    hide DetailOf;
    hide ContextOf;
    hide Own;
    var rID' := rID[c.owner := sr.(commands := sr.commands + [DetailOf(db.idCommands, c)])];
    forall i
      ensures GroupedFor(db, Own(listed + [c], i), rID', i)
    {
      OwnNext(listed, c, i);
      assert GroupedFor(db, Own(listed, i), rID, i);
      if i == c.owner {
        GroupedOne(db, Own(listed, i), i, sr, c);
      } else {
        assert Own(listed, i) + [] == Own(listed, i);
      }
    }
  }

  method GroupByEnrollment(db: DB, listed: seq<CmdKey>) returns (rID: map<string, StepResult>)
    requires forall c :: c in listed ==> c in db.idCommands && db.idCommands[c].stepID in db.steps
    ensures Grouped(db, listed, rID)
  {
    rID := map[];
    assert Grouped(db, listed[..0], rID);
    hide Grouped;
    for m := 0 to |listed|
      invariant Grouped(db, listed[..m], rID)
    {
      var c := listed[m];
      assert c in listed && listed[..m + 1] == listed[..m] + [c];
      GroupedNext(db, listed[..m], rID, c);
      var sr := StepResult(ContextOf(db.steps[db.idCommands[c].stepID]), [c.owner], []);
      if c.owner in rID {
        sr := rID[c.owner];
      }
      rID := rID[c.owner := sr.(commands := sr.commands + [DetailOf(db.idCommands, c)])];
    }
    assert listed[..|listed|] == listed;
  }

  ghost function TimedOutTables(db: DB, now: Time): DB {
    var expired := OverdueSteps(db, now);
    db.(steps := db.steps - expired,
        stepCommands := map p | p in db.stepCommands && p.1 !in expired :: db.stepCommands[p],
        idCommands := map c | c in db.idCommands && db.idCommands[c].stepID !in expired :: db.idCommands[c])
  }

  ghost function OverdueCommands(db: DB, now: Time): set<CmdKey> {
    set c | c in db.idCommands && db.idCommands[c].stepID in OverdueSteps(db, now)
  }

  lemma TimedOutByQueries(db: DB, now: Time, processID: string)
    requires Consistent(db) && FreshProcess(db, processID)
    ensures RemoveStepsByProcessID(
              RemoveIDCommandsByProcessID(
                RemoveStepCommandsByProcessID(Marked(db, OverdueSteps(db, now), processID), processID), processID),
              processID)
            == Ok(TimedOutTables(db, now))
  {
    var overdue := OverdueSteps(db, now);
    var marked := Marked(db, overdue, processID);
    MarkedExact(db, overdue, processID);
    var unraw := RemoveStepCommandsByProcessID(marked, processID);
    var left := RemoveIDCommandsByProcessID(unraw, processID);
    assert StepsByProcessID(unraw, processID) == overdue && StepsByProcessID(left, processID) == overdue;
    hide OverdueSteps;
    hide StepsByProcessID;
    forall n | n in overdue
      ensures !HasIDCommands(left, n) && !HasStepCommands(left, n)
    {
    }
    assert left.steps - overdue == db.steps - overdue;
    assert left.stepCommands == TimedOutTables(db, now).stepCommands;
    assert left.idCommands == TimedOutTables(db, now).idCommands;
  }

  // One result for each enrollment with a command that times out.
  ghost predicate AllGrouped(db: DB, listed: seq<CmdKey>, ids: seq<string>, ret: seq<StepResult>) {
    && |ret| == |ids|
    && forall m :: 0 <= m < |ids| ==> GroupedAs(db, Own(listed, ids[m]), ids[m], ret[m])
  }

  lemma AllGroupedNext(db: DB, listed: seq<CmdKey>, rID: map<string, StepResult>, ids: seq<string>,
                       ret: seq<StepResult>, i: string)
    requires AllGrouped(db, listed, ids, ret) && Grouped(db, listed, rID) && i in rID
    ensures AllGrouped(db, listed, ids + [i], ret + [rID[i]])
  {
    hide GroupedAs;
  }

  method ListGroups(ghost db: DB, ghost listed: seq<CmdKey>, rID: map<string, StepResult>)
    returns (ret: seq<StepResult>, ghost ids: seq<string>)
    requires Grouped(db, listed, rID)
    ensures Distinct(ids) && (forall i :: i in ids <==> i in rID)
    ensures AllGrouped(db, listed, ids, ret)
  {
    hide Grouped;
    hide GroupedAs;
    var order := Elements(rID.Keys);
    ret := [];
    for m := 0 to |order|
      invariant AllGrouped(db, listed, order[..m], ret)
    {
      assert order[m] in order && order[..m + 1] == order[..m] + [order[m]];
      AllGroupedNext(db, listed, rID, order[..m], ret, order[m]);
      ret := ret + [rID[order[m]]];
    }
    assert order[..|order|] == order;
    ids := order;
  }

  lemma MarkedGrouped(db: DB, steps: set<int>, processID: string, listed: seq<CmdKey>, ids: seq<string>,
                      ret: seq<StepResult>)
    requires AllGrouped(Marked(db, steps, processID), listed, ids, ret)
    ensures AllGrouped(db, listed, ids, ret)
  {
    forall m | 0 <= m < |ids|
      ensures GroupedAs(db, Own(listed, ids[m]), ids[m], ret[m])
    {
      assert GroupedAs(Marked(db, steps, processID), Own(listed, ids[m]), ids[m], ret[m]);
    }
  }

  lemma GroupedOwners(db: DB, listed: seq<CmdKey>, rID: map<string, StepResult>, i: string)
    requires Grouped(db, listed, rID) && Distinct(listed) && Ordered(db.idCommands, listed)
    ensures i in rID <==> exists c :: c in listed && c.owner == i
  {
    OwnExact(db.idCommands, listed, i);
    hide GroupedAs;
    if i in rID {
      assert Own(listed, i)[0] in Own(listed, i);
    }
  }

  // The timeout as one transaction over the tables.
  method TimeOutSteps(db: DB, processID: string, now: Time)
    returns (ret: seq<StepResult>, db': DB, ghost listed: seq<CmdKey>, ghost ids: seq<string>)
    requires Consistent(db) && FreshProcess(db, processID)
    ensures Distinct(listed) && Ordered(db.idCommands, listed)
    ensures forall c :: c in listed <==> c in OverdueCommands(db, now)
    ensures Distinct(ids) && forall i :: i in ids <==> exists c :: c in listed && c.owner == i
    ensures AllGrouped(db, listed, ids, ret)
    ensures db' == TimedOutTables(db, now)
  {
    var tx := Marked(db, OverdueSteps(db, now), processID);
    MarkedExact(db, OverdueSteps(db, now), processID);
    TimedOutByQueries(db, now, processID);
    assert tx.idCommands == db.idCommands && tx.steps.Keys == db.steps.Keys;
    hide OverdueSteps;
    hide Grouped;
    hide AllGrouped;
    hide Marked;
    hide TimedOutTables;
    var rows := InStepOrder(tx.idCommands, IDCommandsByProcessID(tx, processID));
    listed := rows;
    var rID := GroupByEnrollment(tx, rows);
    ret, ids := ListGroups(tx, rows, rID);
    forall i
      ensures i in ids <==> exists c :: c in listed && c.owner == i
    {
      GroupedOwners(tx, rows, rID, i);
    }
    MarkedGrouped(db, OverdueSteps(db, now), processID, rows, ids, ret);
    hide *;
    tx := RemoveStepCommandsByProcessID(tx, processID);
    tx := RemoveIDCommandsByProcessID(tx, processID);
    db' := RemoveStepsByProcessID(tx, processID).value;
  }
}
