/**
 The key-value backend's loops over the commands and enrollments of one step.
 */
module KVSteps {
  import opened Wrappers
  import opened Records
  import opened Tracker
  import opened Buckets
  import opened KVPrim
  import opened KVScan

  /* ---- Storing a step's commands ---- */

  // The rows of a new step for some of its keys.
  ghost function RowsFor(s: string, cfg: StepEnqueuingWithConfig, now: Time, keys: set<CmdKey>): Rows {
    map k | k in keys && k.uuid in Uuids(cfg.commands) :: NewRow(s, cfg, k, now)
  }

  lemma RowsForAdd(rows: Rows, s: string, cfg: StepEnqueuingWithConfig, now: Time, keys: set<CmdKey>, k: CmdKey)
    requires k.uuid in Uuids(cfg.commands) && k !in keys && k !in rows
    ensures k !in rows + RowsFor(s, cfg, now, keys)
    ensures rows + RowsFor(s, cfg, now, keys + {k}) == (rows + RowsFor(s, cfg, now, keys))[k := NewRow(s, cfg, k, now)]
  {
    hide NewRow;
    hide Uuids;
  }

  // Who owns rows of a new step: its enrollments, and the step if it is delayed.
  ghost function Owners(s: string, cfg: StepEnqueuingWithConfig): seq<string> {
    (if cfg.notUntil != 0 then [s] else []) + cfg.ids
  }

  lemma NewRowsFor(s: string, cfg: StepEnqueuingWithConfig, now: Time)
    ensures NewKeys(s, cfg) == Keys(Owners(s, cfg), Uuids(cfg.commands))
    ensures RowsFor(s, cfg, now, Keys(Owners(s, cfg), Uuids(cfg.commands))) == NewRows(s, cfg, now)
    ensures RowsFor(s, cfg, now, {}) == map[]
  {
    hide NewRow;
    assert NewKeys(s, cfg) == Keys(Owners(s, cfg), Uuids(cfg.commands));
  }

  // What storing one command needs to know of the step it belongs to.
  ghost predicate Belongs(cfg: StepEnqueuingWithConfig, sc: StepCommandRaw) {
    && sc.commandUUID in Uuids(cfg.commands)
    && CommandOf(cfg.commands, sc.commandUUID) == sc
    && (cfg.notUntil != 0 ==> sc.command != "")
  }

  method SetOwnerCmd(b: Bucket, ghost rows: Rows, ghost n: nat, ghost keys: set<CmdKey>, stepID: string,
                     ghost cfg: StepEnqueuingWithConfig, ghost now: Time,
                     owner: string, sc: StepCommandRaw, lastPush: Time)
    returns (b': Bucket)
    requires RowsRep(b, rows + RowsFor(stepID, cfg, now, keys), n) && |sc.commandUUID| == n
    requires Belongs(cfg, sc) && lastPush == if cfg.notUntil == 0 then now else 0
    requires CmdKey(owner, sc.commandUUID) !in keys && CmdKey(owner, sc.commandUUID) !in rows
    requires owner == stepID ==> cfg.notUntil != 0
    ensures RowsRep(b', rows + RowsFor(stepID, cfg, now, keys + {CmdKey(owner, sc.commandUUID)}), n)
  {
    hide RowsFor;
    hide RowsRep;
    hide SetIDCmd;
    b' := SetIDCmd(b, stepID, owner, sc, lastPush, owner == stepID);
    RowsForAdd(rows, stepID, cfg, now, keys, CmdKey(owner, sc.commandUUID));
    SetIDCmdRep(b, rows + RowsFor(stepID, cfg, now, keys), n, stepID, owner, sc, lastPush, owner == stepID);
  }

  lemma KeysGrow(keys: set<CmdKey>, owners: seq<string>, owner: string, uuid: string)
    requires forall k :: k in keys ==> k.uuid != uuid
    requires owner !in owners
    ensures CmdKey(owner, uuid) !in keys + Keys(owners, [uuid])
    ensures keys + Keys(owners, [uuid]) + {CmdKey(owner, uuid)} == keys + Keys(owners + [owner], [uuid])
  {
    assert uuid in [uuid];
  }

  // The rows of one command for the enrollments.
  method ExplodeForIDs(b: Bucket, ghost rows: Rows, ghost n: nat, ghost keys: set<CmdKey>, ghost first: seq<string>,
                       stepID: string, cfg: StepEnqueuingWithConfig, ghost now: Time, sc: StepCommandRaw,
                       lastPush: Time)
    returns (b': Bucket)
    requires RowsRep(b, rows + RowsFor(stepID, cfg, now, keys + Keys(first, [sc.commandUUID])), n)
    requires |sc.commandUUID| == n
    requires Belongs(cfg, sc) && lastPush == if cfg.notUntil == 0 then now else 0
    requires Distinct(first + cfg.ids) && stepID !in cfg.ids
    requires forall k :: k in keys ==> k.uuid != sc.commandUUID
    requires forall i :: i in cfg.ids ==> CmdKey(i, sc.commandUUID) !in rows
    ensures RowsRep(b', rows + RowsFor(stepID, cfg, now, keys + Keys(first + cfg.ids, [sc.commandUUID])), n)
  {
    b' := b;
    hide RowsRep;
    hide RowsFor;
    hide Belongs;
    hide Keys;
    assert first + cfg.ids[..0] == first && cfg.ids[..|cfg.ids|] == cfg.ids;
    for m := 0 to |cfg.ids|
      invariant RowsRep(b', rows + RowsFor(stepID, cfg, now, keys + Keys(first + cfg.ids[..m], [sc.commandUUID])), n)
    {
      var id := cfg.ids[m];
      ghost var before := first + cfg.ids[..m];
      assert first + cfg.ids[..m + 1] == before + [id];
      NextIsNew(first, cfg.ids, m);
      KeysGrow(keys, before, id, sc.commandUUID);
      assert id in cfg.ids;
      b' := SetOwnerCmd(b', rows, n, keys + Keys(before, [sc.commandUUID]), stepID, cfg, now, id, sc, lastPush);
    }
  }

  lemma NextIsNew(first: seq<string>, ids: seq<string>, m: nat)
    requires m < |ids| && Distinct(first + ids)
    ensures ids[m] !in first + ids[..m]
  {
    var all := first + ids;
    assert all[|first| + m] == ids[m];
    forall j | 0 <= j < |first| + m
      ensures (first + ids[..m])[j] != ids[m]
    {
      assert (first + ids[..m])[j] == all[j];
    }
  }

  // Explodes one command into a row per enrollment, and one under the step ID
  // if the step is delayed.
  method ExplodeCommand(b: Bucket, ghost rows: Rows, ghost n: nat, ghost keys: set<CmdKey>, stepID: string,
                        cfg: StepEnqueuingWithConfig, ghost now: Time, sc: StepCommandRaw, lastPush: Time)
    returns (b': Bucket)
    requires RowsRep(b, rows + RowsFor(stepID, cfg, now, keys), n) && |sc.commandUUID| == n
    requires Belongs(cfg, sc) && lastPush == if cfg.notUntil == 0 then now else 0
    requires Distinct(Owners(stepID, cfg)) && stepID !in cfg.ids
    requires forall k :: k in keys ==> k.uuid != sc.commandUUID
    requires forall o :: o in Owners(stepID, cfg) ==> CmdKey(o, sc.commandUUID) !in rows
    ensures RowsRep(b', rows + RowsFor(stepID, cfg, now, keys + Keys(Owners(stepID, cfg), [sc.commandUUID])), n)
  {
    b' := b;
    assert keys + Keys([], [sc.commandUUID]) == keys;
    hide RowsRep;
    hide RowsFor;
    hide Belongs;
    hide Keys;
    ghost var first: seq<string> := [];
    if cfg.notUntil != 0 {
      KeysGrow(keys, [], stepID, sc.commandUUID);
      first := [] + [stepID];
      assert stepID in Owners(stepID, cfg);
      b' := SetOwnerCmd(b', rows, n, keys, stepID, cfg, now, stepID, sc, lastPush);
    }
    assert first + cfg.ids == Owners(stepID, cfg);
    b' := ExplodeForIDs(b', rows, n, keys, first, stepID, cfg, now, sc, lastPush);
  }

  lemma KeysOfUuid(owners: seq<string>, uuids: seq<string>, c: nat)
    requires c < |uuids| && Distinct(uuids)
    ensures Keys(owners, uuids[..c + 1]) == Keys(owners, uuids[..c]) + Keys(owners, [uuids[c]])
    ensures forall k :: k in Keys(owners, uuids[..c]) ==> k.uuid != uuids[c]
  {
    assert uuids[..c + 1] == uuids[..c] + [uuids[c]];
  }

  lemma NoKeys(owners: seq<string>)
    ensures Keys(owners, []) == {}
  {
  }

  method StoreCommands(b: Bucket, ghost rows: Rows, ghost n: nat, stepID: string, cfg: StepEnqueuingWithConfig,
                       now: Time)
    returns (b': Bucket)
    requires RowsRep(b, rows, n) && UuidsOfLength(Uuids(cfg.commands), n)
    requires Distinct(Owners(stepID, cfg)) && Distinct(Uuids(cfg.commands)) && stepID !in cfg.ids
    requires cfg.notUntil != 0 ==> forall c :: c in cfg.commands ==> c.command != ""
    requires NoneTracked(rows, Owners(stepID, cfg), Uuids(cfg.commands))
    ensures RowsRep(b', rows + NewRows(stepID, cfg, now), n)
  {
    hide RowsRep;
    hide RowsFor;
    hide NewRows;
    hide Keys;
    hide Owners;
    hide NewRow;
    hide CommandOf;
    var lastPush := 0;
    if cfg.notUntil == 0 {
      lastPush := now;
    }
    b' := b;
    ghost var owners := Owners(stepID, cfg);
    ghost var uuids := Uuids(cfg.commands);
    NewRowsFor(stepID, cfg, now);
    NoKeys(owners);
    assert rows + map[] == rows;
    for c := 0 to |cfg.commands|
      invariant RowsRep(b', rows + RowsFor(stepID, cfg, now, Keys(owners, uuids[..c])), n)
    {
      var sc := cfg.commands[c];
      CommandOfDistinct(cfg.commands, c);
      assert uuids[c] in uuids && sc in cfg.commands;
      KeysOfUuid(owners, uuids, c);
      b' := ExplodeCommand(b', rows, n, Keys(owners, uuids[..c]), stepID, cfg, now, sc, lastPush);
    }
    assert uuids[..|cfg.commands|] == uuids;
  }

  /* ---- Completing a step for one enrollment ---- */

  ghost predicate Reportable(rows: Rows, id: string) {
    forall k :: k in rows && k.owner == id && rows[k].done ==> rows[k].result.Some?
  }

  // The result of one command of a completed step.
  method AssembleResult(b: Bucket, ghost rows: Rows, ghost n: nat, id: string, uuid: string, sc: StepCommandResult)
    returns (r: Result<StepCommandResult, Error>)
    requires RowsRep(b, rows, n) && |uuid| == n && CmdKey(id, uuid) in rows && Reportable(rows, id)
    requires uuid != sc.commandUUID ==> rows[CmdKey(id, uuid)].done
    ensures r == Ok(Reported(rows, id, uuid, sc))
  {
    RowReads(b, rows, n, id, uuid);
    var requestType, resultReport := "", "";
    if uuid == sc.commandUUID {
      requestType, resultReport := sc.requestType, sc.resultReport;
    } else {
      match GetIDCmdResult(b, id, uuid)
      case Err(e) => return Err(e);
      case Ok(result) => resultReport := result;
    }
    if requestType == "" {
      match GetIDCmdReqType(b, id, uuid)
      case Err(e) => return Err(e);
      case Ok(reqType) => requestType := reqType;
    }
    return Ok(StepCommandResult(uuid, requestType, resultReport, true));
  }

  // Whether command u is the response's own or done.
  ghost predicate Settled(rows: Rows, id: string, u: string, uuid: string) {
    u == uuid || (CmdKey(id, u) in rows && rows[CmdKey(id, u)].done)
  }

  // The results of the first commands of a step, all of them settled.
  ghost predicate Assembled(rows: Rows, id: string, uuids: seq<string>, sc: StepCommandResult,
                            commands: seq<StepCommandResult>) {
    && |commands| <= |uuids|
    && forall m :: 0 <= m < |commands| ==>
         && CmdKey(id, uuids[m]) in rows
         && Settled(rows, id, uuids[m], sc.commandUUID)
         && commands[m] == Reported(rows, id, uuids[m], sc)
  }

  lemma AssembledNext(rows: Rows, id: string, uuids: seq<string>, sc: StepCommandResult,
                      commands: seq<StepCommandResult>, command: StepCommandResult)
    requires Assembled(rows, id, uuids, sc, commands) && |commands| < |uuids|
    requires CmdKey(id, uuids[|commands|]) in rows
    requires Settled(rows, id, uuids[|commands|], sc.commandUUID)
    requires command == Reported(rows, id, uuids[|commands|], sc)
    ensures Assembled(rows, id, uuids, sc, commands + [command])
  {
    hide Reported;
    hide Settled;
  }

  lemma AssembledAll(rows: Rows, id: string, uuids: seq<string>, sc: StepCommandResult,
                     commands: seq<StepCommandResult>)
    requires Assembled(rows, id, uuids, sc, commands) && |commands| == |uuids|
    ensures Tracked(rows, id, uuids) && OthersDone(rows, id, uuids, sc.commandUUID)
    ensures commands == ReportAll(rows, id, uuids, sc)
  {
    forall u | u in uuids
      ensures CmdKey(id, u) in rows && Settled(rows, id, u, sc.commandUUID)
    {
      var m :| 0 <= m < |uuids| && uuids[m] == u;
    }
  }

  // The results of all commands of a step, or None if one is not done.
  method AssembleResults(b: Bucket, ghost rows: Rows, ghost n: nat, id: string, uuids: seq<string>,
                         sc: StepCommandResult)
    returns (r: Result<Option<seq<StepCommandResult>>, Error>)
    requires RowsRep(b, rows, n) && UuidsOfLength(uuids, n) && Reportable(rows, id)
    requires Tracked(rows, id, uuids)
    ensures r == Ok(if OthersDone(rows, id, uuids, sc.commandUUID) then Some(ReportAll(rows, id, uuids, sc)) else None)
  {
    var commands: seq<StepCommandResult> := [];
    hide RowsRep;
    hide Reported;
    hide ReportAll;
    hide Reportable;
    for j := 0 to |uuids|
      invariant |commands| == j
      invariant Assembled(rows, id, uuids, sc, commands)
    {
      var uuid := uuids[j];
      assert uuid in uuids;
      RowReads(b, rows, n, id, uuid);
      if uuid != sc.commandUUID && !IDCmdIsComplete(b, id, uuid) {
        return Ok(None);
      }
      var result := AssembleResult(b, rows, n, id, uuid, sc);
      match result
      case Err(e) => return Err(e);
      case Ok(command) =>
        AssembledNext(rows, id, uuids, sc, commands, command);
        commands := commands + [command];
    }
    AssembledAll(rows, id, uuids, sc, commands);
    return Ok(Some(commands));
  }

  // Deletes the commands of one enrollment.
  method DeleteIDCmds(b: Bucket, ghost rows: Rows, ghost n: nat, id: string, uuids: seq<string>) returns (b': Bucket)
    requires RowsRep(b, rows, n) && UuidsOfLength(uuids, n)
    ensures RowsRep(b', rows - Keys([id], uuids), n)
  {
    b' := b;
    assert rows - Keys([id], uuids[..0]) == rows;
    hide RowsRep;
    for j := 0 to |uuids|
      invariant RowsRep(b', rows - Keys([id], uuids[..j]), n)
    {
      ghost var before := rows - Keys([id], uuids[..j]);
      ghost var k := CmdKey(id, uuids[j]);
      assert uuids[j] in uuids;
      DeleteRowRep(b', before, n, k);
      b' := DeleteIDCmd(b', id, uuids[j]);
      KeysExtend(id, uuids, j);
      assert before - {k} == rows - Keys([id], uuids[..j + 1]);
    }
    assert uuids[..|uuids|] == uuids;
  }

  lemma KeysExtend(id: string, uuids: seq<string>, j: nat)
    requires j < |uuids|
    ensures Keys([id], uuids[..j + 1]) == Keys([id], uuids[..j]) + {CmdKey(id, uuids[j])}
  {
    assert uuids[..j + 1] == uuids[..j] + [uuids[j]];
    assert id in [id];
  }

  ghost predicate AnyWaiting(rows: Rows, ids: seq<string>, uuids: seq<string>) {
    exists i :: i in ids && Waiting(rows, i, uuids)
  }

  // The commands of one enrollment that still exist, or None if one waits.
  method FinishedCmds(b: Bucket, ghost rows: Rows, ghost n: nat, id: string, uuids: seq<string>)
    returns (r: Option<seq<(string, string)>>)
    requires RowsRep(b, rows, n) && UuidsOfLength(uuids, n)
    ensures r.None? <==> Waiting(rows, id, uuids)
    ensures r.Some? ==> forall i, u :: (i, u) in r.value <==> i == id && u in uuids && CmdKey(i, u) in rows
  {
    var found: seq<(string, string)> := [];
    hide RowsRep;
    for j := 0 to |uuids|
      invariant !Waiting(rows, id, uuids[..j])
      invariant forall i, u :: (i, u) in found <==> i == id && u in uuids[..j] && CmdKey(i, u) in rows
    {
      var uuid := uuids[j];
      assert uuid in uuids && uuids[..j + 1] == uuids[..j] + [uuid];
      RowReads(b, rows, n, id, uuid);
      if IDCmdExists(b, id, uuid) {
        if !IDCmdIsComplete(b, id, uuid) {
          return None;
        }
        found := found + [(id, uuid)];
      }
    }
    assert uuids[..|uuids|] == uuids;
    return Some(found);
  }

  method DeletePairs(b: Bucket, ghost rows: Rows, ghost n: nat, pairs: seq<(string, string)>) returns (b': Bucket)
    requires RowsRep(b, rows, n) && forall p :: p in pairs ==> |p.1| == n
    ensures RowsRep(b', rows - (set p | p in pairs :: CmdKey(p.0, p.1)), n)
  {
    b' := b;
    assert rows - (set p | p in pairs[..0] :: CmdKey(p.0, p.1)) == rows;
    hide RowsRep;
    for j := 0 to |pairs|
      invariant RowsRep(b', rows - (set p | p in pairs[..j] :: CmdKey(p.0, p.1)), n)
    {
      ghost var before := rows - (set p | p in pairs[..j] :: CmdKey(p.0, p.1));
      ghost var k := CmdKey(pairs[j].0, pairs[j].1);
      assert pairs[j] in pairs && pairs[..j + 1] == pairs[..j] + [pairs[j]];
      DeleteRowRep(b', before, n, k);
      b' := DeleteIDCmd(b', pairs[j].0, pairs[j].1);
      assert before - {k} == rows - (set p | p in pairs[..j + 1] :: CmdKey(p.0, p.1));
    }
    assert pairs[..|pairs|] == pairs;
  }

  // The commands of all enrollments that still exist, or None if one waits.
  method AllFinishedCmds(b: Bucket, ghost rows: Rows, ghost n: nat, ids: seq<string>, uuids: seq<string>)
    returns (r: Option<seq<(string, string)>>)
    requires RowsRep(b, rows, n) && UuidsOfLength(uuids, n)
    ensures r.None? <==> AnyWaiting(rows, ids, uuids)
    ensures r.Some? ==> forall i, u :: (i, u) in r.value <==> i in ids && u in uuids && CmdKey(i, u) in rows
  {
    hide RowsRep;
    hide Waiting;
    var found: seq<(string, string)> := [];
    for m := 0 to |ids|
      invariant !AnyWaiting(rows, ids[..m], uuids)
      invariant forall i, u :: (i, u) in found <==> i in ids[..m] && u in uuids && CmdKey(i, u) in rows
    {
      assert ids[m] in ids && ids[..m + 1] == ids[..m] + [ids[m]];
      var finished := FinishedCmds(b, rows, n, ids[m], uuids);
      if finished.None? {
        return None;
      }
      found := found + finished.value;
    }
    assert ids[..|ids|] == ids;
    return Some(found);
  }

  // Deletes the step, and whatever finished commands are left of it, unless a
  // command still waits for some enrollment.
  method DeleteStepIfAllIDsComplete(b: Bucket, cb: Bucket, ghost steps: Steps, ghost rows: Rows, ghost n: nat,
                                    stepID: string, uuids: seq<string>)
    returns (err: Option<Error>, b': Bucket, cb': Bucket)
    requires StepsRep(b, steps) && stepID in steps && RowsRep(cb, rows, n) && UuidsOfLength(uuids, n)
    ensures err == None
    ensures AnyWaiting(rows, steps[stepID].ids, uuids) ==> b' == b && cb' == cb
    ensures !AnyWaiting(rows, steps[stepID].ids, uuids) ==>
              StepsRep(b', steps - {stepID}) && RowsRep(cb', rows - Keys(steps[stepID].ids, uuids), n)
  {
    b', cb' := b, cb;
    StepReads(b, steps, stepID);
    match GetStepIDs(b, stepID)
    case Err(e) => return Some(e), b', cb';
    case Ok(ids) =>
      hide StepsRep;
      hide RowsRep;
      hide AnyWaiting;
      hide Keys;
      err := None;
      var cmdsToDelete := AllFinishedCmds(cb, rows, n, ids, uuids);
      if cmdsToDelete.Some? {
        forall p | p in cmdsToDelete.value ensures |p.1| == n {
          assert (p.0, p.1) in cmdsToDelete.value;
        }
        cb' := DeletePairs(cb, rows, n, cmdsToDelete.value);
        PairsAreKeys(rows, ids, uuids, cmdsToDelete.value);
        DeleteStepRep(b, steps, stepID);
        b' := DeleteStep(b, stepID);
      }
  }

  lemma PairsAreKeys(rows: Rows, ids: seq<string>, uuids: seq<string>, pairs: seq<(string, string)>)
    requires forall i, u :: (i, u) in pairs <==> i in ids && u in uuids && CmdKey(i, u) in rows
    ensures rows - (set p | p in pairs :: CmdKey(p.0, p.1)) == rows - Keys(ids, uuids)
  {
    forall k | k in rows
      ensures k in (set p | p in pairs :: CmdKey(p.0, p.1)) <==> k in Keys(ids, uuids)
    {
      if k in Keys(ids, uuids) {
        assert (k.owner, k.uuid) in pairs;
      }
    }
  }
}
