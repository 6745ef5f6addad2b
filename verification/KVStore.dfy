/**
 The key-value workflow engine backend. The step operations run under one
 lock in the original, so each is one atomic method here; the start-time
 methods take no lock, and are taken to be atomic. The buckets are the object's
 state; `st` is the tracker state they stand for.
 */
module KVStore {
  import opened Wrappers
  import opened Records
  import opened Tracker
  import opened Invariant
  import opened Delivery
  import opened Buckets
  import opened KVPrim
  import opened KVScan
  import opened KVSteps
  import opened KVWorker
  import opened KVPasses
  import opened KVStatus

  // What the encodings need of a step: command UUIDs of the fixed length, and
  // no separator inside a list element.
  ghost predicate Storable(step: Option<StepEnqueuingWithConfig>, n: nat) {
    && (step.Some? ==> UuidsOfLength(Uuids(step.value.commands), n))
    && (ValidateStep(step).None? ==> Encodable(NewStep(step.value)))
  }

  // The pairs checked by the store are free exactly when the tracker accepts.
  lemma AcceptsExact(st: State, cfg: StepEnqueuingWithConfig)
    ensures Accepts(st, Some(cfg))
            <==> ValidateStep(Some(cfg)).None? && Unused(st.rows, cfg.ids, Uuids(cfg.commands))
  {
  }

  // A freshly accepted step finds none of its rows in the store.
  lemma AcceptedIsNew(st: State, s: string, cfg: StepEnqueuingWithConfig)
    requires Inv(st) && Accepts(st, Some(cfg)) && MayStore(st, s, Some(cfg))
    ensures s !in st.steps && s !in cfg.ids
    ensures Distinct(Owners(s, cfg)) && NoneTracked(st.rows, Owners(s, cfg), Uuids(cfg.commands))
    ensures Distinct(Uuids(cfg.commands))
    ensures cfg.notUntil != 0 ==> forall c :: c in cfg.commands ==> c.command != ""
  {
    forall u
      ensures CmdKey(s, u) !in st.rows
    {
      OwnerInOrigin(st, CmdKey(s, u));
    }
    StoredInOrigin(st, s);
  }

  lemma StoreAccepted(st: State, s: string, cfg: StepEnqueuingWithConfig, now: Time)
    requires Accepts(st, Some(cfg))
    ensures Store(st, s, Some(cfg), now).steps == st.steps[s := NewStep(cfg)]
    ensures Store(st, s, Some(cfg), now).rows == st.rows + NewRows(s, cfg, now)
  {
  }

  // The UUIDs of a stored step have the fixed length.
  lemma StoredUuids(st: State, n: nat, s: string, b: Bucket)
    requires Inv(st) && RowsRep(b, st.rows, n) && s in st.steps
    ensures UuidsOfLength(st.steps[s].uuids, n)
  {
    assert StepOK(st, s);
    var i :| Live(st, s, i);
    forall u | u in st.steps[s].uuids
      ensures |u| == n
    {
      assert CmdKey(i, u) in st.rows;
    }
  }

  lemma AllStoredUuids(st: State, n: nat, b: Bucket)
    requires Inv(st) && RowsRep(b, st.rows, n)
    ensures forall s :: s in st.steps ==> UuidsOfLength(st.steps[s].uuids, n)
  {
    forall s | s in st.steps {
      StoredUuids(st, n, s, b);
    }
  }

  // Writes the records of a step that is no duplicate, if it is valid.
  method WriteStep(sb: Bucket, cb: Bucket, ghost st: State, ghost n: nat,
                   stepID: string, step: Option<StepEnqueuingWithConfig>, now: Time)
    returns (err: Option<Error>, sb': Bucket, cb': Bucket)
    requires Inv(st) && StepsRep(sb, st.steps) && RowsRep(cb, st.rows, n)
    requires ValidateStep(step).None? ==> Accepts(st, step)
    requires MayStore(st, stepID, step) && Storable(step, n)
    ensures err.None? <==> Accepts(st, step)
    ensures err.Some? ==> sb' == sb && cb' == cb
    ensures StepsRep(sb', Store(st, stepID, step, now).steps)
    ensures RowsRep(cb', Store(st, stepID, step, now).rows, n)
  {
    sb', cb' := sb, cb;
    var stored := SetStep(sb, stepID, step);
    match stored
    case Err(e) => err := Some(e);
    case Ok(b) =>
      AcceptedIsNew(st, stepID, step.value);
      StoreAccepted(st, stepID, step.value, now);
      PutStepRep(sb, st.steps, stepID, NewStep(step.value));
      hide Inv;
      hide StepsRep;
      hide RowsRep;
      hide Accepts;
      hide MayStore;
      hide Store;
      hide NewRows;
      err := None;
      sb' := b;
      cb' := StoreCommands(cb, st.rows, n, stepID, step.value, now);
  }

  /* ---- Completing a step ---- */

  ghost function AsResponse(r: Result<Option<StepResult>, Error>): Response {
    match r
    case Err(_) => Rejected
    case Ok(None) => Recorded
    case Ok(Some(step)) => Completed(step)
  }

  // What is left of a step once the rows of one enrollment are gone: either
  // another enrollment is live and waits, or there is nothing left to clean up.
  lemma AfterCompletion(st: State, id: string, sc: StepCommandResult, s: string)
    requires Inv(st) && id !in st.origin && Completes(st, id, sc)
    requires st.rows[CmdKey(id, sc.commandUUID)].stepID == s
    ensures var step := st.steps[s];
            var rows := st.rows - Keys([id], step.uuids);
            var othersLive := exists i :: i in step.ids && i != id && Live(st, s, i);
            && (AnyWaiting(rows, step.ids, step.uuids) <==> othersLive)
            && (!othersLive ==> rows - Keys(step.ids, step.uuids) == rows)
  {
    var step := st.steps[s];
    var rows := st.rows - Keys([id], step.uuids);
    assert StepOK(st, s);
    LiveStep(st, s);
    hide Inv;
    hide Keys;
    forall i | i in step.ids
      ensures Waiting(rows, i, step.uuids) <==> i != id && Live(st, s, i)
      ensures i == id || !Live(st, s, i) ==> Untracked(rows, i, step.uuids)
    {
      assert AllOrNone(st, i, step.uuids);
      RemainsWaiting(st, id, step.uuids, i);
    }
    hide Waiting;
    hide Live;
    if forall i :: i in step.ids ==> Untracked(rows, i, step.uuids) {
      NothingLeft(rows, step.ids, step.uuids);
    }
  }

  lemma NothingLeft(rows: Rows, ids: seq<string>, uuids: seq<string>)
    requires forall i :: i in ids ==> Untracked(rows, i, uuids)
    ensures rows - Keys(ids, uuids) == rows
  {
  }

  lemma RemainsWaiting(st: State, id: string, uuids: seq<string>, i: string)
    requires AllOrNone(st, i, uuids) && uuids != []
    ensures var rows := st.rows - Keys([id], uuids);
            && (Waiting(rows, i, uuids) <==> i != id && Tracked(st.rows, i, uuids))
            && (i == id || !Tracked(st.rows, i, uuids) ==> Untracked(rows, i, uuids))
  {
    var rows := st.rows - Keys([id], uuids);
    assert uuids[0] in uuids;
    if i != id && Tracked(st.rows, i, uuids) {
      var u :| u in uuids && CmdKey(i, u) in st.rows && !st.rows[CmdKey(i, u)].done;
      assert CmdKey(i, u) in rows;
    }
  }

  // The tracker's completion in terms of what the deletion finds.
  lemma CompletedState(st: State, id: string, sc: StepCommandResult, s: string)
    requires Inv(st) && id !in st.origin && Completes(st, id, sc)
    requires st.rows[CmdKey(id, sc.commandUUID)].stepID == s
    requires sc.commandUUID in st.steps[s].uuids
    ensures var step := st.steps[s];
            var key := CmdKey(id, sc.commandUUID);
            var rows := st.rows[key := Note(st.rows[key], sc)] - Keys([id], step.uuids);
            && Respond(st, id, sc).rows == rows
            && Respond(st, id, sc).steps
               == (if AnyWaiting(rows, step.ids, step.uuids) then st.steps else st.steps - {s})
            && (!AnyWaiting(rows, step.ids, step.uuids) ==> rows - Keys(step.ids, step.uuids) == rows)
  {
    AfterCompletion(st, id, sc, s);
    RespondWhenComplete(st, id, sc, s);
    hide *;
  }

  // Deletes what a completed step leaves behind.
  method CloseStep(sb: Bucket, cb: Bucket, ghost st: State, ghost n: nat,
                   id: string, ghost sc: StepCommandResult, stepID: string, uuids: seq<string>)
    returns (err: Option<Error>, sb': Bucket, cb': Bucket)
    requires Inv(st) && id !in st.origin && Completes(st, id, sc)
    requires st.rows[CmdKey(id, sc.commandUUID)].stepID == stepID && uuids == st.steps[stepID].uuids
    requires sc.commandUUID in uuids && UuidsOfLength(uuids, n)
    requires StepsRep(sb, st.steps)
    requires RowsRep(cb, st.rows[CmdKey(id, sc.commandUUID) := Note(st.rows[CmdKey(id, sc.commandUUID)], sc)], n)
    ensures err == None
    ensures StepsRep(sb', Respond(st, id, sc).steps) && RowsRep(cb', Respond(st, id, sc).rows, n)
  {
    CompletedState(st, id, sc, stepID);
    ghost var key := CmdKey(id, sc.commandUUID);
    ghost var noted := st.rows[key := Note(st.rows[key], sc)];
    hide Inv;
    hide StepsRep;
    hide RowsRep;
    hide Keys;
    hide AnyWaiting;
    hide OthersDone;
    hide Respond;
    hide Note;
    sb' := sb;
    cb' := DeleteIDCmds(cb, noted, n, id, uuids);
    err, sb', cb' := DeleteStepIfAllIDsComplete(sb', cb', st.steps, noted - Keys([id], uuids), n, stepID, uuids);
  }

  // Responses that cannot complete a step: to an unknown command, or not final.
  lemma RespondQuietly(st: State, id: string, sc: StepCommandResult)
    ensures CmdKey(id, sc.commandUUID) !in st.rows ==>
            Respond(st, id, sc) == st && RespondOutcome(st, id, sc) == Rejected
    ensures CmdKey(id, sc.commandUUID) in st.rows && !sc.completed ==>
              && Respond(st, id, sc).steps == st.steps
              && Respond(st, id, sc).rows
                 == st.rows[CmdKey(id, sc.commandUUID) := Note(st.rows[CmdKey(id, sc.commandUUID)], sc)]
              && RespondOutcome(st, id, sc) == Recorded
  {
  }

  lemma RecordedState(st: State, id: string, sc: StepCommandResult)
    requires CmdKey(id, sc.commandUUID) in st.rows && !Completes(st, id, sc)
    ensures Respond(st, id, sc).steps == st.steps
    ensures Respond(st, id, sc).rows
            == st.rows[CmdKey(id, sc.commandUUID) := Note(st.rows[CmdKey(id, sc.commandUUID)], sc)]
  {
  }

  // Recording a response changes nothing that assembling the results reads,
  // except for the command's own row.
  lemma NotedReport(rows: Rows, id: string, uuids: seq<string>, sc: StepCommandResult)
    requires CmdKey(id, sc.commandUUID) in rows && Tracked(rows, id, uuids)
    ensures var key := CmdKey(id, sc.commandUUID);
            var noted := rows[key := Note(rows[key], sc)];
            && Tracked(noted, id, uuids)
            && (OthersDone(noted, id, uuids, sc.commandUUID) <==> OthersDone(rows, id, uuids, sc.commandUUID))
            && ReportAll(noted, id, uuids, sc) == ReportAll(rows, id, uuids, sc)
  {
    var key := CmdKey(id, sc.commandUUID);
    var noted := rows[key := Note(rows[key], sc)];
    forall j | 0 <= j < |uuids|
      ensures CmdKey(id, uuids[j]) in rows
      ensures Reported(noted, id, uuids[j], sc) == Reported(rows, id, uuids[j], sc)
    {
    }
  }

  lemma NotedRows(st: State, id: string, sc: StepCommandResult, s: string)
    requires Inv(st) && id !in st.origin
    requires CmdKey(id, sc.commandUUID) in st.rows && st.rows[CmdKey(id, sc.commandUUID)].stepID == s && s in st.steps
    ensures Tracked(st.rows, id, st.steps[s].uuids) && sc.commandUUID in st.steps[s].uuids
    ensures Reportable(st.rows[CmdKey(id, sc.commandUUID) := Note(st.rows[CmdKey(id, sc.commandUUID)], sc)], id)
  {
    RowIsLive(st, CmdKey(id, sc.commandUUID));
    forall k | k in st.rows && k.owner == id && st.rows[k].done
      ensures st.rows[k].result.Some?
    {
      assert RowOK(st, k);
    }
  }

  // A final response has been recorded: hands out its step if that makes it
  // complete, and deletes what has been handed out.
  method TryComplete(sb: Bucket, cb: Bucket, ghost st: State, ghost n: nat, id: string, sc: StepCommandResult)
    returns (r: Result<Option<StepResult>, Error>, sb': Bucket, cb': Bucket)
    requires Inv(st) && id !in st.origin && |sc.commandUUID| == n && sc.completed
    requires CmdKey(id, sc.commandUUID) in st.rows
    requires StepsRep(sb, st.steps) && forall s :: s in st.steps ==> UuidsOfLength(st.steps[s].uuids, n)
    requires RowsRep(cb, st.rows[CmdKey(id, sc.commandUUID) := Note(st.rows[CmdKey(id, sc.commandUUID)], sc)], n)
    ensures StepsRep(sb', Respond(st, id, sc).steps) && RowsRep(cb', Respond(st, id, sc).rows, n)
    ensures AsResponse(r) == RespondOutcome(st, id, sc)
  {
    ghost var key := CmdKey(id, sc.commandUUID);
    ghost var noted := st.rows[key := Note(st.rows[key], sc)];
    sb', cb' := sb, cb;
    RowReads(cb, noted, n, id, sc.commandUUID);
    if !Completes(st, id, sc) {
      RecordedState(st, id, sc);
    }
    hide RowsRep;
    match GetIDCmdStepID(cb, id, sc.commandUUID)
    case Err(e) => r := Err(e);
    case Ok(stepID) =>
      if stepID in st.steps {
        StepReads(sb, st.steps, stepID);
        NotedRows(st, id, sc, stepID);
        NotedReport(st.rows, id, st.steps[stepID].uuids, sc);
      } else {
        StepGone(sb, st.steps, stepID);
      }
      hide Inv;
      hide StepsRep;
      hide ReportAll;
      hide OthersDone;
      hide Respond;
      match GetStepCmds(sb, stepID)
      case Err(e) => r := Err(e);
      case Ok(uuids) =>
        var assembled := AssembleResults(cb, noted, n, id, uuids, sc);
        match assembled
        case Err(e) => r := Err(e);
        case Ok(None) => r := Ok(None);
        case Ok(Some(commands)) =>
          match GetStepResult(sb, stepID)
          case Err(e) => r := Err(e);
          case Ok(step) =>
            r := Ok(Some(step.(ids := [id], commands := commands)));
            var err: Option<Error>;
            err, sb', cb' := CloseStep(sb, cb, st, n, id, sc, stepID, uuids);
  }

  // Records a response in the buckets and hands out the step if that completes it.
  method RecordResponse(sb: Bucket, cb: Bucket, ghost st: State, ghost n: nat, id: string, sc: StepCommandResult)
    returns (r: Result<Option<StepResult>, Error>, sb': Bucket, cb': Bucket)
    requires Inv(st) && StepsRep(sb, st.steps) && RowsRep(cb, st.rows, n)
    requires id !in st.origin && NoAlias(st.rows, n, id, sc.commandUUID)
    ensures StepsRep(sb', Respond(st, id, sc).steps) && RowsRep(cb', Respond(st, id, sc).rows, n)
    ensures AsResponse(r) == RespondOutcome(st, id, sc)
  {
    hide Inv;
    hide StepsRep;
    hide RowsRep;
    hide NoAlias;
    hide Respond;
    hide RespondOutcome;
    hide SetIDCmdUpdate;
    hide Note;
    sb', cb' := sb, cb;
    SpelledReads(cb, st.rows, n, id, sc.commandUUID);
    RespondQuietly(st, id, sc);
    if !IDCmdExists(cb, id, sc.commandUUID) {
      return Err(CommandNotFound(sc.commandUUID)), sb', cb';
    }
    UpdateRep(cb, st.rows, n, id, sc);
    AllStoredUuids(st, n, cb);
    cb' := SetIDCmdUpdate(cb, id, sc);
    if sc.completed {
      r, sb', cb' := TryComplete(sb, cb', st, n, id, sc);
    } else {
      r := Ok(None);
    }
  }

  // What the buckets know of the command that an ID and a UUID of any length
  // spell.
  ghost function RequestTypeOf(rows: Rows, n: nat, id: string, uuid: string): Option<string> {
    if n <= |id + uuid| && KeyOf(id + uuid, n) in rows then Some(rows[KeyOf(id + uuid, n)].reqType) else None
  }

  // A UUID of the fixed length spells its own command only.
  lemma RequestTypeExact(rows: Rows, n: nat, id: string, uuid: string)
    requires |uuid| == n
    ensures RequestTypeOf(rows, n, id, uuid)
            == if CmdKey(id, uuid) in rows then Some(rows[CmdKey(id, uuid)].reqType) else None
  {
    assert KeyOf(id + uuid, n) == CmdKey(id, uuid);
  }

  // A UUID of another length does not spell a command of some other enrollment.
  ghost predicate NoAlias(rows: Rows, n: nat, id: string, uuid: string) {
    RequestTypeOf(rows, n, id, uuid).Some? ==> |uuid| == n
  }

  lemma SpelledReads(b: Bucket, rows: Rows, n: nat, id: string, uuid: string)
    requires RowsRep(b, rows, n)
    ensures IDCmdExists(b, id, uuid) <==> RequestTypeOf(rows, n, id, uuid).Some?
    ensures IDCmdExists(b, id, uuid) ==>
              Key(id + uuid, ReqType) in b && b[Key(id + uuid, ReqType)] == RequestTypeOf(rows, n, id, uuid).value
    ensures NoAlias(rows, n, id, uuid) ==> (IDCmdExists(b, id, uuid) <==> CmdKey(id, uuid) in rows)
    ensures NoAlias(rows, n, id, uuid) && CmdKey(id, uuid) in rows ==> |uuid| == n
  {
    ExistsExact(b, rows, n, id, uuid);
    assert At(b, id + uuid) == RowRecordAt(rows, id + uuid, n);
    FieldAt(b, id + uuid, ReqType);
    if |uuid| == n {
      RequestTypeExact(rows, n, id, uuid);
    }
  }

  method CancelInBuckets(sb: Bucket, cb: Bucket, ghost st: State, ghost n: nat, id: string, workflowName: string)
    returns (err: Option<Error>, sb': Bucket, cb': Bucket)
    requires Inv(st) && StepsRep(sb, st.steps) && RowsRep(cb, st.rows, n)
    ensures err == None
    ensures StepsRep(sb', Cancel(st, id, workflowName).steps) && RowsRep(cb', Cancel(st, id, workflowName).rows, n)
  {
    hide Inv;
    hide StepsRep;
    hide RowsRep;
    hide Cancel;
    sb', cb' := sb, cb;
    AllStoredUuids(st, n, cb);
    var found := FindWorkflowStepsWithIDs(sb, st.steps, workflowName, [id]);
    match found
    case Err(e) => err := Some(e);
    case Ok(stepIDs) =>
      CancelledAll(st, id, workflowName, stepIDs);
      hide Listed;
      hide OwnKeys;
      err, sb', cb' := CancelFound(sb, cb, st.steps, st.rows, n, id, stepIDs);
  }

  method ReleaseInBuckets(sb: Bucket, cb: Bucket, ghost st: State, ghost n: nat, now: Time, pushTime: Time)
    returns (r: Result<seq<StepEnqueueing>, Error>, sb': Bucket, cb': Bucket, ghost due: seq<string>)
    requires Inv(st) && StepsRep(sb, st.steps) && RowsRep(cb, st.rows, n)
    ensures StepsRep(sb', Release(st, now, pushTime).steps) && RowsRep(cb', Release(st, now, pushTime).rows, n)
    ensures Distinct(due) && forall s :: s in due <==> Due(st, s, now)
    ensures r.Ok? && AreReleased(st, due, r.value)
  {
    hide Inv;
    hide StepsRep;
    hide RowsRep;
    hide Release;
    hide Releasable;
    hide Undelayed;
    hide ReleasedRows;
    hide AreReleased;
    hide AreHanded;
    hide TimePassed;
    AllStoredUuids(st, n, cb);
    var found := FindStepsPast(sb, st.steps, NotUntil, now);
    due := found.value;
    AllReleased(st, now, pushTime, due);
    r, sb', cb' := ReleaseFound(sb, cb, st.steps, st.rows, n, found.value, pushTime);
    HandedIsReleased(st, due, r.value);
  }

  method TimeOutInBuckets(sb: Bucket, cb: Bucket, ghost st: State, ghost n: nat, now: Time)
    returns (r: Result<seq<StepResult>, Error>, sb': Bucket, cb': Bucket, ghost pairs: seq<(string, string)>)
    requires Inv(st) && StepsRep(sb, st.steps) && RowsRep(cb, st.rows, n)
    ensures StepsRep(sb', TimeOut(st, now).steps) && RowsRep(cb', TimeOut(st, now).rows, n)
    ensures Distinct(pairs) && forall p :: p in pairs <==> Expired(st, p.0, now) && Live(st, p.0, p.1)
    ensures r.Ok? && ResultsOf(st, pairs, r.value)
  {
    hide Inv;
    hide StepsRep;
    hide RowsRep;
    hide TimeOut;
    hide Live;
    hide LivePairs;
    hide ResultsOf;
    hide Listed;
    hide IDKeys;
    AllStoredUuids(st, n, cb);
    var found := FindStepsPast(sb, st.steps, Timeout, now);
    assert forall s :: s in found.value <==> Expired(st, s, now);
    hide TimePassed;
    TimedOutAll(st, now, found.value);
    pairs := LivePairs(st, found.value);
    r, sb', cb' := TimeOutFound(sb, cb, st, n, found.value);
  }

  class KV {
    var stepStore: Bucket
    var idCmdStore: Bucket
    var statusStore: Bucket
    ghost const uuidLen: nat
    ghost var st: State
    ghost var starts: Starts

    ghost predicate Valid()
      reads this
    {
      Inv(st) && Represents()
    }

    // The buckets hold the tracker's state and the start times.
    ghost predicate Represents()
      reads this
    {
      && StepsRep(stepStore, st.steps) && RowsRep(idCmdStore, st.rows, uuidLen)
      && StartsRep(statusStore, starts)
    }

    constructor (ghost uuidLen: nat)
      ensures Valid() && st == Init && starts == map[] && this.uuidLen == uuidLen
    {
      stepStore, idCmdStore, statusStore := map[], map[], map[];
      starts := map[];
      this.uuidLen := uuidLen;
      st := Init;
    }

    // The request type of the command that the ID and UUID together spell.
    method RetrieveCommandRequestType(id: string, cmdUUID: string) returns (r: Result<Option<string>, Error>)
      requires Valid()
      ensures r.Err? <==> id == "" || cmdUUID == ""
      ensures r.Ok? ==> r.value == RequestTypeOf(st.rows, uuidLen, id, cmdUUID)
    {
      if id == "" || cmdUUID == "" {
        return Err(EmptyIDOrUUID);
      }
      SpelledReads(idCmdStore, st.rows, uuidLen, id, cmdUUID);
      if !IDCmdExists(idCmdStore, id, cmdUUID) {
        return Ok(None);
      }
      return Ok(Some(idCmdStore[Key(id + cmdUUID, ReqType)]));
    }

    // Stores a step and its commands. A rejected step changes nothing.
    method StoreStep(stepID: string, step: Option<StepEnqueuingWithConfig>, now: Time) returns (err: Option<Error>)
      requires Valid() && MayStore(st, stepID, step) && Storable(step, uuidLen)
      modifies this`stepStore, this`idCmdStore, this`st
      ensures Valid() && st == Store(old(st), stepID, step, now)
      ensures err.None? <==> Accepts(old(st), step)
      ensures err.Some? ==> stepStore == old(stepStore) && idCmdStore == old(idCmdStore)
    {
      hide Inv;
      hide StepsRep;
      hide RowsRep;
      hide MayStore;
      StoreKeepsInv(st, stepID, step, now);
      if step.Some? {
        AcceptsExact(st, step.value);
        var dup := CheckDuplicates(idCmdStore, st.rows, uuidLen, step.value.ids, step.value.commands);
        if dup.Some? {
          return dup;
        }
      }
      err, stepStore, idCmdStore := WriteStep(stepStore, idCmdStore, st, uuidLen, stepID, step, now);
      st := Store(st, stepID, step, now);
    }

    // Records a response and hands out the step if that completes it. Only one
    // that completes a step before its release may leave an invalid state.
    method StoreCommandResponseAndRetrieveCompletedStep(id: string, sc: StepCommandResult)
      returns (r: Result<Option<StepResult>, Error>)
      requires Valid() && id !in st.origin && NoAlias(st.rows, uuidLen, id, sc.commandUUID)
      modifies this`stepStore, this`idCmdStore, this`st
      ensures Represents() && st == Respond(old(st), id, sc)
      ensures MayRespond(old(st), id, sc) ==> Valid()
      ensures AsResponse(r) == RespondOutcome(old(st), id, sc)
    {
      hide Inv;
      hide StepsRep;
      hide RowsRep;
      hide StartsRep;
      hide MayRespond;
      hide NoAlias;
      hide Respond;
      hide RespondOutcome;
      if MayRespond(st, id, sc) {
        RespondKeepsInv(st, id, sc);
      }
      r, stepStore, idCmdStore := RecordResponse(stepStore, idCmdStore, st, uuidLen, id, sc);
      st := Respond(st, id, sc);
    }

    // The IDs for which a step of the workflow is still outstanding.
    method RetrieveOutstandingWorkflowStatus(workflowName: string, ids: seq<string>)
      returns (r: Result<seq<string>, Error>)
      requires Valid() && forall i :: i in ids ==> i !in st.origin
      ensures r.Ok? && Distinct(r.value)
      ensures forall i :: i in r.value <==> i in ids && Outstanding(st, workflowName, i)
    {
      AllStoredUuids(st, uuidLen, idCmdStore);
      ghost var found;
      r, found := OutstandingIDs(stepStore, idCmdStore, st.steps, st.rows, uuidLen, workflowName, ids);
      forall i | i in ids
        ensures WaitsIn(st.steps, st.rows, found, i) <==> Outstanding(st, workflowName, i)
      {
        OutstandingFound(st, workflowName, ids, found, i);
      }
    }

    // Cancels the steps of a workflow that involve the enrollment.
    method CancelSteps(id: string, workflowName: string) returns (err: Option<Error>)
      requires Valid()
      modifies this`stepStore, this`idCmdStore, this`st
      ensures Valid() && st == Cancel(old(st), id, workflowName)
      ensures err == None
    {
      hide Inv;
      hide StepsRep;
      hide RowsRep;
      hide StartsRep;
      hide Cancel;
      CancelKeepsInv(st, id, workflowName);
      err, stepStore, idCmdStore := CancelInBuckets(stepStore, idCmdStore, st, uuidLen, id, workflowName);
      st := Cancel(st, id, workflowName);
    }

    // Releases the delayed steps that are due, each of them once.
    method RetrieveStepsToEnqueue(now: Time, pushTime: Time)
      returns (r: Result<seq<StepEnqueueing>, Error>, ghost due: seq<string>)
      requires Valid()
      modifies this`stepStore, this`idCmdStore, this`st
      ensures Valid() && st == Release(old(st), now, pushTime)
      ensures Distinct(due) && forall s :: s in due <==> Due(old(st), s, now)
      ensures r.Ok? && AreReleased(old(st), due, r.value)
    {
      hide Inv;
      hide StepsRep;
      hide RowsRep;
      hide StartsRep;
      hide Release;
      hide Due;
      hide AreReleased;
      ReleaseKeepsInv(st, now, pushTime);
      r, stepStore, idCmdStore, due := ReleaseInBuckets(stepStore, idCmdStore, st, uuidLen, now, pushTime);
      st := Release(st, now, pushTime);
    }

    // Times out the steps that have expired; hands out what is known of them,
    // once for each enrollment that they are live for.
    method RetrieveTimedOutSteps(now: Time)
      returns (r: Result<seq<StepResult>, Error>, ghost pairs: seq<(string, string)>)
      requires Valid()
      modifies this`stepStore, this`idCmdStore, this`st
      ensures Valid() && st == TimeOut(old(st), now)
      ensures Distinct(pairs) && forall p :: p in pairs <==> Expired(old(st), p.0, now) && Live(old(st), p.0, p.1)
      ensures r.Ok? && ResultsOf(old(st), pairs, r.value)
    {
      hide Inv;
      hide StepsRep;
      hide RowsRep;
      hide StartsRep;
      hide TimeOut;
      hide Expired;
      hide Live;
      hide ResultsOf;
      TimeOutKeepsInv(st, now);
      r, stepStore, idCmdStore, pairs := TimeOutInBuckets(stepStore, idCmdStore, st, uuidLen, now);
      st := TimeOut(st, now);
    }

    // Stamps every command last pushed no later than ifBefore; returns the IDs
    // that own one.
    method RetrieveAndMarkRePushed(ifBefore: Time, setTo: Time) returns (r: Result<seq<string>, Error>)
      requires Valid()
      modifies this`idCmdStore, this`st
      ensures Valid() && st == RePush(old(st), ifBefore, setTo)
      ensures r.Ok? && forall i :: i in r.value <==> i in PushedIDs(old(st), ifBefore)
    {
      RePushKeepsInv(st, ifBefore, setTo);
      RowLengths(idCmdStore, st.rows, uuidLen);
      hide Inv;
      hide StepsRep;
      hide RowsRep;
      hide RePush;
      hide OwnersOf;
      ghost var names, reset;
      var before := idCmdStore;
      r, idCmdStore, names, reset := FindCommandsToRePush(before, ifBefore, setTo);
      ScannedRows(before, st.rows, uuidLen, ifBefore, setTo, names, if r.Ok? then r.value else [], reset);
      RePushedAll(st, uuidLen, ifBefore, setTo, names);
      RePushKeepsSteps(st, ifBefore, setTo);
      st := RePush(st, ifBefore, setTo);
    }

    method RetrieveWorkflowStarted(id: string, workflowName: string) returns (r: Result<Time, Error>)
      requires Valid()
      ensures r == Ok(LastStart(starts, id, workflowName))
    {
      ReadStartedExact(statusStore, starts, id, workflowName);
      return ReadStarted(statusStore, id, workflowName);
    }

    // Sets the start for the given IDs, and for whoever shares theirs.
    method RecordWorkflowStarted(ids: seq<string>, workflowName: string, started: Time)
      requires Valid()
      modifies this`statusStore, this`starts
      ensures Valid()
      ensures forall other, w :: LastStart(starts, other, w)
                == if exists id :: id in ids && Shared(id, workflowName, other, w) then started
                   else LastStart(old(starts), other, w)
    {
      hide Inv;
      hide StepsRep;
      hide RowsRep;
      hide StartsRep;
      hide LastStart;
      hide Shared;
      forall other, w {
        WithStartExact(starts, ids, workflowName, started, other, w);
      }
      statusStore := WriteStarted(statusStore, starts, ids, workflowName, started);
      starts := WithStart(starts, ids, workflowName, started);
    }

    // Forgets when the enrollment's workflows were started, and those of whoever
    // the enrollment's ID hits.
    method ClearWorkflowStatus(id: string)
      requires Valid()
      modifies this`statusStore, this`starts
      ensures Valid()
      ensures forall other, w :: LastStart(starts, other, w)
                == if Hits(id, other, w) then 0 else LastStart(old(starts), other, w)
    {
      hide Inv;
      hide StepsRep;
      hide RowsRep;
      hide StartsRep;
      hide Unprefixed;
      hide LastStart;
      hide Hits;
      forall other, w {
        ClearedExact(starts, id, other, w);
      }
      ClearedRep(statusStore, starts, id);
      statusStore := DeleteStarted(statusStore, id);
      starts := Unprefixed(starts, id + ".");
    }
  }
}
