/**
 The MySQL backend's tables and queries. A table is a map from its primary key
 to the other columns, NULL is None. A SELECT is the set of rows it joins, in no
 particular order; an INSERT or DELETE that breaks a key fails.
 */
module MySQL {
  import opened Wrappers
  import opened Text
  import opened Records
  import opened Tracker

  datatype StepRow = StepRow(
    workflowName: string, instanceID: string, stepName: Option<string>, context: Bytes,
    notUntil: Option<Time>, timeout: Option<Time>, processID: Option<string>)

  datatype IDCommand = IDCommand(
    stepID: int, requestType: string, completed: bool, result: Option<Bytes>, lastPush: Option<Time>)

  datatype StepCommand = StepCommand(requestType: string, command: Bytes)

  type IDCommands = map<CmdKey, IDCommand>
  type StepCommandKey = (string, int) // command_uuid, step_id

  // nextID is the value that AUTO_INCREMENT assigns next.
  datatype DB = DB(
    steps: map<int, StepRow>, idCommands: IDCommands, stepCommands: map<StepCommandKey, StepCommand>, nextID: int)

  const EMPTY := DB(map[], map[], map[], 1)

  datatype DBError =
    | Invalid(reason: ValidationError) | DuplicateKey | ForeignKey | NoRows | NoStepID | EmptyID | EmptyPushTime

  function NullString(s: string): Option<string> {
    if s == "" then None else Some(s)
  }

  function NullTime(t: Time): Option<Time> {
    if t == 0 then None else Some(t)
  }

  function ContextOf(row: StepRow): StepContext {
    StepContext(row.workflowName, row.instanceID, if row.stepName.Some? then row.stepName.value else "", row.context)
  }

  function StepCommandOf(sc: StepCommandRaw): StepCommand {
    StepCommand(sc.requestType, sc.command)
  }

  // Foreign keys hold, and step IDs count up from 1.
  ghost predicate Consistent(db: DB) {
    && db.nextID >= 1
    && (forall s :: s in db.steps ==> 1 <= s < db.nextID)
    && (forall k :: k in db.idCommands ==> db.idCommands[k].stepID in db.steps)
    && (forall p :: p in db.stepCommands ==> p.1 in db.steps)
  }

  /* ---- INSERT ---- */

  function CreateStep(db: DB, row: StepRow): DB {
    db.(steps := db.steps[db.nextID := row], nextID := db.nextID + 1)
  }

  function CreateIDCommand(db: DB, k: CmdKey, row: IDCommand): Result<DB, DBError> {
    if k in db.idCommands then Err(DuplicateKey)
    else if row.stepID !in db.steps then Err(ForeignKey)
    else Ok(db.(idCommands := db.idCommands[k := row]))
  }

  function CreateStepCommand(db: DB, p: StepCommandKey, row: StepCommand): Result<DB, DBError> {
    if p in db.stepCommands then Err(DuplicateKey)
    else if p.1 !in db.steps then Err(ForeignKey)
    else Ok(db.(stepCommands := db.stepCommands[p := row]))
  }

  /* ---- Queries about responses ---- */

  // The rows of CountOutstandingIDWorkflowStepCommands: the enrollment's
  // unfinished commands joined on the step with the command that responds.
  function OutstandingJoin(t: IDCommands, id: string, uuid: string): set<(CmdKey, CmdKey)> {
    set c1, c2 | c1 in t && c2 in t && t[c1].stepID == t[c2].stepID
                 && c1.owner == id && !t[c1].completed && c2.owner == c1.owner && c2.uuid == uuid :: (c1, c2)
  }

  datatype CountRow = CountRow(count: nat, stepID: int)

  // COUNT(*) and step ID of the joined rows, which are all of one step; no row
  // at all when there is nothing to group.
  function CountOutstanding(t: IDCommands, id: string, uuid: string): Option<CountRow> {
    var join := OutstandingJoin(t, id, uuid);
    if join == {} then None
    else
      assert CmdKey(id, uuid) in t by {
        var p :| p in join;
        assert p.1 == CmdKey(id, uuid);
      }
      Some(CountRow(|join|, t[CmdKey(id, uuid)].stepID))
  }

  // The enrollment's unfinished commands of one step.
  ghost function Unanswered(t: IDCommands, id: string, stepID: int): set<CmdKey> {
    set c | c in t && c.owner == id && t[c].stepID == stepID && !t[c].completed
  }

  // The self-join counts the unfinished commands of the step, and there is no
  // row exactly when the command is unknown or nothing is unfinished.
  lemma CountExact(t: IDCommands, id: string, uuid: string)
    ensures CountOutstanding(t, id, uuid)
            == if CmdKey(id, uuid) in t && Unanswered(t, id, t[CmdKey(id, uuid)].stepID) != {}
               then Some(CountRow(|Unanswered(t, id, t[CmdKey(id, uuid)].stepID)|, t[CmdKey(id, uuid)].stepID))
               else None
  {
    var own := CmdKey(id, uuid);
    var join := OutstandingJoin(t, id, uuid);
    if own in t {
      var waiting := Unanswered(t, id, t[own].stepID);
      assert join == set c | c in waiting :: (c, own);
      PairedSize(waiting, own);
      if waiting != {} {
        var c :| c in waiting;
        assert (c, own) in join;
      }
    } else {
      assert join == {};
    }
  }

  lemma {:induction false} PairedSize(keys: set<CmdKey>, own: CmdKey)
    ensures |set c | c in keys :: (c, own)| == |keys|
  {
    if keys != {} {
      var k :| k in keys;
      PairedSize(keys - {k}, own);
      assert (set c | c in keys :: (c, own)) == (set c | c in keys - {k} :: (c, own)) + {(k, own)};
    }
  }

  // UpdateIDCommand.
  function UpdateIDCommand(db: DB, k: CmdKey, completed: bool, result: Bytes): DB {
    if k !in db.idCommands then db
    else db.(idCommands := db.idCommands[k := db.idCommands[k].(completed := completed, result := Some(result))])
  }

  type JoinedCommand = (CmdKey, Option<StepCommandKey>)

  // The rows of GetIDCommandsByStepIDAndLock: the finished commands, each as
  // often as the step has raw commands if it has any.
  function FinishedJoin(db: DB, id: string, stepID: int): set<JoinedCommand> {
    var finished := set c | c in db.idCommands && c.owner == id && db.idCommands[c].stepID == stepID
                            && stepID in db.steps && db.idCommands[c].completed;
    var raws := set p | p in db.stepCommands && p.1 == stepID;
    if raws == {} then set c | c in finished :: (c, None)
    else set c, p | c in finished && p in raws :: (c, Some(p))
  }

  function RemoveIDCommandsByStepID(db: DB, id: string, stepID: int): DB {
    db.(idCommands := map c | c in db.idCommands && !(c.owner == id && db.idCommands[c].stepID == stepID)
      :: db.idCommands[c])
  }

  /* ---- DELETE of steps ---- */

  predicate HasIDCommands(db: DB, stepID: int) {
    exists c :: c in db.idCommands && db.idCommands[c].stepID == stepID
  }

  predicate HasStepCommands(db: DB, stepID: int) {
    exists p :: p in db.stepCommands && p.1 == stepID
  }

  // Deleting rows of the steps table fails while another table refers to one.
  function DeleteSteps(db: DB, steps: set<int>): Result<DB, DBError> {
    if exists s :: s in steps && (HasIDCommands(db, s) || HasStepCommands(db, s)) then Err(ForeignKey)
    else Ok(db.(steps := db.steps - steps))
  }

  function DeleteStepHavingNoCommands(db: DB, stepID: int): Result<DB, DBError> {
    DeleteSteps(db, set s | s in db.steps && s == stepID && !HasIDCommands(db, s))
  }

  /* ---- Cancelling ---- */

  // DeleteIDCommandByWorkflow, and DeleteIDCommands when no name is given.
  function DeleteIDCommands(db: DB, id: string, workflowName: string): DB {
    db.(idCommands := map c
      | c in db.idCommands && !(c.owner == id && OfWorkflow(db, db.idCommands[c].stepID, workflowName))
      :: db.idCommands[c])
  }

  predicate OfWorkflow(db: DB, stepID: int, workflowName: string) {
    workflowName == "" || (stepID in db.steps && db.steps[stepID].workflowName == workflowName)
  }

  function DeleteUnusedStepCommands(db: DB): DB {
    db.(stepCommands := map p | p in db.stepCommands && (exists c :: c in db.idCommands && c.uuid == p.0)
      :: db.stepCommands[p])
  }

  // DeleteWorkflowStepHavingNoCommandsByWorkflowName, and
  // DeleteWorkflowStepHavingNoCommands when no name is given.
  function DeleteStepsHavingNoCommands(db: DB, workflowName: string): Result<DB, DBError> {
    DeleteSteps(db, set s | s in db.steps && !HasIDCommands(db, s) && OfWorkflow(db, s, workflowName))
  }

  /* ---- Marking steps with a process ID ---- */

  function DueSteps(db: DB, before: Time): set<int> {
    set s | s in db.steps && db.steps[s].processID.None?
            && db.steps[s].notUntil.Some? && db.steps[s].notUntil.value < before
  }

  function OverdueSteps(db: DB, now: Time): set<int> {
    set s | s in db.steps && db.steps[s].processID.None?
            && db.steps[s].timeout.Some? && db.steps[s].timeout.value <= now
  }

  // UpdateStepAfterNotUntil and UpdateStepAfterTimeout.
  function Marked(db: DB, steps: set<int>, processID: string): DB {
    db.(steps := map s | s in db.steps
      :: if s in steps then db.steps[s].(processID := Some(processID)) else db.steps[s])
  }

  predicate FreshProcess(db: DB, processID: string) {
    forall s :: s in db.steps ==> db.steps[s].processID != Some(processID)
  }

  function StepsByProcessID(db: DB, processID: string): set<int> {
    set s | s in db.steps && db.steps[s].processID == Some(processID)
  }

  function IDCommandsByProcessID(db: DB, processID: string): set<CmdKey> {
    set c | c in db.idCommands && db.idCommands[c].stepID in StepsByProcessID(db, processID)
  }

  function StepCommandsByProcessID(db: DB, processID: string): set<StepCommandKey> {
    set p | p in db.stepCommands && p.1 in StepsByProcessID(db, processID)
  }

  // A fresh process ID finds again exactly the rows that it has marked.
  lemma MarkedExact(db: DB, steps: set<int>, processID: string)
    requires FreshProcess(db, processID) && steps <= db.steps.Keys
    ensures StepsByProcessID(Marked(db, steps, processID), processID) == steps
  {
    forall s
      ensures s in StepsByProcessID(Marked(db, steps, processID), processID) <==> s in steps
    {
    }
  }

  function RemoveStepCommandsByProcessID(db: DB, processID: string): DB {
    db.(stepCommands := db.stepCommands - StepCommandsByProcessID(db, processID))
  }

  function RemoveIDCommandsByProcessID(db: DB, processID: string): DB {
    db.(idCommands := db.idCommands - IDCommandsByProcessID(db, processID))
  }

  function UpdateLastPushByProcessID(db: DB, processID: string, now: Time): DB {
    db.(idCommands := map c | c in db.idCommands ::
      if c in IDCommandsByProcessID(db, processID) then db.idCommands[c].(lastPush := Some(now)) else db.idCommands[c])
  }

  function RemoveStepsByProcessID(db: DB, processID: string): Result<DB, DBError> {
    DeleteSteps(db, StepsByProcessID(db, processID))
  }
}
