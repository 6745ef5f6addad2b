/**
 The MySQL workflow engine backend: its operations over the tables, each proved
 against a function of the tables it finds.
 */
module MySQLStore {
  import opened Wrappers
  import opened Records
  import opened Tracker
  import opened KVScan
  import opened MySQL
  import opened MySQLWorker

  /* ---- Storing a step ---- */

  ghost predicate Insertable(db: DB, step: Option<StepEnqueuingWithConfig>) {
    ValidateStep(step).None? && Unused(db.idCommands, step.value.ids, Uuids(step.value.commands))
  }

  function StepRowOf(cfg: StepEnqueuingWithConfig): StepRow {
    StepRow(cfg.ctx.workflowName, cfg.ctx.instanceID, NullString(cfg.ctx.name), cfg.ctx.context,
            NullTime(cfg.notUntil), NullTime(cfg.timeout), None)
  }

  function IDCommandOf(stepID: int, cfg: StepEnqueuingWithConfig, sc: StepCommandRaw, pushTime: Time): IDCommand {
    IDCommand(stepID, sc.requestType, false, None, if cfg.notUntil == 0 then Some(pushTime) else None)
  }

  ghost function NewIDCommands(stepID: int, cfg: StepEnqueuingWithConfig, uuids: seq<string>,
                               pushTime: Time): IDCommands
    requires forall u :: u in uuids ==> u in Uuids(cfg.commands)
  {
    map k | k in Keys(cfg.ids, uuids) :: IDCommandOf(stepID, cfg, CommandOf(cfg.commands, k.uuid), pushTime)
  }

  ghost function NewStepCommands(stepID: int, cfg: StepEnqueuingWithConfig, uuids: seq<string>): map<StepCommandKey,
                                 StepCommand>
    requires forall u :: u in uuids ==> u in Uuids(cfg.commands)
  {
    if cfg.notUntil == 0 then map[]
    else (map u | u in uuids :: (u, stepID) := StepCommandOf(CommandOf(cfg.commands, u)))
  }

  // The tables with the first commands of a new step.
  ghost function Inserted(db: DB, cfg: StepEnqueuingWithConfig, uuids: seq<string>, pushTime: Time): DB
    requires forall u :: u in uuids ==> u in Uuids(cfg.commands)
  {
    var created := CreateStep(db, StepRowOf(cfg));
    created.(idCommands := db.idCommands + NewIDCommands(db.nextID, cfg, uuids, pushTime),
             stepCommands := db.stepCommands + NewStepCommands(db.nextID, cfg, uuids))
  }

  ghost function Stored(db: DB, step: Option<StepEnqueuingWithConfig>, pushTime: Time): DB {
    if Insertable(db, step) then Inserted(db, step.value, Uuids(step.value.commands), pushTime) else db
  }

  ghost function AllWith(keys: set<CmdKey>, row: IDCommand): IDCommands {
    map k | k in keys :: row
  }

  ghost function WithCommand(db: DB, ids: seq<string>, uuid: string, row: IDCommand): DB {
    db.(idCommands := db.idCommands + AllWith(Keys(ids, [uuid]), row))
  }

  // One command for all enrollments; `before` are the step's earlier commands.
  method InsertForIDs(tx: DB, ghost taken: IDCommands, ids: seq<string>, ghost before: seq<string>, uuid: string,
                      row: IDCommand)
    returns (r: Result<DB, DBError>)
    requires row.stepID in tx.steps
    requires tx.idCommands.Keys == taken.Keys + Keys(ids, before)
    ensures r.Ok? <==> NewFor(taken, ids, before, uuid)
    ensures r.Ok? ==> r.value == WithCommand(tx, ids, uuid, row)
  {
    var cur := tx;
    assert NewFor(taken, ids[..0], before, uuid) && WithCommand(tx, ids[..0], uuid, row) == tx;
    hide NewFor;
    hide WithCommand;
    for m := 0 to |ids|
      invariant NewFor(taken, ids[..m], before, uuid)
      invariant cur == WithCommand(tx, ids[..m], uuid, row)
    {
      var k := CmdKey(ids[m], uuid);
      assert ids[..m + 1] == ids[..m] + [ids[m]];
      NewForExtend(taken, ids[..m], ids[m], before, uuid);
      WithCommandNext(tx, taken, ids, m, before, uuid, row);
      match CreateIDCommand(cur, k, row)
      case Err(e) =>
        NewForPrefix(taken, ids, before, uuid, m + 1);
        return Err(e);
      case Ok(next) => cur := next;
    }
    assert ids[..|ids|] == ids;
    r := Ok(cur);
  }

  lemma WithCommandNext(tx: DB, taken: IDCommands, ids: seq<string>, m: nat, before: seq<string>, uuid: string,
                        row: IDCommand)
    requires m < |ids| && tx.idCommands.Keys == taken.Keys + Keys(ids, before)
    ensures var cur := WithCommand(tx, ids[..m], uuid, row);
            var k := CmdKey(ids[m], uuid);
            && cur.steps == tx.steps
            && (k in cur.idCommands <==> k in taken || uuid in before || ids[m] in ids[..m])
            && cur.(idCommands := cur.idCommands[k := row]) == WithCommand(tx, ids[..m + 1], uuid, row)
  {
    var k := CmdKey(ids[m], uuid);
    assert ids[..m + 1] == ids[..m] + [ids[m]] && uuid in [uuid];
    assert Keys(ids[..m + 1], [uuid]) == Keys(ids[..m], [uuid]) + {k};
    assert k in Keys(ids, before) <==> uuid in before;
    assert k in Keys(ids[..m], [uuid]) <==> ids[m] in ids[..m];
    hide Keys;
    RowsExtend(tx.idCommands, Keys(ids[..m], [uuid]), k, row);
  }

  lemma RowsExtend(t: IDCommands, keys: set<CmdKey>, k: CmdKey, row: IDCommand)
    ensures t + AllWith(keys + {k}, row) == (t + AllWith(keys, row))[k := row]
    ensures k in t + AllWith(keys, row) <==> k in t || k in keys
  {
  }

  // One command: its raw form if the step is delayed, then its rows.
  method InsertCommand(tx: DB, ghost taken: IDCommands, stepID: int, cfg: StepEnqueuingWithConfig,
                       ghost before: seq<string>, sc: StepCommandRaw, pushTime: Time)
    returns (r: Result<DB, DBError>)
    requires stepID in tx.steps && cfg.ids != []
    requires tx.idCommands.Keys == taken.Keys + Keys(cfg.ids, before)
    requires cfg.notUntil != 0 ==> forall u :: (u, stepID) in tx.stepCommands <==> u in before
    ensures r.Ok? <==> NewFor(taken, cfg.ids, before, sc.commandUUID)
    ensures r.Ok? ==>
              r.value == WithCommand(tx, cfg.ids, sc.commandUUID, IDCommandOf(stepID, cfg, sc, pushTime)).(
                stepCommands := if cfg.notUntil == 0 then tx.stepCommands
                                else tx.stepCommands[(sc.commandUUID, stepID) := StepCommandOf(sc)])
  {
    var cur := tx;
    if cfg.notUntil != 0 {
      match CreateStepCommand(cur, (sc.commandUUID, stepID), StepCommandOf(sc))
      case Err(e) => return Err(e);
      case Ok(next) => cur := next;
    }
    hide NewFor;
    r := InsertForIDs(cur, taken, cfg.ids, before, sc.commandUUID, IDCommandOf(stepID, cfg, sc, pushTime));
  }

  lemma InsertedNext(db: DB, cfg: StepEnqueuingWithConfig, c: nat, pushTime: Time)
    requires c < |cfg.commands| && Uuids(cfg.commands)[c] !in Uuids(cfg.commands)[..c]
    ensures var uuids := Uuids(cfg.commands);
            var sc := cfg.commands[c];
            var tx := Inserted(db, cfg, uuids[..c], pushTime);
            Inserted(db, cfg, uuids[..c + 1], pushTime)
            == WithCommand(tx, cfg.ids, sc.commandUUID, IDCommandOf(db.nextID, cfg, sc, pushTime)).(
                 stepCommands := if cfg.notUntil == 0 then tx.stepCommands
                                 else tx.stepCommands[(sc.commandUUID, db.nextID) := StepCommandOf(sc)])
  {
    var uuids := Uuids(cfg.commands);
    assert uuids[..c + 1] == uuids[..c] + [uuids[c]];
    CommandOfFirst(cfg.commands, c);
    assert Keys(cfg.ids, uuids[..c + 1]) == Keys(cfg.ids, uuids[..c]) + Keys(cfg.ids, [uuids[c]]);
    hide CommandOf;
    hide Uuids;
    NewIDCommandsNext(db.nextID, cfg, uuids, c, pushTime);
    NewStepCommandsNext(db.nextID, cfg, uuids, c);
    hide Keys;
    hide NewIDCommands;
    hide NewStepCommands;
    hide AllWith;
    PlusPut(db.stepCommands, NewStepCommands(db.nextID, cfg, uuids[..c]), (uuids[c], db.nextID),
            StepCommandOf(cfg.commands[c]));
    PlusAssoc(db.idCommands, NewIDCommands(db.nextID, cfg, uuids[..c], pushTime),
              AllWith(Keys(cfg.ids, [uuids[c]]), IDCommandOf(db.nextID, cfg, cfg.commands[c], pushTime)));
  }

  lemma PlusPut<K, V>(a: map<K, V>, b: map<K, V>, k: K, v: V)
    ensures a + b[k := v] == (a + b)[k := v]
  {
  }

  lemma PlusAssoc<K, V>(a: map<K, V>, b: map<K, V>, c: map<K, V>)
    ensures a + (b + c) == a + b + c
  {
  }

  lemma NewIDCommandsNext(stepID: int, cfg: StepEnqueuingWithConfig, uuids: seq<string>, c: nat, pushTime: Time)
    requires uuids == Uuids(cfg.commands) && c < |uuids| && CommandOf(cfg.commands, uuids[c]) == cfg.commands[c]
    requires Keys(cfg.ids, uuids[..c + 1]) == Keys(cfg.ids, uuids[..c]) + Keys(cfg.ids, [uuids[c]])
    ensures NewIDCommands(stepID, cfg, uuids[..c + 1], pushTime)
            == NewIDCommands(stepID, cfg, uuids[..c], pushTime)
               + AllWith(Keys(cfg.ids, [uuids[c]]), IDCommandOf(stepID, cfg, cfg.commands[c], pushTime))
  {
    hide CommandOf;
    hide Uuids;
  }

  lemma NewStepCommandsNext(stepID: int, cfg: StepEnqueuingWithConfig, uuids: seq<string>, c: nat)
    requires uuids == Uuids(cfg.commands) && c < |uuids| && CommandOf(cfg.commands, uuids[c]) == cfg.commands[c]
    ensures NewStepCommands(stepID, cfg, uuids[..c + 1])
            == if cfg.notUntil == 0 then map[]
               else NewStepCommands(stepID, cfg, uuids[..c])[
                 (uuids[c], stepID) := StepCommandOf(cfg.commands[c])]
  {
    hide CommandOf;
    hide Uuids;
    assert uuids[..c + 1] == uuids[..c] + [uuids[c]];
  }

  lemma InsertedNone(db: DB, cfg: StepEnqueuingWithConfig, pushTime: Time)
    ensures Inserted(db, cfg, [], pushTime) == CreateStep(db, StepRowOf(cfg))
  {
    assert db.idCommands + map[] == db.idCommands && db.stepCommands + map[] == db.stepCommands;
  }

  lemma InsertedKeys(db: DB, cfg: StepEnqueuingWithConfig, uuids: seq<string>, pushTime: Time)
    requires Consistent(db) && forall u :: u in uuids ==> u in Uuids(cfg.commands)
    ensures var tx := Inserted(db, cfg, uuids, pushTime);
            && db.nextID in tx.steps
            && tx.idCommands.Keys == db.idCommands.Keys + Keys(cfg.ids, uuids)
            && (cfg.notUntil != 0 ==> forall u :: (u, db.nextID) in tx.stepCommands <==> u in uuids)
  {
  }

  /* ---- A command response ---- */

  // The tables after the finished step of an enrollment is removed; they stay
  // as they are if the step still has raw commands but no other enrollment.
  ghost function Removed(db: DB, id: string, stepID: int): Result<DB, DBError> {
    DeleteStepHavingNoCommands(RemoveIDCommandsByStepID(db, id, stepID), stepID)
  }

  lemma RemovedFailsExact(db: DB, id: string, n: int)
    requires n in db.steps
    ensures Removed(db, id, n).Err?
            <==> HasStepCommands(db, n) && !HasIDCommands(RemoveIDCommandsByStepID(db, id, n), n)
  {
    var left := RemoveIDCommandsByStepID(db, id, n);
    assert HasStepCommands(left, n) <==> HasStepCommands(db, n);
    hide HasIDCommands;
    hide HasStepCommands;
    hide RemoveIDCommandsByStepID;
    assert n in left.steps;
  }

  ghost function Responded(db: DB, id: string, sc: StepCommandResult): DB {
    if !sc.completed then db
    else
      match CountOutstanding(db.idCommands, id, sc.commandUUID)
      case None => db
      case Some(row) =>
        if row.count > 1 then UpdateIDCommand(db, CmdKey(id, sc.commandUUID), true, sc.resultReport)
        else
          match Removed(db, id, row.stepID)
          case Err(_) => db
          case Ok(removed) => removed
  }

  function ResultOf(db: DB, k: CmdKey): StepCommandResult
    requires k in db.idCommands
  {
    var row := db.idCommands[k];
    StepCommandResult(k.uuid, row.requestType, if row.result.Some? then row.result.value else "", true)
  }

  // The results handed out: this response, then the finished commands joined.
  ghost predicate Reports(db: DB, sc: StepCommandResult, joined: seq<JoinedCommand>, commands: seq<StepCommandResult>) {
    && |commands| == 1 + |joined|
    && commands[0] == sc
    && forall m :: 0 <= m < |joined| ==> joined[m].0 in db.idCommands && commands[m + 1] == ResultOf(db, joined[m].0)
  }

  // What the backend answers to a response, when its tables are as found.
  ghost predicate Answer(db: DB, id: string, sc: StepCommandResult, joined: seq<JoinedCommand>,
                         r: Result<Option<StepResult>, DBError>)
  {
    if !sc.completed then r == Ok(None)
    else
      match CountOutstanding(db.idCommands, id, sc.commandUUID)
      case None => r == Err(NoRows)
      case Some(row) =>
        if row.count > 1 then r == Ok(None)
        else if Removed(db, id, row.stepID).Err? then r.Err?
        else
          && r.Ok? && r.value.Some? && row.stepID in db.steps
          && r.value.value.ctx == ContextOf(db.steps[row.stepID])
          && r.value.value.ids == [id]
          && Distinct(joined) && (forall j :: j in joined <==> j in FinishedJoin(db, id, row.stepID))
          && Reports(db, sc, joined, r.value.value.commands)
  }

  lemma CountedStep(db: DB, id: string, uuid: string)
    requires Consistent(db) && CountOutstanding(db.idCommands, id, uuid).Some?
    ensures CountOutstanding(db.idCommands, id, uuid).value.stepID in db.steps
    ensures CountOutstanding(db.idCommands, id, uuid).value.stepID >= 1
  {
    CountExact(db.idCommands, id, uuid);
  }

  /* ---- Asking what is outstanding ---- */

  // The enrollment has an unfinished command of a step of the workflow.
  ghost predicate OpenIn(db: DB, workflowName: string, i: string) {
    exists c :: c in db.idCommands && c.owner == i && !db.idCommands[c].completed
                && db.idCommands[c].stepID in db.steps && db.steps[db.idCommands[c].stepID].workflowName == workflowName
  }

  // SELECT DISTINCT enrollment_id of GetOutstandingIDs.
  function OutstandingRows(db: DB, ids: seq<string>, workflowName: string): set<string> {
    set c | c in db.idCommands && db.idCommands[c].stepID in db.steps && c.owner in ids
            && !db.idCommands[c].completed && db.steps[db.idCommands[c].stepID].workflowName == workflowName :: c.owner
  }

  /* ---- Re-pushing ---- */

  // Pushed once, and last before the cutoff; there is no cutoff at the zero time.
  predicate Old(row: IDCommand, ifBefore: Time) {
    row.lastPush.Some? && ifBefore != 0 && row.lastPush.value < ifBefore
  }

  predicate LastPushBefore(row: IDCommand, before: Option<Time>) {
    row.lastPush.Some? && before.Some? && row.lastPush.value < before.value
  }

  function RePushRows(db: DB, before: Option<Time>): set<string> {
    set c | c in db.idCommands && LastPushBefore(db.idCommands[c], before) :: c.owner
  }

  function UpdateRePush(db: DB, lastPush: Option<Time>, before: Option<Time>): DB {
    db.(idCommands := map c | c in db.idCommands ::
      if LastPushBefore(db.idCommands[c], before) then db.idCommands[c].(lastPush := lastPush) else db.idCommands[c])
  }

  // The tables after cancelling, if no foreign key stands in the way.
  ghost function Cancelling(db: DB, id: string, workflowName: string): Result<DB, DBError> {
    DeleteStepsHavingNoCommands(DeleteUnusedStepCommands(DeleteIDCommands(db, id, workflowName)), workflowName)
  }

  // The command outlives cancelling.
  predicate Survives(db: DB, c: CmdKey, id: string, workflowName: string) {
    c in db.idCommands && !(c.owner == id && OfWorkflow(db, db.idCommands[c].stepID, workflowName))
  }

  ghost predicate StepUsed(db: DB, n: int, id: string, workflowName: string) {
    exists c :: Survives(db, c, id, workflowName) && db.idCommands[c].stepID == n
  }

  ghost predicate UuidUsed(db: DB, uuid: string, id: string, workflowName: string) {
    exists c :: Survives(db, c, id, workflowName) && c.uuid == uuid
  }

  // A raw command is left over for a step that loses all its commands: some
  // other step's command has the same UUID.
  ghost predicate Blocked(db: DB, id: string, workflowName: string) {
    exists p :: p in db.stepCommands && p.1 in db.steps && OfWorkflow(db, p.1, workflowName)
                && UuidUsed(db, p.0, id, workflowName) && !StepUsed(db, p.1, id, workflowName)
  }

  // Cancelling deletes the enrollment's commands of the workflow, or all of them
  // if no name is given, and nobody else's; the raw commands that no command is
  // left for; and the workflow's steps that no command is left for. All other
  // rows stay as they are.
  ghost predicate CancelledTables(db: DB, db': DB, id: string, workflowName: string) {
    && db'.nextID == db.nextID
    && (forall c :: c in db'.idCommands <==> Survives(db, c, id, workflowName))
    && (forall c :: c in db'.idCommands ==> db'.idCommands[c] == db.idCommands[c])
    && (forall p :: p in db'.stepCommands
          <==> p in db.stepCommands && UuidUsed(db, p.0, id, workflowName))
    && (forall p :: p in db'.stepCommands ==> db'.stepCommands[p] == db.stepCommands[p])
    && (forall n :: n in db'.steps
          <==> n in db.steps && (OfWorkflow(db, n, workflowName) ==> StepUsed(db, n, id, workflowName)))
    && (forall n :: n in db'.steps ==> db'.steps[n] == db.steps[n])
  }

  // The first two deletions.
  lemma DeletedCommands(db: DB, id: string, workflowName: string)
    ensures var left := DeleteUnusedStepCommands(DeleteIDCommands(db, id, workflowName));
            && left.steps == db.steps && left.nextID == db.nextID
            && (forall c :: c in left.idCommands <==> Survives(db, c, id, workflowName))
            && (forall c :: c in left.idCommands ==> c in db.idCommands && left.idCommands[c] == db.idCommands[c])
            && (forall p :: p in left.stepCommands
                  <==> p in db.stepCommands && UuidUsed(db, p.0, id, workflowName))
            && (forall p :: p in left.stepCommands ==> left.stepCommands[p] == db.stepCommands[p])
  {
    hide OfWorkflow;
  }

  // The three deletions go through exactly if no raw command is in their way.
  lemma CancellingExact(db: DB, id: string, workflowName: string)
    ensures Cancelling(db, id, workflowName).Ok? <==> !Blocked(db, id, workflowName)
    ensures Cancelling(db, id, workflowName).Ok? ==>
              CancelledTables(db, Cancelling(db, id, workflowName).value, id, workflowName)
  {
    hide DeleteIDCommands;
    hide DeleteUnusedStepCommands;
    hide Survives;
    hide OfWorkflow;
    hide StepUsed;
    hide UuidUsed;
    hide HasIDCommands;
    hide HasStepCommands;
    var left := DeleteUnusedStepCommands(DeleteIDCommands(db, id, workflowName));
    DeletedCommands(db, id, workflowName);
    forall n
      ensures HasIDCommands(left, n) <==> StepUsed(db, n, id, workflowName)
      ensures OfWorkflow(left, n, workflowName) <==> OfWorkflow(db, n, workflowName)
    {
      LeftCommands(db, left, id, workflowName, n);
    }
    var gone := set n | n in left.steps && !HasIDCommands(left, n) && OfWorkflow(left, n, workflowName);
    BlockedExact(db, left, id, workflowName, gone);
  }

  // These rows are all there is to say: they determine the tables.
  lemma CancelledDetermined(db: DB, db': DB, id: string, workflowName: string)
    requires !Blocked(db, id, workflowName) && CancelledTables(db, db', id, workflowName)
    ensures Cancelling(db, id, workflowName) == Ok(db')
  {
    CancellingExact(db, id, workflowName);
    hide Cancelling;
    hide Blocked;
    hide Survives;
    hide OfWorkflow;
    hide StepUsed;
    hide UuidUsed;
    var left := Cancelling(db, id, workflowName).value;
    assert forall n :: n in left.steps <==> n in db'.steps;
    assert forall n :: n in left.steps ==> left.steps[n] == db.steps[n] == db'.steps[n];
    assert left.idCommands == db'.idCommands && left.stepCommands == db'.stepCommands && left.steps == db'.steps;
  }

  lemma LeftCommands(db: DB, left: DB, id: string, workflowName: string, n: int)
    requires left.steps == db.steps
    requires forall c :: c in left.idCommands <==> Survives(db, c, id, workflowName)
    requires forall c :: c in left.idCommands ==> c in db.idCommands && left.idCommands[c] == db.idCommands[c]
    ensures HasIDCommands(left, n) <==> StepUsed(db, n, id, workflowName)
    ensures OfWorkflow(left, n, workflowName) <==> OfWorkflow(db, n, workflowName)
  {
    if StepUsed(db, n, id, workflowName) {
      var c :| Survives(db, c, id, workflowName) && db.idCommands[c].stepID == n;
      assert c in left.idCommands;
    }
    hide OfWorkflow;
  }

  lemma BlockedExact(db: DB, left: DB, id: string, workflowName: string, gone: set<int>)
    requires left.steps == db.steps
    requires forall p :: p in left.stepCommands <==> p in db.stepCommands && UuidUsed(db, p.0, id, workflowName)
    requires forall n :: HasIDCommands(left, n) <==> StepUsed(db, n, id, workflowName)
    requires forall n :: n in gone <==> n in db.steps && !HasIDCommands(left, n) && OfWorkflow(db, n, workflowName)
    ensures Blocked(db, id, workflowName) <==> exists n :: n in gone && HasStepCommands(left, n)
  {
    hide HasIDCommands;
    hide OfWorkflow;
    hide UuidUsed;
    hide StepUsed;
    if exists n :: n in gone && HasStepCommands(left, n) {
      var n :| n in gone && HasStepCommands(left, n);
      var p :| p in left.stepCommands && p.1 == n;
      assert p in db.stepCommands;
    }
  }

  /* ---- Start times ---- */

  // wf_status: whole seconds by (enrollment_id, workflow_name).
  type Statuses = map<(string, string), int>

  // Seconds since an epoch that is itself a whole second.
  function Unix(t: Time): int {
    t / SECOND
  }

  function FromUnix(epoch: int): Time {
    epoch * SECOND
  }

  function WholeSeconds(t: Time): Time {
    FromUnix(Unix(t))
  }

  // A start time comes back no later than it was, by less than a second.
  lemma WholeSecondsExact(t: Time)
    ensures t - SECOND < WholeSeconds(t) <= t
    ensures WholeSeconds(t) == t <==> t % SECOND == 0
  {
  }

  ghost function StartedOf(status: Statuses, id: string, workflowName: string): Time {
    if (id, workflowName) in status then FromUnix(status[(id, workflowName)]) else 0
  }

  function WithStarted(status: Statuses, ids: seq<string>, workflowName: string, started: Time): Statuses {
    status + map id | id in ids :: (id, workflowName) := Unix(started)
  }

  function ClearedOf(status: Statuses, id: string): Statuses {
    map p | p in status && p.0 != id :: status[p]
  }

  ghost predicate OwnsOld(db: DB, i: string, ifBefore: Time) {
    exists c :: c in db.idCommands && c.owner == i && Old(db.idCommands[c], ifBefore)
  }

  // The tables after re-pushing, row by row.
  ghost predicate RePushedTables(db: DB, db': DB, ifBefore: Time, pushTime: Time) {
    && db'.steps == db.steps && db'.stepCommands == db.stepCommands && db'.nextID == db.nextID
    && db'.idCommands.Keys == db.idCommands.Keys
    && forall c :: c in db'.idCommands ==>
         db'.idCommands[c] == if Old(db.idCommands[c], ifBefore) then db.idCommands[c].(lastPush := NullTime(pushTime))
                              else db.idCommands[c]
  }

  lemma RePushedDetermined(db: DB, db': DB, ifBefore: Time, pushTime: Time)
    ensures RePushedTables(db, db', ifBefore, pushTime)
            <==> db' == UpdateRePush(db, NullTime(pushTime), NullTime(ifBefore))
    ensures forall i :: i in RePushRows(db, NullTime(ifBefore)) <==> OwnsOld(db, i, ifBefore)
  {
    if RePushedTables(db, db', ifBefore, pushTime) {
      assert db'.idCommands == UpdateRePush(db, NullTime(pushTime), NullTime(ifBefore)).idCommands;
    }
  }

  class MySQLStorage {
    var db: DB
    var status: Statuses

    constructor ()
      ensures db == EMPTY && Consistent(db) && status == map[]
    {
      db, status := EMPTY, map[];
    }

    // One transaction: a step that fails to insert leaves no trace.
    method StoreStep(step: Option<StepEnqueuingWithConfig>, pushTime: Time) returns (err: Option<DBError>)
      requires Consistent(db)
      modifies this`db
      ensures err.None? <==> Insertable(old(db), step)
      ensures db == Stored(old(db), step, pushTime)
    {
      var invalid := ValidateStep(step);
      if invalid.Some? {
        return Some(Invalid(invalid.value));
      }
      var cfg := step.value;
      ghost var uuids := Uuids(cfg.commands);
      var stepID := db.nextID;
      var tx := CreateStep(db, StepRowOf(cfg));
      InsertedNone(db, cfg, pushTime);
      hide Inserted;
      hide CreateStep;
      hide StepRowOf;
      hide Consistent;
      hide Unused;
      hide Keys;
      hide NewFor;
      hide WithCommand;
      assert Unused(db.idCommands, cfg.ids, uuids[..0]) by {
        NothingUsed(db.idCommands, cfg.ids);
      }
      for c := 0 to |cfg.commands|
        invariant db == old(db)
        invariant Unused(db.idCommands, cfg.ids, uuids[..c])
        invariant tx == Inserted(db, cfg, uuids[..c], pushTime)
      {
        assert uuids[..c + 1] == uuids[..c] + [uuids[c]];
        InsertedKeys(db, cfg, uuids[..c], pushTime);
        UnusedExtend(db.idCommands, cfg.ids, uuids[..c], uuids[c]);
        var inserted := InsertCommand(tx, db.idCommands, stepID, cfg, uuids[..c], cfg.commands[c], pushTime);
        match inserted
        case Err(e) =>
          UnusedPrefix(db.idCommands, cfg.ids, uuids, c + 1);
          return Some(e);
        case Ok(next) =>
          NewForFirst(db.idCommands, cfg.ids, uuids[..c], uuids[c]);
          InsertedNext(db, cfg, c, pushTime);
          tx := next;
      }
      assert uuids[..|cfg.commands|] == uuids;
      db := tx;
      err := None;
    }

    // The count is taken, then either the command is updated or, in one
    // transaction, the finished step is read and removed.
    method StoreCommandResponseAndRetrieveCompletedStep(id: string, sc: StepCommandResult)
      returns (r: Result<Option<StepResult>, DBError>, ghost joined: seq<JoinedCommand>)
      requires Consistent(db)
      modifies this`db
      ensures db == Responded(old(db), id, sc)
      ensures Answer(old(db), id, sc, joined, r)
    {
      joined := [];
      if !sc.completed {
        return Ok(None), joined;
      }
      match CountOutstanding(db.idCommands, id, sc.commandUUID)
      case None => return Err(NoRows), joined;
      case Some(row) =>
        CountedStep(db, id, sc.commandUUID);
        if row.stepID < 1 {
          return Err(NoStepID), joined;
        }
        if row.count > 1 {
          db := UpdateIDCommand(db, CmdKey(id, sc.commandUUID), sc.completed, sc.resultReport);
          return Ok(None), joined;
        }
        var commands := [sc];
        var rows := Elements(FinishedJoin(db, id, row.stepID));
        joined := rows;
        for m := 0 to |rows|
          invariant db == old(db)
          invariant Reports(db, sc, rows[..m], commands)
        {
          assert rows[m] in rows && rows[..m + 1] == rows[..m] + [rows[m]];
          commands := commands + [ResultOf(db, rows[m].0)];
        }
        assert rows[..|rows|] == rows;
        var sd := db.steps[row.stepID];
        match DeleteStepHavingNoCommands(RemoveIDCommandsByStepID(db, id, row.stepID), row.stepID)
        case Err(e) => r := Err(e);
        case Ok(removed) =>
          db := removed;
          r := Ok(Some(StepResult(ContextOf(sd), [id], commands)));
    }

    method RetrieveOutstandingWorkflowStatus(workflowName: string,
                                             ids: seq<string>) returns (outstandingIDs: seq<string>)
      ensures Distinct(outstandingIDs)
      ensures forall i :: i in outstandingIDs <==> i in ids && OpenIn(db, workflowName, i)
    {
      outstandingIDs := Elements(OutstandingRows(db, ids, workflowName));
    }

    // One transaction: the enrollment's commands go, then whatever they leave
    // unused.
    method CancelSteps(id: string, workflowName: string) returns (err: Option<DBError>)
      modifies this`db
      ensures err.None? <==> id != "" && !Blocked(old(db), id, workflowName)
      ensures err.None? ==> CancelledTables(old(db), db, id, workflowName)
      ensures err.Some? ==> db == old(db)
    {
      CancellingExact(db, id, workflowName);
      hide CancelledTables;
      hide Blocked;
      if id == "" {
        return Some(EmptyID);
      }
      var tx := DeleteIDCommands(db, id, workflowName);
      tx := DeleteUnusedStepCommands(tx);
      match DeleteStepsHavingNoCommands(tx, workflowName)
      case Err(e) => return Some(e);
      case Ok(left) =>
        db := left;
        err := None;
    }

    method RetrieveStepsToEnqueue(processID: string, pushTime: Time, now: Time)
      returns (r: Result<seq<StepEnqueueing>, DBError>, ghost due: seq<int>)
      requires FreshProcess(db, processID)
      modifies this`db
      ensures pushTime == 0 ==> r == Err(EmptyPushTime) && db == old(db)
      ensures pushTime != 0 ==>
                && r.Ok? && AllEnqueued(old(db), due, r.value)
                && Distinct(due) && (forall n :: n in due <==> n in DueSteps(old(db), pushTime))
                && db == ReleasedTables(old(db), pushTime, processID, now)
    {
      due := [];
      if pushTime == 0 {
        return Err(EmptyPushTime), due;
      }
      var ret;
      ret, db, due := ReleaseSteps(db, processID, pushTime, now);
      r := Ok(ret);
    }

    method RetrieveTimedOutSteps(processID: string, now: Time)
      returns (ret: seq<StepResult>, ghost listed: seq<CmdKey>, ghost ids: seq<string>)
      requires Consistent(db) && FreshProcess(db, processID)
      modifies this`db
      ensures Distinct(listed) && Ordered(old(db).idCommands, listed)
      ensures forall c :: c in listed <==> c in OverdueCommands(old(db), now)
      ensures Distinct(ids) && forall i :: i in ids <==> exists c :: c in listed && c.owner == i
      ensures AllGrouped(old(db), listed, ids, ret)
      ensures db == TimedOutTables(old(db), now)
    {
      ret, db, listed, ids := TimeOutSteps(db, processID, now);
    }

    method RetrieveAndMarkRePushed(ifBefore: Time, pushTime: Time) returns (ids: seq<string>)
      modifies this`db
      ensures Distinct(ids)
      ensures forall i :: i in ids <==> OwnsOld(old(db), i, ifBefore)
      ensures RePushedTables(old(db), db, ifBefore, pushTime)
    {
      RePushedDetermined(db, UpdateRePush(db, NullTime(pushTime), NullTime(ifBefore)), ifBefore, pushTime);
      hide RePushRows;
      hide RePushedTables;
      ids := Elements(RePushRows(db, NullTime(ifBefore)));
      db := UpdateRePush(db, NullTime(pushTime), NullTime(ifBefore));
    }

    method RetrieveWorkflowStarted(id: string, workflowName: string) returns (started: Time)
      ensures started == StartedOf(status, id, workflowName)
    {
      if (id, workflowName) !in status {
        return 0;
      }
      started := FromUnix(status[(id, workflowName)]);
    }

    method RecordWorkflowStarted(ids: seq<string>, workflowName: string, started: Time) returns (err: Option<DBError>)
      modifies this`status
      ensures err.None? <==> ids != []
      ensures forall id, w :: StartedOf(status, id, w)
                == if id in ids && w == workflowName then WholeSeconds(started) else StartedOf(old(status), id, w)
    {
      if |ids| < 1 {
        return Some(EmptyID);
      }
      status := WithStarted(status, ids, workflowName, started);
      err := None;
    }

    method ClearWorkflowStatus(id: string)
      modifies this`status
      ensures forall i, w :: StartedOf(status, i, w) == if i == id then 0 else StartedOf(old(status), i, w)
    {
      status := ClearedOf(status, id);
    }
  }

  lemma NothingUsed(t: IDCommands, ids: seq<string>)
    ensures Unused(t, ids, [])
  {
  }

  lemma NewForFirst(t: IDCommands, ids: seq<string>, before: seq<string>, uuid: string)
    requires NewFor(t, ids, before, uuid) && ids != []
    ensures uuid !in before
  {
  }
}
