/**
 What the storage backends keep, without their encodings: the stored steps, and
 one row for each (enrollment ID, command UUID) that is being tracked. A delayed
 step also owns a row per command under its own step ID, which holds the raw
 command until the step is released.

 `origin` is history that no backend stores: every step ever accepted.
 */
module Tracker {
  import opened Wrappers
  import opened Text
  import opened Records

  datatype CmdKey = CmdKey(owner: string, uuid: string)

  datatype Step = Step(ctx: StepContext, ids: seq<string>, uuids: seq<string>, notUntil: Time, timeout: Time)

  datatype Row = Row(
    stepID: string, reqType: string, raw: Option<Bytes>, lastPush: Time, result: Option<Bytes>, done: bool)

  type Steps = map<string, Step>
  type Rows = map<CmdKey, Row>

  datatype State = State(steps: Steps, rows: Rows, origin: map<string, StepEnqueuingWithConfig>)

  ghost const Init := State(map[], map[], map[])

  /* ---- Reading a state ---- */

  ghost predicate Tracked(rows: Rows, id: string, uuids: seq<string>) {
    forall u :: u in uuids ==> CmdKey(id, u) in rows
  }

  ghost predicate Untracked(rows: Rows, id: string, uuids: seq<string>) {
    forall u :: u in uuids ==> CmdKey(id, u) !in rows
  }

  // Some command of the list still waits for its final response from id.
  ghost predicate Waiting(rows: Rows, id: string, uuids: seq<string>) {
    exists u :: u in uuids && CmdKey(id, u) in rows && !rows[CmdKey(id, u)].done
  }

  // The step has neither completed, timed out nor been cancelled for id.
  ghost predicate Live(st: State, s: string, id: string) {
    s in st.steps && id in st.steps[s].ids && Tracked(st.rows, id, st.steps[s].uuids)
  }

  ghost predicate Delayed(st: State, s: string) {
    s in st.steps && st.steps[s].notUntil != 0
  }

  ghost function Keys(ids: seq<string>, uuids: seq<string>): set<CmdKey> {
    set i, u | i in ids && u in uuids :: CmdKey(i, u)
  }

  /* ---- Storing a step ---- */

  ghost predicate Accepts(st: State, cfg: Option<StepEnqueuingWithConfig>) {
    && ValidateStep(cfg) == None
    && Distinct(cfg.value.ids)
    && Distinct(Uuids(cfg.value.commands))
    && (forall i, u :: i in cfg.value.ids && u in Uuids(cfg.value.commands) ==> CmdKey(i, u) !in st.rows)
  }

  ghost function NewKeys(s: string, cfg: StepEnqueuingWithConfig): set<CmdKey> {
    Keys(cfg.ids, Uuids(cfg.commands)) + (if cfg.notUntil != 0 then Keys([s], Uuids(cfg.commands)) else {})
  }

  ghost function NewRow(s: string, cfg: StepEnqueuingWithConfig, k: CmdKey, now: Time): Row
    requires k.uuid in Uuids(cfg.commands)
  {
    var command := CommandOf(cfg.commands, k.uuid);
    Row(s, command.requestType, if k.owner == s then Some(command.command) else None,
        if cfg.notUntil == 0 then now else 0, None, false)
  }

  ghost function NewStep(cfg: StepEnqueuingWithConfig): Step {
    Step(cfg.ctx, cfg.ids, Uuids(cfg.commands), cfg.notUntil, cfg.timeout)
  }

  ghost function NewRows(s: string, cfg: StepEnqueuingWithConfig, now: Time): Rows {
    map k | k in NewKeys(s, cfg) :: NewRow(s, cfg, k, now)
  }

  ghost function Store(st: State, s: string, cfg: Option<StepEnqueuingWithConfig>, now: Time): State {
    if !Accepts(st, cfg) then st
    else
      State(st.steps[s := NewStep(cfg.value)],
            st.rows + NewRows(s, cfg.value, now),
            st.origin[s := cfg.value])
  }

  /* ---- A command response ---- */

  datatype Response = Rejected | Recorded | Completed(step: StepResult)

  ghost function Note(row: Row, sc: StepCommandResult): Row {
    row.(result := Some(sc.resultReport), done := row.done || sc.completed)
  }

  ghost predicate OthersDone(rows: Rows, id: string, uuids: seq<string>, uuid: string) {
    forall u :: u in uuids && u != uuid ==> CmdKey(id, u) in rows && rows[CmdKey(id, u)].done
  }

  // What is handed out for command u when sc completes the step.
  ghost function Reported(rows: Rows, id: string, u: string, sc: StepCommandResult): StepCommandResult
    requires CmdKey(id, u) in rows
  {
    var row := rows[CmdKey(id, u)];
    if u == sc.commandUUID then
      StepCommandResult(u, if sc.requestType == "" then row.reqType else sc.requestType, sc.resultReport, true)
    else
      StepCommandResult(u, row.reqType, if row.result.Some? then row.result.value else "", true)
  }

  ghost function ReportAll(rows: Rows, id: string, uuids: seq<string>, sc: StepCommandResult): seq<StepCommandResult>
    requires Tracked(rows, id, uuids)
  {
    seq(|uuids|, j requires 0 <= j < |uuids| => Reported(rows, id, uuids[j], sc))
  }

  ghost predicate Completes(st: State, id: string, sc: StepCommandResult) {
    var k := CmdKey(id, sc.commandUUID);
    && k in st.rows
    && sc.completed
    && st.rows[k].stepID in st.steps
    && OthersDone(st.rows, id, st.steps[st.rows[k].stepID].uuids, sc.commandUUID)
  }

  ghost function Respond(st: State, id: string, sc: StepCommandResult): State {
    var k := CmdKey(id, sc.commandUUID);
    if k !in st.rows then st
    else if !Completes(st, id, sc) then st.(rows := st.rows[k := Note(st.rows[k], sc)])
    else
      var s := st.rows[k].stepID;
      var step := st.steps[s];
      var rows := st.rows - Keys([id], step.uuids);
      var othersLive := exists i :: i in step.ids && i != id && Live(st, s, i);
      st.(rows := rows, steps := if othersLive then st.steps else st.steps - {s})
  }

  ghost function RespondOutcome(st: State, id: string, sc: StepCommandResult): Response {
    var k := CmdKey(id, sc.commandUUID);
    if k !in st.rows then Rejected
    else if !sc.completed then Recorded
    else if st.rows[k].stepID !in st.steps then Rejected
    else
      var step := st.steps[st.rows[k].stepID];
      if !OthersDone(st.rows, id, step.uuids, sc.commandUUID) then Recorded
      else if !Tracked(st.rows, id, step.uuids) then Rejected
      else Completed(StepResult(step.ctx, [id], ReportAll(st.rows, id, step.uuids, sc)))
  }

  /* ---- Releasing delayed steps ---- */

  ghost predicate Due(st: State, s: string, now: Time) {
    Delayed(st, s) && st.steps[s].notUntil <= now
  }

  ghost function Release(st: State, now: Time, pushTime: Time): State {
    var steps := map s | s in st.steps ::
      if Due(st, s, now) then st.steps[s].(notUntil := 0) else st.steps[s];
    var rows := map k | k in st.rows && !(Due(st, k.owner, now) && k.uuid in st.steps[k.owner].uuids) ::
      var row := st.rows[k];
      if Due(st, row.stepID, now) && k.owner in st.steps[row.stepID].ids && k.uuid in st.steps[row.stepID].uuids
      then row.(lastPush := pushTime) else row;
    st.(steps := steps, rows := rows)
  }

  /* ---- Timing steps out ---- */

  ghost predicate Expired(st: State, s: string, now: Time) {
    s in st.steps && st.steps[s].timeout != 0 && st.steps[s].timeout <= now
  }

  ghost function ExpiredKeys(st: State, now: Time): set<CmdKey> {
    set k | k in st.rows && Expired(st, st.rows[k].stepID, now)
            && k.owner in st.steps[st.rows[k].stepID].ids && k.uuid in st.steps[st.rows[k].stepID].uuids
  }

  ghost function ExpiredSteps(st: State, now: Time): set<string> {
    set s | s in st.steps && Expired(st, s, now)
  }

  ghost function TimeOut(st: State, now: Time): State {
    st.(steps := st.steps - ExpiredSteps(st, now), rows := st.rows - ExpiredKeys(st, now))
  }

  // The result handed out for a row when its step times out.
  ghost function Unfinished(u: string, row: Row): StepCommandResult {
    StepCommandResult(u, row.reqType, if row.result.Some? then row.result.value else "", row.done)
  }

  /* ---- Re-pushing ---- */

  ghost predicate Stale(row: Row, ifBefore: Time) {
    row.lastPush != 0 && row.lastPush <= ifBefore
  }

  ghost function RePush(st: State, ifBefore: Time, setTo: Time): State {
    st.(rows := map k | k in st.rows ::
      if Stale(st.rows[k], ifBefore) then st.rows[k].(lastPush := setTo) else st.rows[k])
  }

  /* ---- Cancelling ---- */

  ghost predicate Matches(st: State, s: string, id: string, workflowName: string) {
    s in st.steps && st.steps[s].ctx.workflowName == workflowName && id in st.steps[s].ids
  }

  ghost function MatchingSteps(st: State, id: string, workflowName: string): set<string> {
    set s | s in st.steps && Matches(st, s, id, workflowName)
  }

  ghost function CancelledKeys(st: State, id: string, workflowName: string): set<CmdKey> {
    set k | k in st.rows && k.owner == id && Matches(st, st.rows[k].stepID, id, workflowName)
            && k.uuid in st.steps[st.rows[k].stepID].uuids
  }

  ghost function Cancel(st: State, id: string, workflowName: string): State {
    st.(steps := st.steps - MatchingSteps(st, id, workflowName),
        rows := st.rows - CancelledKeys(st, id, workflowName))
  }

  /* ---- Asking what is outstanding ---- */

  ghost predicate Outstanding(st: State, workflowName: string, id: string) {
    exists s :: s in st.steps && st.steps[s].ctx.workflowName == workflowName && id in st.steps[s].ids
                && Waiting(st.rows, id, st.steps[s].uuids)
  }
}
