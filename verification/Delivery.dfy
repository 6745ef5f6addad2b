/**
 What is handed out along a run: which results complete or time out a step,
 which commands are sent and when, who is pushed again, and what blocks whom.
 */
module Delivery {
  import opened Wrappers
  import opened Text
  import opened Records
  import opened Tracker
  import opened Invariant
  import opened Runs

  /* ---- The responses a run has recorded for a command ---- */

  // The report of the last response accepted for k since k was stored.
  ghost function LastReport(ops: seq<Op>, k: CmdKey): Option<Bytes> {
    if ops == [] then None
    else
      var past := ops[..|ops| - 1];
      var op := ops[|ops| - 1];
      if Stores(Run(past), op, k) then None
      else if Answers(Run(past), op, k) then Some(op.sc.resultReport)
      else LastReport(past, k)
  }

  // Some response accepted for k since k was stored was final.
  ghost predicate Answered(ops: seq<Op>, k: CmdKey) {
    ops != [] &&
    var past := ops[..|ops| - 1];
    var op := ops[|ops| - 1];
    !Stores(Run(past), op, k) && (Answered(past, k) || (Answers(Run(past), op, k) && op.sc.completed))
  }

  ghost predicate Stores(st: State, op: Op, k: CmdKey) {
    op.StoreOp? && Accepts(st, op.cfg) && k in NewKeys(op.s, op.cfg.value)
  }

  ghost predicate Answers(st: State, op: Op, k: CmdKey) {
    op.RespondOp? && k == CmdKey(op.id, op.sc.commandUUID) && k in st.rows
  }

  // What one operation does to the recorded response of a row it leaves.
  lemma NextResult(st: State, op: Op, k: CmdKey)
    requires k in Next(st, op).rows
    requires op.RespondOp? && Completes(st, op.id, op.sc) ==>
               op.sc.commandUUID in st.steps[st.rows[CmdKey(op.id, op.sc.commandUUID)].stepID].uuids
    ensures var row := Next(st, op).rows[k];
            if Stores(st, op, k) then row.result == None && !row.done
            else
              && k in st.rows
              && (if Answers(st, op, k) then row.result == Some(op.sc.resultReport)
                  else row.result == st.rows[k].result)
              && row.done == (st.rows[k].done || (Answers(st, op, k) && op.sc.completed))
  {
    if Stores(st, op, k) {
      assert Next(st, op).rows[k] == NewRow(op.s, op.cfg.value, k, op.now);
    }
  }

  lemma {:induction false} RowHistory(ops: seq<Op>, k: CmdKey)
    requires Admissible(ops) && k in Run(ops).rows
    ensures Run(ops).rows[k].result == LastReport(ops, k)
    ensures Run(ops).rows[k].done == Answered(ops, k)
  {
    var past := ops[..|ops| - 1];
    var op := ops[|ops| - 1];
    if op.RespondOp? && Completes(Run(past), op.id, op.sc) {
      RunKeepsInv(past);
      RowIsLive(Run(past), CmdKey(op.id, op.sc.commandUUID));
    }
    NextResult(Run(past), op, k);
    if !Stores(Run(past), op, k) {
      RowHistory(past, k);
    }
  }

  // The report of the last final response accepted for k since k was stored.
  ghost function FinalReport(ops: seq<Op>, k: CmdKey): Option<Bytes> {
    if ops == [] then None
    else
      var past := ops[..|ops| - 1];
      var op := ops[|ops| - 1];
      if Stores(Run(past), op, k) then None
      else if Answers(Run(past), op, k) && op.sc.completed then Some(op.sc.resultReport)
      else FinalReport(past, k)
  }

  // The last response accepted for k is a NotNow to a command that had been
  // answered with another report.
  ghost predicate Overwritten(ops: seq<Op>, k: CmdKey) {
    ops != [] &&
    var past := ops[..|ops| - 1];
    var op := ops[|ops| - 1];
    && !Stores(Run(past), op, k)
    && if Answers(Run(past), op, k)
       then !op.sc.completed && Answered(past, k) && FinalReport(past, k) != Some(op.sc.resultReport)
       else Overwritten(past, k)
  }

  // An answered command keeps its final report exactly if no such NotNow was
  // the last to come.
  lemma {:induction false} FinalReportStandsExact(ops: seq<Op>, k: CmdKey)
    requires Answered(ops, k)
    ensures FinalReport(ops, k).Some? && LastReport(ops, k).Some?
    ensures LastReport(ops, k) == FinalReport(ops, k) <==> !Overwritten(ops, k)
  {
    var past := ops[..|ops| - 1];
    hide Run;
    hide Stores;
    hide Answers;
    if Answered(past, k) {
      FinalReportStandsExact(past, k);
    }
  }

  // The result that completing step s hands out for its j-th command.
  ghost function FinalResult(ops: seq<Op>, id: string, command: StepCommandRaw,
                             sc: StepCommandResult): StepCommandResult {
    var u := command.commandUUID;
    if u == sc.commandUUID then
      StepCommandResult(u, if sc.requestType == "" then command.requestType else sc.requestType, sc.resultReport, true)
    else
      var last := LastReport(ops, CmdKey(id, u));
      StepCommandResult(u, command.requestType, if last.Some? then last.value else "", true)
  }

  ghost function FinalResults(ops: seq<Op>, id: string, commands: seq<StepCommandRaw>, sc: StepCommandResult)
    : seq<StepCommandResult>
  {
    seq(|commands|, j requires 0 <= j < |commands| => FinalResult(ops, id, commands[j], sc))
  }

  // Everything but the response itself has had its final answer.
  ghost predicate OthersAnswered(ops: seq<Op>, id: string, commands: seq<StepCommandRaw>, uuid: string) {
    forall u :: u in Uuids(commands) && u != uuid ==> Answered(ops, CmdKey(id, u))
  }

  // One tracked command of a live step: what its row holds, in terms of the
  // step as it was stored and of the responses received since.
  lemma LiveRow(ops: seq<Op>, s: string, id: string, j: nat)
    requires Admissible(ops) && Live(Run(ops), s, id)
    requires s in Run(ops).origin && j < |Run(ops).origin[s].commands|
    ensures var command := Run(ops).origin[s].commands[j];
            var k := CmdKey(id, command.commandUUID);
            && k in Run(ops).rows
            && Run(ops).rows[k].stepID == s
            && Run(ops).rows[k].reqType == command.requestType
            && Run(ops).rows[k].result == LastReport(ops, k)
            && Run(ops).rows[k].done == Answered(ops, k)
  {
    var st := Run(ops);
    RunKeepsInv(ops);
    assert StepOK(st, s) && ConfigOK(st.origin[s]);
    var u := st.origin[s].commands[j].commandUUID;
    assert Uuids(st.origin[s].commands)[j] == u && u in st.steps[s].uuids;
    PointsBack(st, s, id, u);
    assert RowOK(st, CmdKey(id, u));
    CommandOfDistinct(st.origin[s].commands, j);
    RowHistory(ops, CmdKey(id, u));
  }

  lemma LiveStep(st: State, s: string)
    requires Inv(st) && s in st.steps
    ensures s in st.origin && ConfigOK(st.origin[s])
    ensures st.steps[s].uuids == Uuids(st.origin[s].commands)
    ensures st.steps[s].ctx == st.origin[s].ctx && st.steps[s].ids == st.origin[s].ids
    ensures st.steps[s].timeout == st.origin[s].timeout
  {
    assert StepOK(st, s);
  }

  lemma ReportIsFinal(ops: seq<Op>, s: string, id: string, sc: StepCommandResult)
    requires Admissible(ops) && Live(Run(ops), s, id) && s in Run(ops).origin
    requires Run(ops).steps[s].uuids == Uuids(Run(ops).origin[s].commands)
    ensures ReportAll(Run(ops).rows, id, Run(ops).steps[s].uuids, sc)
            == FinalResults(ops, id, Run(ops).origin[s].commands, sc)
  {
    var commands := Run(ops).origin[s].commands;
    forall j | 0 <= j < |commands|
      ensures CmdKey(id, Uuids(commands)[j]) in Run(ops).rows
      ensures Reported(Run(ops).rows, id, Uuids(commands)[j], sc) == FinalResult(ops, id, commands[j], sc)
    {
      LiveRow(ops, s, id, j);
    }
  }

  lemma OthersDoneIsAnswered(ops: seq<Op>, s: string, id: string, uuid: string)
    requires Admissible(ops) && Live(Run(ops), s, id) && s in Run(ops).origin
    requires Run(ops).steps[s].uuids == Uuids(Run(ops).origin[s].commands)
    ensures OthersDone(Run(ops).rows, id, Run(ops).steps[s].uuids, uuid)
            <==> OthersAnswered(ops, id, Run(ops).origin[s].commands, uuid)
  {
    var uuids := Run(ops).steps[s].uuids;
    forall u | u in uuids
      ensures CmdKey(id, u) in Run(ops).rows && Run(ops).rows[CmdKey(id, u)].done == Answered(ops, CmdKey(id, u))
    {
      RowHistory(ops, CmdKey(id, u));
    }
  }

  // The results of the other commands are their final reports exactly if none of
  // these was overwritten.
  lemma FinalResultsExact(ops: seq<Op>, id: string, commands: seq<StepCommandRaw>, sc: StepCommandResult)
    requires OthersAnswered(ops, id, commands, sc.commandUUID)
    ensures var results := FinalResults(ops, id, commands, sc);
            (forall j :: 0 <= j < |commands| && commands[j].commandUUID != sc.commandUUID ==>
               Some(results[j].resultReport) == FinalReport(ops, CmdKey(id, commands[j].commandUUID)))
            <==> (forall j :: 0 <= j < |commands| && commands[j].commandUUID != sc.commandUUID ==>
                    !Overwritten(ops, CmdKey(id, commands[j].commandUUID)))
  {
    forall j | 0 <= j < |commands| && commands[j].commandUUID != sc.commandUUID
      ensures Some(FinalResult(ops, id, commands[j], sc).resultReport)
              == FinalReport(ops, CmdKey(id, commands[j].commandUUID))
              <==> !Overwritten(ops, CmdKey(id, commands[j].commandUUID))
    {
      assert Uuids(commands)[j] in Uuids(commands);
      FinalReportStandsExact(ops, CmdKey(id, commands[j].commandUUID));
      hide LastReport;
      hide FinalReport;
      hide Overwritten;
    }
    hide FinalResult;
    hide FinalReport;
    hide Overwritten;
    hide OthersAnswered;
  }

  // A response hands out a step if and only if it is final and every other
  // command of the step has had its final answer from that enrollment. The
  // results come in enqueueing order, one per command, each with the request
  // type it was stored with and the last report received; these are the final
  // reports if and only if none was overwritten.
  lemma CompletionExact(ops: seq<Op>, id: string, sc: StepCommandResult)
    requires Admissible(ops) && May(Run(ops), RespondOp(id, sc))
    requires CmdKey(id, sc.commandUUID) in Run(ops).rows
    requires Run(ops).rows[CmdKey(id, sc.commandUUID)].stepID in Run(ops).steps
    ensures var s := Run(ops).rows[CmdKey(id, sc.commandUUID)].stepID;
            && s in Run(ops).origin
            && var cfg := Run(ops).origin[s];
            RespondOutcome(Run(ops), id, sc)
            == if sc.completed && OthersAnswered(ops, id, cfg.commands, sc.commandUUID)
               then Completed(StepResult(cfg.ctx, [id], FinalResults(ops, id, cfg.commands, sc)))
               else Recorded
    ensures var cfg := Run(ops).origin[Run(ops).rows[CmdKey(id, sc.commandUUID)].stepID];
            var results := FinalResults(ops, id, cfg.commands, sc);
            OthersAnswered(ops, id, cfg.commands, sc.commandUUID) ==>
              ((forall j :: 0 <= j < |cfg.commands| && cfg.commands[j].commandUUID != sc.commandUUID ==>
                  Some(results[j].resultReport) == FinalReport(ops, CmdKey(id, cfg.commands[j].commandUUID)))
               <==> (forall j :: 0 <= j < |cfg.commands| && cfg.commands[j].commandUUID != sc.commandUUID ==>
                       !Overwritten(ops, CmdKey(id, cfg.commands[j].commandUUID))))
  {
    RunKeepsInv(ops);
    var s := Run(ops).rows[CmdKey(id, sc.commandUUID)].stepID;
    RowIsLive(Run(ops), CmdKey(id, sc.commandUUID));
    LiveStep(Run(ops), s);
    OthersDoneIsAnswered(ops, s, id, sc.commandUUID);
    ReportIsFinal(ops, s, id, sc);
    if OthersAnswered(ops, id, Run(ops).origin[s].commands, sc.commandUUID) {
      FinalResultsExact(ops, id, Run(ops).origin[s].commands, sc);
    }
  }

  /* ---- Timing out ---- */

  ghost function TimedOutResult(st: State, s: string, i: string): StepResult
    requires Live(st, s, i)
  {
    var uuids := st.steps[s].uuids;
    StepResult(st.steps[s].ctx, [i],
               seq(|uuids|, j requires 0 <= j < |uuids| => Unfinished(uuids[j], st.rows[CmdKey(i, uuids[j])])))
  }

  // What a run knows of a command: its last report and whether it was final.
  ghost function Known(ops: seq<Op>, id: string, command: StepCommandRaw): StepCommandResult {
    var last := LastReport(ops, CmdKey(id, command.commandUUID));
    StepCommandResult(command.commandUUID, command.requestType, if last.Some? then last.value else "",
                      Answered(ops, CmdKey(id, command.commandUUID)))
  }

  ghost function AllKnown(ops: seq<Op>, id: string, commands: seq<StepCommandRaw>): seq<StepCommandResult> {
    seq(|commands|, j requires 0 <= j < |commands| => Known(ops, id, commands[j]))
  }

  // A timed-out step reports every command in enqueueing order with what is
  // known of it.
  lemma TimedOutExact(ops: seq<Op>, s: string, i: string)
    requires Admissible(ops) && Live(Run(ops), s, i)
    ensures s in Run(ops).origin
    ensures var cfg := Run(ops).origin[s];
            TimedOutResult(Run(ops), s, i) == StepResult(cfg.ctx, [i], AllKnown(ops, i, cfg.commands))
  {
    hide Run;
    hide Admissible;
    hide LastReport;
    hide Answered;
    hide Inv;
    RunKeepsInv(ops);
    LiveStep(Run(ops), s);
    var commands := Run(ops).origin[s].commands;
    forall j | 0 <= j < |commands|
      ensures TimedOutResult(Run(ops), s, i).commands[j] == Known(ops, i, commands[j])
    {
      LiveRow(ops, s, i, j);
    }
  }

  // A step that times out has a command without a final answer, so what times
  // out could not have completed.
  lemma TimedOutUnanswered(ops: seq<Op>, s: string, i: string)
    requires Admissible(ops) && Live(Run(ops), s, i)
    ensures s in Run(ops).origin
    ensures exists c :: c in Run(ops).origin[s].commands && !Answered(ops, CmdKey(i, c.commandUUID))
  {
    RunKeepsInv(ops);
    LiveStep(Run(ops), s);
    LiveWaits(Run(ops), s, i);
    var commands := Run(ops).origin[s].commands;
    var u :| u in Uuids(commands) && CmdKey(i, u) in Run(ops).rows && !Run(ops).rows[CmdKey(i, u)].done;
    var j :| 0 <= j < |commands| && Uuids(commands)[j] == u;
    RowHistory(ops, CmdKey(i, u));
    assert commands[j] in commands;
  }

  lemma LiveWaits(st: State, s: string, i: string)
    requires Inv(st) && Live(st, s, i)
    ensures Waiting(st.rows, i, st.steps[s].uuids)
  {
    LiveStep(st, s);
    assert StepOK(st, s) && AllOrNone(st, i, st.steps[s].uuids);
    assert st.steps[s].uuids[0] in st.steps[s].uuids;
  }

  // Timing out a step leaves rows of it behind exactly when it is still delayed:
  // its raw commands stay, for a step that no longer exists.
  lemma StraysExact(st: State, now: Time, s: string)
    requires Inv(st) && Expired(st, s, now)
    ensures (exists k :: k in TimeOut(st, now).rows && st.rows[k].stepID == s) <==> Delayed(st, s)
  {
    LiveStep(st, s);
    if Delayed(st, s) {
      var k := CmdKey(s, st.steps[s].uuids[0]);
      assert StepOK(st, s) && k.uuid in st.steps[s].uuids;
      PointsBack(st, s, s, k.uuid);
      IDsAreNoSteps(st, s);
      assert k in TimeOut(st, now).rows;
    }
    forall k | k in TimeOut(st, now).rows && st.rows[k].stepID == s
      ensures Delayed(st, s)
    {
      assert RowOK(st, k);
      if k.owner != s {
        RowIsLive(st, k);
      }
    }
  }

  // Cancelling a step leaves rows of it behind exactly when it is delayed or live
  // for another enrollment.
  lemma StraysOnCancelExact(st: State, s: string, id: string, workflowName: string)
    requires Inv(st) && Matches(st, s, id, workflowName)
    ensures Cancel(st, id, workflowName).rows.Keys <= st.rows.Keys
    ensures (exists k :: k in Cancel(st, id, workflowName).rows && st.rows[k].stepID == s)
            <==> Delayed(st, s) || exists i :: i != id && Live(st, s, i)
  {
    assert Cancel(st, id, workflowName).rows.Keys <= st.rows.Keys;
    hide Inv;
    hide Live;
    hide Cancel;
    if Delayed(st, s) {
      RawStays(st, s, id, workflowName);
    }
    if i :| i != id && Live(st, s, i) {
      OtherStays(st, s, id, workflowName, i);
    }
    forall k | k in Cancel(st, id, workflowName).rows && st.rows[k].stepID == s
      ensures Delayed(st, s) || exists i :: i != id && Live(st, s, i)
    {
      StaysFor(st, s, id, workflowName, k);
    }
  }

  lemma RawStays(st: State, s: string, id: string, workflowName: string)
    requires Inv(st) && Matches(st, s, id, workflowName) && Delayed(st, s)
    ensures exists k :: k in Cancel(st, id, workflowName).rows && st.rows[k].stepID == s
  {
    LiveStep(st, s);
    IDsAreNoSteps(st, s);
    var k := CmdKey(s, st.steps[s].uuids[0]);
    assert StepOK(st, s) && k.uuid in st.steps[s].uuids;
    PointsBack(st, s, s, k.uuid);
    assert k in Cancel(st, id, workflowName).rows;
  }

  lemma OtherStays(st: State, s: string, id: string, workflowName: string, i: string)
    requires Inv(st) && Matches(st, s, id, workflowName) && i != id && Live(st, s, i)
    ensures exists k :: k in Cancel(st, id, workflowName).rows && st.rows[k].stepID == s
  {
    LiveStep(st, s);
    var k := CmdKey(i, st.steps[s].uuids[0]);
    assert k.uuid in st.steps[s].uuids;
    PointsBack(st, s, i, k.uuid);
    assert k in Cancel(st, id, workflowName).rows;
  }

  lemma StaysFor(st: State, s: string, id: string, workflowName: string, k: CmdKey)
    requires Inv(st) && Matches(st, s, id, workflowName)
    requires k in Cancel(st, id, workflowName).rows && k in st.rows && st.rows[k].stepID == s
    ensures Delayed(st, s) || (k.owner != id && Live(st, s, k.owner))
  {
    LiveStep(st, s);
    assert RowOK(st, k);
    if k.owner != s {
      RowIsLive(st, k);
    }
  }

  // Rows left behind keep their push time, so their owners stay among those that
  // are pushed again.
  lemma StraysArePushed(st: State, id: string, workflowName: string, k: CmdKey, ifBefore: Time)
    requires k in Cancel(st, id, workflowName).rows && k in st.rows && Stale(st.rows[k], ifBefore)
    ensures k.owner in PushedIDs(Cancel(st, id, workflowName), ifBefore)
  {
    assert Cancel(st, id, workflowName).rows[k] == st.rows[k];
  }

  // The invariant survives every response of an enrollment, except exactly one
  // that completes a step before its release while another enrollment has it.
  lemma EarlyCompletionExact(st: State, id: string, sc: StepCommandResult)
    requires Inv(st) && id !in st.origin
    ensures Inv(Respond(st, id, sc))
            <==> !(CompletesEarly(st, id, sc)
                   && exists i :: i in st.steps[st.rows[CmdKey(id, sc.commandUUID)].stepID].ids && i != id)
  {
    if !CompletesEarly(st, id, sc) {
      RespondKeepsInv(st, id, sc);
    } else {
      var s := st.rows[CmdKey(id, sc.commandUUID)].stepID;
      RowIsLive(st, CmdKey(id, sc.commandUUID));
      assert StepOK(st, s);
      RespondWhenComplete(st, id, sc, s);
      if exists i :: i in st.steps[s].ids && i != id {
        EarlyCompletionBreaks(st, id, sc, s);
      } else {
        EarlyCompletionSole(st, id, sc, s);
      }
    }
  }

  lemma EarlyCompletionBreaks(st: State, id: string, sc: StepCommandResult, s: string)
    requires Inv(st) && id !in st.origin && CompletesEarly(st, id, sc)
    requires s == st.rows[CmdKey(id, sc.commandUUID)].stepID && exists i :: i in st.steps[s].ids && i != id
    ensures !Inv(Respond(st, id, sc))
    ensures Delayed(Respond(st, id, sc), s) && id in st.steps[s].ids
            && Untracked(Respond(st, id, sc).rows, id, st.steps[s].uuids)
  {
    var st' := Respond(st, id, sc);
    RowIsLive(st, CmdKey(id, sc.commandUUID));
    LiveStep(st, s);
    assert StepOK(st, s);
    RespondWhenComplete(st, id, sc, s);
    var i :| i in st.steps[s].ids && i != id;
    assert Live(st, s, i);
    assert st'.steps == st.steps;
    assert st.steps[s].uuids[0] in st.steps[s].uuids && CmdKey(id, st.steps[s].uuids[0]) !in st'.rows;
    assert !Live(st', s, id);
    assert Inv(st') ==> StepOK(st', s);
  }

  lemma EarlyCompletionSole(st: State, id: string, sc: StepCommandResult, s: string)
    requires Inv(st) && id !in st.origin && CompletesEarly(st, id, sc)
    requires s == st.rows[CmdKey(id, sc.commandUUID)].stepID && forall i :: i in st.steps[s].ids ==> i == id
    ensures Inv(Respond(st, id, sc))
  {
    var st' := Respond(st, id, sc);
    RowIsLive(st, CmdKey(id, sc.commandUUID));
    RespondWhenComplete(st, id, sc, s);
    forall k | k in st.rows && k !in st'.rows
      ensures st.rows[k].stepID == s
    {
      PointsBack(st, s, k.owner, k.uuid);
    }
    DropKeepsInv(st, st', {s});
  }

  // The outstanding query is exact: it answers for the live steps.
  lemma OutstandingExact(st: State, workflowName: string, id: string)
    requires Inv(st)
    ensures Outstanding(st, workflowName, id)
            <==> exists s :: Live(st, s, id) && st.steps[s].ctx.workflowName == workflowName
  {
    forall s | s in st.steps && id in st.steps[s].ids
      ensures Waiting(st.rows, id, st.steps[s].uuids) <==> Live(st, s, id)
    {
      assert StepOK(st, s) && AllOrNone(st, id, st.steps[s].uuids);
      assert ConfigOK(st.origin[s]);
      assert st.steps[s].uuids[0] in st.steps[s].uuids;
    }
  }

  // A timeout pass leaves an enrollment outstanding exactly for the steps that
  // are live for it and have not expired.
  lemma TimeOutUnblocksExact(st: State, now: Time, workflowName: string, id: string)
    requires Inv(st)
    ensures Outstanding(TimeOut(st, now), workflowName, id)
            <==> exists s :: Live(st, s, id) && st.steps[s].ctx.workflowName == workflowName && !Expired(st, s, now)
  {
    hide Inv;
    hide Live;
    hide Expired;
    hide Outstanding;
    hide TimeOut;
    TimeOutKeepsInv(st, now);
    OutstandingExact(TimeOut(st, now), workflowName, id);
    LiveAreStored(st, id);
    LiveAreStored(TimeOut(st, now), id);
    forall s
      ensures Live(TimeOut(st, now), s, id) <==> Live(st, s, id) && !Expired(st, s, now)
      ensures s in TimeOut(st, now).steps ==> s in st.steps && TimeOut(st, now).steps[s] == st.steps[s]
    {
      TimeOutLive(st, now, s, id);
    }
  }

  lemma LiveAreStored(st: State, id: string)
    ensures forall s :: Live(st, s, id) ==> s in st.steps
  {
  }

  lemma TimeOutLive(st: State, now: Time, s: string, id: string)
    requires Inv(st)
    ensures Live(TimeOut(st, now), s, id) <==> Live(st, s, id) && !Expired(st, s, now)
    ensures s in TimeOut(st, now).steps ==> s in st.steps && TimeOut(st, now).steps[s] == st.steps[s]
  {
    hide Inv;
    hide Live;
    NextBalance(st, TimeOutOp(now), s, id);
    LiveAreStored(TimeOut(st, now), id);
  }

  // Passes from some instant on leave the workflow unblocked for the enrollment
  // exactly if every step of it that is live for the enrollment has a timeout.
  lemma UnblockedForGoodExact(st: State, workflowName: string, id: string)
    requires Inv(st)
    ensures (exists t: Time :: UnblockedFrom(st, t, workflowName, id))
            <==> forall s :: Live(st, s, id) && st.steps[s].ctx.workflowName == workflowName ==>
                   st.steps[s].timeout != 0
  {
    LiveAreStored(st, id);
    hide Inv;
    hide Live;
    hide Outstanding;
    hide TimeOut;
    if forall s :: Live(st, s, id) && st.steps[s].ctx.workflowName == workflowName ==> st.steps[s].timeout != 0 {
      var last := LastTimeout(st.steps);
      forall now: Time | last <= now
        ensures !Outstanding(TimeOut(st, now), workflowName, id)
      {
        TimeOutUnblocksExact(st, now, workflowName, id);
      }
      assert UnblockedFrom(st, last, workflowName, id);
    } else {
      var s :| Live(st, s, id) && st.steps[s].ctx.workflowName == workflowName && st.steps[s].timeout == 0;
      forall t: Time
        ensures !UnblockedFrom(st, t, workflowName, id)
      {
        TimeOutUnblocksExact(st, t, workflowName, id);
        assert Live(st, s, id) && !Expired(st, s, t);
        assert Outstanding(TimeOut(st, t), workflowName, id);
      }
    }
  }

  ghost predicate UnblockedFrom(st: State, t: Time, workflowName: string, id: string) {
    forall now :: t <= now ==> !Outstanding(TimeOut(st, now), workflowName, id)
  }

  // An instant that no step outlives.
  lemma LastTimeout(steps: Steps) returns (last: Time)
    ensures forall s :: s in steps ==> steps[s].timeout <= last
    decreases |steps|
  {
    last := 0;
    if steps != map[] {
      var s :| s in steps;
      var rest := steps - {s};
      assert rest.Keys == steps.Keys - {s};
      var before := LastTimeout(rest);
      last := if before > steps[s].timeout then before else steps[s].timeout;
      assert forall r :: r in steps && r != s ==> r in rest;
    }
  }

  /* ---- Sending ---- */

  datatype Sending = AtOnce | OnRelease | Unsent

  // How the commands of step s leave the store: sent with the store, sent by a
  // release, or dropped before they were due.
  ghost predicate Leaves(st: State, op: Op, how: Sending, s: string) {
    match how
    case AtOnce => op.StoreOp? && op.s == s && Accepts(st, op.cfg) && op.cfg.value.notUntil == 0
    case OnRelease => op.ReleaseOp? && Due(st, s, op.now)
    case Unsent =>
      Delayed(st, s)
      && ((op.TimeOutOp? && Expired(st, s, op.now)) || (op.CancelOp? && Matches(st, s, op.id, op.workflowName)))
  }

  ghost function Sends(ops: seq<Op>, how: Sending, s: string): nat {
    if ops == [] then 0
    else Sends(ops[..|ops| - 1], how, s) + Bit(Leaves(Run(ops[..|ops| - 1]), ops[|ops| - 1], how, s))
  }

  lemma SendBalanceStep(st: State, op: Op, s: string)
    requires s in st.steps ==> s in st.origin
    requires op.StoreOp? && Accepts(st, op.cfg) ==> op.s !in st.origin
    requires op.RespondOp? && Completes(st, op.id, op.sc) ==>
               !Delayed(st, st.rows[CmdKey(op.id, op.sc.commandUUID)].stepID)
    ensures Bit(s in Next(st, op).origin) + Bit(Delayed(st, s))
            == Bit(s in st.origin) + Bit(Delayed(Next(st, op), s)) + Bit(Leaves(st, op, AtOnce, s))
               + Bit(Leaves(st, op, OnRelease, s)) + Bit(Leaves(st, op, Unsent, s))
  {
  }

  // In every run the commands of a stored step are sent exactly once, at once
  // or by one release, unless the step still waits for its release or was
  // dropped before it.
  lemma {:induction false} SentOnce(ops: seq<Op>, s: string)
    requires Admissible(ops)
    ensures Bit(s in Run(ops).origin)
            == Sends(ops, AtOnce, s) + Sends(ops, OnRelease, s) + Sends(ops, Unsent, s) + Bit(Delayed(Run(ops), s))
  {
    if ops != [] {
      var past := ops[..|ops| - 1];
      SentOnce(past, s);
      RunKeepsInv(past);
      assert s in Run(past).steps ==> StepOK(Run(past), s);
      SendBalanceStep(Run(past), ops[|ops| - 1], s);
    }
  }

  ghost predicate RawKept(st: State, s: string) {
    s in st.steps && forall u :: u in st.steps[s].uuids ==> CmdKey(s, u) in st.rows && st.rows[CmdKey(s, u)].raw.Some?
  }

  // What a release hands to the enqueuer. The step's context stays behind.
  ghost function Released(st: State, s: string): StepEnqueueing
    requires RawKept(st, s)
  {
    var step := st.steps[s];
    StepEnqueueing(step.ctx.(context := ""), step.ids,
      seq(|step.uuids|, j requires 0 <= j < |step.uuids| =>
        var row := st.rows[CmdKey(s, step.uuids[j])];
        StepCommandRaw(step.uuids[j], row.reqType, row.raw.value)))
  }

  // A release hands out the commands that were stored, byte for byte, in their
  // order and for the same enrollments.
  lemma ReleasedIsOriginal(st: State, s: string)
    requires Inv(st) && Delayed(st, s)
    ensures RawKept(st, s)
    ensures Released(st, s)
            == StepEnqueueing(st.origin[s].ctx.(context := ""), st.origin[s].ids, st.origin[s].commands)
  {
    assert StepOK(st, s) && ConfigOK(st.origin[s]);
    var commands := st.origin[s].commands;
    forall u | u in st.steps[s].uuids
      ensures st.rows[CmdKey(s, u)].stepID == s && st.rows[CmdKey(s, u)].raw.Some?
    {
      PointsBack(st, s, s, u);
      assert RowOK(st, CmdKey(s, u));
    }
    forall j | 0 <= j < |commands|
      ensures Released(st, s).commands[j] == commands[j]
    {
      var u := Uuids(commands)[j];
      assert RowOK(st, CmdKey(s, u));
      CommandOfDistinct(commands, j);
    }
  }

  // The first pass at or after its time releases a step; no pass before does.
  lemma ReleasedWhenDue(st: State, now: Time, pushTime: Time, s: string)
    requires Inv(st) && Delayed(st, s)
    ensures Leaves(st, ReleaseOp(now, pushTime), OnRelease, s) <==> st.origin[s].notUntil <= now
    ensures Delayed(Release(st, now, pushTime), s) <==> now < st.origin[s].notUntil
  {
    assert StepOK(st, s);
  }

  /* ---- Re-pushing ---- */

  ghost function PushedIDs(st: State, ifBefore: Time): set<string> {
    set k | k in st.rows && Stale(st.rows[k], ifBefore) :: k.owner
  }

  // Stamping with a later time leaves nobody to push again.
  lemma RePushSettles(st: State, ifBefore: Time, setTo: Time)
    requires ifBefore < setTo
    ensures PushedIDs(RePush(st, ifBefore, setTo), ifBefore) == {}
  {
  }

  // Only enrollments are pushed, and only for commands that have been sent: a
  // step that waits for its release causes no push.
  lemma PushedOnlyIfSent(st: State, ifBefore: Time, k: CmdKey)
    requires Inv(st) && k in st.rows && Stale(st.rows[k], ifBefore)
    ensures k.owner !in st.origin && !Delayed(st, st.rows[k].stepID)
  {
    assert RowOK(st, k);
  }

  /* ---- Cancelling ---- */

  // What the storage contract asks of cancelling: no live step is left for the
  // enrollment, of the named workflow or of any if the name is empty.
  ghost predicate CancelPromise(st: State, id: string, workflowName: string) {
    forall s :: Live(st, s, id) ==> workflowName != "" && st.steps[s].ctx.workflowName != workflowName
  }

  // Cancelling with an empty name changes nothing, because no stored step has
  // an empty workflow name.
  lemma CancelAllIsIdle(st: State, id: string)
    requires Inv(st)
    ensures Cancel(st, id, "") == st
  {
    forall s | s in st.steps
      ensures !Matches(st, s, id, "")
    {
      LiveStep(st, s);
    }
    CancelNone(st, id, "");
  }

  lemma CancelNone(st: State, id: string, workflowName: string)
    requires forall s :: s in st.steps ==> !Matches(st, s, id, workflowName)
    ensures Cancel(st, id, workflowName) == st
  {
    assert MatchingSteps(st, id, workflowName) == {} && CancelledKeys(st, id, workflowName) == {};
  }

  // So the promise is kept exactly when a name is given or nothing was live.
  lemma CancelPromiseExact(st: State, id: string, workflowName: string)
    requires Inv(st)
    ensures CancelPromise(Cancel(st, id, workflowName), id, workflowName)
            <==> workflowName != "" || (forall s :: !Live(st, s, id))
  {
    if workflowName == "" {
      CancelAllIsIdle(st, id);
    }
  }

  // Cancelling spares the other enrollments exactly when every step it deletes
  // is live for the cancelled enrollment alone.
  lemma CancelSparesOthersExact(st: State, id: string, workflowName: string)
    requires Inv(st)
    ensures (forall s, i :: i != id && Live(st, s, i) ==> Live(Cancel(st, id, workflowName), s, i))
            <==> (forall s, i :: Matches(st, s, id, workflowName) && Live(st, s, i) ==> i == id)
  {
    var st' := Cancel(st, id, workflowName);
    forall s, i | i != id && Live(st, s, i)
      ensures Live(st', s, i) <==> !Matches(st, s, id, workflowName)
    {
      if !Matches(st, s, id, workflowName) {
        forall u | u in st.steps[s].uuids
          ensures CmdKey(i, u) in st'.rows
        {
          PointsBack(st, s, i, u);
        }
      }
    }
  }
}
