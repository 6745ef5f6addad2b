/**
 Response routing end to end: what the workflow that enqueued a step receives once
 the step is complete, in terms of the step it enqueued and the reports received.
 */
module Routing {
  import opened Wrappers
  import opened Text
  import opened Records
  import opened Tracker
  import opened Invariant
  import opened Runs
  import opened Delivery
  import opened Registry
  import opened KVStore
  import opened Convert
  import opened Engine

  // Every recorded report reads as a response of its command's request type, and
  // is final as its status says: the engine sees to that before it records one.
  ghost predicate AllRead(ops: seq<Op>, parse: Parser) {
    ops == []
    || (AllRead(ops[..|ops| - 1], parse) && Reads(Run(ops[..|ops| - 1]), ops[|ops| - 1], parse))
  }

  ghost predicate Reads(st: State, op: Op, parse: Parser) {
    op.RespondOp? && CmdKey(op.id, op.sc.commandUUID) in st.rows ==>
      var read := parse(st.rows[CmdKey(op.id, op.sc.commandUUID)].reqType, op.sc.resultReport);
      read.Some? && (op.sc.completed <==> read.value.status != "" && read.value.status != "NotNow")
  }

  lemma NextReqType(st: State, op: Op, k: CmdKey)
    requires k in Next(st, op).rows && !Stores(st, op, k)
    ensures k in st.rows && Next(st, op).rows[k].reqType == st.rows[k].reqType
  {
  }

  lemma {:induction false} ReportReads(ops: seq<Op>, parse: Parser, k: CmdKey)
    requires Admissible(ops) && AllRead(ops, parse) && k in Run(ops).rows && LastReport(ops, k).Some?
    ensures parse(Run(ops).rows[k].reqType, LastReport(ops, k).value).Some?
  {
    var past := ops[..|ops| - 1];
    var op := ops[|ops| - 1];
    NextReqType(Run(past), op, k);
    hide Next;
    hide May;
    if !Answers(Run(past), op, k) {
      ReportReads(past, parse, k);
    }
  }

  // The final report of an answered command reads as a final response, and a
  // report that overwrote it does not.
  lemma {:induction false} FinalReportReads(ops: seq<Op>, parse: Parser, k: CmdKey)
    requires Admissible(ops) && AllRead(ops, parse) && k in Run(ops).rows && Answered(ops, k)
    ensures FinalReport(ops, k).Some? && LastReport(ops, k).Some?
    ensures var final := parse(Run(ops).rows[k].reqType, FinalReport(ops, k).value);
            final.Some? && final.value.status != "" && final.value.status != "NotNow"
    ensures Overwritten(ops, k) ==>
              var last := parse(Run(ops).rows[k].reqType, LastReport(ops, k).value);
              last.Some? && (last.value.status == "" || last.value.status == "NotNow")
  {
    var past := ops[..|ops| - 1];
    var op := ops[|ops| - 1];
    FinalReportStandsExact(ops, k);
    NextReqType(Run(past), op, k);
    hide Next;
    hide May;
    if Answered(past, k) {
      FinalReportReads(past, parse, k);
    }
  }

  // So an answered command comes back with its final response exactly if it was
  // not overwritten.
  lemma ReturnIsFinalExact(ops: seq<Op>, parse: Parser, id: string, command: StepCommandRaw, uuid: string,
                           response: MDMResponse)
    requires Admissible(ops) && AllRead(ops, parse) && command.commandUUID != uuid
    requires CmdKey(id, command.commandUUID) in Run(ops).rows && Answered(ops, CmdKey(id, command.commandUUID))
    requires Run(ops).rows[CmdKey(id, command.commandUUID)].reqType == command.requestType
    ensures FinalReport(ops, CmdKey(id, command.commandUUID)).Some?
    ensures ReturnOf(ops, parse, id, command, uuid, response)
            == parse(command.requestType, FinalReport(ops, CmdKey(id, command.commandUUID)).value)
            <==> !Overwritten(ops, CmdKey(id, command.commandUUID))
  {
    var k := CmdKey(id, command.commandUUID);
    FinalReportStandsExact(ops, k);
    FinalReportReads(ops, parse, k);
    hide Run;
    hide LastReport;
    hide FinalReport;
    hide Overwritten;
  }

  // The other commands come back with their final responses.
  ghost predicate ReturnsFinal(ops: seq<Op>, parse: Parser, id: string, commands: seq<StepCommandRaw>, uuid: string,
                               results: seq<Option<MDMResponse>>)
    requires |results| == |commands|
  {
    forall j :: 0 <= j < |commands| && commands[j].commandUUID != uuid ==>
      var final := FinalReport(ops, CmdKey(id, commands[j].commandUUID));
      final.Some? && results[j] == parse(commands[j].requestType, final.value)
  }

  ghost predicate AnyOverwritten(ops: seq<Op>, id: string, commands: seq<StepCommandRaw>, uuid: string) {
    exists j :: 0 <= j < |commands| && commands[j].commandUUID != uuid
                && Overwritten(ops, CmdKey(id, commands[j].commandUUID))
  }

  lemma ReturnsFinalExact(ops: seq<Op>, parse: Parser, contexts: Contexts, s: string, id: string, uuid: string,
                          response: MDMResponse, wr: WorkflowResult)
    requires Admissible(ops) && AllRead(ops, parse) && Live(Run(ops), s, id) && s in Run(ops).origin
    requires OthersAnswered(ops, id, Run(ops).origin[s].commands, uuid)
    requires IsReturn(ops, parse, contexts, Run(ops).origin[s], id, uuid, response, wr)
    ensures ReturnsFinal(ops, parse, id, Run(ops).origin[s].commands, uuid, wr.results)
            <==> !AnyOverwritten(ops, id, Run(ops).origin[s].commands, uuid)
  {
    var commands := Run(ops).origin[s].commands;
    forall j | 0 <= j < |commands| && commands[j].commandUUID != uuid
      ensures FinalReport(ops, CmdKey(id, commands[j].commandUUID)).Some?
      ensures wr.results[j] == parse(commands[j].requestType,
                                     FinalReport(ops, CmdKey(id, commands[j].commandUUID)).value)
              <==> !Overwritten(ops, CmdKey(id, commands[j].commandUUID))
    {
      assert Uuids(commands)[j] in Uuids(commands);
      LiveRow(ops, s, id, j);
      hide Admissible;
      hide AllRead;
      hide LastReport;
      hide FinalReport;
      hide Overwritten;
      hide Answered;
      ReturnIsFinalExact(ops, parse, id, commands[j], uuid, response);
    }
    hide Run;
    hide Admissible;
    hide AllRead;
    hide FinalReport;
    hide Overwritten;
    hide ReturnOf;
    hide OthersAnswered;
  }

  // A command with its final answer has a report, and it reads.
  lemma AnsweredReads(ops: seq<Op>, parse: Parser, s: string, id: string, j: nat)
    requires Admissible(ops) && AllRead(ops, parse) && Live(Run(ops), s, id) && s in Run(ops).origin
    requires j < |Run(ops).origin[s].commands|
    requires Answered(ops, CmdKey(id, Run(ops).origin[s].commands[j].commandUUID))
    ensures var command := Run(ops).origin[s].commands[j];
            var last := LastReport(ops, CmdKey(id, command.commandUUID));
            last.Some? && parse(command.requestType, last.value).Some?
  {
    var k := CmdKey(id, Run(ops).origin[s].commands[j].commandUUID);
    LiveRow(ops, s, id, j);
    RunKeepsInv(ops);
    assert RowOK(Run(ops), k);
    hide Inv;
    hide Run;
    hide Admissible;
    hide AllRead;
    hide Answered;
    hide LastReport;
    ReportReads(ops, parse, k);
  }

  // The response that completes a step, as its event brings it.
  ghost predicate Responds(st: State, parse: Parser, id: string, uuid: string, raw: Bytes, response: MDMResponse) {
    && id != "" && uuid != "" && |raw| >= 1
    && CmdKey(id, uuid) in st.rows
    && parse(st.rows[CmdKey(id, uuid)].reqType, raw) == Some(response)
    && response.commandUUID == uuid
  }

  ghost function RecordedAs(st: State, id: string, uuid: string, raw: Bytes, response: MDMResponse): StepCommandResult
    requires CmdKey(id, uuid) in st.rows
  {
    StepCommandResult(uuid, st.rows[CmdKey(id, uuid)].reqType, raw,
                      response.status != "" && response.status != "NotNow")
  }

  ghost predicate ReadableFor(contexts: Contexts, ctx: StepContext) {
    contexts.has(ctx.name) && |ctx.context| > 0 ==> contexts.readable(ctx.name, ctx.context)
  }

  // What a workflow gets back of a step that it enqueued: its instance ID, step
  // name and context, the enrollment, and the decoded results in the order of
  // its commands.
  ghost predicate IsReturn(ops: seq<Op>, parse: Parser, contexts: Contexts, cfg: StepEnqueuingWithConfig, id: string,
                           uuid: string, response: MDMResponse, wr: WorkflowResult)
  {
    && wr.instanceID == cfg.ctx.instanceID && wr.name == cfg.ctx.name && wr.id == id
    && wr.context == (if contexts.has(cfg.ctx.name) then Some(cfg.ctx.context) else None)
    && |wr.results| == |cfg.commands|
    && forall j :: 0 <= j < |cfg.commands| ==>
         wr.results[j] == ReturnOf(ops, parse, id, cfg.commands[j], uuid, response) && wr.results[j].Some?
  }

  ghost function ReturnOf(ops: seq<Op>, parse: Parser, id: string, command: StepCommandRaw, uuid: string,
                          response: MDMResponse)
    : Option<MDMResponse>
  {
    if command.commandUUID == uuid then Some(response)
    else
      var last := LastReport(ops, CmdKey(id, command.commandUUID));
      if last.Some? then parse(command.requestType, last.value) else None
  }

  // Every final result of the step reads.
  lemma FinalResultsRead(ops: seq<Op>, parse: Parser, s: string, id: string, sc: StepCommandResult, j: nat)
    requires Admissible(ops) && AllRead(ops, parse) && Live(Run(ops), s, id) && s in Run(ops).origin
    requires j < |Run(ops).origin[s].commands|
    requires OthersAnswered(ops, id, Run(ops).origin[s].commands, sc.commandUUID)
    ensures var command := Run(ops).origin[s].commands[j];
            var result := FinalResult(ops, id, command, sc);
            && result.commandUUID == command.commandUUID
            && (command.commandUUID != sc.commandUUID ==>
                  && LastReport(ops, CmdKey(id, command.commandUUID)).Some?
                  && parse(result.requestType, result.resultReport).Some?
                  && parse(result.requestType, result.resultReport)
                     == parse(command.requestType, LastReport(ops, CmdKey(id, command.commandUUID)).value))
  {
    var commands := Run(ops).origin[s].commands;
    if commands[j].commandUUID != sc.commandUUID {
      assert Uuids(commands)[j] == commands[j].commandUUID;
      AnsweredReads(ops, parse, s, id, j);
    }
    hide Run;
    hide LastReport;
    hide Answered;
    hide Admissible;
    hide AllRead;
  }

  // The form in which a completed step reaches its workflow.
  lemma ReturnForm(ops: seq<Op>, parse: Parser, contexts: Contexts, s: string, id: string, sc: StepCommandResult,
                   response: MDMResponse)
    requires Admissible(ops) && AllRead(ops, parse) && Live(Run(ops), s, id) && s in Run(ops).origin
    requires OthersAnswered(ops, id, Run(ops).origin[s].commands, sc.commandUUID)
    requires ReadableFor(contexts, Run(ops).origin[s].ctx)
    ensures var cfg := Run(ops).origin[s];
            var step := StepResult(cfg.ctx, [id], FinalResults(ops, id, cfg.commands, sc));
            var form := WorkflowForm(parse, contexts, step, false, sc.commandUUID, Some(response));
            form.Ok? && IsReturn(ops, parse, contexts, cfg, id, sc.commandUUID, response, form.value)
  {
    var cfg := Run(ops).origin[s];
    var results := FinalResults(ops, id, cfg.commands, sc);
    forall j | 0 <= j < |results|
      ensures results[j].commandUUID == cfg.commands[j].commandUUID
      ensures cfg.commands[j].commandUUID != sc.commandUUID ==>
                && parse(results[j].requestType, results[j].resultReport).Some?
                && parse(results[j].requestType, results[j].resultReport)
                   == ReturnOf(ops, parse, id, cfg.commands[j], sc.commandUUID, response)
    {
      FinalResultsRead(ops, parse, s, id, sc, j);
    }
    hide Run;
    hide Admissible;
    hide AllRead;
    hide OthersAnswered;
    hide FinalResults;
    hide ReturnOf;
    hide Converted;
    ConvertedEach(parse, results, sc.commandUUID, Some(response));
    OwnReturned(ops, parse, id, cfg.commands, sc.commandUUID, response);
  }

  lemma OwnReturned(ops: seq<Op>, parse: Parser, id: string, commands: seq<StepCommandRaw>, uuid: string,
                  response: MDMResponse)
    ensures forall j :: 0 <= j < |commands| && commands[j].commandUUID == uuid ==>
              ReturnOf(ops, parse, id, commands[j], uuid, response) == Some(response)
  {
  }

  // When the event names the command that its report names, the workflow is
  // handed its step exactly if the response is final and all others are, and the
  // workflow is registered and its context reads; and the others come with their
  // final responses exactly if none was overwritten.
  lemma RoutedExact(ops: seq<Op>, workflows: map<string, Option<Config>>, parse: Parser, contextsOf: string -> Contexts,
                    id: string, uuid: string, raw: Bytes, response: MDMResponse)
    requires Admissible(ops) && AllRead(ops, parse) && Responds(Run(ops), parse, id, uuid, raw, response)
    requires MayRespond(Run(ops), id, RecordedAs(Run(ops), id, uuid, raw, response))
             && Run(ops).rows[CmdKey(id, uuid)].stepID in Run(ops).steps
    ensures Run(ops).rows[CmdKey(id, uuid)].stepID in Run(ops).origin
    ensures var s := Run(ops).rows[CmdKey(id, uuid)].stepID;
            var cfg := Run(ops).origin[s];
            var name := cfg.ctx.workflowName;
            var handed := Delivered(Run(ops), |uuid|, workflows, parse, contextsOf, id, uuid, raw);
            && (handed.Some?
                <==> response.status != "" && response.status != "NotNow"
                     && OthersAnswered(ops, id, cfg.commands, uuid)
                     && name in workflows && ReadableFor(contextsOf(name), cfg.ctx))
            && (handed.Some? ==>
                  && handed.value.workflow == name
                  && IsReturn(ops, parse, contextsOf(name), cfg, id, uuid, response, handed.value.result)
                  && (ReturnsFinal(ops, parse, id, cfg.commands, uuid, handed.value.result.results)
                      <==> !AnyOverwritten(ops, id, cfg.commands, uuid)))
  {
    assert id !in Run(ops).origin;
    hide Inv;
    hide Run;
    hide Admissible;
    hide AllRead;
    hide RespondOutcome;
    hide WorkflowForm;
    hide OthersAnswered;
    hide FinalResults;
    hide IsReturn;
    hide ReturnsFinal;
    hide AnyOverwritten;
    hide Delivered;
    hide MayRespond;
    hide ReadableFor;
    var st := Run(ops);
    var s := st.rows[CmdKey(id, uuid)].stepID;
    var sc := RecordedAs(st, id, uuid, raw, response);
    RunKeepsInv(ops);
    RowIsLive(st, CmdKey(id, uuid));
    StoredInOrigin(st, s);
    var cfg := st.origin[s];
    CompletionExact(ops, id, sc);
    DeliveredForm(st, workflows, parse, contextsOf, id, uuid, raw, response, sc);
    if OthersAnswered(ops, id, cfg.commands, uuid) {
      HandedForm(ops, parse, contextsOf(cfg.ctx.workflowName), s, id, sc, response);
    }
  }

  // The form that a completed step has, if its context reads.
  lemma HandedForm(ops: seq<Op>, parse: Parser, contexts: Contexts, s: string, id: string, sc: StepCommandResult,
                   response: MDMResponse)
    requires Admissible(ops) && AllRead(ops, parse) && Live(Run(ops), s, id) && s in Run(ops).origin
    requires OthersAnswered(ops, id, Run(ops).origin[s].commands, sc.commandUUID)
    ensures var cfg := Run(ops).origin[s];
            var step := StepResult(cfg.ctx, [id], FinalResults(ops, id, cfg.commands, sc));
            var form := WorkflowForm(parse, contexts, step, false, sc.commandUUID, Some(response));
            && (form.Ok? <==> ReadableFor(contexts, cfg.ctx))
            && (form.Ok? ==>
                  && IsReturn(ops, parse, contexts, cfg, id, sc.commandUUID, response, form.value)
                  && |form.value.results| == |cfg.commands|
                  && (ReturnsFinal(ops, parse, id, cfg.commands, sc.commandUUID, form.value.results)
                      <==> !AnyOverwritten(ops, id, cfg.commands, sc.commandUUID)))
  {
    hide Run;
    hide Admissible;
    hide AllRead;
    hide Live;
    hide WorkflowForm;
    hide OthersAnswered;
    hide FinalResults;
    hide IsReturn;
    hide ReturnsFinal;
    hide AnyOverwritten;
    hide ReadableFor;
    var cfg := Run(ops).origin[s];
    var step := StepResult(cfg.ctx, [id], FinalResults(ops, id, cfg.commands, sc));
    var form := WorkflowForm(parse, contexts, step, false, sc.commandUUID, Some(response));
    UnreadableForm(parse, contexts, step, sc.commandUUID, response);
    if ReadableFor(contexts, cfg.ctx) {
      ReturnForm(ops, parse, contexts, s, id, sc, response);
      ReturnLength(ops, parse, contexts, cfg, id, sc.commandUUID, response, form.value);
      ReturnsFinalExact(ops, parse, contexts, s, id, sc.commandUUID, response, form.value);
    }
  }

  lemma ReturnLength(ops: seq<Op>, parse: Parser, contexts: Contexts, cfg: StepEnqueuingWithConfig, id: string,
                     uuid: string, response: MDMResponse, wr: WorkflowResult)
    requires IsReturn(ops, parse, contexts, cfg, id, uuid, response, wr)
    ensures |wr.results| == |cfg.commands|
  {
  }

  lemma UnreadableForm(parse: Parser, contexts: Contexts, step: StepResult, uuid: string, response: MDMResponse)
    ensures !ReadableFor(contexts, step.ctx) ==> WorkflowForm(parse, contexts, step, false, uuid, Some(response)).Err?
  {
  }

  lemma DeliveredForm(st: State, workflows: map<string, Option<Config>>, parse: Parser, contextsOf: string -> Contexts,
                      id: string, uuid: string, raw: Bytes, response: MDMResponse, sc: StepCommandResult)
    requires Responds(st, parse, id, uuid, raw, response)
    requires sc == RecordedAs(st, id, uuid, raw, response)
    ensures var outcome := RespondOutcome(st, id, sc);
            var handed := Delivered(st, |uuid|, workflows, parse, contextsOf, id, uuid, raw);
            match outcome
            case Completed(step) =>
              var name := step.ctx.workflowName;
              var form := WorkflowForm(parse, contextsOf(name), step, false, uuid, Some(response));
              handed == if name in workflows && form.Ok? then Some(HandOver(name, form.value)) else None
            case _ => handed == None
  {
    hide RespondOutcome;
    hide WorkflowForm;
  }

  /* ---- What a status does ---- */

  // What is recorded of a response: that it came for a command that is tracked
  // under the event's ID and UUID, what it says, and whether it is final.
  lemma RecordableExact(st: State, n: nat, parse: Parser, id: string, uuid: string, raw: Bytes)
    ensures var reqType := RequestTypeOf(st.rows, n, id, uuid);
            var recorded := Recordable(st, n, parse, id, uuid, raw);
            && (recorded.Some? <==> id != "" && uuid != "" && raw != "" && reqType.Some?
                                    && parse(reqType.value, raw).Some?)
            && (recorded.Some? ==>
                  && parse(reqType.value, raw) == Some(recorded.value.1)
                  && recorded.value.0.commandUUID == recorded.value.1.commandUUID
                  && recorded.value.0.requestType == reqType.value && recorded.value.0.resultReport == raw
                  && (recorded.value.0.completed
                      <==> recorded.value.1.status != "" && recorded.value.1.status != "NotNow"))
  {
  }

  // The other rows, and of its own everything but the report.
  ghost predicate OnlyReported(rows: Rows, rows': Rows, k: CmdKey, raw: Bytes) {
    && rows'.Keys == rows.Keys
    && forall c :: c in rows ==> rows'[c] == if c == k then rows[c].(result := Some(raw)) else rows[c]
  }

  // A response with no status or a NotNow hands nothing over and ends nothing:
  // all it leaves is its report.
  lemma NotFinalKeeps(st: State, n: nat, workflows: map<string, Option<Config>>, parse: Parser,
                      contextsOf: string -> Contexts, id: string, uuid: string, raw: Bytes)
    requires Recordable(st, n, parse, id, uuid, raw).Some?
    requires Recordable(st, n, parse, id, uuid, raw).value.1.status in {"", "NotNow"}
    ensures Delivered(st, n, workflows, parse, contextsOf, id, uuid, raw) == None
    ensures var st' := AfterResponse(st, n, parse, id, uuid, raw);
            var k := CmdKey(id, Recordable(st, n, parse, id, uuid, raw).value.1.commandUUID);
            && st'.steps == st.steps && st'.origin == st.origin && OnlyReported(st.rows, st'.rows, k, raw)
            && (forall s, i :: Live(st', s, i) <==> Live(st, s, i))
            && (forall w, i :: Outstanding(st', w, i) <==> Outstanding(st, w, i))
  {
    RecordableExact(st, n, parse, id, uuid, raw);
    var sc := Recordable(st, n, parse, id, uuid, raw).value.0;
    hide Recordable;
    assert !Completes(st, id, sc);
    var st' := Respond(st, id, sc);
    assert OnlyReported(st.rows, st'.rows, CmdKey(id, sc.commandUUID), raw);
    hide Respond;
    forall w, i
      ensures Outstanding(st', w, i) <==> Outstanding(st, w, i)
    {
      SameOutstanding(st, st', w, i);
    }
  }

  lemma SameOutstanding(st: State, st': State, workflowName: string, i: string)
    requires st'.steps == st.steps && st'.rows.Keys == st.rows.Keys
    requires forall k :: k in st.rows ==> st'.rows[k].done == st.rows[k].done
    ensures Outstanding(st', workflowName, i) <==> Outstanding(st, workflowName, i)
  {
    forall uuids: seq<string>
      ensures Waiting(st'.rows, i, uuids) <==> Waiting(st.rows, i, uuids)
    {
    }
  }

  /* ---- In the workflow's own terms ---- */

  // What it gets back of a command that it enqueued: this response, or the last
  // report that came for it, decoded.
  ghost function OwnReturn(ops: seq<Op>, parse: Parser, id: string, command: WorkflowCommand, uuid: string,
                           response: MDMResponse): Option<MDMResponse>
  {
    if command.uuid == uuid then Some(response)
    else
      var last := LastReport(ops, CmdKey(id, command.uuid));
      if last.Some? then parse(command.requestType, last.value) else None
  }

  // A workflow gets back the instance ID, step name and context that it enqueued,
  // and in the order of its commands one result for each.
  lemma ReturnsEnqueued(ops: seq<Op>, parse: Parser, contexts: Contexts, name: string, defaultTimeout: Time,
                        se: WorkflowStep, cfg: StepEnqueuingWithConfig, id: string, uuid: string,
                        response: MDMResponse, wr: WorkflowResult)
    requires IsStorageStep(name, defaultTimeout, se, cfg) && IsReturn(ops, parse, contexts, cfg, id, uuid, response, wr)
    ensures cfg.ctx.workflowName == name && cfg.ids == se.ids
    ensures wr.instanceID == se.instanceID && wr.name == se.name && wr.id == id
    ensures wr.context == if contexts.has(se.name) then Some(se.context) else None
    ensures |wr.results| == |se.commands|
    ensures forall j :: 0 <= j < |se.commands| ==>
              se.commands[j].Some? && wr.results[j] == OwnReturn(ops, parse, id, se.commands[j].value, uuid, response)
  {
    hide LastReport;
    forall j | 0 <= j < |se.commands|
      ensures se.commands[j].Some? && wr.results[j] == OwnReturn(ops, parse, id, se.commands[j].value, uuid, response)
    {
      assert Carries(se.commands[j], cfg.commands[j]);
      assert wr.results[j] == ReturnOf(ops, parse, id, cfg.commands[j], uuid, response);
    }
  }

  // Who is told of the response as an event, where configurations do not change:
  // the registered workflows whose configuration lists its request type.
  lemma NotifiedExact(st: State, n: nat, parse: Parser, history: seq<RegOp>, configOf: string -> Option<Config>,
                      id: string, uuid: string, raw: Bytes, names: seq<string>)
    requires Notified(st, n, parse, history, id, uuid, raw, names) && FixedConfigs(history, configOf)
    ensures var reqType := RequestTypeOf(st.rows, n, id, uuid);
            Distinct(names)
            && forall name :: name in names
                 <==> id != "" && uuid != "" && raw != "" && reqType.Some? && parse(reqType.value, raw).Some?
                      && name in Registered(history)
                      && configOf(name).Some? && reqType.value in configOf(name).value.allResponses
  {
    RecordableExact(st, n, parse, id, uuid, raw);
    hide Recordable;
    hide Listens;
    hide RequestTypeOf;
    var reqType := RequestTypeOf(st.rows, n, id, uuid);
    if reqType.Some? {
      forall name
        ensures Listens(history, name, reqType.value)
                <==> name in Registered(history)
                     && configOf(name).Some? && reqType.value in configOf(name).value.allResponses
      {
        ListensExact(history, configOf, name, reqType.value);
      }
    }
  }
}
