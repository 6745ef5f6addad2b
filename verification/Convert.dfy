/**
 From raw responses to storage results, and from storage results to what a
 workflow receives.
 */
module Convert {
  import opened Wrappers
  import opened Text
  import opened Records

  // A response as its report reads: the command it answers, its status, the rest.
  datatype MDMResponse = MDMResponse(commandUUID: string, status: string, body: Bytes)

  // How the reports of a request type read; None if one does not.
  type Parser = (string, Bytes) -> Option<MDMResponse>

  // What a workflow's contexts are: for which of its steps it has one, and
  // whether it can read the given bytes.
  datatype Contexts = Contexts(has: string -> bool, readable: (string, Bytes) -> bool)

  datatype ConvertError = UnreadableResponse | EmptyResultReport | IncorrectIDCount | UnreadableContext

  predicate Final(status: string) {
    status != "" && status != "NotNow"
  }

  function StorageResponse(parse: Parser, reqType: string, raw: Bytes): Result<(StepCommandResult, MDMResponse),
                           ConvertError> {
    match parse(reqType, raw)
    case None => Err(UnreadableResponse)
    case Some(response) =>
      if |raw| < 1 then Err(EmptyResultReport)
      else Ok((StepCommandResult(response.commandUUID, reqType, raw, Final(response.status)), response))
  }

  // A result for a workflow. Its context is absent where the workflow has none,
  // and empty where the step was stored without.
  datatype WorkflowResult = WorkflowResult(
    instanceID: string, name: string, context: Option<Bytes>, id: string, results: seq<Option<MDMResponse>>)

  // The workflow's form of the first results.
  ghost function Converted(parse: Parser, commands: seq<StepCommandResult>, ignoreEmpty: bool, uuid: string,
                           response: Option<MDMResponse>)
    : Result<seq<Option<MDMResponse>>, ConvertError>
  {
    if commands == [] then Ok([])
    else
      var before :- Converted(parse, commands[..|commands| - 1], ignoreEmpty, uuid, response);
      var cmd := commands[|commands| - 1];
      if cmd.commandUUID == uuid then Ok(before + [response])
      else if ignoreEmpty && |cmd.resultReport| < 1 then Ok(before)
      else
        match parse(cmd.requestType, cmd.resultReport)
        case None => Err(UnreadableResponse)
        case Some(parsed) => Ok(before + [Some(parsed)])
  }

  ghost function WorkflowForm(parse: Parser, contexts: Contexts, ss: StepResult, ignoreEmpty: bool, uuid: string,
                              response: Option<MDMResponse>)
    : Result<WorkflowResult, ConvertError>
  {
    if |ss.ids| != 1 then Err(IncorrectIDCount)
    else if contexts.has(ss.ctx.name) && |ss.ctx.context| > 0 && !contexts.readable(ss.ctx.name, ss.ctx.context)
      then Err(UnreadableContext)
    else
      var results :- Converted(parse, ss.commands, ignoreEmpty, uuid, response);
      var context := if contexts.has(ss.ctx.name) then Some(ss.ctx.context) else None;
      Ok(WorkflowResult(ss.ctx.instanceID, ss.ctx.name, context, ss.ids[0], results))
  }

  lemma {:induction false} ConvertedFails(parse: Parser, commands: seq<StepCommandResult>, j: nat, ignoreEmpty: bool,
                                          uuid: string,
                                          response: Option<MDMResponse>)
    requires j <= |commands| && Converted(parse, commands[..j], ignoreEmpty, uuid, response).Err?
    ensures Converted(parse, commands, ignoreEmpty, uuid, response)
            == Converted(parse, commands[..j], ignoreEmpty, uuid, response)
  {
    if j < |commands| {
      assert commands[..|commands| - 1][..j] == commands[..j];
      ConvertedFails(parse, commands[..|commands| - 1], j, ignoreEmpty, uuid, response);
    } else {
      assert commands[..j] == commands;
    }
  }

  // Hands over the response that has been read already under its UUID, and
  // reads the others.
  method ToWorkflow(parse: Parser, contexts: Contexts, ss: StepResult, ignoreEmptyResp: bool, uuid: string,
                    spResp: Option<MDMResponse>)
    returns (r: Result<WorkflowResult, ConvertError>)
    ensures r == WorkflowForm(parse, contexts, ss, ignoreEmptyResp, uuid, spResp)
  {
    if |ss.ids| != 1 {
      return Err(IncorrectIDCount);
    }
    var context: Option<Bytes> := None;
    if contexts.has(ss.ctx.name) {
      if |ss.ctx.context| > 0 && !contexts.readable(ss.ctx.name, ss.ctx.context) {
        return Err(UnreadableContext);
      }
      context := Some(ss.ctx.context);
    }
    var converted := ConvertAll(parse, ss.commands, ignoreEmptyResp, uuid, spResp);
    match converted
    case Err(e) => r := Err(e);
    case Ok(results) =>
      r := Ok(WorkflowResult(ss.ctx.instanceID, ss.ctx.name, context, ss.ids[0], results));
  }

  method ConvertAll(parse: Parser, commands: seq<StepCommandResult>, ignoreEmptyResp: bool, uuid: string,
                    spResp: Option<MDMResponse>)
    returns (r: Result<seq<Option<MDMResponse>>, ConvertError>)
    ensures r == Converted(parse, commands, ignoreEmptyResp, uuid, spResp)
  {
    var results: seq<Option<MDMResponse>> := [];
    for j := 0 to |commands|
      invariant Converted(parse, commands[..j], ignoreEmptyResp, uuid, spResp) == Ok(results)
    {
      var cmd := commands[j];
      ConvertedNext(parse, commands, j, ignoreEmptyResp, uuid, spResp);
      hide Converted;
      if cmd.commandUUID == uuid {
        results := results + [spResp];
      } else if ignoreEmptyResp && |cmd.resultReport| < 1 {
      } else {
        match parse(cmd.requestType, cmd.resultReport)
        case None =>
          ConvertedFails(parse, commands, j + 1, ignoreEmptyResp, uuid, spResp);
          return Err(UnreadableResponse);
        case Some(parsed) => results := results + [Some(parsed)];
      }
    }
    assert commands[..|commands|] == commands;
    r := Ok(results);
  }

  lemma ConvertedNext(parse: Parser, commands: seq<StepCommandResult>, j: nat, ignoreEmpty: bool, uuid: string,
                      response: Option<MDMResponse>)
    requires j < |commands| && Converted(parse, commands[..j], ignoreEmpty, uuid, response).Ok?
    ensures var before := Converted(parse, commands[..j], ignoreEmpty, uuid, response).value;
            var cmd := commands[j];
            Converted(parse, commands[..j + 1], ignoreEmpty, uuid, response)
            == if cmd.commandUUID == uuid then Ok(before + [response])
               else if ignoreEmpty && |cmd.resultReport| < 1 then Ok(before)
               else
                 match parse(cmd.requestType, cmd.resultReport)
                 case None => Err(UnreadableResponse)
                 case Some(parsed) => Ok(before + [Some(parsed)])
  {
    assert commands[..j + 1][..j] == commands[..j];
  }

  // With no empty reports to skip, one result comes out per command, in order.
  lemma {:induction false} ConvertedEach(parse: Parser, commands: seq<StepCommandResult>, uuid: string,
                                         response: Option<MDMResponse>)
    requires forall j :: 0 <= j < |commands| && commands[j].commandUUID != uuid ==>
               parse(commands[j].requestType, commands[j].resultReport).Some?
    ensures var r := Converted(parse, commands, false, uuid, response);
            && r.Ok? && |r.value| == |commands|
            && forall j :: 0 <= j < |commands| ==>
                 r.value[j] == if commands[j].commandUUID == uuid then response
                               else parse(commands[j].requestType, commands[j].resultReport)
  {
    if commands != [] {
      var rest := commands[..|commands| - 1];
      forall j | 0 <= j < |rest| && rest[j].commandUUID != uuid
        ensures parse(rest[j].requestType, rest[j].resultReport).Some?
      {
        assert rest[j] == commands[j];
      }
      ConvertedEach(parse, rest, uuid, response);
    }
  }

  // Whether a command leaves a result: it is the one whose response is at hand,
  // or it has a report.
  ghost predicate Shows(c: StepCommandResult, uuid: string) {
    c.commandUUID == uuid || c.resultReport != ""
  }

  ghost function Shown(commands: seq<StepCommandResult>, uuid: string): nat {
    if commands == [] then 0
    else Shown(commands[..|commands| - 1], uuid) + if Shows(commands[|commands| - 1], uuid) then 1 else 0
  }

  // One result for each command that leaves one, in their order.
  ghost predicate AreShown(parse: Parser, commands: seq<StepCommandResult>, uuid: string, response: Option<MDMResponse>,
                           results: seq<Option<MDMResponse>>) {
    && |results| == Shown(commands, uuid)
    && forall j :: 0 <= j < |commands| && Shows(commands[j], uuid) ==>
         ShownAs(parse, commands, uuid, response, results, j)
  }

  ghost predicate ShownAs(parse: Parser, commands: seq<StepCommandResult>, uuid: string, response: Option<MDMResponse>,
                          results: seq<Option<MDMResponse>>, j: nat)
    requires j < |commands|
  {
    && Shown(commands[..j], uuid) < |results|
    && results[Shown(commands[..j], uuid)]
       == if commands[j].commandUUID == uuid then response else parse(commands[j].requestType, commands[j].resultReport)
  }

  ghost predicate ReportsRead(parse: Parser, commands: seq<StepCommandResult>, uuid: string) {
    forall j :: 0 <= j < |commands| && commands[j].commandUUID != uuid && commands[j].resultReport != "" ==>
      parse(commands[j].requestType, commands[j].resultReport).Some?
  }

  // Where empty reports are skipped, the others are read one by one; it fails
  // exactly if one of them does not read.
  lemma {:induction false} ConvertedPresent(parse: Parser, commands: seq<StepCommandResult>, uuid: string,
                                            response: Option<MDMResponse>)
    ensures var r := Converted(parse, commands, true, uuid, response);
            && (r.Ok? <==> ReportsRead(parse, commands, uuid))
            && (r.Ok? ==> AreShown(parse, commands, uuid, response, r.value))
  {
    if commands != [] {
      var rest := commands[..|commands| - 1];
      ConvertedPresent(parse, rest, uuid, response);
      ReportsReadNext(parse, commands, uuid);
      var before := Converted(parse, rest, true, uuid, response);
      var r := Converted(parse, commands, true, uuid, response);
      if r.Ok? {
        assert before.Ok? && before.value <= r.value;
        hide Converted;
        forall j | 0 <= j < |commands| && Shows(commands[j], uuid)
          ensures ShownAs(parse, commands, uuid, response, r.value, j)
        {
          assert commands[..j] == rest[..j];
          if j < |rest| {
            assert rest[j] == commands[j] && ShownAs(parse, rest, uuid, response, before.value, j);
          }
        }
      }
    }
  }

  lemma ReportsReadNext(parse: Parser, commands: seq<StepCommandResult>, uuid: string)
    requires commands != []
    ensures var c := commands[|commands| - 1];
            ReportsRead(parse, commands, uuid)
            <==> ReportsRead(parse, commands[..|commands| - 1], uuid)
                 && (c.commandUUID != uuid && c.resultReport != "" ==> parse(c.requestType, c.resultReport).Some?)
  {
    var rest := commands[..|commands| - 1];
    assert forall j :: 0 <= j < |rest| ==> rest[j] == commands[j];
    if ReportsRead(parse, commands, uuid) {
      forall j | 0 <= j < |rest| && rest[j].commandUUID != uuid && rest[j].resultReport != ""
        ensures parse(rest[j].requestType, rest[j].resultReport).Some?
      {
        assert rest[j] == commands[j];
      }
    }
  }
}
