/**
 The worker: one pass sends the delayed steps that are due, tells workflows about
 steps that timed out, and pushes enrollments that have been silent.
 */
module Worker {
  import opened Wrappers
  import opened Records
  import opened Tracker
  import opened Invariant
  import opened Runs
  import opened Delivery
  import opened Registry
  import opened KVPasses
  import opened KVStore
  import opened Convert
  import opened Engine
  import opened Routing

  /* ---- Delayed steps ---- */

  ghost function AllMessages(steps: seq<StepEnqueueing>): seq<Message> {
    if steps == [] then []
    else
      var step := steps[|steps| - 1];
      AllMessages(steps[..|steps| - 1]) + Messages(step.ids, step.commands)
  }

  lemma AllMessagesNext(steps: seq<StepEnqueueing>, n: nat)
    requires n < |steps|
    ensures AllMessages(steps[..n + 1]) == AllMessages(steps[..n]) + Messages(steps[n].ids, steps[n].commands)
  {
    assert steps[..n + 1][..n] == steps[..n];
  }

  lemma {:induction false} TakenConcat(a: seq<Message>, oksA: seq<bool>, b: seq<Message>, oksB: seq<bool>)
    requires |oksA| == |a| && |oksB| == |b|
    ensures Taken(a + b, oksA + oksB) == Taken(a, oksA) + Taken(b, oksB)
  {
    if b == [] {
      assert a + b == a && oksA + oksB == oksA;
    } else {
      var last := |b| - 1;
      assert a + b == (a + b[..last]) + [b[last]] && oksA + oksB == (oksA + oksB[..last]) + [oksB[last]];
      TakenNext(a + b[..last], oksA + oksB[..last], b[last], oksB[last]);
      TakenConcat(a, oksA, b[..last], oksB[..last]);
    }
  }

  // A server that refuses nothing takes everything.
  lemma {:induction false} AllTaken(messages: seq<Message>, oks: seq<bool>)
    requires |oks| == |messages| && forall ok :: ok in oks ==> ok
    ensures Taken(messages, oks) == messages
  {
    if messages != [] {
      var last := |messages| - 1;
      assert oks[last] in oks && forall ok :: ok in oks[..last] ==> ok in oks;
      AllTaken(messages[..last], oks[..last]);
    }
  }

  // A command that the server refuses is not tried again, and the next one is.
  method SendSteps(server: Server, steps: seq<StepEnqueueing>) returns (ghost oks: seq<bool>)
    modifies server`asked, server`answers, server`sent
    ensures |oks| == |AllMessages(steps)|
    ensures server.asked == old(server.asked) + AllMessages(steps) && server.answers == old(server.answers) + oks
    ensures server.sent == old(server.sent) + Taken(AllMessages(steps), oks)
  {
    oks := [];
    hide Messages;
    hide AllMessages;
    hide Taken;
    NoneTaken();
    NoMessages();
    for n := 0 to |steps|
      invariant |oks| == |AllMessages(steps[..n])|
      invariant server.asked == old(server.asked) + AllMessages(steps[..n])
      invariant server.answers == old(server.answers) + oks
      invariant server.sent == old(server.sent) + Taken(AllMessages(steps[..n]), oks)
    {
      ghost var more := SendStep(server, steps[n]);
      AllMessagesNext(steps, n);
      TakenConcat(AllMessages(steps[..n]), oks, Messages(steps[n].ids, steps[n].commands), more);
      oks := oks + more;
    }
    assert steps[..|steps|] == steps;
  }

  lemma NoMessages()
    ensures AllMessages([]) == []
  {
  }

  method SendStep(server: Server, step: StepEnqueueing) returns (ghost oks: seq<bool>)
    modifies server`asked, server`answers, server`sent
    ensures |oks| == |Messages(step.ids, step.commands)|
    ensures server.asked == old(server.asked) + Messages(step.ids, step.commands)
    ensures server.answers == old(server.answers) + oks
    ensures server.sent == old(server.sent) + Taken(Messages(step.ids, step.commands), oks)
  {
    oks := [];
    for j := 0 to |step.commands|
      invariant |oks| == j
      invariant server.asked == old(server.asked) + Messages(step.ids, step.commands[..j])
      invariant server.answers == old(server.answers) + oks
      invariant server.sent == old(server.sent) + Taken(Messages(step.ids, step.commands[..j]), oks)
    {
      var ok := server.Enqueue(step.ids, step.commands[j].command);
      MessagesNext(step.ids, step.commands, j);
      TakenNext(Messages(step.ids, step.commands[..j]), oks, (step.ids, step.commands[j].command), ok);
      oks := oks + [ok];
    }
    assert step.commands[..|step.commands|] == step.commands;
  }

  // The messages of the released steps, as they were stored.
  ghost function DueMessages(st: State, due: seq<string>): seq<Message>
    requires forall s :: s in due ==> s in st.origin
  {
    if due == [] then []
    else
      var s := due[|due| - 1];
      DueMessages(st, due[..|due| - 1]) + Messages(st.origin[s].ids, st.origin[s].commands)
  }

  lemma {:induction false} ReleasedMessages(st: State, due: seq<string>, ret: seq<StepEnqueueing>)
    requires Inv(st) && (forall s :: s in due ==> Delayed(st, s) && s in st.origin) && AreReleased(st, due, ret)
    ensures AllMessages(ret) == DueMessages(st, due)
  {
    if due != [] {
      var s := due[|due| - 1];
      var rest := due[..|due| - 1];
      assert s in due && AreReleased(st, rest, ret[..|ret| - 1]);
      ReleasedMessages(st, rest, ret[..|ret| - 1]);
      ReleasedIsOriginal(st, s);
      assert ret[|ret| - 1] == Delivery.Released(st, s);
      hide Inv;
    }
  }

  lemma DueInOrigin(st: State, due: seq<string>)
    requires Inv(st) && forall s :: s in due ==> Delayed(st, s)
    ensures forall s :: s in due ==> s in st.origin
  {
    forall s | s in due {
      LiveStep(st, s);
    }
  }

  class WorkerLoop {
    const storage: KV
    const server: Server
    const registry: Registry
    const parse: Parser
    const contextsOf: string -> Contexts
    const repushAfter: Time

    constructor (storage: KV, server: Server, registry: Registry, parse: Parser, contextsOf: string -> Contexts,
                 repushAfter: Time)
      ensures this.storage == storage && this.server == server && this.registry == registry
      ensures this.parse == parse && this.contextsOf == contextsOf && this.repushAfter == repushAfter
    {
      this.storage, this.server, this.registry := storage, server, registry;
      this.parse, this.contextsOf, this.repushAfter := parse, contextsOf, repushAfter;
    }

    // Offers the commands of every step that is due, as they were stored; what
    // the server refuses is lost.
    method ProcessEnqueuings(now: Time) returns (ghost due: seq<string>, ghost oks: seq<bool>)
      requires storage.Valid()
      modifies storage, server`asked, server`answers, server`sent
      ensures storage.Valid() && storage.st == Release(old(storage.st), now, now)
      ensures Distinct(due) && forall s :: s in due <==> Due(old(storage.st), s, now)
      ensures forall s :: s in due ==> s in old(storage.st).origin
      ensures |oks| == |DueMessages(old(storage.st), due)|
      ensures server.asked == old(server.asked) + DueMessages(old(storage.st), due)
      ensures server.answers == old(server.answers) + oks
      ensures server.sent == old(server.sent) + Taken(DueMessages(old(storage.st), due), oks)
    {
      assert Inv(storage.st);
      hide KV.Valid;
      hide Inv;
      hide Release;
      ghost var st := storage.st;
      var steps;
      steps, due := storage.RetrieveStepsToEnqueue(now, now);
      DueInOrigin(st, due);
      ReleasedMessages(st, due, steps.value);
      oks := SendSteps(server, steps.value);
    }

    // Hands each timed-out step to its workflow, if that is registered and the
    // step's context and reports read.
    method ProcessTimeouts(now: Time) returns (handed: seq<HandOver>, ghost pairs: seq<(string, string)>)
      requires storage.Valid()
      modifies storage
      ensures storage.Valid() && storage.st == TimeOut(old(storage.st), now)
      ensures Distinct(pairs)
      ensures forall p :: p in pairs <==> Expired(old(storage.st), p.0, now) && Live(old(storage.st), p.0, p.1)
      ensures AreTimeouts(old(storage.st), registry.workflows, parse, contextsOf, pairs, handed)
    {
      hide KV.Valid;
      hide TimeOut;
      hide Expired;
      hide Live;
      hide TimedOutResult;
      hide WorkflowForm;
      hide AreTimeouts;
      hide MayHand;
      ghost var st := storage.st;
      var steps;
      steps, pairs := storage.RetrieveTimedOutSteps(now);
      handed := [];
      NoTimeouts(st, registry.workflows, parse, contextsOf);
      var results := steps.value;
      for n := 0 to |results|
        invariant storage.Valid() && storage.st == TimeOut(st, now)
        invariant AreTimeouts(st, registry.workflows, parse, contextsOf, pairs[..n], handed)
      {
        var step := results[n];
        var name := step.ctx.workflowName;
        TimeoutsNext(st, registry.workflows, parse, contextsOf, pairs, n, handed);
        FormExact(registry.workflows, parse, contextsOf, step);
        if |step.ids| == 1 && name in registry.workflows {
          var form := ToWorkflow(parse, contextsOf(name), step, true, "", None);
          if form.Ok? {
            handed := handed + [HandOver(name, form.value)];
          }
        }
      }
      assert pairs[..|results|] == pairs;
    }

    // Pushes the enrollments whose commands were last pushed long enough ago, in
    // one push, if there are any.
    method ProcessRePushes(now: Time) returns (ok: bool, ghost whom: seq<string>)
      requires storage.Valid()
      modifies storage, server`pushAsked, server`pushAnswers, server`pushed
      ensures storage.Valid() && storage.st == RePush(old(storage.st), now - repushAfter, now)
      ensures forall i :: i in whom <==> i in PushedIDs(old(storage.st), now - repushAfter)
      ensures server.pushAsked == old(server.pushAsked) + Asking(whom)
      ensures server.pushAnswers == old(server.pushAnswers) + if whom == [] then [] else [ok]
      ensures server.pushed == old(server.pushed) + if ok then Asking(whom) else []
      ensures whom == [] ==> ok
    {
      hide KV.Valid;
      hide RePush;
      hide PushedIDs;
      var found := storage.RetrieveAndMarkRePushed(now - repushAfter, now);
      var ids := found.value;
      whom := ids;
      if |ids| < 1 {
        return true, whom;
      }
      ok := server.Push(ids);
    }

    // One pass: what is due is sent, then what has expired is handed over, then
    // the silent are pushed.
    method RunOnce(now: Time)
      returns (ok: bool, handed: seq<HandOver>, ghost due: seq<string>, ghost oks: seq<bool>,
               ghost pairs: seq<(string, string)>, ghost whom: seq<string>)
      requires storage.Valid()
      modifies storage, server
      ensures storage.Valid()
      ensures storage.st == AfterPass(old(storage.st), now, repushAfter)
      ensures Distinct(due) && forall s :: s in due <==> Due(old(storage.st), s, now)
      ensures forall s :: s in due ==> s in old(storage.st).origin
      ensures |oks| == |DueMessages(old(storage.st), due)|
      ensures server.asked == old(server.asked) + DueMessages(old(storage.st), due)
      ensures server.answers == old(server.answers) + oks
      ensures server.sent == old(server.sent) + Taken(DueMessages(old(storage.st), due), oks)
      ensures var st := Release(old(storage.st), now, now);
              && Distinct(pairs) && (forall p :: p in pairs <==> Expired(st, p.0, now) && Live(st, p.0, p.1))
              && AreTimeouts(st, registry.workflows, parse, contextsOf, pairs, handed)
      ensures var st := TimeOut(Release(old(storage.st), now, now), now);
              forall i :: i in whom <==> repushAfter > 0 && i in PushedIDs(st, now - repushAfter)
      ensures server.pushAsked == old(server.pushAsked) + Asking(whom)
      ensures server.pushAnswers == old(server.pushAnswers) + if whom == [] then [] else [ok]
      ensures server.pushed == old(server.pushed) + if ok then Asking(whom) else []
      ensures whom == [] ==> ok
    {
      hide KV.Valid;
      hide Release;
      hide TimeOut;
      hide RePush;
      hide Due;
      hide Expired;
      hide Live;
      hide AreTimeouts;
      hide DueMessages;
      hide Taken;
      hide PushedIDs;
      due, oks := ProcessEnqueuings(now);
      handed, pairs := ProcessTimeouts(now);
      ok, whom := true, [];
      if repushAfter > 0 {
        ok, whom := ProcessRePushes(now);
      }
    }
  }

  // One push for all of them, or none for nobody.
  ghost function Asking(whom: seq<string>): seq<seq<string>> {
    if whom == [] then [] else [whom]
  }

  ghost function AfterPass(st: State, now: Time, repushAfter: Time): State {
    var left := TimeOut(Release(st, now, now), now);
    if repushAfter > 0 then RePush(left, now - repushAfter, now) else left
  }

  // The step can be handed over: its workflow is registered, its context reads
  // where the workflow has one, and so does every report that is not empty.
  ghost predicate MayHand(workflows: map<string, Option<Config>>, parse: Parser, contextsOf: string -> Contexts,
                          step: StepResult) {
    && |step.ids| == 1 && step.ctx.workflowName in workflows
    && ReadableFor(contextsOf(step.ctx.workflowName), step.ctx)
    && ReportsRead(parse, step.commands, "")
  }

  // What it is handed over as: its instance ID, name and context, the enrollment,
  // and the reports that are not empty, decoded, in the order of its commands.
  ghost predicate IsHandOver(parse: Parser, contextsOf: string -> Contexts, step: StepResult, h: HandOver) {
    && h.workflow == step.ctx.workflowName
    && h.result.instanceID == step.ctx.instanceID && h.result.name == step.ctx.name && step.ids == [h.result.id]
    && h.result.context == (if contextsOf(h.workflow).has(step.ctx.name) then Some(step.ctx.context) else None)
    && AreShown(parse, step.commands, "", None, h.result.results)
  }

  ghost function Handable(st: State, workflows: map<string, Option<Config>>, parse: Parser,
                          contextsOf: string -> Contexts, pairs: seq<(string, string)>): seq<(string, string)>
  {
    if pairs == [] then []
    else
      var p := pairs[|pairs| - 1];
      Handable(st, workflows, parse, contextsOf, pairs[..|pairs| - 1])
      + if Live(st, p.0, p.1) && MayHand(workflows, parse, contextsOf, TimedOutResult(st, p.0, p.1)) then [p] else []
  }

  // The hand-overs of the pairs, of all that can be handed over, in their order.
  ghost predicate AreTimeouts(st: State, workflows: map<string, Option<Config>>, parse: Parser,
                              contextsOf: string -> Contexts, pairs: seq<(string, string)>, handed: seq<HandOver>) {
    var able := Handable(st, workflows, parse, contextsOf, pairs);
    && |handed| == |able|
    && forall k :: 0 <= k < |able| ==>
         Live(st, able[k].0, able[k].1)
         && IsHandOver(parse, contextsOf, TimedOutResult(st, able[k].0, able[k].1), handed[k])
  }

  lemma NoTimeouts(st: State, workflows: map<string, Option<Config>>, parse: Parser, contextsOf: string -> Contexts)
    ensures AreTimeouts(st, workflows, parse, contextsOf, [], [])
  {
  }

  lemma TimeoutsNext(st: State, workflows: map<string, Option<Config>>, parse: Parser, contextsOf: string -> Contexts,
                     pairs: seq<(string, string)>, n: nat, handed: seq<HandOver>)
    requires n < |pairs| && AreTimeouts(st, workflows, parse, contextsOf, pairs[..n], handed)
    requires Live(st, pairs[n].0, pairs[n].1)
    ensures !MayHand(workflows, parse, contextsOf, TimedOutResult(st, pairs[n].0, pairs[n].1)) ==>
              AreTimeouts(st, workflows, parse, contextsOf, pairs[..n + 1], handed)
    ensures MayHand(workflows, parse, contextsOf, TimedOutResult(st, pairs[n].0, pairs[n].1)) ==>
              forall h :: IsHandOver(parse, contextsOf, TimedOutResult(st, pairs[n].0, pairs[n].1), h) ==>
                AreTimeouts(st, workflows, parse, contextsOf, pairs[..n + 1], handed + [h])
    ensures |TimedOutResult(st, pairs[n].0, pairs[n].1).ids| == 1
  {
    assert pairs[..n + 1][..n] == pairs[..n];
    hide Live;
    hide MayHand;
    hide IsHandOver;
  }

  // The conversion without regard to empty reports does exactly this.
  lemma FormExact(workflows: map<string, Option<Config>>, parse: Parser, contextsOf: string -> Contexts,
                  step: StepResult)
    requires |step.ids| == 1
    ensures var name := step.ctx.workflowName;
            var form := WorkflowForm(parse, contextsOf(name), step, true, "", None);
            && (MayHand(workflows, parse, contextsOf, step) <==> name in workflows && form.Ok?)
            && (form.Ok? ==> IsHandOver(parse, contextsOf, step, HandOver(name, form.value)))
  {
    ConvertedPresent(parse, step.commands, "", None);
    hide Converted;
    hide ReportsRead;
    hide AreShown;
  }

  /* ---- Timeouts over runs ---- */

  // A pair can be handed over exactly if its workflow is registered, its context
  // reads, and the last report of each of its commands that has one does; the
  // engine records only reports that do.
  lemma TimeoutHandedExact(ops: seq<Op>, workflows: map<string, Option<Config>>, parse: Parser,
                           contextsOf: string -> Contexts, s: string, i: string)
    requires Admissible(ops) && Live(Run(ops), s, i)
    ensures s in Run(ops).origin
    ensures var cfg := Run(ops).origin[s];
            var name := cfg.ctx.workflowName;
            && (MayHand(workflows, parse, contextsOf, TimedOutResult(Run(ops), s, i))
                <==> name in workflows && ReadableFor(contextsOf(name), cfg.ctx) && LastReportsRead(ops, parse, i, cfg))
            && (AllRead(ops, parse) ==> LastReportsRead(ops, parse, i, cfg))
  {
    hide Run;
    hide Admissible;
    hide AllRead;
    hide LastReport;
    hide Answered;
    hide Live;
    TimedOutExact(ops, s, i);
    var cfg := Run(ops).origin[s];
    KnownRead(ops, parse, i, cfg);
    if AllRead(ops, parse) {
      forall j | 0 <= j < |cfg.commands|
        ensures LastReportReads(ops, parse, i, cfg.commands[j])
      {
        LiveRow(ops, s, i, j);
        if LastReport(ops, CmdKey(i, cfg.commands[j].commandUUID)).Some? {
          ReportReads(ops, parse, CmdKey(i, cfg.commands[j].commandUUID));
        }
      }
    }
    hide ReportsRead;
    hide LastReportsRead;
    hide ReadableFor;
    hide AllKnown;
  }

  ghost predicate LastReportReads(ops: seq<Op>, parse: Parser, i: string, command: StepCommandRaw) {
    var last := LastReport(ops, CmdKey(i, command.commandUUID));
    command.commandUUID != "" && last.Some? && last.value != "" ==> parse(command.requestType, last.value).Some?
  }

  ghost predicate LastReportsRead(ops: seq<Op>, parse: Parser, i: string, cfg: StepEnqueuingWithConfig) {
    forall j :: 0 <= j < |cfg.commands| ==> LastReportReads(ops, parse, i, cfg.commands[j])
  }

  lemma KnownRead(ops: seq<Op>, parse: Parser, i: string, cfg: StepEnqueuingWithConfig)
    ensures ReportsRead(parse, AllKnown(ops, i, cfg.commands), "") <==> LastReportsRead(ops, parse, i, cfg)
  {
    var known := AllKnown(ops, i, cfg.commands);
    hide LastReport;
    hide Answered;
    if ReportsRead(parse, known, "") {
      forall j | 0 <= j < |cfg.commands|
        ensures LastReportReads(ops, parse, i, cfg.commands[j])
      {
        assert known[j] == Known(ops, i, cfg.commands[j]);
      }
    }
  }

  // The last report of a command, if it has one that is not empty.
  ghost predicate HasReport(ops: seq<Op>, i: string, command: StepCommandRaw) {
    var last := LastReport(ops, CmdKey(i, command.commandUUID));
    last.Some? && last.value != ""
  }

  // What a workflow hears of a step that timed out: of all commands that have a
  // report the last one, decoded, in the order in which it enqueued them. Commands
  // have UUIDs, as the engine sees to.
  lemma TimeoutReturnExact(ops: seq<Op>, parse: Parser, contextsOf: string -> Contexts, s: string, i: string,
                           h: HandOver)
    requires Admissible(ops) && Live(Run(ops), s, i)
    requires s in Run(ops).origin ==> forall c :: c in Run(ops).origin[s].commands ==> c.commandUUID != ""
    requires IsHandOver(parse, contextsOf, TimedOutResult(Run(ops), s, i), h)
    ensures s in Run(ops).origin
    ensures var cfg := Run(ops).origin[s];
            && h.workflow == cfg.ctx.workflowName && h.result.instanceID == cfg.ctx.instanceID
            && h.result.name == cfg.ctx.name && h.result.id == i
            && h.result.context == (if contextsOf(h.workflow).has(cfg.ctx.name) then Some(cfg.ctx.context) else None)
            && |h.result.results| == Reporting(ops, i, cfg.commands)
            && forall j :: 0 <= j < |cfg.commands| && HasReport(ops, i, cfg.commands[j]) ==>
                 ReportedAs(ops, parse, i, cfg.commands, h.result.results, j)
  {
    hide Run;
    hide Admissible;
    hide LastReport;
    hide Answered;
    hide Live;
    TimedOutExact(ops, s, i);
    var commands := Run(ops).origin[s].commands;
    var known := AllKnown(ops, i, commands);
    ShownReporting(ops, i, commands);
    forall j | 0 <= j < |commands| && HasReport(ops, i, commands[j])
      ensures ReportedAs(ops, parse, i, commands, h.result.results, j)
    {
      assert known[j] == Known(ops, i, commands[j]) && known[..j] == AllKnown(ops, i, commands[..j]);
      assert commands[j] in commands;
      ShownReporting(ops, i, commands[..j]);
      assert ShownAs(parse, known, "", None, h.result.results, j);
    }
  }

  // How many of the commands have a report.
  ghost function Reporting(ops: seq<Op>, i: string, commands: seq<StepCommandRaw>): nat {
    if commands == [] then 0
    else
      Reporting(ops, i, commands[..|commands| - 1]) + if HasReport(ops, i, commands[|commands| - 1]) then 1 else 0
  }

  ghost predicate ReportedAs(ops: seq<Op>, parse: Parser, i: string, commands: seq<StepCommandRaw>,
                             results: seq<Option<MDMResponse>>, j: nat)
    requires j < |commands| && HasReport(ops, i, commands[j])
  {
    && Reporting(ops, i, commands[..j]) < |results|
    && results[Reporting(ops, i, commands[..j])]
       == parse(commands[j].requestType, LastReport(ops, CmdKey(i, commands[j].commandUUID)).value)
  }

  lemma {:induction false} ShownReporting(ops: seq<Op>, i: string, commands: seq<StepCommandRaw>)
    requires forall c :: c in commands ==> c.commandUUID != ""
    ensures Shown(AllKnown(ops, i, commands), "") == Reporting(ops, i, commands)
  {
    if commands != [] {
      var rest := commands[..|commands| - 1];
      assert commands[|commands| - 1] in commands && forall c :: c in rest ==> c in commands;
      ShownReporting(ops, i, rest);
      assert AllKnown(ops, i, commands)[..|rest|] == AllKnown(ops, i, rest);
      hide LastReport;
      hide Answered;
    }
  }

  /* ---- Nothing blocks for ever ---- */

  // A step stored through the engine, where the engine, the workflow as it was
  // configured then, or the step gives a timeout.
  ghost predicate StoredTimed(op: Op, engineDefault: Time) {
    op.StoreOp? && op.cfg.Some? ==>
      exists workflows, name, se, now: Time ::
        && now > 0
        && IsStorageStep(name, StepDefaultTimeout(engineDefault, workflows, name, now), se, op.cfg.value)
        && GivesTimeout(engineDefault, workflows, name, se)
  }

  ghost predicate GivesTimeout(engineDefault: Time, workflows: map<string, Option<Config>>, name: string,
                               se: WorkflowStep) {
    engineDefault > 0 || se.timeout != 0
    || (name in workflows && workflows[name].Some? && workflows[name].value.timeout > 0)
  }

  lemma {:induction false} AllTimed(ops: seq<Op>, engineDefault: Time)
    requires forall n :: 0 <= n < |ops| ==> StoredTimed(ops[n], engineDefault)
    ensures forall s :: s in Run(ops).origin ==> Run(ops).origin[s].timeout != 0
  {
    if ops != [] {
      var past := ops[..|ops| - 1];
      var op := ops[|ops| - 1];
      forall n | 0 <= n < |past|
        ensures StoredTimed(past[n], engineDefault)
      {
        assert past[n] == ops[n];
      }
      AllTimed(past, engineDefault);
      if op.StoreOp? && op.cfg.Some? {
        assert StoredTimed(ops[|ops| - 1], engineDefault);
        var workflows, name, se, now: Time :|
          && now > 0
          && IsStorageStep(name, StepDefaultTimeout(engineDefault, workflows, name, now), se, op.cfg.value)
          && GivesTimeout(engineDefault, workflows, name, se);
        TimeoutExact(engineDefault, workflows, name, now, se, op.cfg.value);
      }
    }
  }

  // If every step had a timeout from somewhere when it was stored, a workflow is
  // outstanding after a pass exactly for those whose timeout is still to come, and
  // from some instant on passes leave none outstanding.
  lemma NeverBlocked(ops: seq<Op>, engineDefault: Time, now: Time, workflowName: string, id: string)
    requires Admissible(ops) && forall n :: 0 <= n < |ops| ==> StoredTimed(ops[n], engineDefault)
    ensures Outstanding(Run(ops + [TimeOutOp(now)]), workflowName, id)
            <==> exists s :: Live(Run(ops), s, id) && Run(ops).steps[s].ctx.workflowName == workflowName
                             && Run(ops).steps[s].timeout > now
    ensures exists t: Time :: UnblockedFrom(Run(ops), t, workflowName, id)
  {
    hide Inv;
    hide Live;
    hide TimeOut;
    hide Outstanding;
    hide UnblockedFrom;
    hide Admissible;
    hide StoredTimed;
    RunKeepsInv(ops);
    AllTimed(ops, engineDefault);
    TimedOutRun(ops, now);
    hide Run;
    TimedUnblocks(Run(ops), now, workflowName, id);
  }

  lemma TimedOutRun(ops: seq<Op>, now: Time)
    ensures Run(ops + [TimeOutOp(now)]) == TimeOut(Run(ops), now)
  {
    assert (ops + [TimeOutOp(now)])[..|ops|] == ops;
    hide TimeOut;
  }

  lemma TimedUnblocks(st: State, now: Time, workflowName: string, id: string)
    requires Inv(st) && forall s :: s in st.origin ==> st.origin[s].timeout != 0
    ensures Outstanding(TimeOut(st, now), workflowName, id)
            <==> exists s :: Live(st, s, id) && st.steps[s].ctx.workflowName == workflowName
                             && st.steps[s].timeout > now
    ensures exists t: Time :: UnblockedFrom(st, t, workflowName, id)
  {
    hide Inv;
    hide Live;
    hide TimeOut;
    hide Outstanding;
    hide UnblockedFrom;
    LiveAreTimed(st, id);
    TimeOutUnblocksExact(st, now, workflowName, id);
    UnblockedForGoodExact(st, workflowName, id);
  }

  lemma LiveAreTimed(st: State, id: string)
    requires Inv(st) && forall s :: s in st.origin ==> st.origin[s].timeout != 0
    ensures forall s :: Live(st, s, id) ==> s in st.steps && st.steps[s].timeout != 0
  {
    forall s | Live(st, s, id)
      ensures st.steps[s].timeout != 0
    {
      LiveStep(st, s);
    }
    hide Inv;
  }
}
