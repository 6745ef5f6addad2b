/**
 The engine's rules on top of storage: which enrollments a workflow starts on,
 what timeout a step gets, what is sent at once, and what a check-in clears.
 */
module Engine {
  import opened Wrappers
  import opened Text
  import opened Records
  import opened Tracker
  import opened Invariant
  import opened Delivery
  import opened Registry
  import Buckets
  import opened KVStore
  import opened KVStatus
  import opened KVEvents
  import opened Convert
  import opened Throttle

  datatype EngineError =
    | NoSuchWorkflow(name: string)
    | WorkflowAlreadyStarted
    | InvalidCommand
    | StoreFailed(reason: Buckets.Error)
    | EnqueueFailed(uuid: string)
    | ConvertFailed(error: ConvertError)
    | StartFailed

  /* ---- The difference of two lists ---- */

  function Count(seen: map<string, int>, x: string): int {
    if x in seen then seen[x] else 0
  }

  function Signed(n: int, up: bool): int {
    if up then n else -n
  }

  // Counts the items of the list up or down.
  method CountInto(seen: map<string, int>, a: seq<string>, up: bool) returns (seen': map<string, int>)
    ensures forall x :: Count(seen', x) == Count(seen, x) + Signed(multiset(a)[x], up)
    ensures seen.Keys <= seen'.Keys && forall x :: x in a ==> x in seen'
  {
    seen' := seen;
    for n := 0 to |a|
      invariant forall x :: Count(seen', x) == Count(seen, x) + Signed(multiset(a[..n])[x], up)
      invariant seen.Keys <= seen'.Keys && forall x :: x in a[..n] ==> x in seen'
    {
      assert a[..n + 1] == a[..n] + [a[n]];
      seen' := seen'[a[n] := Count(seen', a[n]) + if up then 1 else -1];
    }
    assert a[..|a|] == a;
  }

  // The items that occur unequally often in the two lists.
  method Diff(a: seq<string>, b: seq<string>) returns (r: seq<string>)
    ensures Distinct(r)
    ensures forall x :: x in r <==> multiset(a)[x] != multiset(b)[x]
  {
    var seen: map<string, int> := map[];
    seen := CountInto(seen, a, true);
    seen := CountInto(seen, b, false);
    var keys := Elements(seen.Keys);
    r := [];
    for n := 0 to |keys|
      invariant Distinct(r)
      invariant forall x :: x in r <==> x in keys[..n] && Count(seen, x) != 0
    {
      assert keys[n] in keys && keys[n] !in keys[..n] && keys[..n + 1] == keys[..n] + [keys[n]];
      if seen[keys[n]] != 0 {
        r := r + [keys[n]];
      }
    }
    assert keys[..|keys|] == keys;
  }

  // It is the set difference exactly when every item of b occurs in a as often.
  lemma DiffExact(a: seq<string>, b: seq<string>)
    ensures (forall x :: multiset(a)[x] != multiset(b)[x] <==> x in a && x !in b)
            <==> (forall x :: x in b ==> multiset(a)[x] == multiset(b)[x])
  {
    assert forall x :: x in a <==> multiset(a)[x] > 0;
    assert forall x :: x in b <==> multiset(b)[x] > 0;
  }

  // For distinct running IDs among the input this asks that none of them is
  // listed twice: one that is would be started again.
  lemma DiffOfRunningExact(ids: seq<string>, running: seq<string>)
    requires Distinct(running) && forall x :: x in running ==> x in ids
    ensures (forall x :: multiset(ids)[x] != multiset(running)[x] <==> x in ids && x !in running)
            <==> (forall x :: x in running ==> multiset(ids)[x] == 1)
  {
    DiffExact(ids, running);
    DistinctCounts(running);
  }

  /* ---- Timeouts ---- */

  function StepDefaultTimeout(engineDefault: Time, workflows: map<string, Option<Config>>, name: string,
                              now: Time): Time {
    var fromEngine := if engineDefault > 0 then now + engineDefault else 0;
    if name !in workflows || workflows[name].None? then fromEngine
    else if workflows[name].value.timeout > 0 then now + workflows[name].value.timeout
    else fromEngine
  }

  /* ---- From a workflow's step to storage ---- */

  // A command as a workflow builds it: what its generic part says, and its
  // plist form if it has one.
  datatype WorkflowCommand = WorkflowCommand(uuid: string, requestType: string, plist: Option<Bytes>)

  datatype WorkflowStep = WorkflowStep(
    instanceID: string, name: string, context: Bytes, ids: seq<string>, commands: seq<Option<WorkflowCommand>>,
    timeout: Time, notUntil: Time)

  function StorageCommand(cmd: Option<WorkflowCommand>): Result<StepCommandRaw, EngineError> {
    match cmd
    case None => Err(InvalidCommand)
    case Some(c) =>
      if c.uuid == "" || c.requestType == "" || c.plist.None? then Err(InvalidCommand)
      else Ok(StepCommandRaw(c.uuid, c.requestType, c.plist.value))
  }

  // What a workflow's command has to have.
  ghost predicate Malformed(cmd: Option<WorkflowCommand>) {
    cmd.None? || cmd.value.uuid == "" || cmd.value.requestType == "" || cmd.value.plist.None?
  }

  ghost predicate Carries(cmd: Option<WorkflowCommand>, raw: StepCommandRaw) {
    && !Malformed(cmd)
    && raw.commandUUID == cmd.value.uuid
    && raw.requestType == cmd.value.requestType
    && raw.command == cmd.value.plist.value
  }

  ghost predicate Converts(cmds: seq<Option<WorkflowCommand>>, commands: seq<StepCommandRaw>) {
    |commands| == |cmds| && forall j :: 0 <= j < |cmds| ==> Carries(cmds[j], commands[j])
  }

  method StorageStep(name: string, defaultTimeout: Time,
                     se: WorkflowStep) returns (r: Result<StepEnqueuingWithConfig, EngineError>)
    ensures r.Err? <==> exists j :: 0 <= j < |se.commands| && Malformed(se.commands[j])
    ensures r.Ok? ==> IsStorageStep(name, defaultTimeout, se, r.value)
  {
    var timeout := se.timeout;
    if timeout == 0 {
      timeout := defaultTimeout;
    }
    var commands: seq<StepCommandRaw> := [];
    for j := 0 to |se.commands|
      invariant Converts(se.commands[..j], commands)
    {
      match StorageCommand(se.commands[j])
      case Err(e) => return Err(e);
      case Ok(command) => commands := commands + [command];
    }
    assert se.commands[..|se.commands|] == se.commands;
    var ctx := StepContext(name, se.instanceID, se.name, se.context);
    r := Ok(StepEnqueuingWithConfig(ctx, se.ids, commands, se.notUntil, timeout));
  }

  // The storage form of a workflow's step.
  ghost predicate IsStorageStep(name: string, defaultTimeout: Time, se: WorkflowStep, ss: StepEnqueuingWithConfig) {
    && ss.ctx == StepContext(name, se.instanceID, se.name, se.context)
    && ss.ids == se.ids && ss.notUntil == se.notUntil
    && Converts(se.commands, ss.commands)
    && ss.timeout == if se.timeout == 0 then defaultTimeout else se.timeout
  }

  // A step has a timeout exactly when the step, its workflow or the engine
  // gives one; the step's own comes first, then the workflow's.
  lemma TimeoutExact(engineDefault: Time, workflows: map<string, Option<Config>>, name: string, now: Time,
                     se: WorkflowStep, ss: StepEnqueuingWithConfig)
    requires IsStorageStep(name, StepDefaultTimeout(engineDefault, workflows, name, now), se, ss) && now > 0
    ensures var own := if name in workflows && workflows[name].Some? then workflows[name].value.timeout else 0;
            && (ss.timeout != 0 <==> se.timeout != 0 || own > 0 || engineDefault > 0)
            && (se.timeout != 0 ==> ss.timeout == se.timeout)
            && (se.timeout == 0 && own > 0 ==> ss.timeout == now + own)
            && (se.timeout == 0 && own <= 0 && engineDefault > 0 ==> ss.timeout == now + engineDefault)
  {
  }

  // Raw commands are never empty if no plist is, which delayed steps rely on.
  lemma RawIsPresent(name: string, defaultTimeout: Time, se: WorkflowStep, ss: StepEnqueuingWithConfig)
    requires IsStorageStep(name, defaultTimeout, se, ss)
    requires forall j :: 0 <= j < |se.commands| && se.commands[j].Some? ==> se.commands[j].value.plist != Some("")
    ensures RawPresent(ss)
  {
  }

  /* ---- Sending ---- */

  type Message = (seq<string>, Bytes)

  // The MDM server as the engine sees it: what it was asked and what it answered,
  // and so what it has taken and pushed.
  class Server {
    var asked: seq<Message>
    var answers: seq<bool>
    var sent: seq<Message>
    var pushAsked: seq<seq<string>>
    var pushAnswers: seq<bool>
    var pushed: seq<seq<string>>

    method Enqueue(ids: seq<string>, raw: Bytes) returns (ok: bool)
      modifies this`asked, this`answers, this`sent
      ensures asked == old(asked) + [(ids, raw)] && answers == old(answers) + [ok]
      ensures sent == old(sent) + if ok then [(ids, raw)] else []
    {
      ok := *;
      asked, answers := asked + [(ids, raw)], answers + [ok];
      if ok {
        sent := sent + [(ids, raw)];
      }
    }

    method Push(ids: seq<string>) returns (ok: bool)
      modifies this`pushAsked, this`pushAnswers, this`pushed
      ensures pushAsked == old(pushAsked) + [ids] && pushAnswers == old(pushAnswers) + [ok]
      ensures pushed == old(pushed) + if ok then [ids] else []
    {
      ok := *;
      pushAsked, pushAnswers := pushAsked + [ids], pushAnswers + [ok];
      if ok {
        pushed := pushed + [ids];
      }
    }
  }

  ghost function Messages(ids: seq<string>, commands: seq<StepCommandRaw>): (messages: seq<Message>)
    ensures |messages| == |commands|
  {
    seq(|commands|, j requires 0 <= j < |commands| => (ids, commands[j].command))
  }

  lemma MessagesNext(ids: seq<string>, commands: seq<StepCommandRaw>, j: nat)
    requires j < |commands|
    ensures Messages(ids, commands[..j + 1]) == Messages(ids, commands[..j]) + [(ids, commands[j].command)]
    ensures Messages(ids, commands[..j + 1]) == Messages(ids, commands)[..j + 1]
  {
  }

  // The messages that the server took, when it answered as listed.
  ghost function Taken(messages: seq<Message>, oks: seq<bool>): seq<Message>
    requires |oks| == |messages|
  {
    if messages == [] then []
    else
      var last := |messages| - 1;
      Taken(messages[..last], oks[..last]) + if oks[last] then [messages[last]] else []
  }

  lemma TakenNext(messages: seq<Message>, oks: seq<bool>, message: Message, ok: bool)
    requires |oks| == |messages|
    ensures Taken(messages + [message], oks + [ok]) == Taken(messages, oks) + if ok then [message] else []
  {
    assert (messages + [message])[..|messages|] == messages && (oks + [ok])[..|oks|] == oks;
  }

  lemma NoneTaken()
    ensures Taken([], []) == []
  {
  }

  // What a store sends: all commands of an accepted step that is not delayed.
  ghost function SentAtOnce(st: State, cfg: Option<StepEnqueuingWithConfig>): seq<Message> {
    if Accepts(st, cfg) && cfg.value.notUntil == 0 then Messages(cfg.value.ids, cfg.value.commands) else []
  }

  ghost predicate EndsRefused(oks: seq<bool>) {
    oks != [] && !oks[|oks| - 1]
  }

  // The answers to n messages that are offered in turn until one is refused.
  ghost predicate UntilRefused(n: nat, oks: seq<bool>) {
    && |oks| <= n
    && (forall j :: 0 <= j < |oks| - 1 ==> oks[j])
    && (|oks| < n ==> EndsRefused(oks))
  }

  // How enqueueing a step ends: with the reason that it does not convert or is
  // not stored, with the command that was refused, or well.
  ghost predicate IsEnqueueError(st: State, stored: Option<StepEnqueuingWithConfig>, oks: seq<bool>,
                                 err: Option<EngineError>) {
    if stored.None? then err == Some(InvalidCommand)
    else if !Accepts(st, stored) then err.Some? && err.value.StoreFailed?
    else if EndsRefused(oks) && |oks| <= |stored.value.commands| then
      err == Some(EnqueueFailed(stored.value.commands[|oks| - 1].commandUUID))
    else err == None
  }

  lemma NothingStored(st: State, s: string, now: Time)
    ensures Store(st, s, None, now) == st && SentAtOnce(st, None) == [] && !Accepts(st, None)
  {
  }

  // Every command of the workflow's step is tracked for every enrollment, under
  // its own UUID and with its own request type.
  ghost predicate AllTracked(rows: Rows, n: nat, se: WorkflowStep) {
    forall i, c :: i in se.ids && c in se.commands ==>
      c.Some? && RequestTypeOf(rows, n, i, c.value.uuid) == Some(c.value.requestType)
  }

  // The first messages of the workflow's step, in order: its commands' plists,
  // for all its enrollments at once, none after a refused one.
  ghost predicate OffersOwn(se: WorkflowStep, oks: seq<bool>, offered: seq<Message>) {
    && |offered| == |oks| <= |se.commands|
    && (oks != [] ==> se.notUntil == 0)
    && (forall j :: 0 <= j < |oks| ==>
          se.commands[j].Some? && se.commands[j].value.plist.Some?
          && offered[j] == (se.ids, se.commands[j].value.plist.value))
    && forall j :: 0 <= j < |oks| - 1 ==> oks[j]
  }

  lemma StoredTracked(st: State, s: string, se: WorkflowStep, ss: StepEnqueuingWithConfig, now: Time, n: nat)
    requires Converts(se.commands, ss.commands) && ss.ids == se.ids
    requires Accepts(st, Some(ss)) && Storable(Some(ss), n)
    ensures AllTracked(Store(st, s, Some(ss), now).rows, n, se)
  {
    forall i, c | i in se.ids && c in se.commands
      ensures c.Some?
              && RequestTypeOf(Store(st, s, Some(ss), now).rows, n, i, c.value.uuid) == Some(c.value.requestType)
    {
      var j :| 0 <= j < |se.commands| && se.commands[j] == c;
      assert Carries(se.commands[j], ss.commands[j]);
      assert Uuids(ss.commands)[j] in Uuids(ss.commands);
      CommandOfDistinct(ss.commands, j);
      RequestTypeExact(Store(st, s, Some(ss), now).rows, n, i, c.value.uuid);
    }
  }

  lemma OffersNothing(se: WorkflowStep)
    ensures OffersOwn(se, [], [])
  {
  }

  lemma OffersAreOwn(se: WorkflowStep, ss: StepEnqueuingWithConfig, oks: seq<bool>, before: seq<Message>,
                    after: seq<Message>)
    requires Converts(se.commands, ss.commands) && ss.ids == se.ids && ss.notUntil == se.notUntil
    requires UntilRefused(|ss.commands|, oks) && (oks != [] ==> ss.notUntil == 0)
    requires after == before + Messages(ss.ids, ss.commands)[..|oks|]
    ensures OffersOwn(se, oks, after[|before|..])
  {
    forall j | 0 <= j < |oks|
      ensures se.commands[j].Some? && se.commands[j].value.plist.Some?
              && after[|before|..][j] == (se.ids, se.commands[j].value.plist.value)
    {
      assert Carries(se.commands[j], ss.commands[j]);
    }
  }

  /* ---- Check-ins ---- */

  datatype Checkin = Authenticate | TokenUpdate | TokenUpdateEnrolling(enrolling: bool) | CheckOut | OtherCheckin

  // The event flags of a check-in, in the order of their dispatch.
  function EventsOf(checkin: Checkin): seq<int> {
    match checkin
    case Authenticate => [AUTHENTICATE]
    case TokenUpdate => [TOKEN_UPDATE, ENROLLMENT]
    case TokenUpdateEnrolling(enrolling) => [TOKEN_UPDATE] + if enrolling then [ENROLLMENT] else []
    case CheckOut => [CHECK_OUT]
    case OtherCheckin => []
  }

  // The same events by name.
  ghost function EventNames(checkin: Checkin): seq<string> {
    match checkin
    case Authenticate => ["Authenticate"]
    case TokenUpdate => ["TokenUpdate", "Enrollment"]
    case TokenUpdateEnrolling(true) => ["TokenUpdate", "Enrollment"]
    case TokenUpdateEnrolling(false) => ["TokenUpdate"]
    case CheckOut => ["CheckOut"]
    case OtherCheckin => []
  }

  lemma EventsNamed(checkin: Checkin)
    ensures |EventsOf(checkin)| == |EventNames(checkin)|
    ensures forall m :: 0 <= m < |EventsOf(checkin)| ==> EventsOf(checkin)[m] == FlagForString(EventNames(checkin)[m])
  {
  }

  predicate CancelsSteps(checkin: Checkin) {
    checkin.Authenticate? || checkin.CheckOut?
  }

  /* ---- Events ---- */

  // What an event sets off for an enrollment: the subscriptions whose workflows
  // are started, and the workflows that are told.
  datatype Dispatch = Dispatch(flag: int, starts: seq<Subscription>, told: seq<string>)

  // The list has the subscriptions to the event, each once.
  ghost predicate Subscribed(subs: Subscriptions, flag: int, found: seq<Subscription>) {
    exists names :: Distinct(names) && AreSubscriptions(subs, names, found)
                    && forall name :: name in names <==> name in WithFlag(subs, flag)
  }

  ghost predicate Told(workflows: map<string, Option<Config>>, flag: int, told: seq<string>) {
    Distinct(told)
    && forall n :: n in told <==> n in workflows && workflows[n].Some? && HasFlag(workflows[n].value.events, flag)
  }

  // Without subscription storage no subscription is found.
  ghost predicate IsDispatch(subs: Option<Subscriptions>, workflows: map<string, Option<Config>>, flag: int,
                             d: Dispatch) {
    && d.flag == flag
    && (if subs.Some? then Subscribed(subs.value, flag, d.starts) else d.starts == [])
    && Told(workflows, flag, d.told)
  }

  // The subscriptions, of those found, that an idle event starts.
  ghost function DueStarts(starts: Starts, id: string, eventAt: Time, found: seq<Subscription>): seq<Subscription> {
    if found == [] then []
    else
      var es := found[|found| - 1];
      DueStarts(starts, id, eventAt, found[..|found| - 1])
      + if Throttle.Due(LastStart(starts, id, es.workflow), es.eventContext, eventAt) then [es] else []
  }

  // More than the subscription's seconds have passed since its workflow's start.
  ghost predicate StartsOn(starts: Starts, id: string, eventAt: Time, es: Subscription) {
    && Atoi(es.eventContext).Some? && Atoi(es.eventContext).value >= 1
    && eventAt - LastStart(starts, id, es.workflow) > Throttle.Wait(Atoi(es.eventContext).value)
  }

  lemma {:induction false} DueStartsExact(starts: Starts, id: string, eventAt: Time, found: seq<Subscription>,
                                          es: Subscription)
    ensures multiset(DueStarts(starts, id, eventAt, found))[es]
            == if StartsOn(starts, id, eventAt, es) then multiset(found)[es] else 0
  {
    if found != [] {
      var rest := found[..|found| - 1];
      DueStartsExact(starts, id, eventAt, rest, es);
      assert found == rest + [found[|found| - 1]];
      Throttle.DueExact(LastStart(starts, id, found[|found| - 1].workflow), found[|found| - 1].eventContext, eventAt);
      hide LastStart;
      hide Throttle.Due;
      hide Throttle.Wait;
      hide Atoi;
    }
  }

  /* ---- Starting ---- */

  predicate IsExclusive(config: Option<Config>) {
    config.None? || config.value.exclusive
  }

  // A start is refused if the workflow runs exclusively, as it does without a
  // configuration, and everybody is left out.
  ghost predicate AllRunning(st: State, config: Option<Config>, name: string, ids: seq<string>) {
    && (config.None? || config.value.exclusive)
    && ids != [] && forall i :: i in ids ==> Excluded(st, name, ids, i)
  }

  // Left out of a start: an enrollment with an outstanding step, if it is
  // listed once.
  ghost predicate Excluded(st: State, name: string, ids: seq<string>, i: string) {
    Outstanding(st, name, i) && multiset(ids)[i] == 1
  }

  ghost function Flat(groups: seq<seq<string>>): seq<string> {
    if groups == [] then [] else Flat(groups[..|groups| - 1]) + groups[|groups| - 1]
  }

  lemma FlatSnoc(groups: seq<seq<string>>, g: seq<string>)
    ensures Flat(groups + [g]) == Flat(groups) + g
  {
    assert (groups + [g])[..|groups|] == groups;
  }

  lemma {:induction false} FlatPrefix(groups: seq<seq<string>>, n: nat)
    requires n < |groups|
    ensures Flat(groups[..n + 1]) == Flat(groups[..n]) + groups[n]
    ensures forall i :: i in Flat(groups[..n]) ==> i in Flat(groups)
    decreases |groups|
  {
    assert groups[..n + 1][..n] == groups[..n];
    if n < |groups| - 1 {
      var rest := groups[..|groups| - 1];
      assert rest[..n] == groups[..n];
      FlatPrefix(rest, n);
    }
  }

  lemma FlatOne(g: seq<string>)
    ensures Flat([g]) == g
  {
    FlatSnoc([], g);
  }

  // The first group whose start fails, or the number of groups; nothing is
  // started for an empty group.
  ghost predicate FirstFailing(groups: seq<seq<string>>, works: seq<string> -> bool, n: nat) {
    && n <= |groups|
    && (forall k :: 0 <= k < n && groups[k] != [] ==> works(groups[k]))
    && (n < |groups| ==> groups[n] != [] && !works(groups[n]))
  }

  // What is left of the IDs when the running ones among them are taken away.
  lemma LeftExact(st: State, name: string, ids: seq<string>, running: seq<string>, i: string)
    requires Distinct(running) && forall x :: x in running <==> x in ids && Outstanding(st, name, x)
    ensures multiset(ids)[i] != multiset(running)[i] <==> i in ids && !Excluded(st, name, ids, i)
  {
    DistinctCounts(running);
    hide Outstanding;
  }

  lemma NoneExcluded(st: State, name: string, ids: seq<string>)
    requires forall x :: x in ids ==> !Outstanding(st, name, x)
    ensures forall i :: i in ids ==> !Excluded(st, name, ids, i)
    ensures ids != [] ==> ids[0] in ids
  {
  }

  // Who a start goes to: the IDs that it does not leave out, as they are listed
  // if it leaves out none and otherwise once each; all at once, or one by one if
  // commands cannot target several.
  ghost predicate AreGroups(st: State, config: Option<Config>, multiCommands: bool, name: string, ids: seq<string>,
                            groups: seq<seq<string>>) {
    && (config.Some? && !config.value.exclusive ==> Flat(groups) == ids)
    && (config.None? || config.value.exclusive ==>
          && (forall i :: i in Flat(groups) <==> i in ids && !Excluded(st, name, ids, i))
          && (if exists i :: i in ids && Outstanding(st, name, i) then Distinct(Flat(groups))
              else Flat(groups) == ids))
    && (if multiCommands then |groups| == 1 else forall g :: g in groups ==> |g| == 1)
  }

  // All IDs at once, or each on its own.
  method Groups(ids: seq<string>, multiCommands: bool) returns (groups: seq<seq<string>>)
    ensures Flat(groups) == ids
    ensures if multiCommands then |groups| == 1 else forall g :: g in groups ==> |g| == 1
  {
    if multiCommands {
      FlatOne(ids);
      return [ids];
    }
    groups := [];
    for n := 0 to |ids|
      invariant forall g :: g in groups ==> |g| == 1
      invariant Flat(groups) == ids[..n]
    {
      FlatSnoc(groups, [ids[n]]);
      groups := groups + [[ids[n]]];
    }
    assert ids[..|ids|] == ids;
  }

  /* ---- Responses ---- */

  // A step result on its way to the workflow of that name.
  datatype HandOver = HandOver(workflow: string, result: WorkflowResult)

  // The response that the storage records for this event, if it does. UUIDs are
  // n long where commands are tracked.
  ghost function Recordable(st: State, n: nat, parse: Parser, id: string, uuid: string, raw: Bytes)
    : Option<(StepCommandResult, MDMResponse)>
  {
    var reqType := RequestTypeOf(st.rows, n, id, uuid);
    if id == "" || uuid == "" || reqType.None? then None
    else
      match StorageResponse(parse, reqType.value, raw)
      case Err(_) => None
      case Ok(p) => Some(p)
  }

  ghost predicate MayRecord(st: State, n: nat, parse: Parser, id: string, uuid: string, raw: Bytes,
                            sc: StepCommandResult) {
    Recordable(st, n, parse, id, uuid, raw).Some? && Recordable(st, n, parse, id, uuid, raw).value.0 == sc
  }

  ghost function AfterResponse(st: State, n: nat, parse: Parser, id: string, uuid: string, raw: Bytes): State {
    match Recordable(st, n, parse, id, uuid, raw)
    case None => st
    case Some(p) => Respond(st, id, p.0)
  }

  // What a completed step is handed over as, if its workflow is registered and
  // its reports and context read.
  ghost function HandOverOf(workflows: map<string, Option<Config>>, parse: Parser, contextsOf: string -> Contexts,
                            step: StepResult, uuid: string, response: MDMResponse): Option<HandOver>
  {
    var name := step.ctx.workflowName;
    if name !in workflows then None
    else
      match WorkflowForm(parse, contextsOf(name), step, false, uuid, Some(response))
      case Err(_) => None
      case Ok(result) => Some(HandOver(name, result))
  }

  ghost function HandedBy(st: State, workflows: map<string, Option<Config>>, parse: Parser,
                          contextsOf: string -> Contexts, id: string, uuid: string, sc: StepCommandResult,
                          response: MDMResponse): Option<HandOver>
  {
    match RespondOutcome(st, id, sc)
    case Completed(step) => HandOverOf(workflows, parse, contextsOf, step, uuid, response)
    case _ => None
  }

  ghost function Delivered(st: State, n: nat, workflows: map<string, Option<Config>>, parse: Parser,
                           contextsOf: string -> Contexts, id: string, uuid: string, raw: Bytes): Option<HandOver>
  {
    match Recordable(st, n, parse, id, uuid, raw)
    case None => None
    case Some(p) => HandedBy(st, workflows, parse, contextsOf, id, uuid, p.0, p.1)
  }

  // The workflows that are told of the response as an event.
  ghost predicate Notified(st: State, n: nat, parse: Parser, history: seq<RegOp>, id: string, uuid: string, raw: Bytes,
                           names: seq<string>)
  {
    && Distinct(names)
    && forall name :: name in names
         <==> Recordable(st, n, parse, id, uuid, raw).Some?
              && Listens(history, name, RequestTypeOf(st.rows, n, id, uuid).value)
  }

  class Engine {
    const storage: KV
    const server: Server
    const registry: Registry
    const defaultTimeout: Time
    const multiCommands: bool
    const parse: Parser
    const contextsOf: string -> Contexts
    const eventStore: EventStore?

    constructor (storage: KV, server: Server, registry: Registry, defaultTimeout: Time, multiCommands: bool,
                 parse: Parser, contextsOf: string -> Contexts, eventStore: EventStore?)
      ensures this.storage == storage && this.server == server && this.registry == registry
      ensures this.defaultTimeout == defaultTimeout && this.multiCommands == multiCommands
      ensures this.parse == parse && this.contextsOf == contextsOf && this.eventStore == eventStore
    {
      this.storage, this.server, this.registry := storage, server, registry;
      this.defaultTimeout, this.multiCommands := defaultTimeout, multiCommands;
      this.parse, this.contextsOf, this.eventStore := parse, contextsOf, eventStore;
    }

    // The subscriptions that the engine can find, if it has storage for them.
    ghost function Subs(): Option<Subscriptions>
      reads eventStore
    {
      if eventStore == null then None else Some(eventStore.subs)
    }

    ghost predicate EventsValid()
      reads eventStore
    {
      eventStore != null ==> eventStore.Valid()
    }

    // The groups of IDs that a start hands to the workflow, one after the other.
    method StartGroups(name: string, ids: seq<string>) returns (r: Result<seq<seq<string>>, EngineError>)
      requires storage.Valid() && registry.Valid() && forall i :: i in ids ==> i !in storage.st.origin
      ensures r == Err(NoSuchWorkflow(name)) <==> name !in registry.workflows
      ensures name in registry.workflows ==>
                (r == Err(WorkflowAlreadyStarted)
                 <==> AllRunning(storage.st, registry.workflows[name], name, ids))
      ensures r.Err? ==> r.error == NoSuchWorkflow(name) || r.error == WorkflowAlreadyStarted
      ensures r.Ok? ==> AreGroups(storage.st, registry.workflows[name], multiCommands, name, ids, r.value)
    {
      hide KV.Valid;
      hide Registry.Valid;
      hide Excluded;
      if name !in registry.workflows {
        return Err(NoSuchWorkflow(name));
      }
      var left := ids;
      if IsExclusive(registry.workflows[name]) {
        var free := NotRunning(name, ids);
        match free
        case Err(e) => return Err(e);
        case Ok(freeIDs) => left := freeIDs;
      }
      var groups := Groups(left, multiCommands);
      r := Ok(groups);
    }

    // Replaces the IDs with those that are not running, if any is.
    method NotRunning(name: string, ids: seq<string>) returns (r: Result<seq<string>, EngineError>)
      requires storage.Valid() && forall i :: i in ids ==> i !in storage.st.origin
      ensures r.Err? ==> r.error == WorkflowAlreadyStarted
      ensures r.Err? <==> ids != [] && forall i :: i in ids ==> Excluded(storage.st, name, ids, i)
      ensures r.Ok? ==> forall i :: i in r.value <==> i in ids && !Excluded(storage.st, name, ids, i)
      ensures r.Ok? ==>
                if exists i :: i in ids && Outstanding(storage.st, name, i) then Distinct(r.value) else r.value == ids
    {
      hide KV.Valid;
      var running := storage.RetrieveOutstandingWorkflowStatus(name, ids);
      var runningIDs := running.value;
      forall i {
        LeftExact(storage.st, name, ids, runningIDs, i);
      }
      hide Outstanding;
      hide Distinct;
      if |runningIDs| == 0 {
        NoneExcluded(storage.st, name, ids);
        return Ok(ids);
      }
      assert runningIDs[0] in runningIDs;
      var left := Diff(ids, runningIDs);
      if |left| < 1 {
        return Err(WorkflowAlreadyStarted);
      }
      assert left[0] in left;
      r := Ok(left);
    }

    // Starts the workflow on the groups in turn and records when, until a start
    // fails. Whether the workflow's own start works for a group is a parameter;
    // the steps that it enqueues go through EnqueueStep.
    method StartWorkflow(name: string, ids: seq<string>, works: seq<string> -> bool, now: Time)
      returns (err: Option<EngineError>, ghost groups: seq<seq<string>>, ghost n: nat)
      requires storage.Valid() && registry.Valid() && forall i :: i in ids ==> i !in storage.st.origin
      modifies storage`statusStore, storage`starts
      ensures storage.Valid()
      ensures err == Some(NoSuchWorkflow(name)) <==> name !in registry.workflows
      ensures err == Some(WorkflowAlreadyStarted)
              <==> name in registry.workflows && AllRunning(storage.st, registry.workflows[name], name, ids)
      ensures err.Some? && err != Some(StartFailed) ==>
                (err == Some(NoSuchWorkflow(name)) || err == Some(WorkflowAlreadyStarted)) && groups == []
      ensures err.None? || err == Some(StartFailed) ==>
                AreGroups(storage.st, registry.workflows[name], multiCommands, name, ids, groups)
      ensures FirstFailing(groups, works, n) && (err == Some(StartFailed) <==> n < |groups|)
      ensures forall other, w :: LastStart(storage.starts, other, w)
                == if exists id :: id in Flat(groups[..n]) && Shared(id, name, other, w) then now
                   else LastStart(old(storage.starts), other, w)
    {
      hide KV.Valid;
      hide Registry.Valid;
      hide Excluded;
      hide LastStart;
      hide Shared;
      hide AreGroups;
      hide AllRunning;
      groups, n := [], 0;
      var found := StartGroups(name, ids);
      match found
      case Err(e) => return Some(e), groups, n;
      case Ok(startIDs) =>
        groups := startIDs;
        for m := 0 to |startIDs|
          invariant storage.Valid() && n == m
          invariant forall k :: 0 <= k < m && startIDs[k] != [] ==> works(startIDs[k])
          invariant forall other, w :: LastStart(storage.starts, other, w)
                      == if exists id :: id in Flat(startIDs[..m]) && Shared(id, name, other, w) then now
                         else LastStart(old(storage.starts), other, w)
        {
          FlatPrefix(startIDs, m);
          if |startIDs[m]| >= 1 {
            if !works(startIDs[m]) {
              return Some(StartFailed), groups, n;
            }
            storage.RecordWorkflowStarted(startIDs[m], name, now);
          }
          n := n + 1;
        }
        err := None;
    }

    // Stores the step; then, unless it is delayed, sends its commands in order
    // until one is refused.
    method EnqueueStep(name: string, se: WorkflowStep, stepID: string, now: Time)
      returns (err: Option<EngineError>, ghost stored: Option<StepEnqueuingWithConfig>, ghost oks: seq<bool>)
      requires storage.Valid()
      requires forall ss ::
                 IsStorageStep(name, StepDefaultTimeout(defaultTimeout, registry.workflows, name, now), se, ss) ==>
                 MayStore(storage.st, stepID, Some(ss)) && Storable(Some(ss), storage.uuidLen)
      modifies storage, server`asked, server`answers, server`sent
      ensures storage.Valid() && storage.st == Store(old(storage.st), stepID, stored, now)
      ensures stored.None? <==> exists j :: 0 <= j < |se.commands| && Malformed(se.commands[j])
      ensures stored.Some? ==>
                IsStorageStep(name, StepDefaultTimeout(defaultTimeout, registry.workflows, name, now), se, stored.value)
      ensures var messages := SentAtOnce(old(storage.st), stored);
              && UntilRefused(|messages|, oks)
              && server.asked == old(server.asked) + messages[..|oks|] && server.answers == old(server.answers) + oks
              && server.sent == old(server.sent) + Taken(messages[..|oks|], oks)
      ensures IsEnqueueError(old(storage.st), stored, oks, err)
      ensures Accepts(old(storage.st), stored) ==> AllTracked(storage.st.rows, storage.uuidLen, se)
      ensures OffersOwn(se, oks, server.asked[|old(server.asked)|..])
      ensures err.None? <==> Accepts(old(storage.st), stored) && !EndsRefused(oks)
      ensures err.None? && se.notUntil == 0 ==> |oks| == |se.commands| && forall j :: 0 <= j < |oks| ==> oks[j]
    {
      hide KV.Valid;
      hide Storable;
      hide MayStore;
      hide Store;
      hide Accepts;
      hide AllTracked;
      hide OffersOwn;
      stored, oks := None, [];
      var converted := StorageStep(name, StepDefaultTimeout(defaultTimeout, registry.workflows, name, now), se);
      NothingStored(storage.st, stepID, now);
      OffersNothing(se);
      match converted
      case Err(e) => return Some(InvalidCommand), None, [];
      case Ok(ss) =>
        stored := Some(ss);
        ghost var st, asked := storage.st, server.asked;
        var failed := storage.StoreStep(stepID, Some(ss), now);
        if failed.Some? {
          return Some(StoreFailed(failed.value)), stored, [];
        }
        StoredTracked(st, stepID, se, ss, now, storage.uuidLen);
        if ss.notUntil == 0 {
          err, oks := SendInTurn(ss);
          OffersAreOwn(se, ss, oks, asked, server.asked);
          return err, stored, oks;
        }
        err := None;
    }

    // Sends the commands of a step in order until one is refused.
    method SendInTurn(ss: StepEnqueuingWithConfig) returns (err: Option<EngineError>, ghost oks: seq<bool>)
      modifies server`asked, server`answers, server`sent
      ensures UntilRefused(|ss.commands|, oks)
      ensures var offered := Messages(ss.ids, ss.commands)[..|oks|];
              && server.asked == old(server.asked) + offered && server.answers == old(server.answers) + oks
              && server.sent == old(server.sent) + Taken(offered, oks)
      ensures err == if EndsRefused(oks) then Some(EnqueueFailed(ss.commands[|oks| - 1].commandUUID)) else None
    {
      hide Messages;
      hide Taken;
      NoneTaken();
      oks := [];
      for j := 0 to |ss.commands|
        invariant |oks| == j && forall k :: 0 <= k < j ==> oks[k]
        invariant server.asked == old(server.asked) + Messages(ss.ids, ss.commands[..j])
        invariant server.answers == old(server.answers) + oks
        invariant server.sent == old(server.sent) + Taken(Messages(ss.ids, ss.commands[..j]), oks)
      {
        MessagesNext(ss.ids, ss.commands, j);
        var ok := server.Enqueue(ss.ids, ss.commands[j].command);
        TakenNext(Messages(ss.ids, ss.commands[..j]), oks, (ss.ids, ss.commands[j].command), ok);
        oks := oks + [ok];
        if !ok {
          return Some(EnqueueFailed(ss.commands[j].commandUUID)), oks;
        }
      }
      assert ss.commands[..|ss.commands|] == ss.commands;
      assert Messages(ss.ids, ss.commands)[..|oks|] == Messages(ss.ids, ss.commands);
      err := None;
    }

    // Records a response to a tracked command; hands a completed step to the
    // workflow that enqueued it. The response counts for the command that its
    // report names. Workflows that want every such response are told.
    method MDMCommandResponseEvent(id: string, uuid: string, raw: Bytes)
      returns (err: Option<EngineError>, delivered: Option<HandOver>, notified: seq<string>)
      requires storage.Valid() && registry.Valid()
      requires forall sc :: MayRecord(storage.st, storage.uuidLen, parse, id, uuid, raw, sc) ==>
                 id !in storage.st.origin && NoAlias(storage.st.rows, storage.uuidLen, id, sc.commandUUID)
      modifies storage
      ensures storage.Represents()
      ensures (forall sc :: MayRecord(old(storage.st), storage.uuidLen, parse, id, uuid, raw, sc) ==>
                 MayRespond(old(storage.st), id, sc)) ==> storage.Valid()
      ensures storage.st == AfterResponse(old(storage.st), storage.uuidLen, parse, id, uuid, raw)
      ensures delivered
              == Delivered(old(storage.st), storage.uuidLen, registry.workflows, parse, contextsOf, id, uuid, raw)
      ensures Notified(old(storage.st), storage.uuidLen, parse, registry.history, id, uuid, raw, notified)
    {
      ValidRepresents(storage);
      hide KV.Valid;
      hide KV.Represents;
      hide Registry.Valid;
      hide Notified;
      hide Recordable;
      hide HandedBy;
      hide MayRespond;
      hide NoAlias;
      hide Respond;
      delivered := None;
      var read: Option<(StepCommandResult, MDMResponse)>;
      err, read, notified := ReadResponse(id, uuid, raw);
      if read.Some? {
        assert MayRecord(storage.st, storage.uuidLen, parse, id, uuid, raw, read.value.0);
        err, delivered := RecordResponse(id, uuid, read.value.0, read.value.1);
      }
    }

    // Stores a response, and hands over the step if that completes it.
    method RecordResponse(id: string, uuid: string, sc: StepCommandResult, response: MDMResponse)
      returns (err: Option<EngineError>, delivered: Option<HandOver>)
      requires storage.Valid() && id !in storage.st.origin
      requires NoAlias(storage.st.rows, storage.uuidLen, id, sc.commandUUID)
      modifies storage
      ensures storage.Represents() && storage.st == Respond(old(storage.st), id, sc)
      ensures MayRespond(old(storage.st), id, sc) ==> storage.Valid()
      ensures delivered == HandedBy(old(storage.st), registry.workflows, parse, contextsOf, id, uuid, sc, response)
    {
      hide KV.Valid;
      hide KV.Represents;
      hide RespondOutcome;
      hide HandOverOf;
      hide MayRespond;
      hide NoAlias;
      hide Respond;
      var stored := storage.StoreCommandResponseAndRetrieveCompletedStep(id, sc);
      match stored
      case Err(e) => return Some(StoreFailed(e)), None;
      case Ok(None) => return None, None;
      case Ok(Some(ssr)) =>
        err, delivered := HandOverStep(ssr, uuid, response);
    }

    // Reads the response to a tracked command, and finds whom to tell of it.
    method ReadResponse(id: string, uuid: string, raw: Bytes)
      returns (err: Option<EngineError>, read: Option<(StepCommandResult, MDMResponse)>, notified: seq<string>)
      requires storage.Valid() && registry.Valid()
      ensures read == Recordable(storage.st, storage.uuidLen, parse, id, uuid, raw)
      ensures Notified(storage.st, storage.uuidLen, parse, registry.history, id, uuid, raw, notified)
    {
      hide KV.Valid;
      hide Registry.Valid;
      hide Listens;
      hide RequestTypeOf;
      var reqType := storage.RetrieveCommandRequestType(id, uuid);
      match reqType
      case Err(e) => return Some(StoreFailed(e)), None, [];
      case Ok(None) => return None, None, [];
      case Ok(Some(requestType)) =>
        match StorageResponse(parse, requestType, raw)
        case Err(e) => return Some(ConvertFailed(e)), None, [];
        case Ok(p) =>
          notified := registry.AllRespWorkflows(requestType);
          return None, Some(p), notified;
    }

    // Hands a completed step to the workflow that enqueued it.
    method HandOverStep(ssr: StepResult, uuid: string, response: MDMResponse)
      returns (err: Option<EngineError>, delivered: Option<HandOver>)
      ensures delivered == HandOverOf(registry.workflows, parse, contextsOf, ssr, uuid, response)
    {
      hide WorkflowForm;
      var name := ssr.ctx.workflowName;
      if name !in registry.workflows {
        return Some(NoSuchWorkflow(name)), None;
      }
      var stepResult := ToWorkflow(parse, contextsOf(name), ssr, false, uuid, Some(response));
      match stepResult
      case Err(e) => return Some(ConvertFailed(e)), None;
      case Ok(result) => return None, Some(HandOver(name, result));
    }

    // The subscriptions and the workflows that the event concerns.
    method DispatchEvents(flag: int) returns (d: Dispatch)
      requires registry.Valid() && EventsValid() && flag >= 1
      ensures IsDispatch(Subs(), registry.workflows, flag, d)
    {
      var starts: seq<Subscription> := [];
      if eventStore != null {
        var found, names := eventStore.RetrieveEventSubscriptionsByEvent(flag);
        starts := found.value;
        assert Subscribed(eventStore.subs, flag, starts);
      }
      var told := registry.EventWorkflows(flag);
      d := Dispatch(flag, starts, told);
    }

    // A check-in that cancels clears the enrollment's steps and start times;
    // then its events are dispatched, one after the other.
    method MDMCheckinEvent(id: string, checkin: Checkin) returns (dispatched: seq<Dispatch>)
      requires storage.Valid() && registry.Valid() && EventsValid()
      modifies storage
      ensures storage.Valid()
      ensures storage.st
              == if checkin.Authenticate? || checkin.CheckOut? then Cancel(old(storage.st), id, "")
                 else old(storage.st)
      ensures forall other, w :: LastStart(storage.starts, other, w)
                == if (checkin.Authenticate? || checkin.CheckOut?) && Hits(id, other, w) then 0
                   else LastStart(old(storage.starts), other, w)
      ensures |dispatched| == |EventNames(checkin)|
      ensures forall m :: 0 <= m < |dispatched| ==>
                IsDispatch(Subs(), registry.workflows, FlagForString(EventNames(checkin)[m]), dispatched[m])
    {
      hide KV.Valid;
      hide Registry.Valid;
      hide EventStore.Valid;
      hide Cancel;
      hide LastStart;
      hide Hits;
      hide IsDispatch;
      if CancelsSteps(checkin) {
        var err := storage.CancelSteps(id, "");
        storage.ClearWorkflowStatus(id);
      }
      ghost var st, starts := storage.st, storage.starts;
      dispatched := [];
      EventsNamed(checkin);
      var events := EventsOf(checkin);
      for m := 0 to |events|
        invariant storage.Valid() && storage.st == st && storage.starts == starts
        invariant |dispatched| == m
        invariant forall j :: 0 <= j < m ==> IsDispatch(Subs(), registry.workflows, events[j], dispatched[j])
      {
        var d := DispatchEvents(events[m]);
        dispatched := dispatched + [d];
      }
    }

    // An idle enrollment: workflows are told, and those subscribed to start when
    // they have not been started for a while are started if they are due.
    method MDMIdleEvent(id: string, eventAt: Time)
      returns (told: seq<string>, due: seq<Subscription>, ghost found: seq<Subscription>)
      requires storage.Valid() && registry.Valid() && EventsValid()
      ensures Told(registry.workflows, IDLE, told)
      ensures Subs().Some? ==> Subscribed(Subs().value, IDLE_NOT_STARTED_SINCE, found)
      ensures Subs().None? ==> found == []
      ensures due == DueStarts(storage.starts, id, eventAt, found)
      ensures forall es ::
                multiset(due)[es] == if StartsOn(storage.starts, id, eventAt, es) then multiset(found)[es] else 0
    {
      hide KV.Valid;
      hide Registry.Valid;
      hide EventStore.Valid;
      hide LastStart;
      hide Throttle.Due;
      told := registry.EventWorkflows(IDLE);
      due, found := [], [];
      if eventStore == null {
        return;
      }
      var retrieved, names := eventStore.RetrieveEventSubscriptionsByEvent(IDLE_NOT_STARTED_SINCE);
      var subs := retrieved.value;
      found := subs;
      assert Subscribed(eventStore.subs, IDLE_NOT_STARTED_SINCE, found);
      for m := 0 to |subs|
        invariant due == DueStarts(storage.starts, id, eventAt, subs[..m])
      {
        assert subs[..m + 1][..m] == subs[..m];
        var starts := IdleNotStartedSince(storage, id, subs[m], eventAt);
        if starts {
          due := due + [subs[m]];
        }
      }
      assert subs[..|subs|] == subs;
      forall es {
        DueStartsExact(storage.starts, id, eventAt, found, es);
      }
    }
  }

  lemma ValidRepresents(storage: KV)
    requires storage.Valid()
    ensures storage.Represents()
  {
  }

  // An enrollment that checks in again is still blocked by exactly the steps it
  // was blocked by before: this storage cancels nothing without a name.
  lemma CheckinKeepsBlocked(st: State, id: string, workflowName: string)
    requires Inv(st)
    ensures Outstanding(Cancel(st, id, ""), workflowName, id) <==> Outstanding(st, workflowName, id)
  {
    CancelAllIsIdle(st, id);
  }
}
