/**
 The FileVault workflow: after its profile is installed it polls the device, with
 a counter that travels in each step's context as decimal text.
 */
module FVEnable {
  import opened Wrappers
  import opened Text
  import opened Records

  const STEP_INSTALL := "install"
  const STEP_POLL := "poll"
  const POLL_COUNTER := 180
  const POLL_INTERVAL: Time := 120 * SECOND

  /* ---- The counter as a context ---- */

  function MarshalInt(c: int): Bytes {
    FormatInt(c)
  }

  function UnmarshalInt(data: Bytes): Option<int> {
    Atoi(data)
  }

  // A context that is not there leaves the counter at its zero value.
  function LoadContext(data: Bytes): Option<int> {
    if |data| > 0 then UnmarshalInt(data) else Some(0)
  }

  // The counter survives its text form exactly when it is a 64-bit integer.
  lemma CounterRoundTripExact(c: int)
    ensures LoadContext(MarshalInt(c)) == Some(c) <==> MIN_INT <= c <= MAX_INT
    ensures LoadContext("") == Some(0)
  {
    AtoiFormatExact(c);
    ParseFormatInt(c);
  }

  /* ---- The steps ---- */

  datatype Response =
    | InstallProfileResponse(valid: bool)
    | SecurityInfoResponse(valid: bool, fdeEnabled: Option<bool>, recoveryKey: Option<Bytes>)
    | OtherResponse

  datatype StepResult = StepResult(instanceID: string, name: string, id: string, context: Bytes, results: seq<Response>)

  datatype Enqueued = Enqueued(instanceID: string, name: string, id: string, context: Bytes, notUntil: Time)

  datatype WorkflowError =
    | CommandLenMismatch | IncorrectCommandType | IncorrectContextType | InvalidResponse | UnknownStepName
    | MaximumPollReached

  // Whether the response escrows a key, given whether the store takes it.
  predicate Escrows(response: Response, storeTakes: bool) {
    && response.SecurityInfoResponse? && response.valid
    && response.fdeEnabled == Some(true) && response.recoveryKey.Some? && storeTakes
  }

  class Workflow {
    var enqueued: seq<Enqueued>
    var escrowed: seq<(string, Bytes)>

    constructor ()
      ensures enqueued == [] && escrowed == []
    {
      enqueued, escrowed := [], [];
    }

    method InstallStepCompleted(step: StepResult, now: Time) returns (err: Option<WorkflowError>)
      modifies this
      ensures escrowed == old(escrowed)
      ensures err.None? <==> |step.results| == 1 && step.results[0].InstallProfileResponse? && step.results[0].valid
      ensures enqueued == old(enqueued) + if err.None? then [FirstPoll(step, now)] else []
    {
      if |step.results| != 1 {
        return Some(CommandLenMismatch);
      }
      var response := step.results[0];
      if !response.InstallProfileResponse? {
        return Some(IncorrectCommandType);
      }
      if !response.valid {
        return Some(InvalidResponse);
      }
      enqueued := enqueued + [Enqueued(step.instanceID, STEP_POLL, step.id, MarshalInt(POLL_COUNTER),
                                       now + POLL_INTERVAL)];
      err := None;
    }

    method PollStepCompleted(step: StepResult, now: Time, storeTakes: bool) returns (err: Option<WorkflowError>)
      modifies this
      ensures enqueued == old(enqueued) + NextPoll(step, now, storeTakes)
      ensures escrowed == old(escrowed) + EscrowedBy(step, storeTakes)
      ensures err.None? <==> NextPoll(step, now, storeTakes) != [] || EscrowedBy(step, storeTakes) != []
    {
      if |step.results| != 1 {
        return Some(CommandLenMismatch);
      }
      var response := step.results[0];
      if !response.SecurityInfoResponse? {
        return Some(IncorrectCommandType);
      }
      var loaded := LoadContext(step.context);
      if loaded.None? {
        return Some(IncorrectContextType);
      }
      var counter := loaded.value;
      if counter < 0 {
        return Some(MaximumPollReached);
      }
      if !response.valid {
      } else if !(response.fdeEnabled.Some? && response.fdeEnabled.value) {
      } else if response.recoveryKey.None? {
      } else if !storeTakes {
      } else {
        escrowed := escrowed + [(step.id, response.recoveryKey.value)];
        return None;
      }
      counter := counter - 1;
      enqueued := enqueued + [Enqueued(step.instanceID, STEP_POLL, step.id, MarshalInt(counter), now + POLL_INTERVAL)];
      err := None;
    }

    method StepCompleted(step: StepResult, now: Time, storeTakes: bool) returns (err: Option<WorkflowError>)
      modifies this
      ensures enqueued == old(enqueued) + Enqueues(step, now, storeTakes)
      ensures escrowed == old(escrowed) + if step.name == STEP_POLL then EscrowedBy(step, storeTakes) else []
      ensures err.None? <==> enqueued != old(enqueued) || escrowed != old(escrowed)
    {
      if step.name == STEP_INSTALL {
        err := InstallStepCompleted(step, now);
      } else if step.name == STEP_POLL {
        err := PollStepCompleted(step, now, storeTakes);
      } else {
        err := Some(UnknownStepName);
      }
    }
  }

  ghost function FirstPoll(step: StepResult, now: Time): Enqueued {
    Enqueued(step.instanceID, STEP_POLL, step.id, MarshalInt(POLL_COUNTER), now + POLL_INTERVAL)
  }

  // A readable poll with counter zero or more either escrows or polls again
  // with a counter one lower.
  ghost predicate Readable(step: StepResult) {
    && |step.results| == 1 && step.results[0].SecurityInfoResponse?
    && LoadContext(step.context).Some? && LoadContext(step.context).value >= 0
  }

  ghost function NextPoll(step: StepResult, now: Time, storeTakes: bool): seq<Enqueued> {
    if Readable(step) && !Escrows(step.results[0], storeTakes) then
      [Enqueued(step.instanceID, STEP_POLL, step.id, MarshalInt(LoadContext(step.context).value - 1),
                now + POLL_INTERVAL)]
    else []
  }

  ghost function EscrowedBy(step: StepResult, storeTakes: bool): seq<(string, Bytes)> {
    if Readable(step) && Escrows(step.results[0], storeTakes) then [(step.id, step.results[0].recoveryKey.value)]
    else []
  }

  ghost function Enqueues(step: StepResult, now: Time, storeTakes: bool): seq<Enqueued> {
    if step.name == STEP_INSTALL then
      if |step.results| == 1 && step.results[0].InstallProfileResponse? && step.results[0].valid
      then [FirstPoll(step, now)] else []
    else if step.name == STEP_POLL then NextPoll(step, now, storeTakes)
    else []
  }

  /* ---- A whole polling run ---- */

  // What the device and the key store do with one poll.
  datatype Reply = Reply(results: seq<Response>, now: Time, storeTakes: bool)

  // The result of an enqueued step, as the engine hands it back.
  function Answered(step: Enqueued, reply: Reply): StepResult {
    StepResult.StepResult(step.instanceID, step.name, step.id, step.context, reply.results)
  }

  // The polls of one instance for one enrollment, whether the latest of them is
  // still to be answered, and the keys escrowed.
  datatype Polling = Polling(polls: seq<Enqueued>, open: bool, keys: seq<(string, Bytes)>)

  ghost function Advance(p: Polling, reply: Reply): Polling {
    if !p.open || p.polls == [] then p
    else
      var step := Answered(p.polls[|p.polls| - 1], reply);
      var more := Enqueues(step, reply.now, reply.storeTakes);
      Polling(p.polls + more, more != [], p.keys + EscrowedBy(step, reply.storeTakes))
  }

  // Each reply answers the latest poll, if there is one to answer.
  ghost function Poll(first: Enqueued, replies: seq<Reply>): Polling {
    if replies == [] then Polling([first], true, [])
    else Advance(Poll(first, replies[..|replies| - 1]), replies[|replies| - 1])
  }

  ghost predicate Fruitless(reply: Reply) {
    |reply.results| == 1 && reply.results[0].SecurityInfoResponse? && !Escrows(reply.results[0], reply.storeTakes)
  }

  // How many replies from the start on do not end the polling by themselves.
  ghost function Leading(replies: seq<Reply>): nat {
    if replies == [] then 0
    else
      var before := Leading(replies[..|replies| - 1]);
      if before == |replies| - 1 && Fruitless(replies[|replies| - 1]) then before + 1 else before
  }

  function Min(a: nat, b: nat): nat {
    if a < b then a else b
  }

  // The polls so far: the counter of each is one lower than that of the one
  // before, and all are of one instance and enrollment.
  ghost predicate CountsDown(polls: seq<Enqueued>, first: Enqueued) {
    forall n :: 0 <= n < |polls| ==>
      && polls[n].name == STEP_POLL
      && polls[n].instanceID == first.instanceID && polls[n].id == first.id
      && polls[n].context == MarshalInt(POLL_COUNTER - n)
  }

  lemma LeadingAtMost(replies: seq<Reply>)
    ensures Leading(replies) <= |replies|
  {
  }

  // The recovery key that a reply brings and the store takes.
  ghost function KeyGiven(reply: Reply): Option<Bytes> {
    if |reply.results| != 1 || !reply.storeTakes then None
    else
      match reply.results[0]
      case SecurityInfoResponse(true, Some(true), key) => key
      case _ => None
  }

  // The keys escrowed: that of the first reply that is not fruitless, for the
  // enrollment, unless the counter has run out by then.
  ghost predicate KeysExact(first: Enqueued, replies: seq<Reply>, keys: seq<(string, Bytes)>) {
    var l := Leading(replies);
    if l < |replies| && l <= POLL_COUNTER && KeyGiven(replies[l]).Some?
    then keys == [(first.id, KeyGiven(replies[l]).value)] else keys == []
  }

  // Each further poll waits two minutes from the reply before it.
  ghost predicate Waits(polls: seq<Enqueued>, replies: seq<Reply>) {
    |polls| <= 1 + |replies|
    && forall n :: 1 <= n < |polls| ==> polls[n].notUntil == replies[n - 1].now + 120 * SECOND
  }

  // Polling ends: the counters run from 180 down to -1, so there are at most
  // 182 polls, exactly as many as fruitless replies allow, and no poll follows
  // an escrow.
  lemma {:induction false} PollingEnds(first: Enqueued, replies: seq<Reply>)
    requires first.name == STEP_POLL && first.context == MarshalInt(POLL_COUNTER)
    ensures var p := Poll(first, replies);
            && CountsDown(p.polls, first) && Waits(p.polls, replies)
            && |p.polls| == 1 + Min(Leading(replies), POLL_COUNTER + 1)
            && (p.open <==> Leading(replies) == |replies| && |replies| <= POLL_COUNTER + 1)
            && KeysExact(first, replies, p.keys) && (p.keys != [] ==> !p.open)
  {
    LeadingAtMost(replies);
    if replies != [] {
      var past := replies[..|replies| - 1];
      var reply := replies[|replies| - 1];
      PollingEnds(first, past);
      LeadingAtMost(past);
      hide Fruitless;
      hide CountsDown;
      hide KeysExact;
      hide Waits;
      var p := Poll(first, past);
      KeysNext(first, replies, p.keys);
      WaitsNext(p.polls, replies);
      if p.open {
        AdvanceCounts(first, p, reply);
        hide Advance;
      }
    }
  }

  // The keys do not change after the first reply that is not fruitless.
  lemma KeysNext(first: Enqueued, replies: seq<Reply>, keys: seq<(string, Bytes)>)
    requires replies != [] && Leading(replies[..|replies| - 1]) <= |replies| - 1
    requires KeysExact(first, replies[..|replies| - 1], keys)
    ensures var past, reply := replies[..|replies| - 1], replies[|replies| - 1];
            if Leading(past) == |past| && |past| <= POLL_COUNTER && KeyGiven(reply).Some?
            then keys == [] && KeysExact(first, replies, [(first.id, KeyGiven(reply).value)])
            else KeysExact(first, replies, keys)
  {
    var past, reply := replies[..|replies| - 1], replies[|replies| - 1];
    FruitlessExact(reply);
    hide KeyGiven;
    hide Fruitless;
    assert forall n :: 0 <= n < |past| ==> past[n] == replies[n];
  }

  lemma WaitsNext(polls: seq<Enqueued>, replies: seq<Reply>)
    requires replies != [] && Waits(polls, replies[..|replies| - 1])
    ensures Waits(polls, replies)
    ensures forall more: Enqueued ::
              |polls| == |replies| && more.notUntil == replies[|replies| - 1].now + 120 * SECOND ==>
                Waits(polls + [more], replies)
  {
  }

  lemma FruitlessExact(reply: Reply)
    ensures Fruitless(reply) ==> KeyGiven(reply).None?
  {
  }

  // One reply to the latest poll.
  lemma AdvanceCounts(first: Enqueued, p: Polling, reply: Reply)
    requires p.open && 1 <= |p.polls| <= POLL_COUNTER + 2 && CountsDown(p.polls, first)
    ensures var more := Fruitless(reply) && |p.polls| <= POLL_COUNTER + 1;
            && (Advance(p, reply).open <==> more)
            && |Advance(p, reply).polls| == |p.polls| + (if more then 1 else 0)
            && Advance(p, reply).polls
               == p.polls + (if more then [Advance(p, reply).polls[|p.polls|]] else [])
            && (more ==> Advance(p, reply).polls[|p.polls|].notUntil == reply.now + 120 * SECOND)
            && CountsDown(Advance(p, reply).polls, first)
            && Advance(p, reply).keys
               == p.keys + if |p.polls| <= POLL_COUNTER + 1 && KeyGiven(reply).Some?
                           then [(first.id, KeyGiven(reply).value)] else []
  {
    var latest := p.polls[|p.polls| - 1];
    CounterRoundTripExact(POLL_COUNTER - (|p.polls| - 1));
    KeyEscrows(reply);
    hide MarshalInt;
    hide LoadContext;
    hide Escrows;
    hide KeyGiven;
  }

  lemma KeyEscrows(reply: Reply)
    ensures KeyGiven(reply).Some?
            <==> |reply.results| == 1 && reply.results[0].SecurityInfoResponse?
                 && Escrows(reply.results[0], reply.storeTakes)
    ensures KeyGiven(reply).Some? ==> reply.results[0].recoveryKey == KeyGiven(reply)
  {
  }

  // The first poll follows the installation after two minutes, for the same
  // instance and enrollment, with the counter at 180; so polling from there ends
  // as it should.
  lemma PollingFromInstall(step: StepResult, now: Time, storeTakes: bool, replies: seq<Reply>)
    requires step.name == STEP_INSTALL && step.results == [InstallProfileResponse(true)]
    ensures var first := Enqueued(step.instanceID, "poll", step.id, MarshalInt(180), now + 120 * SECOND);
            && Enqueues(step, now, storeTakes) == [first]
            && var p := Poll(first, replies);
            && CountsDown(p.polls, first) && |p.polls| == 1 + Min(Leading(replies), 181)
            && KeysExact(first, replies, p.keys)
  {
    PollingEnds(Enqueued(step.instanceID, STEP_POLL, step.id, MarshalInt(POLL_COUNTER), now + POLL_INTERVAL), replies);
    hide MarshalInt;
    hide Poll;
    hide CountsDown;
    hide KeysExact;
  }
}
