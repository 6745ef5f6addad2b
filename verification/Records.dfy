/** The engine's storage records and their validation. */
module Records {
  import opened Wrappers
  import opened Text

  // An instant; 0 is the zero time, which stands for "not set".
  type Time = int

  // Instants and durations count nanoseconds.
  const SECOND: Time := 1_000_000_000

  datatype StepContext = StepContext(workflowName: string, instanceID: string, name: string, context: Bytes)

  datatype StepCommandRaw = StepCommandRaw(commandUUID: string, requestType: string, command: Bytes)

  datatype StepCommandResult = StepCommandResult(
    commandUUID: string, requestType: string, resultReport: Bytes, completed: bool)

  datatype StepEnqueueing = StepEnqueueing(ctx: StepContext, ids: seq<string>, commands: seq<StepCommandRaw>)

  datatype StepEnqueuingWithConfig = StepEnqueuingWithConfig(
    ctx: StepContext, ids: seq<string>, commands: seq<StepCommandRaw>, notUntil: Time, timeout: Time)

  datatype StepResult = StepResult(ctx: StepContext, ids: seq<string>, commands: seq<StepCommandResult>)

  datatype ValidationError =
    | EmptyStorageStep
    | MissingWorkflowName
    | MissingInstanceID
    | MissingIDs
    | MissingCommands

  function ValidateContext(ctx: StepContext): Option<ValidationError> {
    if ctx.workflowName == "" then Some(MissingWorkflowName)
    else if ctx.instanceID == "" then Some(MissingInstanceID)
    else None
  }

  function ValidateStep(step: Option<StepEnqueuingWithConfig>): Option<ValidationError> {
    match step
    case None => Some(EmptyStorageStep)
    case Some(se) =>
      if ValidateContext(se.ctx).Some? then ValidateContext(se.ctx)
      else if |se.ids| < 1 then Some(MissingIDs)
      else if |se.commands| < 1 then Some(MissingCommands)
      else None
  }

  // A step may be unnamed and have no context.
  lemma ValidateExact(step: Option<StepEnqueuingWithConfig>)
    ensures ValidateStep(step).None?
            <==> step.Some? && step.value.ctx.workflowName != "" && step.value.ctx.instanceID != ""
                 && step.value.ids != [] && step.value.commands != []
  {
  }

  function Uuids(commands: seq<StepCommandRaw>): (uuids: seq<string>)
    ensures |uuids| == |commands|
    ensures forall j :: 0 <= j < |commands| ==> uuids[j] == commands[j].commandUUID
  {
    seq(|commands|, j requires 0 <= j < |commands| => commands[j].commandUUID)
  }

  // The first command carrying the UUID.
  function CommandOf(commands: seq<StepCommandRaw>, uuid: string): (command: StepCommandRaw)
    requires uuid in Uuids(commands)
    ensures command in commands && command.commandUUID == uuid
  {
    if commands[0].commandUUID == uuid then commands[0]
    else
      assert Uuids(commands)[1..] == Uuids(commands[1..]);
      CommandOf(commands[1..], uuid)
  }

  // The lookup finds the first command of a UUID.
  lemma {:induction false} CommandOfFirst(commands: seq<StepCommandRaw>, j: nat)
    requires j < |commands| && Uuids(commands)[j] !in Uuids(commands)[..j]
    ensures CommandOf(commands, Uuids(commands)[j]) == commands[j]
  {
    assert Uuids(commands)[j] in Uuids(commands);
    if j > 0 {
      assert Uuids(commands)[1..] == Uuids(commands[1..]);
      assert Uuids(commands)[0] == Uuids(commands)[..j][0];
      assert Uuids(commands[1..])[..j - 1] == Uuids(commands)[..j][1..];
      CommandOfFirst(commands[1..], j - 1);
    }
  }

  lemma CommandOfDistinct(commands: seq<StepCommandRaw>, j: nat)
    requires Distinct(Uuids(commands)) && j < |commands|
    ensures CommandOf(commands, Uuids(commands)[j]) == commands[j]
  {
    hide CommandOf;
    var uuids := Uuids(commands);
    assert forall m :: 0 <= m < j ==> uuids[m] != uuids[j];
    CommandOfFirst(commands, j);
  }

  /* ---- Lists without repetition ---- */

  predicate Distinct<T(==)>(s: seq<T>) {
    forall i, j :: 0 <= i < j < |s| ==> s[i] != s[j]
  }

  lemma DistinctExtend<T>(s: seq<T>, x: T)
    ensures Distinct(s + [x]) <==> Distinct(s) && x !in s
  {
    var t := s + [x];
    if Distinct(t) {
      forall i, j | 0 <= i < j < |s| ensures s[i] != s[j] {
        assert t[i] == s[i] && t[j] == s[j];
      }
      forall i | 0 <= i < |s| ensures s[i] != x {
        assert t[i] != t[|s|];
      }
    }
  }

  // Sequences without repetition and with the same elements.
  lemma {:induction false} SameMultiset<T>(a: seq<T>, b: seq<T>)
    requires Distinct(a) && Distinct(b) && forall x :: x in a <==> x in b
    ensures multiset(a) == multiset(b)
  {
    DistinctCounts(a);
    DistinctCounts(b);
    forall x
      ensures multiset(a)[x] == multiset(b)[x]
    {
    }
  }

  lemma {:induction false} DistinctCounts<T>(a: seq<T>)
    requires Distinct(a)
    ensures forall x :: multiset(a)[x] == if x in a then 1 else 0
  {
    if a != [] {
      var last := |a| - 1;
      assert a == a[..last] + [a[last]];
      DistinctExtend(a[..last], a[last]);
      DistinctCounts(a[..last]);
      assert multiset(a) == multiset(a[..last]) + multiset{a[last]};
    }
  }

  lemma {:induction false} DistinctSize<T>(a: seq<T>)
    requires Distinct(a)
    ensures |set x | x in a| == |a|
  {
    if a != [] {
      var last := |a| - 1;
      assert a == a[..last] + [a[last]];
      DistinctExtend(a[..last], a[last]);
      DistinctSize(a[..last]);
      assert (set x | x in a) == (set x | x in a[..last]) + {a[last]};
    }
  }

  // The elements of a set in no particular order.
  method Elements<T(==)>(items: set<T>) returns (listed: seq<T>)
    ensures Distinct(listed) && forall x :: x in listed <==> x in items
  {
    listed := [];
    var rest := items;
    while rest != {}
      invariant Distinct(listed) && rest <= items
      invariant forall x :: x in listed <==> x in items && x !in rest
      decreases rest
    {
      var x :| x in rest;
      listed := listed + [x];
      rest := rest - {x};
    }
  }
}
