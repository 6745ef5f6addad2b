/**
 Whole runs of the tracker: every sequence of operations that follows the usage
 rules, from the empty store.
 */
module Runs {
  import opened Wrappers
  import opened Records
  import opened Tracker
  import opened Invariant

  datatype Op =
    | StoreOp(s: string, cfg: Option<StepEnqueuingWithConfig>, now: Time)
    | RespondOp(id: string, sc: StepCommandResult)
    | ReleaseOp(now: Time, pushTime: Time)
    | TimeOutOp(now: Time)
    | RePushOp(ifBefore: Time, setTo: Time)
    | CancelOp(id: string, workflowName: string)

  ghost function Next(st: State, op: Op): State {
    match op
    case StoreOp(s, cfg, now) => Store(st, s, cfg, now)
    case RespondOp(id, sc) => Respond(st, id, sc)
    case ReleaseOp(now, pushTime) => Release(st, now, pushTime)
    case TimeOutOp(now) => TimeOut(st, now)
    case RePushOp(ifBefore, setTo) => RePush(st, ifBefore, setTo)
    case CancelOp(id, workflowName) => Cancel(st, id, workflowName)
  }

  ghost predicate May(st: State, op: Op) {
    match op
    case StoreOp(s, cfg, _) => MayStore(st, s, cfg)
    case RespondOp(id, sc) => MayRespond(st, id, sc)
    case _ => true
  }

  ghost function Run(ops: seq<Op>): State {
    if ops == [] then Init else Next(Run(ops[..|ops| - 1]), ops[|ops| - 1])
  }

  ghost predicate Admissible(ops: seq<Op>) {
    ops == [] || (Admissible(ops[..|ops| - 1]) && May(Run(ops[..|ops| - 1]), ops[|ops| - 1]))
  }

  lemma NextKeepsInv(st: State, op: Op)
    requires Inv(st) && May(st, op)
    ensures Inv(Next(st, op))
  {
    match op
    case StoreOp(s, cfg, now) => StoreKeepsInv(st, s, cfg, now);
    case RespondOp(id, sc) => RespondKeepsInv(st, id, sc);
    case ReleaseOp(now, pushTime) => ReleaseKeepsInv(st, now, pushTime);
    case TimeOutOp(now) => TimeOutKeepsInv(st, now);
    case RePushOp(ifBefore, setTo) => RePushKeepsInv(st, ifBefore, setTo);
    case CancelOp(id, workflowName) => CancelKeepsInv(st, id, workflowName);
  }

  // The invariant holds in every reachable state.
  lemma {:induction false} RunKeepsInv(ops: seq<Op>)
    requires Admissible(ops)
    ensures Inv(Run(ops))
  {
    if ops == [] {
      InitInv();
    } else {
      RunKeepsInv(ops[..|ops| - 1]);
      NextKeepsInv(Run(ops[..|ops| - 1]), ops[|ops| - 1]);
    }
  }

  /* ---- Conservation: what becomes of a stored (step, enrollment) ---- */

  datatype Fate = Started | Finished | TimedOut | Cancelled | Lost

  // Whether op, applied in st, gives (s, i) this fate. Lost is the fate of an
  // enrollment whose step was deleted by cancelling another enrollment.
  ghost predicate Happens(st: State, op: Op, fate: Fate, s: string, i: string) {
    match fate
    case Started => op.StoreOp? && op.s == s && Accepts(st, op.cfg) && i in op.cfg.value.ids
    case Finished =>
      && op.RespondOp? && op.id == i && Completes(st, i, op.sc)
      && st.rows[CmdKey(i, op.sc.commandUUID)].stepID == s
    case TimedOut => op.TimeOutOp? && Expired(st, s, op.now) && Live(st, s, i)
    case Cancelled => op.CancelOp? && op.id == i && Matches(st, s, i, op.workflowName) && Live(st, s, i)
    case Lost => op.CancelOp? && op.id != i && Matches(st, s, op.id, op.workflowName) && Live(st, s, i)
  }

  function Bit(b: bool): nat {
    if b then 1 else 0
  }

  ghost function Times(ops: seq<Op>, fate: Fate, s: string, i: string): nat {
    if ops == [] then 0
    else Times(ops[..|ops| - 1], fate, s, i)
         + Bit(Happens(Run(ops[..|ops| - 1]), ops[|ops| - 1], fate, s, i))
  }

  ghost predicate StepBalance(st: State, op: Op, s: string, i: string) {
    Bit(Live(st, s, i)) + Bit(Happens(st, op, Started, s, i))
    == Bit(Live(Next(st, op), s, i)) + Bit(Happens(st, op, Finished, s, i)) + Bit(Happens(st, op, TimedOut, s, i))
       + Bit(Happens(st, op, Cancelled, s, i)) + Bit(Happens(st, op, Lost, s, i))
  }

  lemma StoreBalanceOld(st: State, op: Op, s: string, i: string)
    requires op.StoreOp? && Accepts(st, op.cfg) && s != op.s
    requires s in st.steps ==> forall u :: u in st.steps[s].uuids ==> u !in Uuids(op.cfg.value.commands)
    ensures StepBalance(st, op, s, i)
  {
    assert Live(st, s, i) <==> Live(Next(st, op), s, i);
  }

  lemma StoreBalance(st: State, op: Op, s: string, i: string)
    requires Inv(st) && May(st, op) && op.StoreOp?
    ensures StepBalance(st, op, s, i)
  {
    if Accepts(st, op.cfg) {
      assert op.cfg == Some(op.cfg.value);
      assert s in st.steps ==> StepOK(st, s);
      if s == op.s {
        assert !Live(st, s, i);
        StoreNewStep(st, s, op.cfg.value, op.now);
      } else {
        if s in st.steps {
          forall u | u in st.steps[s].uuids
            ensures u !in Uuids(op.cfg.value.commands)
          {
            assert Owns(st, s, u);
          }
        }
        StoreBalanceOld(st, op, s, i);
      }
    }
  }

  // Operations that hand nothing out and leave the same pairs live balance.
  lemma QuietBalance(st: State, op: Op, s: string, i: string)
    requires op.ReleaseOp? || op.RePushOp? || (op.RespondOp? && !Completes(st, op.id, op.sc))
    requires Live(st, s, i) <==> Live(Next(st, op), s, i)
    ensures StepBalance(st, op, s, i)
  {
    hide Next;
    hide Live;
  }

  lemma RecordBalance(st: State, op: Op, s: string, i: string)
    requires op.RespondOp? && !Completes(st, op.id, op.sc)
    ensures StepBalance(st, op, s, i)
  {
    assert Live(st, s, i) <==> Live(Next(st, op), s, i);
    QuietBalance(st, op, s, i);
  }

  lemma FinishBalanceOwn(st: State, op: Op, s: string, i: string)
    requires op.RespondOp? && Completes(st, op.id, op.sc)
    requires st.rows[CmdKey(op.id, op.sc.commandUUID)].stepID == s
    requires Live(st, s, op.id) && op.sc.commandUUID in st.steps[s].uuids
    ensures StepBalance(st, op, s, i)
  {
    var st' := Next(st, op);
    if i == op.id {
      assert CmdKey(i, op.sc.commandUUID) !in st'.rows;
      assert !Live(st', s, i);
    } else if Live(st, s, i) {
      assert Live(st', s, i);
    }
  }

  lemma FinishBalanceOther(st: State, op: Op, s: string, i: string)
    requires op.RespondOp? && Completes(st, op.id, op.sc)
    requires st.rows[CmdKey(op.id, op.sc.commandUUID)].stepID != s
    requires s in st.steps ==> forall u :: u in st.steps[s].uuids ==>
               u !in st.steps[st.rows[CmdKey(op.id, op.sc.commandUUID)].stepID].uuids
    ensures StepBalance(st, op, s, i)
  {
    assert Live(st, s, i) <==> Live(Next(st, op), s, i);
  }

  lemma RespondBalance(st: State, op: Op, s: string, i: string)
    requires Inv(st) && May(st, op) && op.RespondOp?
    ensures StepBalance(st, op, s, i)
  {
    if Completes(st, op.id, op.sc) {
      var key := CmdKey(op.id, op.sc.commandUUID);
      var t := st.rows[key].stepID;
      RowIsLive(st, key);
      if t == s {
        FinishBalanceOwn(st, op, s, i);
      } else {
        if s in st.steps {
          forall u | u in st.steps[s].uuids
            ensures u !in st.steps[t].uuids
          {
            if u in st.steps[t].uuids {
              Disjoint(st, s, t, u);
            }
          }
        }
        FinishBalanceOther(st, op, s, i);
      }
    } else {
      RecordBalance(st, op, s, i);
    }
  }

  lemma ReleaseKeepsLive(st: State, now: Time, pushTime: Time, s: string, i: string)
    requires s in st.steps && i in st.steps[s].ids ==> i !in st.steps
    ensures Live(st, s, i) <==> Live(Release(st, now, pushTime), s, i)
  {
    if s in st.steps && i in st.steps[s].ids {
      forall u | u in st.steps[s].uuids {
        ReleaseKeepsIDRow(st, now, pushTime, i, u);
      }
    }
  }

  lemma ReleaseBalance(st: State, op: Op, s: string, i: string)
    requires Inv(st) && op.ReleaseOp?
    ensures StepBalance(st, op, s, i)
  {
    if s in st.steps && i in st.steps[s].ids {
      IDsAreNoSteps(st, s);
    }
    ReleaseKeepsLive(st, op.now, op.pushTime, s, i);
    QuietBalance(st, op, s, i);
  }

  // Dropping whole steps leaves the other steps as live as they were.
  lemma DropBalanceKept(st: State, op: Op, s: string, i: string)
    requires op.TimeOutOp? || op.CancelOp?
    requires s in st.steps ==> forall u :: u in st.steps[s].uuids && CmdKey(i, u) in st.rows ==>
               st.rows[CmdKey(i, u)].stepID == s
    ensures StepBalance(st, op, s, i)
  {
    assert s in Next(st, op).steps ==> (Live(st, s, i) <==> Live(Next(st, op), s, i));
  }

  lemma DropBalance(st: State, op: Op, s: string, i: string)
    requires Inv(st) && (op.TimeOutOp? || op.CancelOp?)
    ensures StepBalance(st, op, s, i)
  {
    if s in st.steps {
      forall u | u in st.steps[s].uuids && CmdKey(i, u) in st.rows
        ensures st.rows[CmdKey(i, u)].stepID == s
      {
        PointsBack(st, s, i, u);
      }
    }
    DropBalanceKept(st, op, s, i);
  }

  lemma RePushBalance(st: State, op: Op, s: string, i: string)
    requires op.RePushOp?
    ensures StepBalance(st, op, s, i)
  {
    assert Live(st, s, i) <==> Live(Next(st, op), s, i);
    QuietBalance(st, op, s, i);
  }

  lemma NextBalance(st: State, op: Op, s: string, i: string)
    requires Inv(st) && May(st, op)
    ensures StepBalance(st, op, s, i)
  {
    match op
    case StoreOp(_, _, _) => StoreBalance(st, op, s, i);
    case RespondOp(_, _) => RespondBalance(st, op, s, i);
    case ReleaseOp(_, _) => ReleaseBalance(st, op, s, i);
    case RePushOp(_, _) => RePushBalance(st, op, s, i);
    case _ => DropBalance(st, op, s, i);
  }

  ghost predicate Assigned(st: State, s: string, i: string) {
    s in st.origin && i in st.origin[s].ids
  }

  lemma NextAssigned(st: State, op: Op, s: string, i: string)
    requires Inv(st) && May(st, op)
    ensures Bit(Assigned(Next(st, op), s, i)) == Bit(Assigned(st, s, i)) + Bit(Happens(st, op, Started, s, i))
  {
  }

  // In every run each stored (step, enrollment) is exactly one of: still live,
  // handed out complete once, handed out timed out once, cancelled, or lost.
  lemma {:induction false} Conservation(ops: seq<Op>, s: string, i: string)
    requires Admissible(ops)
    ensures Times(ops, Started, s, i) == Bit(Assigned(Run(ops), s, i))
    ensures Times(ops, Started, s, i)
            == Bit(Live(Run(ops), s, i)) + Times(ops, Finished, s, i) + Times(ops, TimedOut, s, i)
               + Times(ops, Cancelled, s, i) + Times(ops, Lost, s, i)
  {
    if ops != [] {
      var past := ops[..|ops| - 1];
      Conservation(past, s, i);
      RunKeepsInv(past);
      NextBalance(Run(past), ops[|ops| - 1], s, i);
      NextAssigned(Run(past), ops[|ops| - 1], s, i);
    }
  }

  // Two different enrollments of one step.
  ghost predicate Siblings(st: State, s: string, i: string, j: string) {
    i != j && Assigned(st, s, i) && Assigned(st, s, j)
  }

  // An enrollment is lost only by cancelling another enrollment of its step.
  lemma {:induction false} LostOnlyByOthers(ops: seq<Op>, s: string, i: string)
    requires Admissible(ops) && Times(ops, Lost, s, i) > 0
    ensures exists n, j, w :: 0 <= n < |ops| && ops[n] == CancelOp(j, w) && Siblings(Run(ops[..n]), s, i, j)
  {
    var past := ops[..|ops| - 1];
    var op := ops[|ops| - 1];
    RunKeepsInv(past);
    if Happens(Run(past), op, Lost, s, i) {
      assert StepOK(Run(past), s);
      assert ops[|ops| - 1] == CancelOp(op.id, op.workflowName) && Siblings(Run(past), s, i, op.id);
    } else {
      LostOnlyByOthers(past, s, i);
      var n, j, w :| 0 <= n < |past| && past[n] == CancelOp(j, w) && Siblings(Run(past[..n]), s, i, j);
      assert ops[..n] == past[..n] && ops[n] == CancelOp(j, w);
    }
  }
}
