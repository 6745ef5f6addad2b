/**
 Exclusivity over whole runs of the engine: a run is a sequence of handlers, each
 of which does one thing to the storage, calls workflows back for it, and stores
 the steps that they enqueue.
 */
module Exclusive {
  import opened Wrappers
  import opened Records
  import opened Tracker
  import opened Invariant
  import opened Delivery
  import opened Runs
  import opened Registry
  import opened Engine

  datatype Trigger =
    | Start(name: string, ids: seq<string>)
    | Respond(id: string, sc: StepCommandResult)
    | TimeOutPass(now: Time)
    | Event(name: string, id: string) // the workflow is told of an event, unchecked
    | Quiet(op: Op) // releasing, re-pushing, cancelling: nobody is called back

  datatype Handler = Handler(trigger: Trigger, stores: seq<Op>)

  ghost function Triggered(st: State, trigger: Trigger): State {
    match trigger
    case Start(_, _) => st
    case Respond(id, sc) => Next(st, RespondOp(id, sc))
    case TimeOutPass(now) => Next(st, TimeOutOp(now))
    case Event(_, _) => st
    case Quiet(op) => Next(st, op)
  }

  // Whether the trigger calls the workflow back for the enrollment.
  ghost predicate CalledBack(st: State, trigger: Trigger, name: string, i: string) {
    match trigger
    case Start(n, ids) => n == name && i in ids && !Excluded(st, name, ids, i)
    case Respond(id, sc) =>
      && id == i && Completes(st, id, sc)
      && st.steps[st.rows[CmdKey(id, sc.commandUUID)].stepID].ctx.workflowName == name
    case TimeOutPass(now) =>
      exists s :: Expired(st, s, now) && Live(st, s, i) && st.steps[s].ctx.workflowName == name
    case Event(n, id) => n == name && i == id
    case Quiet(_) => false
  }

  ghost function StoreAll(st: State, stores: seq<Op>): State
    decreases |stores|
  {
    if stores == [] then st else StoreAll(Next(st, stores[0]), stores[1..])
  }

  ghost predicate MayStoreAll(st: State, stores: seq<Op>)
    decreases |stores|
  {
    stores == [] || (stores[0].StoreOp? && May(st, stores[0]) && MayStoreAll(Next(st, stores[0]), stores[1..]))
  }

  // The IDs that a store enqueues a step of the workflow for.
  ghost predicate Enqueues(op: Op, name: string, i: string) {
    op.StoreOp? && op.cfg.Some? && op.cfg.value.ctx.workflowName == name && i in op.cfg.value.ids
  }

  // A workflow enqueues steps only for the IDs it is called back for, and at
  // most one for each.
  ghost predicate OneStepEach(st: State, h: Handler, name: string) {
    && (forall m, i :: 0 <= m < |h.stores| && Enqueues(h.stores[m], name, i) ==> CalledBack(st, h.trigger, name, i))
    && Apart(h.stores, name)
  }

  ghost predicate Apart(stores: seq<Op>, name: string) {
    forall a, b, i :: 0 <= a < b < |stores| && Enqueues(stores[a], name, i) ==> !Enqueues(stores[b], name, i)
  }

  ghost predicate MayTrigger(st: State, trigger: Trigger) {
    match trigger
    case Start(_, ids) => Distinct(ids)
    case Respond(id, sc) => May(st, RespondOp(id, sc))
    case TimeOutPass(_) => true
    case Event(_, _) => true
    case Quiet(op) => op.ReleaseOp? || op.RePushOp? || op.CancelOp?
  }

  // A workflow that is told of an event enqueues for it only if it has no live
  // step for the enrollment: nothing but the workflow itself sees to that.
  ghost predicate EventsAside(st: State, h: Handler, name: string) {
    h.trigger.Event? ==> forall m, i :: 0 <= m < |h.stores| && Enqueues(h.stores[m], name, i) ==> Free(st, name, i)
  }

  ghost predicate MayHandle(st: State, h: Handler, name: string) {
    && MayTrigger(st, h.trigger) && MayStoreAll(Triggered(st, h.trigger), h.stores)
    && OneStepEach(st, h, name) && EventsAside(st, h, name)
  }

  ghost function EngineRun(hs: seq<Handler>): State {
    if hs == [] then Init
    else
      var h := hs[|hs| - 1];
      StoreAll(Triggered(EngineRun(hs[..|hs| - 1]), h.trigger), h.stores)
  }

  ghost predicate MayRun(hs: seq<Handler>, name: string) {
    hs == [] || (MayRun(hs[..|hs| - 1], name) && MayHandle(EngineRun(hs[..|hs| - 1]), hs[|hs| - 1], name))
  }

  /* ---- At most one live step ---- */

  ghost predicate LiveOf(st: State, s: string, i: string, name: string) {
    Live(st, s, i) && st.steps[s].ctx.workflowName == name
  }

  ghost predicate Sole(st: State, name: string) {
    forall i, s, t :: LiveOf(st, s, i, name) && LiveOf(st, t, i, name) ==> s == t
  }

  ghost predicate Free(st: State, name: string, i: string) {
    forall s :: !LiveOf(st, s, i, name)
  }

  // A store adds its own step and changes no other.
  lemma StoreLiveOf(st: State, op: Op, s: string, i: string, name: string)
    requires Inv(st) && op.StoreOp? && May(st, op)
    ensures LiveOf(Next(st, op), s, i, name) ==> LiveOf(st, s, i, name) || (s == op.s && Enqueues(op, name, i))
  {
    StoreBalance(st, op, s, i);
    NextKeepsInv(st, op);
    if Live(Next(st, op), s, i) {
      LiveStep(Next(st, op), s);
      if Live(st, s, i) {
        LiveStep(st, s);
      }
    }
  }

  // Nothing else makes a pair live.
  lemma QuietLiveOf(st: State, op: Op, s: string, i: string, name: string)
    requires Inv(st) && !op.StoreOp? && May(st, op)
    ensures LiveOf(Next(st, op), s, i, name) ==> LiveOf(st, s, i, name)
    ensures Happens(st, op, Finished, s, i) || Happens(st, op, TimedOut, s, i) ==> !Live(Next(st, op), s, i)
  {
    NextBalance(st, op, s, i);
    NextKeepsInv(st, op);
    if Live(Next(st, op), s, i) {
      LiveStep(Next(st, op), s);
      LiveStep(st, s);
      KeepsOrigin(st, op);
    }
  }

  lemma KeepsOrigin(st: State, op: Op)
    requires !op.StoreOp?
    ensures Next(st, op).origin == st.origin
  {
  }

  // An operation that ends the enrollment's own live step leaves it free.
  lemma EndedFree(st: State, op: Op, own: string, name: string, i: string)
    requires Inv(st) && Sole(st, name) && !op.StoreOp? && May(st, op) && LiveOf(st, own, i, name)
    requires Happens(st, op, Finished, own, i) || Happens(st, op, TimedOut, own, i)
    ensures Free(Next(st, op), name, i)
  {
    forall s
      ensures !LiveOf(Next(st, op), s, i, name)
    {
      QuietLiveOf(st, op, s, i, name);
    }
    hide Inv;
    hide Next;
    hide May;
    hide Happens;
  }

  // Whoever is called back, other than for an event, has no live step of the
  // workflow after the trigger.
  lemma CalledBackFree(st: State, trigger: Trigger, name: string, i: string)
    requires Inv(st) && Sole(st, name) && MayTrigger(st, trigger) && CalledBack(st, trigger, name, i)
    requires !trigger.Event?
    ensures Free(Triggered(st, trigger), name, i)
  {
    hide Inv;
    hide Sole;
    hide Next;
    match trigger
    case Start(_, ids) =>
      DistinctCounts(ids);
      OutstandingExact(st, name, i);
    case Respond(id, sc) =>
      RowIsLive(st, CmdKey(id, sc.commandUUID));
      EndedFree(st, RespondOp(id, sc), st.rows[CmdKey(id, sc.commandUUID)].stepID, name, i);
    case TimeOutPass(now) =>
      var own :| Expired(st, own, now) && Live(st, own, i) && st.steps[own].ctx.workflowName == name;
      EndedFree(st, TimeOutOp(now), own, name, i);
    case Quiet(_) =>
  }

  // This is what the engine's start does. Whoever it hands to an exclusive
  // workflow is called back as in these runs, and has no live step of it unless
  // it is listed more than once; others get all their IDs.
  lemma StartedAreCalledBack(st: State, config: Option<Config>, multiCommands: bool, name: string, ids: seq<string>,
                             groups: seq<seq<string>>)
    requires AreGroups(st, config, multiCommands, name, ids, groups)
    ensures config.Some? && !config.value.exclusive ==> Flat(groups) == ids
    ensures config.None? || config.value.exclusive ==>
              forall i :: i in Flat(groups) <==> CalledBack(st, Start(name, ids), name, i)
    ensures config.None? || config.value.exclusive ==>
              forall i :: i in Flat(groups) <==> i in ids && (Outstanding(st, name, i) ==> multiset(ids)[i] > 1)
    ensures (config.None? || config.value.exclusive) && Inv(st) && Distinct(ids) ==>
              forall i :: i in Flat(groups) <==> i in ids && Free(st, name, i)
  {
    hide Inv;
    hide Free;
    if (config.None? || config.value.exclusive) && Inv(st) && Distinct(ids) {
      forall i
        ensures i in ids && !Excluded(st, name, ids, i) <==> i in ids && Free(st, name, i)
      {
        DistinctCounts(ids);
        FreeIsNotOutstanding(st, name, i);
        hide Outstanding;
      }
    }
  }

  lemma FreeIsNotOutstanding(st: State, name: string, i: string)
    requires Inv(st)
    ensures Free(st, name, i) <==> !Outstanding(st, name, i)
  {
    hide Inv;
    hide Outstanding;
    hide Live;
    OutstandingExact(st, name, i);
    LiveAreStored(st, i);
    if Outstanding(st, name, i) {
      var s :| Live(st, s, i) && st.steps[s].ctx.workflowName == name;
      assert LiveOf(st, s, i, name);
    }
    if s :| LiveOf(st, s, i, name) {
      assert Live(st, s, i) && st.steps[s].ctx.workflowName == name;
    }
  }

  lemma TriggerKeepsSole(st: State, trigger: Trigger, name: string)
    requires Inv(st) && Sole(st, name) && MayTrigger(st, trigger)
    ensures Inv(Triggered(st, trigger)) && Sole(Triggered(st, trigger), name)
  {
    if !trigger.Start? && !trigger.Event? {
      var op := match trigger
        case Respond(id, sc) => RespondOp(id, sc)
        case TimeOutPass(now) => TimeOutOp(now)
        case Quiet(op) => op;
      NextKeepsInv(st, op);
      forall i, s
        ensures LiveOf(Next(st, op), s, i, name) ==> LiveOf(st, s, i, name)
      {
        QuietLiveOf(st, op, s, i, name);
      }
    }
  }

  lemma StoreKeepsSole(st: State, op: Op, name: string)
    requires Inv(st) && Sole(st, name) && op.StoreOp? && May(st, op)
    requires forall i :: Enqueues(op, name, i) ==> Free(st, name, i)
    ensures Inv(Next(st, op)) && Sole(Next(st, op), name)
    ensures forall i :: Free(st, name, i) && !Enqueues(op, name, i) ==> Free(Next(st, op), name, i)
  {
    NextKeepsInv(st, op);
    forall s, i
      ensures LiveOf(Next(st, op), s, i, name) ==> LiveOf(st, s, i, name) || (s == op.s && Enqueues(op, name, i))
    {
      StoreLiveOf(st, op, s, i, name);
    }
    hide Inv;
    hide LiveOf;
    hide Next;
    hide Enqueues;
    hide May;
  }

  lemma {:induction false} StoresKeepSole(st: State, stores: seq<Op>, name: string)
    requires Inv(st) && Sole(st, name) && MayStoreAll(st, stores) && Apart(stores, name)
    requires forall m, i :: 0 <= m < |stores| && Enqueues(stores[m], name, i) ==> Free(st, name, i)
    ensures Inv(StoreAll(st, stores)) && Sole(StoreAll(st, stores), name)
    decreases |stores|
  {
    if stores != [] {
      var op := stores[0];
      var rest := stores[1..];
      StoreKeepsSole(st, op, name);
      hide Inv;
      hide Sole;
      hide Free;
      hide Next;
      hide May;
      hide Enqueues;
      forall m, i | 0 <= m < |rest| && Enqueues(rest[m], name, i)
        ensures Free(Next(st, op), name, i)
      {
        assert rest[m] == stores[m + 1];
        assert !Enqueues(op, name, i);
      }
      ApartRest(stores, name);
      StoresKeepSole(Next(st, op), rest, name);
    }
  }

  lemma ApartRest(stores: seq<Op>, name: string)
    requires stores != [] && Apart(stores, name)
    ensures Apart(stores[1..], name)
  {
    hide Enqueues;
    forall a, b, i | 0 <= a < b < |stores[1..]| && Enqueues(stores[1..][a], name, i)
      ensures !Enqueues(stores[1..][b], name, i)
    {
      assert stores[1..][a] == stores[a + 1] && stores[1..][b] == stores[b + 1];
    }
  }

  // In every run whose handlers are serialised, no enrollment ever has two live
  // steps of a workflow that runs exclusively, if inputs are distinct and the
  // workflow enqueues at most one step per callback for an enrollment, and for an
  // event only for an enrollment that is free.
  lemma {:induction false} ExclusiveRuns(hs: seq<Handler>, name: string)
    requires MayRun(hs, name)
    ensures Inv(EngineRun(hs)) && Sole(EngineRun(hs), name)
  {
    if hs == [] {
      InitInv();
    } else {
      var past := hs[..|hs| - 1];
      var h := hs[|hs| - 1];
      var st := EngineRun(past);
      ExclusiveRuns(past, name);
      TriggerKeepsSole(st, h.trigger, name);
      hide Inv;
      hide Sole;
      hide Free;
      hide CalledBack;
      assert h.trigger.Event? ==> Triggered(st, h.trigger) == st;
      hide Triggered;
      hide MayTrigger;
      forall m, i | 0 <= m < |h.stores| && Enqueues(h.stores[m], name, i)
        ensures Free(Triggered(st, h.trigger), name, i)
      {
        if !h.trigger.Event? {
          CalledBackFree(st, h.trigger, name, i);
        }
      }
      StoresKeepSole(Triggered(st, h.trigger), h.stores, name);
    }
  }

  // A step that is stored for an event keeps everybody at one live step exactly
  // if those that it is for had none.
  lemma EventExact(st: State, op: Op, name: string)
    requires Inv(st) && Sole(st, name) && op.StoreOp? && May(st, op) && Accepts(st, op.cfg)
    ensures Sole(Next(st, op), name) <==> forall i :: Enqueues(op, name, i) ==> Free(st, name, i)
  {
    hide Inv;
    hide Next;
    hide May;
    hide Accepts;
    hide Enqueues;
    hide LiveOf;
    if forall i :: Enqueues(op, name, i) ==> Free(st, name, i) {
      StoreKeepsSole(st, op, name);
    } else {
      var i, s :| Enqueues(op, name, i) && LiveOf(st, s, i, name);
      StaysLive(st, op, s, name, i);
      StoredLive(st, op, name, i);
    }
  }

  /* ---- The check and the store are two critical sections ---- */

  // The store is for IDs of a start whose check, in the state seen, leaves them
  // in.
  ghost predicate Allowed(seen: State, op: Op, name: string, ids: seq<string>) {
    Distinct(ids) && forall j :: Enqueues(op, name, j) ==> j in ids && !Excluded(seen, name, ids, j)
  }

  // Whom a check leaves in is free in the state that it saw.
  lemma AllowedFree(seen: State, op: Op, name: string, ids: seq<string>, i: string)
    requires Inv(seen) && Allowed(seen, op, name, ids) && Enqueues(op, name, i)
    ensures Free(seen, name, i)
  {
    DistinctCounts(ids);
    OutstandingExact(seen, name, i);
    hide Inv;
  }

  // An accepted store makes its step live for its enrollments.
  lemma StoredLive(st: State, op: Op, name: string, i: string)
    requires Inv(st) && op.StoreOp? && May(st, op) && Accepts(st, op.cfg) && Enqueues(op, name, i)
    ensures LiveOf(Next(st, op), op.s, i, name)
  {
    assert op.cfg == Some(op.cfg.value);
    StoreNewStep(st, op.s, op.cfg.value, op.now);
  }

  lemma StaysLive(st: State, op: Op, s: string, name: string, i: string)
    requires Inv(st) && op.StoreOp? && May(st, op) && Accepts(st, op.cfg) && LiveOf(st, s, i, name)
    ensures s != op.s && LiveOf(Next(st, op), s, i, name)
  {
    LiveStep(st, s);
    StoreBalance(st, op, s, i);
    NextKeepsInv(st, op);
    LiveStep(Next(st, op), s);
  }

  // A store for free enrollments keeps everybody at one live step at most.
  lemma AllowedKeepsSole(st: State, seen: State, op: Op, name: string, ids: seq<string>)
    requires Inv(st) && Sole(st, name) && op.StoreOp? && May(st, op) && Inv(seen) && Allowed(seen, op, name, ids)
    requires forall i :: Enqueues(op, name, i) && Free(seen, name, i) ==> Free(st, name, i)
    ensures Sole(Next(st, op), name)
    ensures forall i :: Free(st, name, i) && !Enqueues(op, name, i) ==> Free(Next(st, op), name, i)
  {
    hide Inv;
    hide Next;
    hide May;
    hide Allowed;
    hide Enqueues;
    hide Free;
    hide Sole;
    forall i | Enqueues(op, name, i)
      ensures Free(st, name, i)
    {
      AllowedFree(seen, op, name, ids, i);
    }
    StoreKeepsSole(st, op, name);
  }

  // Two steps for one enrollment are both live.
  lemma BothLive(st: State, a: Op, b: Op, name: string, j: string)
    requires Inv(st) && a.StoreOp? && b.StoreOp?
    requires May(st, a) && Accepts(st, a.cfg) && May(Next(st, a), b) && Accepts(Next(st, a), b.cfg)
    requires Enqueues(a, name, j) && Enqueues(b, name, j)
    ensures LiveOf(Next(st, a), a.s, j, name)
    ensures !Sole(Next(Next(st, a), b), name)
  {
    hide Inv;
    hide Next;
    hide May;
    hide Accepts;
    hide Enqueues;
    hide LiveOf;
    NextKeepsInv(st, a);
    StoredLive(st, a, name, j);
    StaysLive(Next(st, a), b, a.s, name, j);
    StoredLive(Next(st, a), b, name, j);
  }

  // Two starts, of which the second checks either before or after the first has
  // stored its step: at most one live step is kept for everybody exactly if the
  // two enqueue for no enrollment both, and that is always so if the second
  // check comes after the first store.
  lemma RaceExact(st: State, a: Op, idsA: seq<string>, b: Op, idsB: seq<string>, seen: State, name: string)
    requires Inv(st) && Sole(st, name) && a.StoreOp? && b.StoreOp?
    requires May(st, a) && Accepts(st, a.cfg) && May(Next(st, a), b) && Accepts(Next(st, a), b.cfg)
    requires Allowed(st, a, name, idsA)
    requires (seen == st || seen == Next(st, a)) && Allowed(seen, b, name, idsB)
    ensures Sole(Next(Next(st, a), b), name) <==> forall j :: !(Enqueues(a, name, j) && Enqueues(b, name, j))
    ensures seen == Next(st, a) ==> Sole(Next(Next(st, a), b), name)
  {
    hide Inv;
    hide Next;
    hide May;
    hide Accepts;
    hide Allowed;
    hide Enqueues;
    hide Sole;
    hide Free;
    hide LiveOf;
    NextKeepsInv(st, a);
    AllowedKeepsSole(st, st, a, name, idsA);
    if j :| Enqueues(a, name, j) && Enqueues(b, name, j) {
      BothLive(st, a, b, name, j);
      AllowedFree(seen, b, name, idsB, j);
      FreeExact(seen, name, j, a.s);
    } else {
      AllowedKeepsSole(Next(st, a), seen, b, name, idsB);
    }
  }

  lemma FreeExact(st: State, name: string, i: string, s: string)
    ensures Free(st, name, i) ==> !LiveOf(st, s, i, name)
  {
  }
}
