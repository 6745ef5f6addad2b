/**
 The invariant that every operation of the tracker keeps, and the rules under
 which the operations are used: step IDs and command UUIDs are fresh, a step ID
 never is an enrollment ID, raw commands are not empty, and an enrollment answers
 only commands that have been sent to it.
 */
module Invariant {
  import opened Wrappers
  import opened Records
  import opened Tracker

  /* ---- The invariant ---- */

  ghost predicate Owns(st: State, s: string, u: string) {
    s in st.origin && u in Uuids(st.origin[s].commands)
  }

  ghost predicate ConfigOK(cfg: StepEnqueuingWithConfig) {
    && ValidateStep(Some(cfg)) == None
    && Distinct(cfg.ids)
    && Distinct(Uuids(cfg.commands))
    && (cfg.notUntil != 0 ==> forall c :: c in cfg.commands ==> c.command != "")
  }

  ghost predicate OriginOK(st: State) {
    && (forall s :: s in st.origin ==> ConfigOK(st.origin[s]))
    && (forall s, i :: s in st.origin && i in st.origin[s].ids ==> i !in st.origin)
    && (forall s, t, u :: Owns(st, s, u) && Owns(st, t, u) ==> s == t)
  }

  // For one enrollment of a stored step, either every command is tracked and
  // at least one still waits, or none is tracked.
  ghost predicate AllOrNone(st: State, id: string, uuids: seq<string>) {
    (Tracked(st.rows, id, uuids) && Waiting(st.rows, id, uuids)) || Untracked(st.rows, id, uuids)
  }

  ghost predicate SomeLive(st: State, s: string) {
    exists i :: Live(st, s, i)
  }

  ghost predicate StepOK(st: State, s: string)
    requires s in st.steps
  {
    var step := st.steps[s];
    && s in st.origin
    && (step.notUntil == 0 || step.notUntil == st.origin[s].notUntil)
    && step == NewStep(st.origin[s]).(notUntil := step.notUntil)
    && SomeLive(st, s)
    && (forall i :: i in step.ids ==> AllOrNone(st, i, step.uuids))
    && (step.notUntil != 0 ==> Tracked(st.rows, s, step.uuids) && forall i :: i in step.ids ==> Live(st, s, i))
  }

  ghost predicate RowOK(st: State, k: CmdKey)
    requires k in st.rows
  {
    var row := st.rows[k];
    && Owns(st, row.stepID, k.uuid)
    && var cfg := st.origin[row.stepID];
    && row.reqType == CommandOf(cfg.commands, k.uuid).requestType
    && (row.done ==> row.result.Some?)
    && (if k.owner == row.stepID then
          && cfg.notUntil != 0
          && row.raw == Some(CommandOf(cfg.commands, k.uuid).command)
          && row.lastPush == 0 && row.result == None && !row.done
          && (row.stepID in st.steps ==> st.steps[row.stepID].notUntil != 0)
        else
          && k.owner in cfg.ids
          && row.raw == None
          && (Delayed(st, row.stepID) ==> row.lastPush == 0))
  }

  ghost predicate Inv(st: State) {
    && OriginOK(st)
    && (forall s :: s in st.steps ==> StepOK(st, s))
    && (forall k :: k in st.rows ==> RowOK(st, k))
  }

  /* ---- How the operations are used ---- */

  ghost predicate FreshStepID(st: State, s: string, cfg: StepEnqueuingWithConfig) {
    && s !in st.origin
    && s !in cfg.ids
    && (forall i :: i in cfg.ids ==> i !in st.origin)
    && (forall t :: t in st.origin ==> s !in st.origin[t].ids)
  }

  ghost predicate FreshUuids(st: State, cfg: StepEnqueuingWithConfig) {
    forall u, t :: u in Uuids(cfg.commands) ==> !Owns(st, t, u)
  }

  ghost predicate RawPresent(cfg: StepEnqueuingWithConfig) {
    cfg.notUntil != 0 ==> forall c :: c in cfg.commands ==> c.command != ""
  }

  ghost predicate MayStore(st: State, s: string, cfg: Option<StepEnqueuingWithConfig>) {
    Accepts(st, cfg) ==> FreshStepID(st, s, cfg.value) && FreshUuids(st, cfg.value) && RawPresent(cfg.value)
  }

  // id is an enrollment, not a step, and does not complete a step whose commands
  // have not been sent yet.
  ghost predicate MayRespond(st: State, id: string, sc: StepCommandResult) {
    id !in st.origin && !CompletesEarly(st, id, sc)
  }

  ghost predicate CompletesEarly(st: State, id: string, sc: StepCommandResult) {
    Completes(st, id, sc) && Delayed(st, st.rows[CmdKey(id, sc.commandUUID)].stepID)
  }

  /* ---- Consequences ---- */

  lemma InitInv()
    ensures Inv(Init)
  {
  }

  lemma StoredInOrigin(st: State, s: string)
    requires Inv(st)
    ensures s in st.steps ==> s in st.origin
  {
    assert s in st.steps ==> StepOK(st, s);
  }

  // Enrollments are no steps.
  lemma IDsAreNoSteps(st: State, s: string)
    requires Inv(st) && s in st.steps
    ensures forall i :: i in st.steps[s].ids ==> i !in st.steps && i !in st.origin
  {
    assert StepOK(st, s);
    forall i {
      StoredInOrigin(st, i);
    }
  }

  // Rows belong to steps and their enrollments.
  lemma OwnerInOrigin(st: State, k: CmdKey)
    requires Inv(st)
    ensures k in st.rows ==> k.owner in st.origin || exists s :: s in st.origin && k.owner in st.origin[s].ids
  {
    assert k in st.rows ==> RowOK(st, k);
  }

  // A tracked command of a stored step points back to that step.
  lemma PointsBack(st: State, s: string, id: string, u: string)
    requires Inv(st) && s in st.steps && u in st.steps[s].uuids && CmdKey(id, u) in st.rows
    ensures st.rows[CmdKey(id, u)].stepID == s
  {
    assert StepOK(st, s) && RowOK(st, CmdKey(id, u));
    assert Owns(st, s, u) && Owns(st, st.rows[CmdKey(id, u)].stepID, u);
  }

  // A row of a stored step for an enrollment makes the step live for it.
  lemma RowIsLive(st: State, k: CmdKey)
    requires Inv(st) && k in st.rows && st.rows[k].stepID in st.steps && k.owner !in st.origin
    ensures k.owner in st.steps[st.rows[k].stepID].ids
    ensures k.uuid in st.steps[st.rows[k].stepID].uuids
    ensures Live(st, st.rows[k].stepID, k.owner)
  {
    var s := st.rows[k].stepID;
    assert RowOK(st, k) && StepOK(st, s);
    assert AllOrNone(st, k.owner, st.steps[s].uuids);
  }

  // What a step needs to stay well-formed when rows change around it.
  lemma StepFrame(st: State, st': State, s: string)
    requires s in st.steps && StepOK(st, s)
    requires s in st'.steps && st'.steps[s] == st.steps[s]
    requires s in st'.origin && st'.origin[s] == st.origin[s]
    requires forall i, u :: u in st.steps[s].uuids && (i == s || i in st.steps[s].ids) ==>
               (CmdKey(i, u) in st.rows <==> CmdKey(i, u) in st'.rows)
    requires forall i, u :: u in st.steps[s].uuids && i in st.steps[s].ids && CmdKey(i, u) in st.rows ==>
               st.rows[CmdKey(i, u)].done == st'.rows[CmdKey(i, u)].done
    ensures StepOK(st', s)
  {
    var step := st.steps[s];
    forall i | i in step.ids
      ensures AllOrNone(st', i, step.uuids)
      ensures Live(st, s, i) ==> Live(st', s, i)
    {
      assert AllOrNone(st, i, step.uuids);
      if Waiting(st.rows, i, step.uuids) {
        var u :| u in step.uuids && CmdKey(i, u) in st.rows && !st.rows[CmdKey(i, u)].done;
        assert CmdKey(i, u) in st'.rows;
      }
    }
    var i :| Live(st, s, i);
    assert Live(st', s, i);
  }

  // What a row needs to stay well-formed when the state changes around it.
  lemma RowFrame(st: State, st': State, k: CmdKey)
    requires k in st.rows && RowOK(st, k)
    requires k in st'.rows && st'.rows[k] == st.rows[k]
    requires st.rows[k].stepID in st'.origin && st'.origin[st.rows[k].stepID] == st.origin[st.rows[k].stepID]
    requires st.rows[k].stepID in st'.steps ==>
               st.rows[k].stepID in st.steps && st'.steps[st.rows[k].stepID] == st.steps[st.rows[k].stepID]
    ensures RowOK(st', k)
  {
  }

  // The history does not change, so what it says about ownership does not.
  lemma OriginFrame(st: State, st': State)
    requires OriginOK(st) && st'.origin == st.origin
    ensures OriginOK(st')
  {
    forall a, b, u | Owns(st', a, u) && Owns(st', b, u)
      ensures a == b
    {
      assert Owns(st, a, u) && Owns(st, b, u);
    }
  }

  // Two steps do not share a command.
  lemma Disjoint(st: State, s: string, t: string, u: string)
    requires OriginOK(st) && s in st.steps && t in st.steps && StepOK(st, s) && StepOK(st, t)
    requires u in st.steps[s].uuids && u in st.steps[t].uuids
    ensures s == t
  {
    assert Owns(st, s, u) && Owns(st, t, u);
  }

  /* ---- Storing keeps the invariant ---- */

  lemma StoreKeepsOrigin(st: State, s: string, cfg: Option<StepEnqueuingWithConfig>, now: Time)
    requires OriginOK(st) && MayStore(st, s, cfg) && Accepts(st, cfg)
    ensures OriginOK(Store(st, s, cfg, now))
  {
    var st' := Store(st, s, cfg, now);
    assert cfg == Some(cfg.value);
    forall a, b, u | Owns(st', a, u) && Owns(st', b, u)
      ensures a == b
    {
      assert a != s ==> Owns(st, a, u);
      assert b != s ==> Owns(st, b, u);
    }
  }

  lemma StoreNewRow(st: State, s: string, cfg: StepEnqueuingWithConfig, now: Time, k: CmdKey)
    requires Accepts(st, Some(cfg)) && FreshStepID(st, s, cfg) && k in NewKeys(s, cfg)
    ensures RowOK(Store(st, s, Some(cfg), now), k)
  {
    var st' := Store(st, s, Some(cfg), now);
    assert st'.rows[k] == NewRow(s, cfg, k, now);
    assert Owns(st', s, k.uuid);
  }

  lemma StoreNewStep(st: State, s: string, cfg: StepEnqueuingWithConfig, now: Time)
    requires Accepts(st, Some(cfg)) && FreshStepID(st, s, cfg)
    ensures StepOK(Store(st, s, Some(cfg), now), s)
    ensures forall i :: i in cfg.ids ==> Live(Store(st, s, Some(cfg), now), s, i)
  {
    var st' := Store(st, s, Some(cfg), now);
    var uuids := Uuids(cfg.commands);
    forall i, u | (i in cfg.ids || (i == s && cfg.notUntil != 0)) && u in uuids
      ensures CmdKey(i, u) in st'.rows && !st'.rows[CmdKey(i, u)].done
    {
      assert i == s ==> i in [s];
      assert CmdKey(i, u) in NewKeys(s, cfg);
      assert st'.rows[CmdKey(i, u)] == NewRow(s, cfg, CmdKey(i, u), now);
    }
    forall i | i in cfg.ids
      ensures Live(st', s, i) && AllOrNone(st', i, uuids)
    {
      assert CmdKey(i, uuids[0]) in st'.rows && uuids[0] in uuids;
    }
    assert Live(st', s, cfg.ids[0]);
  }

  lemma StoreKeepsStep(st: State, s: string, cfg: StepEnqueuingWithConfig, now: Time, t: string)
    requires Accepts(st, Some(cfg)) && FreshStepID(st, s, cfg) && FreshUuids(st, cfg)
    requires t in st.steps && StepOK(st, t)
    ensures StepOK(Store(st, s, Some(cfg), now), t)
  {
    var st' := Store(st, s, Some(cfg), now);
    forall u | u in st.steps[t].uuids
      ensures u !in Uuids(cfg.commands)
    {
      assert Owns(st, t, u);
    }
    StepFrame(st, st', t);
  }

  lemma StoreKeepsInv(st: State, s: string, cfg: Option<StepEnqueuingWithConfig>, now: Time)
    requires Inv(st) && MayStore(st, s, cfg)
    ensures Inv(Store(st, s, cfg, now))
  {
    if Accepts(st, cfg) {
      assert cfg == Some(cfg.value);
      var st' := Store(st, s, cfg, now);
      StoreKeepsOrigin(st, s, cfg, now);
      forall k | k in st'.rows ensures RowOK(st', k) {
        if k in NewKeys(s, cfg.value) {
          StoreNewRow(st, s, cfg.value, now, k);
        } else {
          RowFrame(st, st', k);
        }
      }
      forall t | t in st'.steps ensures StepOK(st', t) {
        if t == s {
          StoreNewStep(st, s, cfg.value, now);
        } else {
          StoreKeepsStep(st, s, cfg.value, now, t);
        }
      }
    }
  }

  /* ---- Responding keeps the invariant ---- */

  // Recording a response changes one row.
  lemma RecordKeepsRow(st: State, id: string, sc: StepCommandResult, k: CmdKey)
    requires k in st.rows && RowOK(st, k) && id !in st.origin
    requires CmdKey(id, sc.commandUUID) in st.rows && !Completes(st, id, sc)
    ensures RowOK(Respond(st, id, sc), k)
  {
    var st' := Respond(st, id, sc);
    assert Owns(st, st.rows[k].stepID, k.uuid) && Owns(st', st.rows[k].stepID, k.uuid);
  }

  // A response that does not complete its step leaves some command waiting.
  lemma RecordedStillWaits(st: State, id: string, sc: StepCommandResult, s: string)
    requires CmdKey(id, sc.commandUUID) in st.rows && st.rows[CmdKey(id, sc.commandUUID)].stepID == s
    requires s in st.steps && !Completes(st, id, sc)
    requires Tracked(st.rows, id, st.steps[s].uuids) && Waiting(st.rows, id, st.steps[s].uuids)
    ensures Waiting(Respond(st, id, sc).rows, id, st.steps[s].uuids)
  {
    var st' := Respond(st, id, sc);
    var uuids := st.steps[s].uuids;
    if sc.completed {
      var u :| u in uuids && u != sc.commandUUID && !(CmdKey(id, u) in st.rows && st.rows[CmdKey(id, u)].done);
      assert CmdKey(id, u) in st'.rows && !st'.rows[CmdKey(id, u)].done;
    } else {
      var u :| u in uuids && CmdKey(id, u) in st.rows && !st.rows[CmdKey(id, u)].done;
      assert CmdKey(id, u) in st'.rows && !st'.rows[CmdKey(id, u)].done;
    }
  }

  // What one enrollment's commands need to stay all-or-none.
  lemma AllOrNoneFrame(st: State, st': State, id: string, uuids: seq<string>)
    requires AllOrNone(st, id, uuids)
    requires forall u :: u in uuids ==> (CmdKey(id, u) in st.rows <==> CmdKey(id, u) in st'.rows)
    requires forall u :: u in uuids && CmdKey(id, u) in st.rows ==>
               st.rows[CmdKey(id, u)].done == st'.rows[CmdKey(id, u)].done
    ensures AllOrNone(st', id, uuids)
    ensures Tracked(st.rows, id, uuids) ==> Tracked(st'.rows, id, uuids)
  {
    if Waiting(st.rows, id, uuids) {
      var u :| u in uuids && CmdKey(id, u) in st.rows && !st.rows[CmdKey(id, u)].done;
      assert CmdKey(id, u) in st'.rows;
    }
  }

  lemma RecordKeepsOwnStep(st: State, id: string, sc: StepCommandResult, s: string)
    requires CmdKey(id, sc.commandUUID) in st.rows && st.rows[CmdKey(id, sc.commandUUID)].stepID == s
    requires s in st.steps && StepOK(st, s) && id in st.steps[s].ids && sc.commandUUID in st.steps[s].uuids
    requires !Completes(st, id, sc)
    ensures StepOK(Respond(st, id, sc), s)
  {
    var st' := Respond(st, id, sc);
    var step := st.steps[s];
    forall i | i in step.ids
      ensures AllOrNone(st', i, step.uuids)
      ensures Live(st, s, i) ==> Live(st', s, i)
    {
      assert AllOrNone(st, i, step.uuids);
      if i == id {
        RecordedStillWaits(st, id, sc, s);
      } else {
        AllOrNoneFrame(st, st', i, step.uuids);
      }
    }
    var i :| Live(st, s, i);
    assert Live(st', s, i);
  }

  lemma RecordKeepsOtherStep(st: State, id: string, sc: StepCommandResult, t: string)
    requires CmdKey(id, sc.commandUUID) in st.rows && !Completes(st, id, sc)
    requires t in st.steps && StepOK(st, t) && sc.commandUUID !in st.steps[t].uuids
    ensures StepOK(Respond(st, id, sc), t)
  {
    StepFrame(st, Respond(st, id, sc), t);
  }

  lemma RecordKeepsStep(st: State, id: string, sc: StepCommandResult, t: string)
    requires Inv(st) && MayRespond(st, id, sc)
    requires CmdKey(id, sc.commandUUID) in st.rows && !Completes(st, id, sc)
    requires t in st.steps
    ensures StepOK(Respond(st, id, sc), t)
  {
    var key := CmdKey(id, sc.commandUUID);
    if st.rows[key].stepID == t {
      RowIsLive(st, key);
      RecordKeepsOwnStep(st, id, sc, t);
    } else {
      if sc.commandUUID in st.steps[t].uuids {
        PointsBack(st, t, id, sc.commandUUID);
      }
      RecordKeepsOtherStep(st, id, sc, t);
    }
  }

  // The response's own row does not outlive the completion that it causes.
  lemma RespondWhenComplete(st: State, id: string, sc: StepCommandResult, s: string)
    requires Completes(st, id, sc) && st.rows[CmdKey(id, sc.commandUUID)].stepID == s
    requires sc.commandUUID in st.steps[s].uuids
    ensures var step := st.steps[s];
            var key := CmdKey(id, sc.commandUUID);
            && st.rows[key := Note(st.rows[key], sc)] - Keys([id], step.uuids) == st.rows - Keys([id], step.uuids)
            && Respond(st, id, sc).rows == st.rows - Keys([id], step.uuids)
            && Respond(st, id, sc).steps
               == (if exists i :: i in step.ids && i != id && Live(st, s, i) then st.steps else st.steps - {s})
  {
    var key := CmdKey(id, sc.commandUUID);
    assert key in Keys([id], st.steps[s].uuids);
    hide Live;
    hide Note;
  }

  // Completing a step for one enrollment leaves the step in place for the
  // others that are still live.
  lemma CompleteKeepsOwnStep(st: State, id: string, sc: StepCommandResult, s: string)
    requires Completes(st, id, sc) && st.rows[CmdKey(id, sc.commandUUID)].stepID == s
    requires StepOK(st, s) && id in st.steps[s].ids && st.steps[s].notUntil == 0
    requires s in Respond(st, id, sc).steps
    ensures StepOK(Respond(st, id, sc), s)
  {
    var st' := Respond(st, id, sc);
    var step := st.steps[s];
    forall i | i in step.ids
      ensures AllOrNone(st', i, step.uuids)
      ensures i != id && Live(st, s, i) ==> Live(st', s, i)
    {
      assert AllOrNone(st, i, step.uuids);
      if i != id {
        AllOrNoneFrame(st, st', i, step.uuids);
      }
    }
    var i :| i in step.ids && i != id && Live(st, s, i);
    assert Live(st', s, i);
  }

  lemma CompleteKeepsOtherStep(st: State, id: string, sc: StepCommandResult, t: string)
    requires Completes(st, id, sc) && st.rows[CmdKey(id, sc.commandUUID)].stepID != t
    requires t in st.steps && StepOK(st, t)
    requires forall u :: u in st.steps[t].uuids ==> u !in st.steps[st.rows[CmdKey(id, sc.commandUUID)].stepID].uuids
    ensures StepOK(Respond(st, id, sc), t)
  {
    StepFrame(st, Respond(st, id, sc), t);
  }

  lemma CompleteKeepsStep(st: State, id: string, sc: StepCommandResult, t: string)
    requires Inv(st) && MayRespond(st, id, sc) && Completes(st, id, sc)
    requires t in Respond(st, id, sc).steps
    ensures StepOK(Respond(st, id, sc), t)
  {
    var key := CmdKey(id, sc.commandUUID);
    var s := st.rows[key].stepID;
    RowIsLive(st, key);
    if t == s {
      CompleteKeepsOwnStep(st, id, sc, t);
    } else {
      forall u | u in st.steps[t].uuids
        ensures u !in st.steps[s].uuids
      {
        if u in st.steps[s].uuids {
          Disjoint(st, s, t, u);
        }
      }
      CompleteKeepsOtherStep(st, id, sc, t);
    }
  }

  lemma RespondKeepsRow(st: State, id: string, sc: StepCommandResult, k: CmdKey)
    requires k in st.rows && RowOK(st, k) && id !in st.origin
    requires CmdKey(id, sc.commandUUID) in st.rows
    requires k in Respond(st, id, sc).rows
    ensures RowOK(Respond(st, id, sc), k)
  {
    if Completes(st, id, sc) {
      RowFrame(st, Respond(st, id, sc), k);
    } else {
      RecordKeepsRow(st, id, sc, k);
    }
  }

  lemma RespondKeepsInv(st: State, id: string, sc: StepCommandResult)
    requires Inv(st) && MayRespond(st, id, sc)
    ensures Inv(Respond(st, id, sc))
  {
    var st' := Respond(st, id, sc);
    if CmdKey(id, sc.commandUUID) in st.rows {
      OriginFrame(st, st');
      forall k | k in st'.rows ensures RowOK(st', k) {
        RespondKeepsRow(st, id, sc, k);
      }
      forall t | t in st'.steps ensures StepOK(st', t) {
        if Completes(st, id, sc) {
          CompleteKeepsStep(st, id, sc, t);
        } else {
          RecordKeepsStep(st, id, sc, t);
        }
      }
    }
  }

  /* ---- The worker's operations keep the invariant ---- */

  // Releasing touches the rows of an enrollment only in their push times.
  lemma ReleaseKeepsIDRow(st: State, now: Time, pushTime: Time, i: string, u: string)
    requires i !in st.steps
    ensures CmdKey(i, u) in st.rows <==> CmdKey(i, u) in Release(st, now, pushTime).rows
    ensures CmdKey(i, u) in st.rows ==>
              Release(st, now, pushTime).rows[CmdKey(i, u)]
              == st.rows[CmdKey(i, u)].(lastPush := Release(st, now, pushTime).rows[CmdKey(i, u)].lastPush)
  {
  }

  lemma ReleaseKeepsStep(st: State, now: Time, pushTime: Time, s: string)
    requires s in st.steps && StepOK(st, s)
    requires forall i :: i in st.steps[s].ids ==> i !in st.steps
    ensures StepOK(Release(st, now, pushTime), s)
  {
    var st' := Release(st, now, pushTime);
    var step := st.steps[s];
    forall i | i in step.ids
      ensures AllOrNone(st', i, step.uuids)
      ensures Live(st, s, i) ==> Live(st', s, i)
    {
      assert AllOrNone(st, i, step.uuids);
      forall u | u in step.uuids {
        ReleaseKeepsIDRow(st, now, pushTime, i, u);
      }
      AllOrNoneFrame(st, st', i, step.uuids);
    }
    var i :| Live(st, s, i);
    assert Live(st', s, i);
    if !Due(st, s, now) && step.notUntil != 0 {
      assert Tracked(st'.rows, s, step.uuids);
    }
  }

  lemma ReleaseKeepsRow(st: State, now: Time, pushTime: Time, k: CmdKey)
    requires k in st.rows && RowOK(st, k)
    requires k in Release(st, now, pushTime).rows
    requires st.rows[k].stepID in st.steps ==>
               st.steps[st.rows[k].stepID].uuids == Uuids(st.origin[st.rows[k].stepID].commands)
               && st.steps[st.rows[k].stepID].ids == st.origin[st.rows[k].stepID].ids
    requires st.rows[k].stepID !in st.origin[st.rows[k].stepID].ids
    ensures RowOK(Release(st, now, pushTime), k)
  {
    var st' := Release(st, now, pushTime);
    var s := st.rows[k].stepID;
    assert Owns(st', s, k.uuid);
  }

  lemma ReleaseKeepsInv(st: State, now: Time, pushTime: Time)
    requires Inv(st)
    ensures Inv(Release(st, now, pushTime))
  {
    var st' := Release(st, now, pushTime);
    OriginFrame(st, st');
    forall k | k in st'.rows ensures RowOK(st', k) {
      assert RowOK(st, k);
      assert st.rows[k].stepID in st.steps ==> StepOK(st, st.rows[k].stepID);
      ReleaseKeepsRow(st, now, pushTime, k);
    }
    forall s | s in st'.steps ensures StepOK(st', s) {
      IDsAreNoSteps(st, s);
      assert StepOK(st, s);
      ReleaseKeepsStep(st, now, pushTime, s);
    }
  }

  // Dropping whole steps with rows that point to them keeps everything else.
  lemma DropKeepsInv(st: State, st': State, dropped: set<string>)
    requires Inv(st)
    requires st'.origin == st.origin
    requires st'.steps == st.steps - dropped
    requires forall k :: k in st'.rows ==> k in st.rows && st'.rows[k] == st.rows[k]
    requires forall k :: k in st.rows && k !in st'.rows ==> st.rows[k].stepID in dropped
    ensures Inv(st')
  {
    OriginFrame(st, st');
    forall k | k in st'.rows ensures RowOK(st', k) {
      RowFrame(st, st', k);
    }
    forall s | s in st'.steps ensures StepOK(st', s) {
      forall i, u | u in st.steps[s].uuids && CmdKey(i, u) in st.rows
        ensures CmdKey(i, u) in st'.rows
      {
        PointsBack(st, s, i, u);
      }
      StepFrame(st, st', s);
    }
  }

  lemma TimeOutKeepsInv(st: State, now: Time)
    requires Inv(st)
    ensures Inv(TimeOut(st, now))
  {
    DropKeepsInv(st, TimeOut(st, now), ExpiredSteps(st, now));
  }

  lemma CancelKeepsInv(st: State, id: string, workflowName: string)
    requires Inv(st)
    ensures Inv(Cancel(st, id, workflowName))
  {
    DropKeepsInv(st, Cancel(st, id, workflowName), MatchingSteps(st, id, workflowName));
  }

  lemma RePushKeepsRow(st: State, ifBefore: Time, setTo: Time, k: CmdKey)
    requires k in st.rows && RowOK(st, k)
    ensures RowOK(RePush(st, ifBefore, setTo), k)
  {
    assert Owns(st, st.rows[k].stepID, k.uuid);
    assert Owns(RePush(st, ifBefore, setTo), st.rows[k].stepID, k.uuid);
  }

  lemma RePushKeepsStep(st: State, ifBefore: Time, setTo: Time, s: string)
    requires s in st.steps && StepOK(st, s)
    ensures StepOK(RePush(st, ifBefore, setTo), s)
  {
    StepFrame(st, RePush(st, ifBefore, setTo), s);
  }

  lemma RePushKeepsInv(st: State, ifBefore: Time, setTo: Time)
    requires Inv(st)
    ensures Inv(RePush(st, ifBefore, setTo))
  {
    var st' := RePush(st, ifBefore, setTo);
    OriginFrame(st, st');
    forall k | k in st'.rows ensures RowOK(st', k) {
      RePushKeepsRow(st, ifBefore, setTo, k);
    }
    forall s | s in st'.steps ensures StepOK(st', s) {
      RePushKeepsStep(st, ifBefore, setTo, s);
    }
  }
}
