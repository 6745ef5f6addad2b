/**
 The key-value backend's passes over several steps at once: the outstanding
 query, cancelling, releasing what is due, timing out what has expired. Each is
 shown to do to all the steps it finds what the tracker does in one go.
 */
module KVPasses {
  import opened Wrappers
  import opened Records
  import opened Tracker
  import opened Invariant
  import opened Delivery
  import opened Buckets
  import opened KVPrim
  import opened KVScan
  import opened KVSteps
  import opened KVWorker

  ghost predicate AllOfLength(steps: Steps, n: nat) {
    forall s :: s in steps ==> UuidsOfLength(steps[s].uuids, n)
  }

  /* ---- Outstanding ---- */

  ghost predicate WaitsIn(steps: Steps, rows: Rows, found: seq<string>, i: string) {
    exists s :: s in found && s in steps && Waiting(rows, i, steps[s].uuids)
  }

  ghost function WaitingInAny(steps: Steps, rows: Rows, found: seq<string>, ids: seq<string>): set<string> {
    set i | i in ids && WaitsIn(steps, rows, found, i)
  }

  lemma WaitingInNext(steps: Steps, rows: Rows, found: seq<string>, ids: seq<string>, s: string)
    requires s in steps
    ensures WaitingInAny(steps, rows, found + [s], ids)
            == WaitingInAny(steps, rows, found, ids) + WaitingIDs(rows, ids, steps[s].uuids)
  {
    hide Waiting;
    forall i
      ensures WaitsIn(steps, rows, found + [s], i)
              <==> WaitsIn(steps, rows, found, i) || Waiting(rows, i, steps[s].uuids)
    {
      if Waiting(rows, i, steps[s].uuids) {
        assert s in found + [s];
      }
      if WaitsIn(steps, rows, found, i) {
        var t :| t in found && t in steps && Waiting(rows, i, steps[t].uuids);
        assert t in found + [s];
      }
    }
  }

  method OutstandingIDs(sb: Bucket, cb: Bucket, ghost steps: Steps, ghost rows: Rows, ghost n: nat,
                        name: string, ids: seq<string>)
    returns (r: Result<seq<string>, Error>, ghost found: seq<string>)
    requires StepsRep(sb, steps) && RowsRep(cb, rows, n) && AllOfLength(steps, n)
    ensures forall s :: s in found <==> Wanted(steps, s, name, ids)
    ensures r.Ok? && Distinct(r.value)
    ensures forall i :: i in r.value <==> i in WaitingInAny(steps, rows, found, ids)
  {
    hide StepsRep;
    hide RowsRep;
    hide Waiting;
    var scanned := FindWorkflowStepsWithIDs(sb, steps, name, ids);
    var stepIDs := scanned.value;
    found := stepIDs;
    var idAcc: set<string> := {};
    assert WaitingInAny(steps, rows, stepIDs[..0], ids) == {};
    for m := 0 to |stepIDs|
      invariant idAcc == WaitingInAny(steps, rows, stepIDs[..m], ids)
    {
      var stepID := stepIDs[m];
      assert stepID in stepIDs && stepIDs[..m + 1] == stepIDs[..m] + [stepID];
      StepReads(sb, steps, stepID);
      WaitingInNext(steps, rows, stepIDs[..m], ids, stepID);
      match GetStepCmds(sb, stepID)
      case Err(e) => r := Err(e); return;
      case Ok(cmdUUIDs) =>
        idAcc := AddWaitingIDs(cb, rows, n, ids, cmdUUIDs, idAcc);
    }
    assert stepIDs[..|stepIDs|] == stepIDs;
    var listed := Elements(idAcc);
    r := Ok(listed);
  }

  // What the query finds is what is outstanding.
  lemma OutstandingFound(st: State, name: string, ids: seq<string>, found: seq<string>, i: string)
    requires Inv(st) && i in ids && i !in st.origin
    requires forall s :: s in found <==> Wanted(st.steps, s, name, ids)
    ensures WaitsIn(st.steps, st.rows, found, i) <==> Outstanding(st, name, i)
  {
    if WaitsIn(st.steps, st.rows, found, i) {
      var s :| s in found && s in st.steps && Waiting(st.rows, i, st.steps[s].uuids);
      var u :| u in st.steps[s].uuids && CmdKey(i, u) in st.rows;
      PointsBack(st, s, i, u);
      RowIsLive(st, CmdKey(i, u));
    }
    if Outstanding(st, name, i) {
      var s :| s in st.steps && st.steps[s].ctx.workflowName == name && i in st.steps[s].ids
               && Waiting(st.rows, i, st.steps[s].uuids);
      assert Wanted(st.steps, s, name, ids);
    }
  }

  /* ---- Cancelling ---- */

  // The commands of one enrollment in the listed steps.
  ghost function OwnKeys(steps: Steps, found: seq<string>, id: string): set<CmdKey> {
    set s, u | s in found && s in steps && u in steps[s].uuids :: CmdKey(id, u)
  }

  ghost function Listed(found: seq<string>): set<string> {
    set s | s in found
  }

  lemma OwnKeysNext(steps: Steps, rows: Rows, found: seq<string>, s: string, id: string)
    requires s in steps
    ensures rows - OwnKeys(steps, found, id) - Keys([id], steps[s].uuids) == rows - OwnKeys(steps, found + [s], id)
  {
    assert id in [id];
    forall k
      ensures k in OwnKeys(steps, found + [s], id) <==> k in OwnKeys(steps, found, id) + Keys([id], steps[s].uuids)
    {
      if k in OwnKeys(steps, found, id) {
        var t, u :| t in found && t in steps && u in steps[t].uuids && k == CmdKey(id, u);
        assert t in found + [s];
      }
      if k in Keys([id], steps[s].uuids) {
        assert s in found + [s];
      }
    }
  }

  lemma ListedNext(steps: Steps, found: seq<string>, s: string)
    ensures steps - Listed(found) - {s} == steps - Listed(found + [s])
  {
  }

  lemma NoneCancelled(steps: Steps, rows: Rows, id: string)
    ensures steps - Listed([]) == steps && rows - OwnKeys(steps, [], id) == rows
  {
  }

  lemma StillListed(steps: Steps, found: seq<string>, s: string)
    requires s in steps && s !in found
    ensures s in steps - Listed(found) && (steps - Listed(found))[s] == steps[s]
  {
  }

  method CancelFound(sb: Bucket, cb: Bucket, ghost steps: Steps, ghost rows: Rows, ghost n: nat,
                     id: string, stepIDs: seq<string>)
    returns (err: Option<Error>, sb': Bucket, cb': Bucket)
    requires StepsRep(sb, steps) && RowsRep(cb, rows, n) && AllOfLength(steps, n)
    requires Distinct(stepIDs) && forall s :: s in stepIDs ==> s in steps
    ensures err == None
    ensures StepsRep(sb', steps - Listed(stepIDs)) && RowsRep(cb', rows - OwnKeys(steps, stepIDs, id), n)
  {
    hide StepsRep;
    hide RowsRep;
    hide OwnKeys;
    hide Listed;
    hide AllOfLength;
    sb', cb', err := sb, cb, None;
    NoneCancelled(steps, rows, id);
    for m := 0 to |stepIDs|
      invariant StepsRep(sb', steps - Listed(stepIDs[..m]))
      invariant RowsRep(cb', rows - OwnKeys(steps, stepIDs[..m], id), n)
    {
      var stepID := stepIDs[m];
      assert stepID in stepIDs && stepID !in stepIDs[..m] && stepIDs[..m + 1] == stepIDs[..m] + [stepID];
      StillListed(steps, stepIDs[..m], stepID);
      UuidsHaveLength(steps, n, stepID);
      StepReads(sb', steps - Listed(stepIDs[..m]), stepID);
      OwnKeysNext(steps, rows, stepIDs[..m], stepID, id);
      ListedNext(steps, stepIDs[..m], stepID);
      match GetStepCmds(sb', stepID)
      case Err(e) => err := Some(e); return;
      case Ok(cmdUUIDs) =>
        cb' := DeleteIDCmds(cb', rows - OwnKeys(steps, stepIDs[..m], id), n, id, cmdUUIDs);
        DeleteStepRep(sb', steps - Listed(stepIDs[..m]), stepID);
        sb' := DeleteStep(sb', stepID);
    }
    assert stepIDs[..|stepIDs|] == stepIDs;
  }

  lemma CancelledAll(st: State, id: string, name: string, stepIDs: seq<string>)
    requires Inv(st) && forall s :: s in stepIDs <==> Wanted(st.steps, s, name, [id])
    ensures st.steps - Listed(stepIDs) == Cancel(st, id, name).steps
    ensures st.rows - OwnKeys(st.steps, stepIDs, id) == Cancel(st, id, name).rows
  {
    WantedMatches(st, id, name, stepIDs);
    hide Inv;
    hide Wanted;
    forall k | k in st.rows
      ensures k in OwnKeys(st.steps, stepIDs, id) <==> k in CancelledKeys(st, id, name)
    {
      OwnKeyExact(st, id, name, stepIDs, k);
    }
    hide OwnKeys;
    hide CancelledKeys;
    hide Matches;
  }

  lemma WantedMatches(st: State, id: string, name: string, stepIDs: seq<string>)
    requires forall s :: s in stepIDs <==> Wanted(st.steps, s, name, [id])
    ensures forall s :: s in stepIDs <==> Matches(st, s, id, name)
    ensures Listed(stepIDs) == MatchingSteps(st, id, name)
  {
    assert id in [id];
  }

  lemma OwnKeyExact(st: State, id: string, name: string, stepIDs: seq<string>, k: CmdKey)
    requires Inv(st) && k in st.rows && forall s :: s in stepIDs <==> Matches(st, s, id, name)
    ensures k in OwnKeys(st.steps, stepIDs, id) <==> k in CancelledKeys(st, id, name)
  {
    hide Inv;
    if k in OwnKeys(st.steps, stepIDs, id) {
      var s :| s in stepIDs && s in st.steps && k.uuid in st.steps[s].uuids;
      PointsBack(st, s, id, k.uuid);
    }
  }

  /* ---- Releasing ---- */

  ghost function RawKeys(steps: Steps, found: seq<string>): set<CmdKey> {
    set s, u | s in found && s in steps && u in steps[s].uuids :: CmdKey(s, u)
  }

  ghost function IDKeys(steps: Steps, found: seq<string>): set<CmdKey> {
    set s, i, u | s in found && s in steps && i in steps[s].ids && u in steps[s].uuids :: CmdKey(i, u)
  }

  ghost function Undelayed(steps: Steps, found: seq<string>): Steps {
    map s | s in steps :: if s in found then steps[s].(notUntil := 0) else steps[s]
  }

  // The rows once the listed steps have been released.
  ghost function ReleasedRows(steps: Steps, rows: Rows, found: seq<string>, pushTime: Time): Rows {
    Stamped(rows - RawKeys(steps, found), IDKeys(steps, found), pushTime)
  }

  lemma RawKeysNext(steps: Steps, found: seq<string>, s: string)
    requires s in steps
    ensures RawKeys(steps, found + [s]) == RawKeys(steps, found) + Keys([s], steps[s].uuids)
    ensures IDKeys(steps, found + [s]) == IDKeys(steps, found) + Keys(steps[s].ids, steps[s].uuids)
  {
    var all := found + [s];
    assert s in [s] && s in all && forall t :: t in found ==> t in all;
    forall k | k in RawKeys(steps, all)
      ensures k in RawKeys(steps, found) + Keys([s], steps[s].uuids)
    {
    }
    forall k | k in IDKeys(steps, all)
      ensures k in IDKeys(steps, found) + Keys(steps[s].ids, steps[s].uuids)
    {
      var t, i, u :| t in all && t in steps && i in steps[t].ids && u in steps[t].uuids && k == CmdKey(i, u);
      assert t in found || t == s;
    }
  }

  lemma StampedTwice(rows: Rows, gone: set<CmdKey>, stamped: set<CmdKey>, gone': set<CmdKey>, stamped': set<CmdKey>,
                     t: Time)
    ensures Stamped(Stamped(rows - gone, stamped, t) - gone', stamped', t)
            == Stamped(rows - (gone + gone'), stamped + stamped', t)
  {
  }

  lemma ReleasedRowsNext(steps: Steps, rows: Rows, found: seq<string>, s: string, pushTime: Time)
    requires s in steps
    ensures Stamped(ReleasedRows(steps, rows, found, pushTime) - Keys([s], steps[s].uuids),
                    Keys(steps[s].ids, steps[s].uuids), pushTime)
            == ReleasedRows(steps, rows, found + [s], pushTime)
  {
    RawKeysNext(steps, found, s);
    StampedTwice(rows, RawKeys(steps, found), IDKeys(steps, found),
                 Keys([s], steps[s].uuids), Keys(steps[s].ids, steps[s].uuids), pushTime);
  }

  lemma UndelayedNext(steps: Steps, found: seq<string>, s: string)
    requires s in steps && s !in found
    ensures s in Undelayed(steps, found) && Undelayed(steps, found)[s] == steps[s]
    ensures Undelayed(steps, found)[s := steps[s].(notUntil := 0)] == Undelayed(steps, found + [s])
  {
  }

  // What releasing needs of a step that has not been released yet.
  ghost predicate Releasable(steps: Steps, rows: Rows, s: string) {
    && s in steps && steps[s].notUntil != 0
    && Distinct(steps[s].uuids)
    && RawsKept(rows, s, steps[s].uuids)
    && forall i :: i in steps[s].ids ==> i !in steps && Tracked(rows, i, steps[s].uuids)
  }

  lemma StillReleasable(steps: Steps, rows: Rows, found: seq<string>, s: string, pushTime: Time)
    requires Releasable(steps, rows, s) && s !in found && forall t :: t in found ==> t in steps
    ensures Releasable(Undelayed(steps, found), ReleasedRows(steps, rows, found, pushTime), s)
    ensures RawCommands(ReleasedRows(steps, rows, found, pushTime), s, steps[s].uuids)
            == RawCommands(rows, s, steps[s].uuids)
  {
    forall u
      ensures CmdKey(s, u) !in RawKeys(steps, found)
      ensures forall i :: i in steps[s].ids ==> CmdKey(i, u) !in RawKeys(steps, found)
    {
    }
  }

  ghost function Handed(steps: Steps, rows: Rows, s: string): StepEnqueueing
    requires Releasable(steps, rows, s)
  {
    StepEnqueueing(steps[s].ctx.(context := ""), steps[s].ids, RawCommands(rows, s, steps[s].uuids))
  }

  // Each step's commands, in the order of the steps.
  ghost predicate AreHanded(steps: Steps, rows: Rows, stepIDs: seq<string>, ret: seq<StepEnqueueing>) {
    && |ret| == |stepIDs|
    && forall m :: 0 <= m < |stepIDs| ==>
         Releasable(steps, rows, stepIDs[m]) && ret[m] == Handed(steps, rows, stepIDs[m])
  }

  lemma HandedNext(steps: Steps, rows: Rows, stepIDs: seq<string>, ret: seq<StepEnqueueing>, s: string)
    requires AreHanded(steps, rows, stepIDs, ret) && Releasable(steps, rows, s)
    ensures AreHanded(steps, rows, stepIDs + [s], ret + [Handed(steps, rows, s)])
    ensures Handed(steps, rows, s)
            == StepEnqueueing(steps[s].ctx.(context := ""), steps[s].ids, RawCommands(rows, s, steps[s].uuids))
  {
    hide Releasable;
    hide RawCommands;
  }

  method ReleaseFound(sb: Bucket, cb: Bucket, ghost steps: Steps, ghost rows: Rows, ghost n: nat,
                      stepIDs: seq<string>, pushTime: Time)
    returns (r: Result<seq<StepEnqueueing>, Error>, sb': Bucket, cb': Bucket)
    requires StepsRep(sb, steps) && RowsRep(cb, rows, n) && AllOfLength(steps, n)
    requires Distinct(stepIDs) && forall s :: s in stepIDs ==> Releasable(steps, rows, s)
    ensures r.Ok? && AreHanded(steps, rows, stepIDs, r.value)
    ensures StepsRep(sb', Undelayed(steps, stepIDs)) && RowsRep(cb', ReleasedRows(steps, rows, stepIDs, pushTime), n)
  {
    sb', cb' := sb, cb;
    var ret: seq<StepEnqueueing> := [];
    NoneHanded(steps, rows, pushTime);
    hide StepsRep;
    hide RowsRep;
    hide ReleasedRows;
    hide Undelayed;
    hide RawCommands;
    hide Stamped;
    hide Keys;
    hide Tracked;
    hide RawsKept;
    hide AreHanded;
    hide UuidsOfLength;
    for m := 0 to |stepIDs|
      invariant AreHanded(steps, rows, stepIDs[..m], ret)
      invariant StepsRep(sb', Undelayed(steps, stepIDs[..m]))
      invariant RowsRep(cb', ReleasedRows(steps, rows, stepIDs[..m], pushTime), n)
    {
      var stepID := stepIDs[m];
      assert stepID in stepIDs && stepID !in stepIDs[..m] && stepIDs[..m + 1] == stepIDs[..m] + [stepID];
      assert forall t :: t in stepIDs[..m] ==> t in stepIDs;
      StillReleasable(steps, rows, stepIDs[..m], stepID, pushTime);
      UndelayedNext(steps, stepIDs[..m], stepID);
      ReleasedRowsNext(steps, rows, stepIDs[..m], stepID, pushTime);
      HandedNext(steps, rows, stepIDs[..m], ret, stepID);
      var released;
      released, sb', cb' := ReleaseStep(sb', cb', Undelayed(steps, stepIDs[..m]),
                                        ReleasedRows(steps, rows, stepIDs[..m], pushTime), n, stepID, pushTime);
      match released
      case Err(e) => r := Err(e); return;
      case Ok(se) => ret := ret + [se];
    }
    assert stepIDs[..|stepIDs|] == stepIDs;
    r := Ok(ret);
  }

  lemma NoneHanded(steps: Steps, rows: Rows, pushTime: Time)
    ensures AreHanded(steps, rows, [], [])
    ensures Undelayed(steps, []) == steps && ReleasedRows(steps, rows, [], pushTime) == rows
  {
  }

  lemma DueIsReleasable(st: State, s: string)
    requires Inv(st) && Delayed(st, s)
    ensures Releasable(st.steps, st.rows, s)
    ensures RawKept(st, s) && Handed(st.steps, st.rows, s) == Released(st, s)
  {
    ReleasedIsOriginal(st, s);
    assert StepOK(st, s);
    IDsAreNoSteps(st, s);
    forall i | i in st.steps[s].ids
      ensures i !in st.steps && Tracked(st.rows, i, st.steps[s].uuids)
    {
      assert Live(st, s, i);
    }
  }

  lemma ReleasedAllSteps(st: State, now: Time, pushTime: Time, stepIDs: seq<string>)
    requires forall s :: s in stepIDs <==> Due(st, s, now)
    ensures Undelayed(st.steps, stepIDs) == Release(st, now, pushTime).steps
  {
  }

  // What a release does to the row under a key.
  ghost predicate RawReleased(st: State, k: CmdKey, now: Time) {
    Due(st, k.owner, now) && k.uuid in st.steps[k.owner].uuids
  }

  ghost predicate PushReleased(st: State, k: CmdKey, now: Time)
    requires k in st.rows
  {
    var s := st.rows[k].stepID;
    Due(st, s, now) && k.owner in st.steps[s].ids && k.uuid in st.steps[s].uuids
  }

  lemma ReleasedByKeys(st: State, now: Time, pushTime: Time, raw: set<CmdKey>, pushed: set<CmdKey>)
    requires forall k :: k in st.rows ==> (k in raw <==> RawReleased(st, k, now))
    requires forall k :: k in st.rows ==> (k in pushed <==> PushReleased(st, k, now))
    ensures Stamped(st.rows - raw, pushed, pushTime) == Release(st, now, pushTime).rows
  {
    hide Due;
  }

  lemma ReleasedAllRows(st: State, now: Time, pushTime: Time, stepIDs: seq<string>)
    requires Inv(st) && forall s :: s in stepIDs <==> Due(st, s, now)
    ensures ReleasedRows(st.steps, st.rows, stepIDs, pushTime) == Release(st, now, pushTime).rows
  {
    hide Inv;
    hide Stamped;
    hide Release;
    forall k | k in st.rows
      ensures k in RawKeys(st.steps, stepIDs) <==> RawReleased(st, k, now)
      ensures k in IDKeys(st.steps, stepIDs) <==> PushReleased(st, k, now)
    {
      InStepsKeys(st, k, stepIDs);
    }
    ReleasedByKeys(st, now, pushTime, RawKeys(st.steps, stepIDs), IDKeys(st.steps, stepIDs));
  }

  // A row's key is among those of the listed steps exactly when its own step
  // is listed and names it.
  lemma InStepsKeys(st: State, k: CmdKey, found: seq<string>)
    requires Inv(st) && k in st.rows
    ensures k in IDKeys(st.steps, found)
            <==> var s := st.rows[k].stepID;
                 s in found && s in st.steps && k.owner in st.steps[s].ids && k.uuid in st.steps[s].uuids
  {
    if k in IDKeys(st.steps, found) {
      var s, i, u :| s in found && s in st.steps && i in st.steps[s].ids && u in st.steps[s].uuids && k == CmdKey(i, u);
      PointsBack(st, s, i, u);
    }
  }

  lemma AllReleased(st: State, now: Time, pushTime: Time, stepIDs: seq<string>)
    requires Inv(st) && forall s :: s in stepIDs <==> TimePassed(st.steps, s, NotUntil, now)
    ensures Undelayed(st.steps, stepIDs) == Release(st, now, pushTime).steps
    ensures ReleasedRows(st.steps, st.rows, stepIDs, pushTime) == Release(st, now, pushTime).rows
    ensures forall s :: s in stepIDs <==> Due(st, s, now)
    ensures forall s :: s in stepIDs ==> Releasable(st.steps, st.rows, s)
  {
    assert forall s :: s in stepIDs <==> Due(st, s, now);
    ReleasedAllSteps(st, now, pushTime, stepIDs);
    ReleasedAllRows(st, now, pushTime, stepIDs);
    forall s | s in stepIDs
      ensures Releasable(st.steps, st.rows, s)
    {
      DueIsReleasable(st, s);
    }
  }

  // The commands of each listed step as the tracker releases them.
  ghost predicate AreReleased(st: State, due: seq<string>, ret: seq<StepEnqueueing>) {
    && |ret| == |due|
    && forall m :: 0 <= m < |due| ==> RawKept(st, due[m]) && ret[m] == Released(st, due[m])
  }

  lemma HandedIsReleased(st: State, due: seq<string>, ret: seq<StepEnqueueing>)
    requires Inv(st) && (forall s :: s in due ==> Delayed(st, s)) && AreHanded(st.steps, st.rows, due, ret)
    ensures AreReleased(st, due, ret)
  {
    forall m | 0 <= m < |due|
      ensures RawKept(st, due[m]) && ret[m] == Released(st, due[m])
    {
      assert due[m] in due;
      DueIsReleasable(st, due[m]);
    }
  }

  /* ---- Timing out ---- */

  ghost function LivePairsOf(st: State, s: string, ids: seq<string>): seq<(string, string)> {
    if ids == [] then []
    else
      var i := ids[|ids| - 1];
      LivePairsOf(st, s, ids[..|ids| - 1]) + if Live(st, s, i) then [(s, i)] else []
  }

  // The live (step, enrollment) pairs of the listed steps, in order.
  ghost function LivePairs(st: State, found: seq<string>): seq<(string, string)>
    requires forall s :: s in found ==> s in st.steps
  {
    if found == [] then []
    else
      var s := found[|found| - 1];
      LivePairs(st, found[..|found| - 1]) + LivePairsOf(st, s, st.steps[s].ids)
  }

  lemma {:induction false} LivePairsOfExact(st: State, s: string, ids: seq<string>)
    requires Distinct(ids)
    ensures Distinct(LivePairsOf(st, s, ids))
    ensures forall p :: p in LivePairsOf(st, s, ids) <==> p.0 == s && p.1 in ids && Live(st, s, p.1)
  {
    if ids != [] {
      var i := ids[|ids| - 1];
      LivePairsOfExact(st, s, ids[..|ids| - 1]);
      assert ids == ids[..|ids| - 1] + [i];
      DistinctExtend(ids[..|ids| - 1], i);
    }
  }

  lemma DistinctConcat<T>(a: seq<T>, b: seq<T>)
    requires Distinct(a) && Distinct(b) && forall x :: x in a ==> x !in b
    ensures Distinct(a + b)
  {
    forall i, j | 0 <= i < j < |a + b|
      ensures (a + b)[i] != (a + b)[j]
    {
      assert i < |a| ==> a[i] in a;
      assert j >= |a| ==> b[j - |a|] in b;
    }
  }

  lemma {:induction false} LivePairsExact(st: State, found: seq<string>)
    requires Distinct(found) && forall s :: s in found ==> s in st.steps && Distinct(st.steps[s].ids)
    ensures Distinct(LivePairs(st, found))
    ensures forall p :: p in LivePairs(st, found) <==> p.0 in found && Live(st, p.0, p.1)
  {
    if found != [] {
      var s := found[|found| - 1];
      var rest := found[..|found| - 1];
      LivePairsExact(st, rest);
      LivePairsOfExact(st, s, st.steps[s].ids);
      assert found == rest + [s];
      DistinctExtend(rest, s);
      DistinctConcat(LivePairs(st, rest), LivePairsOf(st, s, st.steps[s].ids));
    }
  }

  // Each pair's timed-out result, in the order of the pairs.
  ghost predicate ResultsOf(st: State, pairs: seq<(string, string)>, results: seq<StepResult>) {
    && |results| == |pairs|
    && forall m :: 0 <= m < |pairs| ==>
         Live(st, pairs[m].0, pairs[m].1) && results[m] == TimedOutResult(st, pairs[m].0, pairs[m].1)
  }

  lemma ResultsConcat(st: State, pairs: seq<(string, string)>, results: seq<StepResult>,
                      pairs': seq<(string, string)>, results': seq<StepResult>)
    requires ResultsOf(st, pairs, results) && ResultsOf(st, pairs', results')
    ensures ResultsOf(st, pairs + pairs', results + results')
  {
    hide Live;
    hide TimedOutResult;
  }

  // Rows that agree on the commands of one step.
  ghost predicate Agree(rows: Rows, rows': Rows, ids: seq<string>, uuids: seq<string>) {
    forall i, u :: i in ids && u in uuids ==>
      (CmdKey(i, u) in rows <==> CmdKey(i, u) in rows')
      && (CmdKey(i, u) in rows ==> rows[CmdKey(i, u)] == rows'[CmdKey(i, u)])
  }

  lemma TimedOutOne(st: State, rows: Rows, s: string, i: string)
    requires s in st.steps && i in st.steps[s].ids && Agree(st.rows, rows, [i], st.steps[s].uuids)
    ensures Tracked(rows, i, st.steps[s].uuids) <==> Live(st, s, i)
    ensures Live(st, s, i) ==>
              StepResult(st.steps[s].ctx, [i], UnfinishedAll(rows, i, st.steps[s].uuids)) == TimedOutResult(st, s, i)
  {
    assert i in [i];
    hide Unfinished;
  }

  lemma {:induction false} TimedOutMatches(st: State, rows: Rows, s: string, ids: seq<string>)
    requires s in st.steps && (forall i :: i in ids ==> i in st.steps[s].ids)
             && Agree(st.rows, rows, ids, st.steps[s].uuids)
    ensures ResultsOf(st, LivePairsOf(st, s, ids), TimedOutIn(rows, st.steps[s].ctx, ids, st.steps[s].uuids))
  {
    hide Live;
    hide TimedOutResult;
    hide UnfinishedAll;
    hide Tracked;
    if ids != [] {
      var i := ids[|ids| - 1];
      var rest := ids[..|ids| - 1];
      TimedOutMatches(st, rows, s, rest);
      TimedOutOne(st, rows, s, i);
    }
  }

  // The commands of a step are untouched when other steps' rows are dropped.
  lemma AgreeElsewhere(st: State, found: seq<string>, s: string)
    requires Inv(st) && s in st.steps && s !in found
    ensures Agree(st.rows, st.rows - IDKeys(st.steps, found), st.steps[s].ids, st.steps[s].uuids)
  {
    forall i, u | i in st.steps[s].ids && u in st.steps[s].uuids && CmdKey(i, u) in st.rows
      ensures CmdKey(i, u) !in IDKeys(st.steps, found)
    {
      PointsBack(st, s, i, u);
      InStepsKeys(st, CmdKey(i, u), found);
    }
  }

  // What timing out needs of a step.
  ghost predicate Droppable(steps: Steps, rows: Rows, s: string) {
    && s in steps && steps[s].uuids != [] && Distinct(steps[s].uuids) && Distinct(steps[s].ids)
    && forall i :: i in steps[s].ids ==> Tracked(rows, i, steps[s].uuids) || Untracked(rows, i, steps[s].uuids)
  }

  lemma StepIsDroppable(st: State, s: string)
    requires Inv(st) && s in st.steps
    ensures Droppable(st.steps, st.rows, s)
  {
    LiveStep(st, s);
    assert StepOK(st, s);
    assert forall i :: i in st.steps[s].ids ==> AllOrNone(st, i, st.steps[s].uuids);
  }

  lemma StillDroppable(steps: Steps, rows: Rows, rows': Rows, found: seq<string>, s: string)
    requires Droppable(steps, rows, s) && Agree(rows, rows', steps[s].ids, steps[s].uuids) && s !in found
    ensures Droppable(steps - Listed(found), rows', s) && (steps - Listed(found))[s] == steps[s]
  {
  }

  lemma DropNext(steps: Steps, rows: Rows, found: seq<string>, s: string)
    requires s in steps
    ensures steps - Listed(found) - {s} == steps - Listed(found + [s])
    ensures rows - IDKeys(steps, found) - Keys(steps[s].ids, steps[s].uuids) == rows - IDKeys(steps, found + [s])
  {
    RawKeysNext(steps, found, s);
    hide IDKeys;
    hide Keys;
  }

  lemma LivePairsNext(st: State, found: seq<string>, m: nat)
    requires (forall s :: s in found ==> s in st.steps) && m < |found|
    ensures LivePairs(st, found[..m + 1])
            == LivePairs(st, found[..m]) + LivePairsOf(st, found[m], st.steps[found[m]].ids)
  {
    assert found[..m + 1][..m] == found[..m];
  }

  method TimeOutFound(sb: Bucket, cb: Bucket, ghost st: State, ghost n: nat, stepIDs: seq<string>)
    returns (r: Result<seq<StepResult>, Error>, sb': Bucket, cb': Bucket)
    requires StepsRep(sb, st.steps) && RowsRep(cb, st.rows, n) && AllOfLength(st.steps, n) && Inv(st)
    requires Distinct(stepIDs) && forall s :: s in stepIDs ==> s in st.steps
    ensures r.Ok? && ResultsOf(st, LivePairs(st, stepIDs), r.value)
    ensures StepsRep(sb', st.steps - Listed(stepIDs)) && RowsRep(cb', st.rows - IDKeys(st.steps, stepIDs), n)
  {
    hide Inv;
    hide StepsRep;
    hide RowsRep;
    hide AllOfLength;
    hide UuidsOfLength;
    hide IDKeys;
    hide LivePairs;
    hide LivePairsOf;
    hide TimedOutIn;
    hide ResultsOf;
    hide Keys;
    hide Agree;
    hide Tracked;
    hide Untracked;
    hide Listed;
    sb', cb' := sb, cb;
    var steps: seq<StepResult> := [];
    NoneDropped(st);
    for m := 0 to |stepIDs|
      invariant ResultsOf(st, LivePairs(st, stepIDs[..m]), steps)
      invariant StepsRep(sb', st.steps - Listed(stepIDs[..m]))
      invariant RowsRep(cb', st.rows - IDKeys(st.steps, stepIDs[..m]), n)
    {
      var stepID := stepIDs[m];
      ghost var rows := st.rows - IDKeys(st.steps, stepIDs[..m]);
      assert stepID in stepIDs && stepID !in stepIDs[..m] && stepIDs[..m + 1] == stepIDs[..m] + [stepID];
      StepIsDroppable(st, stepID);
      UuidsHaveLength(st.steps, n, stepID);
      AgreeElsewhere(st, stepIDs[..m], stepID);
      StillDroppable(st.steps, st.rows, rows, stepIDs[..m], stepID);
      TimedOutMatches(st, rows, stepID, st.steps[stepID].ids);
      DropNext(st.steps, st.rows, stepIDs[..m], stepID);
      LivePairsNext(st, stepIDs, m);
      var timedOut;
      timedOut, sb', cb' := TimeOutStep(sb', cb', st.steps - Listed(stepIDs[..m]), rows, n, stepID);
      match timedOut
      case Err(e) => r := Err(e); return;
      case Ok(results) =>
        ResultsConcat(st, LivePairs(st, stepIDs[..m]), steps, LivePairsOf(st, stepID, st.steps[stepID].ids), results);
        steps := steps + results;
    }
    assert stepIDs[..|stepIDs|] == stepIDs;
    r := Ok(steps);
  }

  lemma UuidsHaveLength(steps: Steps, n: nat, s: string)
    requires AllOfLength(steps, n) && s in steps
    ensures UuidsOfLength(steps[s].uuids, n)
  {
  }

  lemma NoneDropped(st: State)
    ensures ResultsOf(st, LivePairs(st, []), [])
    ensures st.steps - Listed([]) == st.steps && st.rows - IDKeys(st.steps, []) == st.rows
  {
  }

  lemma TimedOutRows(st: State, now: Time, stepIDs: seq<string>)
    requires Inv(st) && forall s :: s in stepIDs <==> Expired(st, s, now)
    ensures st.rows - IDKeys(st.steps, stepIDs) == TimeOut(st, now).rows
  {
    hide Inv;
    forall k | k in st.rows
      ensures k in IDKeys(st.steps, stepIDs) <==> k in ExpiredKeys(st, now)
    {
      InStepsKeys(st, k, stepIDs);
    }
    hide IDKeys;
    hide ExpiredKeys;
  }

  lemma TimedOutAll(st: State, now: Time, stepIDs: seq<string>)
    requires Inv(st) && Distinct(stepIDs) && (forall s :: s in stepIDs <==> Expired(st, s, now))
    requires forall s :: s in stepIDs ==> s in st.steps
    ensures st.steps - Listed(stepIDs) == TimeOut(st, now).steps
    ensures st.rows - IDKeys(st.steps, stepIDs) == TimeOut(st, now).rows
    ensures Distinct(LivePairs(st, stepIDs))
    ensures forall p :: p in LivePairs(st, stepIDs) <==> Expired(st, p.0, now) && Live(st, p.0, p.1)
  {
    TimedOutRows(st, now, stepIDs);
    hide Inv;
    hide Live;
    hide IDKeys;
    hide ExpiredKeys;
    hide LivePairs;
    forall s | s in stepIDs
      ensures Distinct(st.steps[s].ids)
    {
      StepIsDroppable(st, s);
    }
    LivePairsExact(st, stepIDs);
  }

  /* ---- Re-pushing ---- */

  lemma RePushedAll(st: State, n: nat, ifBefore: Time, setTo: Time, names: seq<string>)
    requires forall k :: k in st.rows ==> |k.uuid| == n
    requires forall m :: 0 <= m < |names| ==> n <= |names[m]|
    requires forall base :: base in names <==> base in StaleNames(st.rows, ifBefore)
    ensures Stamped(st.rows, StaleKeys(st.rows, ifBefore), setTo) == RePush(st, ifBefore, setTo).rows
    ensures forall i :: i in OwnersOf(names, n) <==> i in PushedIDs(st, ifBefore)
  {
    hide Stale;
    forall i | i in OwnersOf(names, n)
      ensures i in PushedIDs(st, ifBefore)
    {
      var m :| 0 <= m < |names| && KeyOf(names[m], n).owner == i;
      assert names[m] in names;
      StaleNamesExact(st.rows, n, ifBefore, names[m]);
    }
    forall i | i in PushedIDs(st, ifBefore)
      ensures i in OwnersOf(names, n)
    {
      var k :| k in st.rows && Stale(st.rows[k], ifBefore) && k.owner == i;
      assert k in StaleKeys(st.rows, ifBefore);
      assert Name(k) in StaleNames(st.rows, ifBefore);
      var m :| 0 <= m < |names| && names[m] == Name(k);
      assert KeyOf(names[m], n) == k;
      assert OwnersOf(names, n)[m] == i;
    }
  }

  lemma RePushKeepsSteps(st: State, ifBefore: Time, setTo: Time)
    ensures RePush(st, ifBefore, setTo).steps == st.steps
  {
  }
}
