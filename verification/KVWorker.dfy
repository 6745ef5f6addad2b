/**
 The key-value backend's loops that serve queries, cancelling and the worker:
 outstanding commands, releasing delayed steps, timing steps out, re-pushing.
 */
module KVWorker {
  import opened Wrappers
  import opened Text
  import opened Records
  import opened Tracker
  import opened Buckets
  import opened KVPrim
  import opened KVScan
  import opened KVSteps

  /* ---- Outstanding commands ---- */

  method AnyCmdWaits(b: Bucket, ghost rows: Rows, ghost n: nat, id: string, uuids: seq<string>) returns (found: bool)
    requires RowsRep(b, rows, n) && UuidsOfLength(uuids, n)
    ensures found <==> Waiting(rows, id, uuids)
  {
    hide RowsRep;
    for j := 0 to |uuids|
      invariant !Waiting(rows, id, uuids[..j])
    {
      var uuid := uuids[j];
      assert uuid in uuids && uuids[..j + 1] == uuids[..j] + [uuid];
      RowReads(b, rows, n, id, uuid);
      if IDCmdExists(b, id, uuid) && !IDCmdIsComplete(b, id, uuid) {
        return true;
      }
    }
    assert uuids[..|uuids|] == uuids;
    return false;
  }

  ghost function WaitingIDs(rows: Rows, ids: seq<string>, uuids: seq<string>): set<string> {
    set i | i in ids && Waiting(rows, i, uuids)
  }

  // Adds the IDs for which the step's commands still wait.
  method AddWaitingIDs(b: Bucket, ghost rows: Rows, ghost n: nat, ids: seq<string>, uuids: seq<string>,
                       idAcc: set<string>)
    returns (idAcc': set<string>)
    requires RowsRep(b, rows, n) && UuidsOfLength(uuids, n)
    ensures idAcc' == idAcc + WaitingIDs(rows, ids, uuids)
  {
    hide RowsRep;
    hide Waiting;
    idAcc' := idAcc;
    for m := 0 to |ids|
      invariant idAcc' == idAcc + WaitingIDs(rows, ids[..m], uuids)
    {
      assert ids[..m + 1] == ids[..m] + [ids[m]];
      var waits := false;
      if ids[m] !in idAcc' {
        waits := AnyCmdWaits(b, rows, n, ids[m], uuids);
      }
      if waits {
        idAcc' := idAcc' + {ids[m]};
      }
    }
    assert ids[..|ids|] == ids;
  }

  /* ---- Releasing a delayed step ---- */

  ghost predicate RawsKept(rows: Rows, s: string, uuids: seq<string>) {
    forall u :: u in uuids ==> CmdKey(s, u) in rows && rows[CmdKey(s, u)].raw.Some?
  }

  ghost function RawCommand(rows: Rows, s: string, u: string): StepCommandRaw
    requires CmdKey(s, u) in rows && rows[CmdKey(s, u)].raw.Some?
  {
    StepCommandRaw(u, rows[CmdKey(s, u)].reqType, rows[CmdKey(s, u)].raw.value)
  }

  ghost function RawCommands(rows: Rows, s: string, uuids: seq<string>): seq<StepCommandRaw>
    requires RawsKept(rows, s, uuids)
  {
    seq(|uuids|, j requires 0 <= j < |uuids| => RawCommand(rows, s, uuids[j]))
  }

  lemma RawCommandsNext(rows: Rows, s: string, uuids: seq<string>, j: nat)
    requires RawsKept(rows, s, uuids)
    ensures |RawCommands(rows, s, uuids)| == |uuids|
    ensures j < |uuids| ==>
              RawCommands(rows, s, uuids)[..j + 1] == RawCommands(rows, s, uuids)[..j] + [RawCommand(rows, s, uuids[j])]
  {
    hide RawCommand;
  }

  // Takes the raw commands of a step out of the bucket.
  method TakeRaws(b: Bucket, ghost rows: Rows, ghost n: nat, stepID: string, uuids: seq<string>)
    returns (r: Result<seq<StepCommandRaw>, Error>, b': Bucket)
    requires RowsRep(b, rows, n) && UuidsOfLength(uuids, n) && Distinct(uuids) && RawsKept(rows, stepID, uuids)
    ensures r == Ok(RawCommands(rows, stepID, uuids))
    ensures RowsRep(b', rows - Keys([stepID], uuids), n)
  {
    b' := b;
    var commands: seq<StepCommandRaw> := [];
    assert rows - Keys([stepID], uuids[..0]) == rows;
    hide RowsRep;
    RawCommandsNext(rows, stepID, uuids, 0);
    hide RawCommands;
    for j := 0 to |uuids|
      invariant |RawCommands(rows, stepID, uuids)| == |uuids| && commands == RawCommands(rows, stepID, uuids)[..j]
      invariant RowsRep(b', rows - Keys([stepID], uuids[..j]), n)
    {
      var uuid := uuids[j];
      assert uuid in uuids && uuid !in uuids[..j];
      ghost var before := rows - Keys([stepID], uuids[..j]);
      assert CmdKey(stepID, uuid) in before;
      RawCommandsNext(rows, stepID, uuids, j);
      RowReads(b', before, n, stepID, uuid);
      match GetIDCmdRaw(b', stepID, uuid)
      case Err(e) => return Err(e), b';
      case Ok(sc) =>
        commands := commands + [sc];
        DeleteRowRep(b', before, n, CmdKey(stepID, uuid));
        b' := DeleteIDCmd(b', stepID, uuid);
        KeysExtend(stepID, uuids, j);
        assert before - {CmdKey(stepID, uuid)} == rows - Keys([stepID], uuids[..j + 1]);
    }
    assert uuids[..|uuids|] == uuids;
    assert commands == RawCommands(rows, stepID, uuids);
    r := Ok(commands);
  }

  // Rows with the push time of some keys set.
  ghost function Stamped(rows: Rows, keys: set<CmdKey>, t: Time): Rows {
    map k | k in rows :: if k in keys then rows[k].(lastPush := t) else rows[k]
  }

  lemma StampOne(rows: Rows, keys: set<CmdKey>, k: CmdKey, t: Time)
    requires k in rows
    ensures k in Stamped(rows, keys, t)
    ensures Stamped(rows, keys + {k}, t) == Stamped(rows, keys, t)[k := Stamped(rows, keys, t)[k].(lastPush := t)]
  {
  }

  method StampCmds(b: Bucket, ghost rows: Rows, ghost keys: set<CmdKey>, ghost n: nat,
                   id: string, uuids: seq<string>, pushTime: Time)
    returns (b': Bucket)
    requires RowsRep(b, Stamped(rows, keys, pushTime), n) && Tracked(rows, id, uuids)
    ensures RowsRep(b', Stamped(rows, keys + Keys([id], uuids), pushTime), n)
  {
    b' := b;
    assert keys + Keys([id], uuids[..0]) == keys;
    hide RowsRep;
    hide Stamped;
    hide SetIDCmdLastPush;
    hide Keys;
    for j := 0 to |uuids|
      invariant RowsRep(b', Stamped(rows, keys + Keys([id], uuids[..j]), pushTime), n)
    {
      ghost var k := CmdKey(id, uuids[j]);
      assert uuids[j] in uuids;
      KeysExtend(id, uuids, j);
      StampOne(rows, keys + Keys([id], uuids[..j]), k, pushTime);
      LastPushRep(b', Stamped(rows, keys + Keys([id], uuids[..j]), pushTime), n, k, pushTime);
      b' := SetIDCmdLastPush(b', id, uuids[j], pushTime);
      assert keys + Keys([id], uuids[..j]) + {k} == keys + Keys([id], uuids[..j + 1]);
    }
    assert uuids[..|uuids|] == uuids;
  }

  // Sets the push times of all enrollments of a step.
  method StampStep(b: Bucket, ghost rows: Rows, ghost n: nat, ids: seq<string>, uuids: seq<string>, pushTime: Time)
    returns (b': Bucket)
    requires RowsRep(b, rows, n) && forall i :: i in ids ==> Tracked(rows, i, uuids)
    ensures RowsRep(b', Stamped(rows, Keys(ids, uuids), pushTime), n)
  {
    b' := b;
    assert Stamped(rows, Keys(ids[..0], uuids), pushTime) == rows;
    hide RowsRep;
    hide Stamped;
    for m := 0 to |ids|
      invariant RowsRep(b', Stamped(rows, Keys(ids[..m], uuids), pushTime), n)
    {
      assert ids[m] in ids && ids[..m + 1] == ids[..m] + [ids[m]];
      b' := StampCmds(b', rows, Keys(ids[..m], uuids), n, ids[m], uuids, pushTime);
      assert Keys(ids[..m], uuids) + Keys([ids[m]], uuids) == Keys(ids[..m + 1], uuids);
    }
    assert ids[..|ids|] == ids;
  }

  // Takes a delayed step out of its delay: hands out its commands, forgets
  // their raw form and starts the enrollments' push times.
  method ReleaseStep(sb: Bucket, cb: Bucket, ghost steps: Steps, ghost rows: Rows, ghost n: nat, stepID: string,
                     pushTime: Time)
    returns (r: Result<StepEnqueueing, Error>, sb': Bucket, cb': Bucket)
    requires StepsRep(sb, steps) && RowsRep(cb, rows, n)
    requires stepID in steps && steps[stepID].notUntil != 0
    requires Distinct(steps[stepID].uuids) && UuidsOfLength(steps[stepID].uuids, n)
    requires RawsKept(rows, stepID, steps[stepID].uuids)
    requires forall i :: i in steps[stepID].ids ==> i != stepID && Tracked(rows, i, steps[stepID].uuids)
    ensures var step := steps[stepID];
            && r == Ok(StepEnqueueing(step.ctx.(context := ""), step.ids, RawCommands(rows, stepID, step.uuids)))
            && StepsRep(sb', steps[stepID := step.(notUntil := 0)])
            && RowsRep(cb', Stamped(rows - Keys([stepID], step.uuids), Keys(step.ids, step.uuids), pushTime), n)
  {
    sb', cb' := sb, cb;
    StepReads(sb, steps, stepID);
    DeleteNotUntilRep(sb, steps, stepID);
    hide StepsRep;
    hide RowsRep;
    hide RawCommands;
    hide Stamped;
    match GetStepMeta(sb, stepID)
    case Err(e) => r := Err(e);
    case Ok(ctx) =>
      match GetStepIDs(sb, stepID)
      case Err(e) => r := Err(e);
      case Ok(ids) =>
        match GetStepCmds(sb, stepID)
        case Err(e) => r := Err(e);
        case Ok(uuids) =>
          var taken;
          taken, cb' := TakeRaws(cb, rows, n, stepID, uuids);
          match taken
          case Err(e) => r := Err(e);
          case Ok(commands) =>
            sb' := DeleteStepNotUntil(sb, stepID);
            cb' := StampStep(cb', rows - Keys([stepID], uuids), n, ids, uuids, pushTime);
            r := Ok(StepEnqueueing(ctx, ids, commands));
  }

  /* ---- Timing a step out ---- */

  ghost function UnfinishedAll(rows: Rows, id: string, uuids: seq<string>): seq<StepCommandResult>
    requires Tracked(rows, id, uuids)
  {
    seq(|uuids|, j requires 0 <= j < |uuids| => Unfinished(uuids[j], rows[CmdKey(id, uuids[j])]))
  }

  function GetIDCmdStepResult(b: Bucket, id: string, cmdUUID: string): Result<Option<StepCommandResult>, Error> {
    if !IDCmdExists(b, id, cmdUUID) then Ok(None)
    else
      var requestType :- GetIDCmdReqType(b, id, cmdUUID);
      var resultReport := if Key(id + cmdUUID, Buckets.Report) in b then b[Key(id + cmdUUID, Buckets.Report)] else "";
      Ok(Some(StepCommandResult(cmdUUID, requestType, resultReport, IDCmdIsComplete(b, id, cmdUUID))))
  }

  lemma ReadsUnfinished(b: Bucket, rows: Rows, n: nat, id: string, uuid: string)
    requires RowsRep(b, rows, n) && |uuid| == n
    ensures GetIDCmdStepResult(b, id, uuid)
            == Ok(if CmdKey(id, uuid) in rows then Some(Unfinished(uuid, rows[CmdKey(id, uuid)])) else None)
  {
    RowReads(b, rows, n, id, uuid);
    hide RowsRep;
  }

  // The results of the first j commands, of which all or none are tracked.
  ghost function UnfinishedFirst(rows: Rows, id: string, uuids: seq<string>, j: nat): seq<StepCommandResult>
    requires j <= |uuids|
  {
    if Tracked(rows, id, uuids) then UnfinishedAll(rows, id, uuids)[..j] else []
  }

  lemma UnfinishedNext(rows: Rows, id: string, uuids: seq<string>, j: nat)
    requires j < |uuids| && Distinct(uuids) && (Tracked(rows, id, uuids) || Untracked(rows, id, uuids))
    ensures var left := rows - Keys([id], uuids[..j]);
            var k := CmdKey(id, uuids[j]);
            && (k in left <==> Tracked(rows, id, uuids))
            && (k in left ==> k in rows && left[k] == rows[k])
            && UnfinishedFirst(rows, id, uuids, j + 1)
               == UnfinishedFirst(rows, id, uuids, j) + (if k in left then [Unfinished(uuids[j], left[k])] else [])
            && left - {k} == rows - Keys([id], uuids[..j + 1])
  {
    KeysExtend(id, uuids, j);
    assert uuids[j] in uuids && uuids[j] !in uuids[..j];
    hide Unfinished;
  }

  lemma UnfinishedEnds(rows: Rows, id: string, uuids: seq<string>)
    ensures rows - Keys([id], uuids[..0]) == rows && UnfinishedFirst(rows, id, uuids, 0) == []
    ensures UnfinishedFirst(rows, id, uuids, |uuids|)
            == if Tracked(rows, id, uuids) then UnfinishedAll(rows, id, uuids) else []
    ensures uuids[..|uuids|] == uuids
  {
    hide Unfinished;
  }

  // Takes what is known of the commands of one enrollment out of the bucket.
  method TakeUnfinished(b: Bucket, ghost rows: Rows, ghost n: nat, id: string, uuids: seq<string>)
    returns (r: Result<seq<StepCommandResult>, Error>, b': Bucket)
    requires RowsRep(b, rows, n) && UuidsOfLength(uuids, n) && Distinct(uuids)
    requires Tracked(rows, id, uuids) || Untracked(rows, id, uuids)
    ensures r == Ok(if Tracked(rows, id, uuids) then UnfinishedAll(rows, id, uuids) else [])
    ensures RowsRep(b', rows - Keys([id], uuids), n)
  {
    hide RowsRep;
    hide GetIDCmdStepResult;
    hide Unfinished;
    hide UnfinishedFirst;
    hide UnfinishedAll;
    hide Keys;
    hide Tracked;
    hide Untracked;
    b' := b;
    var commands: seq<StepCommandResult> := [];
    UnfinishedEnds(rows, id, uuids);
    for j := 0 to |uuids|
      invariant RowsRep(b', rows - Keys([id], uuids[..j]), n)
      invariant commands == UnfinishedFirst(rows, id, uuids, j)
    {
      var uuid := uuids[j];
      assert uuid in uuids;
      ghost var left := rows - Keys([id], uuids[..j]);
      UnfinishedNext(rows, id, uuids, j);
      ReadsUnfinished(b', left, n, id, uuid);
      match GetIDCmdStepResult(b', id, uuid)
      case Err(e) => return Err(e), b';
      case Ok(None) =>
        assert left - {CmdKey(id, uuid)} == left;
      case Ok(Some(result)) =>
        commands := commands + [result];
        DeleteRowRep(b', left, n, CmdKey(id, uuid));
        b' := DeleteIDCmd(b', id, uuid);
    }
    r := Ok(commands);
  }

  // The results of a timed-out step for those enrollments that are tracked.
  ghost function TimedOutIn(rows: Rows, ctx: StepContext, ids: seq<string>, uuids: seq<string>): seq<StepResult> {
    if ids == [] then []
    else
      var i := ids[|ids| - 1];
      TimedOutIn(rows, ctx, ids[..|ids| - 1], uuids)
      + if Tracked(rows, i, uuids) then [StepResult(ctx, [i], UnfinishedAll(rows, i, uuids))] else []
  }

  lemma TimedOutInExtend(rows: Rows, ctx: StepContext, ids: seq<string>, m: nat, uuids: seq<string>)
    requires m < |ids|
    ensures TimedOutIn(rows, ctx, ids[..m + 1], uuids)
            == TimedOutIn(rows, ctx, ids[..m], uuids)
               + if Tracked(rows, ids[m], uuids) then [StepResult(ctx, [ids[m]], UnfinishedAll(rows, ids[m], uuids))]
               else []
  {
    assert ids[..m + 1][..m] == ids[..m];
  }

  lemma KeysByOwner(rows: Rows, ids: seq<string>, m: nat, uuids: seq<string>)
    requires m < |ids| && Distinct(ids)
    ensures rows - Keys(ids[..m], uuids) - Keys([ids[m]], uuids) == rows - Keys(ids[..m + 1], uuids)
    ensures var left := rows - Keys(ids[..m], uuids);
            && (Tracked(left, ids[m], uuids) <==> Tracked(rows, ids[m], uuids))
            && (Untracked(left, ids[m], uuids) <==> Untracked(rows, ids[m], uuids))
            && (Tracked(rows, ids[m], uuids) ==>
                  UnfinishedAll(left, ids[m], uuids) == UnfinishedAll(rows, ids[m], uuids))
  {
    assert ids[..m + 1] == ids[..m] + [ids[m]];
    hide Unfinished;
  }

  method TimeOutStep(sb: Bucket, cb: Bucket, ghost steps: Steps, ghost rows: Rows, ghost n: nat, stepID: string)
    returns (r: Result<seq<StepResult>, Error>, sb': Bucket, cb': Bucket)
    requires StepsRep(sb, steps) && RowsRep(cb, rows, n) && stepID in steps
    requires Distinct(steps[stepID].uuids) && UuidsOfLength(steps[stepID].uuids, n) && steps[stepID].uuids != []
    requires Distinct(steps[stepID].ids)
    requires forall i :: i in steps[stepID].ids ==>
               Tracked(rows, i, steps[stepID].uuids) || Untracked(rows, i, steps[stepID].uuids)
    ensures var step := steps[stepID];
            && r == Ok(TimedOutIn(rows, step.ctx, step.ids, step.uuids))
            && StepsRep(sb', steps - {stepID})
            && RowsRep(cb', rows - Keys(step.ids, step.uuids), n)
  {
    sb', cb' := sb, cb;
    StepReads(sb, steps, stepID);
    hide StepsRep;
    hide RowsRep;
    hide TimedOutIn;
    hide UnfinishedAll;
    match GetStepResult(sb, stepID)
    case Err(e) => return Err(e), sb', cb';
    case Ok(step) =>
      match GetStepIDs(sb, stepID)
      case Err(e) => return Err(e), sb', cb';
      case Ok(ids) =>
        match GetStepCmds(sb, stepID)
        case Err(e) => return Err(e), sb', cb';
        case Ok(uuids) =>
          r, cb' := TimeOutIDs(cb, rows, n, step, ids, uuids);
          DeleteStepRep(sb, steps, stepID);
          sb' := DeleteStep(sb, stepID);
  }

  method TimeOutIDs(b: Bucket, ghost rows: Rows, ghost n: nat, step: StepResult, ids: seq<string>, uuids: seq<string>)
    returns (r: Result<seq<StepResult>, Error>, b': Bucket)
    requires RowsRep(b, rows, n) && Distinct(ids) && Distinct(uuids) && UuidsOfLength(uuids, n) && uuids != []
    requires forall i :: i in ids ==> Tracked(rows, i, uuids) || Untracked(rows, i, uuids)
    requires step.commands == []
    ensures r == Ok(TimedOutIn(rows, step.ctx, ids, uuids))
    ensures RowsRep(b', rows - Keys(ids, uuids), n)
  {
    b' := b;
    var steps: seq<StepResult> := [];
    assert rows - Keys(ids[..0], uuids) == rows && TimedOutIn(rows, step.ctx, ids[..0], uuids) == [];
    hide RowsRep;
    hide TimedOutIn;
    hide UnfinishedAll;
    hide Keys;
    for m := 0 to |ids|
      invariant RowsRep(b', rows - Keys(ids[..m], uuids), n)
      invariant steps == TimedOutIn(rows, step.ctx, ids[..m], uuids)
    {
      var id := ids[m];
      assert id in ids;
      KeysByOwner(rows, ids, m, uuids);
      TimedOutInExtend(rows, step.ctx, ids, m, uuids);
      var taken;
      taken, b' := TakeUnfinished(b', rows - Keys(ids[..m], uuids), n, id, uuids);
      UnfinishedCount(rows, id, uuids);
      match taken
      case Err(e) => return Err(e), b';
      case Ok(commands) =>
        if |commands| > 0 {
          steps := steps + [step.(ids := [id], commands := commands)];
        }
    }
    assert ids[..|ids|] == ids;
    r := Ok(steps);
  }

  lemma UnfinishedCount(rows: Rows, id: string, uuids: seq<string>)
    ensures Tracked(rows, id, uuids) ==> |UnfinishedAll(rows, id, uuids)| == |uuids|
  {
  }

  /* ---- Re-pushing ---- */

  ghost function StaleKeys(rows: Rows, ifBefore: Time): set<CmdKey> {
    set k | k in rows && Stale(rows[k], ifBefore)
  }

  ghost function Name(k: CmdKey): string {
    k.owner + k.uuid
  }

  // The push-time field of a record belongs to a tracked command.
  lemma LastPushReads(b: Bucket, rows: Rows, n: nat, base: string)
    requires RowsRep(b, rows, n)
    ensures Key(base, LastPush) in b <==> n <= |base| && KeyOf(base, n) in rows
    ensures Key(base, LastPush) in b ==>
              && ParseTime(b[Key(base, LastPush)]) == Ok(rows[KeyOf(base, n)].lastPush)
              && Get(b, Key(base, Owner)) == Ok(KeyOf(base, n).owner)
              && Name(KeyOf(base, n)) == base
  {
    assert At(b, base) == RowRecordAt(rows, base, n);
    FieldAt(b, base, LastPush);
    FieldAt(b, base, Owner);
    hide At;
    hide RowsRep;
    hide ParseTime;
    hide FormatTime;
    if n <= |base| && KeyOf(base, n) in rows {
      ParseFormatTime(rows[KeyOf(base, n)].lastPush);
    }
  }

  ghost function StaleNames(rows: Rows, ifBefore: Time): set<string> {
    set k | k in StaleKeys(rows, ifBefore) :: Name(k)
  }

  lemma StaleNamesExact(rows: Rows, n: nat, ifBefore: Time, base: string)
    requires forall k :: k in rows ==> |k.uuid| == n
    ensures base in StaleNames(rows, ifBefore) <==> n <= |base| && KeyOf(base, n) in StaleKeys(rows, ifBefore)
  {
    if base in StaleNames(rows, ifBefore) {
      var k :| k in StaleKeys(rows, ifBefore) && Name(k) == base;
      assert KeyOf(base, n) == k;
    }
    if n <= |base| && KeyOf(base, n) in StaleKeys(rows, ifBefore) {
      assert Name(KeyOf(base, n)) == base;
    }
  }

  // The new push times of the commands found so far.
  ghost predicate Resets(reset: Bucket, names: seq<string>, setTo: Time) {
    && (forall key :: key in reset <==> exists m :: 0 <= m < |names| && key == Key(names[m], LastPush))
    && (forall key :: key in reset ==> reset[key] == FormatTime(setTo))
  }

  lemma ResetsExtend(reset: Bucket, names: seq<string>, setTo: Time, name: string)
    requires Resets(reset, names, setTo)
    ensures Resets(reset[Key(name, LastPush) := FormatTime(setTo)], names + [name], setTo)
  {
    var names' := names + [name];
    var reset' := reset[Key(name, LastPush) := FormatTime(setTo)];
    forall key
      ensures key in reset' <==> exists m :: 0 <= m < |names'| && key == Key(names'[m], LastPush)
    {
      if key in reset {
        var m :| 0 <= m < |names| && key == Key(names[m], LastPush);
        assert names'[m] == names[m];
      }
      if key == Key(name, LastPush) {
        assert names'[|names|] == name;
      }
      if exists m :: 0 <= m < |names'| && key == Key(names'[m], LastPush) {
        var m :| 0 <= m < |names'| && key == Key(names'[m], LastPush);
        assert m < |names| ==> key == Key(names[m], LastPush);
      }
    }
  }

  lemma ResetHits(reset: Bucket, names: seq<string>, setTo: Time, base: string, f: Field)
    requires Resets(reset, names, setTo)
    ensures Key(base, f) in reset <==> f == LastPush && base in names
  {
    if Key(base, f) in reset {
      var m :| 0 <= m < |names| && Key(base, f) == Key(names[m], LastPush);
      KeyInjective(base, f, names[m], LastPush);
    }
  }

  lemma ResetRecord(b: Bucket, reset: Bucket, names: seq<string>, setTo: Time, base: string)
    requires Resets(reset, names, setTo)
    ensures At(b + reset, base)
            == At(b, base) + (if base in names then map[LastPush := FormatTime(setTo)] else map[])
  {
    forall f: Field {
      ResetHits(reset, names, setTo, base, f);
    }
    hide Resets;
  }

  lemma ResetRep(b: Bucket, rows: Rows, n: nat, ifBefore: Time, reset: Bucket, names: seq<string>, setTo: Time)
    requires RowsRep(b, rows, n) && Resets(reset, names, setTo)
    requires forall base :: base in names <==> base in StaleNames(rows, ifBefore)
    ensures RowsRep(b + reset, Stamped(rows, StaleKeys(rows, ifBefore), setTo), n)
  {
    hide At;
    hide Resets;
    hide RowRecord;
    hide StaleKeys;
    var rows' := Stamped(rows, StaleKeys(rows, ifBefore), setTo);
    forall base
      ensures At(b + reset, base) == RowRecordAt(rows', base, n)
    {
      assert At(b, base) == RowRecordAt(rows, base, n);
      ResetRecord(b, reset, names, setTo, base);
      StaleNamesExact(rows, n, ifBefore, base);
      StaleInRows(rows, ifBefore);
      if n <= |base| && KeyOf(base, n) in rows {
        PushedRowRecord(KeyOf(base, n).owner, rows[KeyOf(base, n)], setTo);
      }
    }
  }

  lemma StaleInRows(rows: Rows, ifBefore: Time)
    ensures StaleKeys(rows, ifBefore) <= rows.Keys
  {
  }

  /* ---- The scan, over any bucket ---- */

  // A last push that is set and not after ifBefore.
  ghost predicate StaleAt(b: Bucket, base: string, ifBefore: Time) {
    && Key(base, LastPush) in b && ParseTime(b[Key(base, LastPush)]).Ok?
    && 0 != ParseTime(b[Key(base, LastPush)]).value <= ifBefore
  }

  ghost function StaleBases(b: Bucket, ifBefore: Time): set<string> {
    set k | k in b && HasSuffix(k, Suffix(LastPush)) && StaleAt(b, Base(k, LastPush), ifBefore) :: Base(k, LastPush)
  }

  lemma StaleBasesExact(b: Bucket, ifBefore: Time, base: string)
    ensures base in StaleBases(b, ifBefore) <==> StaleAt(b, base, ifBefore)
  {
    if StaleAt(b, base, ifBefore) {
      BaseOfKey(base, LastPush);
      assert Key(base, LastPush) in b;
    }
  }

  // Every last push reads, and whoever is stale has an owner.
  ghost predicate Scannable(b: Bucket, ifBefore: Time) {
    forall base :: Key(base, LastPush) in b ==>
      ParseTime(b[Key(base, LastPush)]).Ok? && (StaleAt(b, base, ifBefore) ==> Key(base, Owner) in b)
  }

  ghost predicate Owned(b: Bucket, names: seq<string>, ids: seq<string>) {
    |ids| == |names| && forall m :: 0 <= m < |names| ==> Key(names[m], Owner) in b && ids[m] == b[Key(names[m], Owner)]
  }

  ghost predicate SeenScannable(b: Bucket, seen: seq<string>, ifBefore: Time) {
    forall base :: Key(base, LastPush) in b && Key(base, LastPush) in seen ==>
      ParseTime(b[Key(base, LastPush)]).Ok? && (StaleAt(b, base, ifBefore) ==> Key(base, Owner) in b)
  }

  lemma SeenNext(b: Bucket, seen: seq<string>, k: string, ifBefore: Time)
    requires SeenScannable(b, seen, ifBefore)
    requires HasSuffix(k, Suffix(LastPush)) && k in b ==>
               ParseTime(b[k]).Ok? && (StaleAt(b, Base(k, LastPush), ifBefore) ==> Key(Base(k, LastPush), Owner) in b)
    ensures SeenScannable(b, seen + [k], ifBefore)
  {
    hide StaleAt;
    hide ParseTime;
    forall base | Key(base, LastPush) == k
      ensures HasSuffix(k, Suffix(LastPush)) && base == Base(k, LastPush)
    {
      BaseOfKey(base, LastPush);
    }
  }

  // Scans for the commands whose last push is set and not after ifBefore, and
  // sets it. Returns the owner of each, in the order of the scan.
  method FindCommandsToRePush(b: Bucket, ifBefore: Time, setTo: Time)
    returns (r: Result<seq<string>, Error>, b': Bucket, ghost names: seq<string>, ghost reset: Bucket)
    ensures r.Ok? <==> Scannable(b, ifBefore)
    ensures r.Err? ==> b' == b
    ensures r.Ok? ==>
              && Distinct(names) && (forall base :: base in names <==> StaleAt(b, base, ifBefore))
              && Owned(b, names, r.value)
              && Resets(reset, names, setTo) && b' == b + reset
  {
    b' := b;
    var ids: seq<string> := [];
    var resetLastPushes: Bucket := map[];
    names, reset := [], map[];
    var keys := ListKeys(b);
    ghost var good := StaleBases(b, ifBefore);
    assert Collected(names, keys[..0], LastPush, good) && SeenScannable(b, keys[..0], ifBefore);
    ResetsEmpty(setTo);
    hide Collected;
    hide Resets;
    hide StaleBases;
    hide SeenScannable;
    hide ParseTime;
    for j := 0 to |keys|
      invariant Collected(names, keys[..j], LastPush, good)
      invariant SeenScannable(b, keys[..j], ifBefore)
      invariant Resets(resetLastPushes, names, setTo)
      invariant Owned(b, names, ids)
    {
      var k := keys[j];
      assert k in b && k !in keys[..j] && keys[..j + 1] == keys[..j] + [k];
      if HasSuffix(k, Suffix(LastPush)) {
        var idCmd := Base(k, LastPush);
        StaleBasesExact(b, ifBefore, idCmd);
        match ParseTime(b[k])
        case Err(e) => return Err(e), b', names, reset;
        case Ok(lastPush) =>
          if lastPush == 0 || lastPush > ifBefore {
            CollectSkip(names, keys[..j], k, LastPush, good);
          } else {
            match Get(b, Key(idCmd, Owner))
            case Err(e) => return Err(e), b', names, reset;
            case Ok(id) =>
              CollectAdd(names, keys[..j], k, LastPush, good);
              ResetsExtend(resetLastPushes, names, setTo, idCmd);
              resetLastPushes := resetLastPushes[k := FormatTime(setTo)];
              ids := ids + [id];
              names := names + [idCmd];
          }
      } else {
        CollectSkip(names, keys[..j], k, LastPush, good);
      }
      SeenNext(b, keys[..j], k, ifBefore);
    }
    forall base
      ensures base in good <==> StaleAt(b, base, ifBefore)
    {
      StaleBasesExact(b, ifBefore, base);
    }
    CollectedAll(names, keys, LastPush, good);
    assert Scannable(b, ifBefore) by {
      AllScannable(b, keys, ifBefore);
    }
    reset := resetLastPushes;
    b' := b + resetLastPushes;
    r := Ok(ids);
  }

  lemma AllScannable(b: Bucket, keys: seq<string>, ifBefore: Time)
    requires SeenScannable(b, keys[..|keys|], ifBefore) && forall k :: k in keys <==> k in b
    ensures Scannable(b, ifBefore)
  {
    assert keys[..|keys|] == keys;
  }

  lemma ResetsEmpty(setTo: Time)
    ensures Resets(map[], [], setTo)
  {
  }

  /* ---- The scan, over the rows of a bucket ---- */

  lemma StaleAtRow(b: Bucket, rows: Rows, n: nat, ifBefore: Time, base: string)
    requires RowsRep(b, rows, n)
    ensures StaleAt(b, base, ifBefore) <==> n <= |base| && KeyOf(base, n) in StaleKeys(rows, ifBefore)
    ensures Key(base, LastPush) in b ==> ParseTime(b[Key(base, LastPush)]).Ok? && Key(base, Owner) in b
    ensures Key(base, LastPush) in b ==> n <= |base| && b[Key(base, Owner)] == KeyOf(base, n).owner
  {
    LastPushReads(b, rows, n, base);
    hide RowsRep;
    hide ParseTime;
  }

  ghost function OwnersOf(names: seq<string>, n: nat): seq<string>
    requires forall m :: 0 <= m < |names| ==> n <= |names[m]|
  {
    seq(|names|, m requires 0 <= m < |names| => KeyOf(names[m], n).owner)
  }

  // Over represented rows the scan never fails, finds the stale rows and stamps
  // them.
  lemma ScannedRows(b: Bucket, rows: Rows, n: nat, ifBefore: Time, setTo: Time, names: seq<string>, ids: seq<string>,
                    reset: Bucket)
    requires RowsRep(b, rows, n)
    ensures Scannable(b, ifBefore)
    ensures (forall base :: base in names <==> StaleAt(b, base, ifBefore)) && Owned(b, names, ids)
            && Resets(reset, names, setTo) ==>
              && (forall m :: 0 <= m < |names| ==> n <= |names[m]|)
              && ids == OwnersOf(names, n)
              && (forall base :: base in names <==> base in StaleNames(rows, ifBefore))
              && RowsRep(b + reset, Stamped(rows, StaleKeys(rows, ifBefore), setTo), n)
  {
    RowLengths(b, rows, n);
    hide RowsRep;
    hide StaleAt;
    hide StaleNames;
    hide Resets;
    hide Stamped;
    forall base
      ensures StaleAt(b, base, ifBefore) <==> base in StaleNames(rows, ifBefore)
      ensures StaleAt(b, base, ifBefore) ==> n <= |base|
      ensures Key(base, LastPush) in b ==> ParseTime(b[Key(base, LastPush)]).Ok? && Key(base, Owner) in b
      ensures Key(base, LastPush) in b ==> n <= |base| && b[Key(base, Owner)] == KeyOf(base, n).owner
    {
      StaleAtRow(b, rows, n, ifBefore, base);
      StaleNamesExact(rows, n, ifBefore, base);
    }
    if (forall base :: base in names <==> StaleAt(b, base, ifBefore))
       && Owned(b, names, ids) && Resets(reset, names, setTo) {
      forall m | 0 <= m < |names|
        ensures n <= |names[m]| && ids[m] == KeyOf(names[m], n).owner
      {
        assert names[m] in names;
        StaleHasKey(b, names[m], ifBefore);
      }
      ResetRep(b, rows, n, ifBefore, reset, names, setTo);
    }
  }

  lemma StaleHasKey(b: Bucket, base: string, ifBefore: Time)
    requires StaleAt(b, base, ifBefore)
    ensures Key(base, LastPush) in b
  {
  }

  lemma RowLengths(b: Bucket, rows: Rows, n: nat)
    requires RowsRep(b, rows, n)
    ensures forall k :: k in rows ==> |k.uuid| == n
  {
  }

  // A push time that is written for a command which is gone makes the scan fail
  // from that time on, because nothing says whose it is.
  lemma StrayPushExact(b: Bucket, rows: Rows, n: nat, id: string, uuid: string, pushTime: Time, ifBefore: Time)
    requires RowsRep(b, rows, n) && |uuid| == n
    ensures Scannable(SetIDCmdLastPush(b, id, uuid, pushTime), ifBefore)
            <==> CmdKey(id, uuid) in rows || pushTime == 0 || ifBefore < pushTime
  {
    var b' := SetIDCmdLastPush(b, id, uuid, pushTime);
    ParseFormatTime(pushTime);
    assert KeyOf(id + uuid, n) == CmdKey(id, uuid);
    StaleAtRow(b, rows, n, ifBefore, id + uuid);
    RowReads(b, rows, n, id, uuid);
    OwnerOfRow(b, rows, n, id, uuid);
    forall base
      ensures Key(base, LastPush) == Key(id + uuid, LastPush) <==> base == id + uuid
      ensures Key(base, Owner) != Key(id + uuid, LastPush)
      ensures base != id + uuid ==> (StaleAt(b', base, ifBefore) <==> StaleAt(b, base, ifBefore))
      ensures Key(base, LastPush) in b ==> ParseTime(b[Key(base, LastPush)]).Ok? && Key(base, Owner) in b
    {
      StrayKey(base, id + uuid);
      StaleAtRow(b, rows, n, ifBefore, base);
    }
    hide RowsRep;
    hide ParseTime;
    hide FormatTime;
  }

  lemma StrayKey(base: string, other: string)
    ensures Key(base, LastPush) == Key(other, LastPush) <==> base == other
    ensures Key(base, Owner) != Key(other, LastPush)
  {
    if Key(base, LastPush) == Key(other, LastPush) {
      KeyInjective(base, LastPush, other, LastPush);
    }
    if Key(base, Owner) == Key(other, LastPush) {
      KeyInjective(base, Owner, other, LastPush);
    }
  }

  lemma OwnerOfRow(b: Bucket, rows: Rows, n: nat, id: string, uuid: string)
    requires RowsRep(b, rows, n) && |uuid| == n
    ensures Key(id + uuid, Owner) in b <==> CmdKey(id, uuid) in rows
  {
    RecordOfRow(b, rows, n, id, uuid);
    FieldAt(b, id + uuid, Owner);
  }
}
