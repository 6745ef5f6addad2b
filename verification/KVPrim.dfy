/**
 The primitives of the key-value backend: how steps and tracked commands are
 written to their buckets, read back and deleted, and the relation between the
 two flat buckets and the tracker's state.
 */
module KVPrim {
  import opened Wrappers
  import opened Text
  import opened Records
  import opened Tracker
  import opened Buckets

  const STRING_SEP := ','

  const CMD_FIELDS: seq<Field> := [StepRef, ReqType, Raw, LastPush, Report, Complete, Owner]
  const STEP_FIELDS: seq<Field> := [Meta, IDs, Ctx, Cmds, NotUntil, Timeout]

  function FieldSet(fields: seq<Field>): set<Field> {
    set f | f in fields
  }

  function MarshalStrings(s: seq<string>): Bytes {
    Join(s, STRING_SEP)
  }

  function UnmarshalStrings(b: Bytes): seq<string> {
    Split(b, STRING_SEP)
  }

  /* ---- What the buckets hold ---- */

  function StepField(step: Step, f: Field): Option<Bytes> {
    match f
    case Meta => Some(MarshalStrings([step.ctx.instanceID, step.ctx.workflowName, step.ctx.name]))
    case IDs => Some(MarshalStrings(step.ids))
    case Cmds => Some(MarshalStrings(step.uuids))
    case Ctx => if step.ctx.context != "" then Some(step.ctx.context) else None
    case NotUntil => if step.notUntil != 0 then Some(FormatTime(step.notUntil)) else None
    case Timeout => if step.timeout != 0 then Some(FormatTime(step.timeout)) else None
    case _ => None
  }

  function StepRecord(step: Step): Record {
    map f: Field | StepField(step, f).Some? :: StepField(step, f).value
  }

  function RowField(owner: string, row: Row, f: Field): Option<Bytes> {
    match f
    case StepRef => Some(row.stepID)
    case ReqType => Some(row.reqType)
    case Owner => Some(owner)
    case LastPush => Some(FormatTime(row.lastPush))
    case Raw => row.raw
    case Report => row.result
    case Complete => if row.done then Some("1") else None
    case _ => None
  }

  function RowRecord(owner: string, row: Row): Record {
    map f: Field | RowField(owner, row, f).Some? :: RowField(owner, row, f).value
  }

  // No element of a stored list holds the separator.
  ghost predicate Encodable(step: Step) {
    && AllLack([step.ctx.instanceID, step.ctx.workflowName, step.ctx.name], STRING_SEP)
    && step.ids != [] && AllLack(step.ids, STRING_SEP)
    && step.uuids != [] && AllLack(step.uuids, STRING_SEP)
  }

  ghost function StepRecordAt(steps: Steps, s: string): Record {
    if s in steps then StepRecord(steps[s]) else map[]
  }

  ghost predicate StepsRep(b: Bucket, steps: Steps) {
    && (forall s :: At(b, s) == StepRecordAt(steps, s))
    && (forall s :: s in steps ==> Encodable(steps[s]))
  }

  ghost function KeyOf(base: string, n: nat): CmdKey
    requires n <= |base|
  {
    CmdKey(base[..|base| - n], base[|base| - n..])
  }

  // The record filed under a name, when UUIDs have length n.
  ghost function RowRecordAt(rows: Rows, base: string, n: nat): Record {
    if n <= |base| && KeyOf(base, n) in rows then RowRecord(KeyOf(base, n).owner, rows[KeyOf(base, n)]) else map[]
  }

  ghost predicate RowsRep(b: Bucket, rows: Rows, n: nat) {
    && (forall k :: k in rows ==> |k.uuid| == n)
    && (forall base :: At(b, base) == RowRecordAt(rows, base, n))
  }

  /* ---- Step records ---- */

  method SetStep(b: Bucket, stepID: string, step: Option<StepEnqueuingWithConfig>) returns (r: Result<Bucket, Error>)
    ensures r == match ValidateStep(step)
                 case Some(reason) => Err(InvalidStep(reason))
                 case None => Ok(b + Keyed(stepID, StepRecord(NewStep(step.value))))
  {
    var invalid := ValidateStep(step);
    if invalid.Some? {
      return Err(InvalidStep(invalid.value));
    }
    hide StepRecord;
    hide FormatTime;
    hide MarshalStrings;
    var se := step.value;
    var cmdUUIDs: seq<string> := [];
    for n := 0 to |se.commands|
      invariant |cmdUUIDs| == n
      invariant forall j :: 0 <= j < n ==> cmdUUIDs[j] == se.commands[j].commandUUID
    {
      cmdUUIDs := cmdUUIDs + [se.commands[n].commandUUID];
    }
    assert cmdUUIDs == Uuids(se.commands);
    BuiltRecord(NewStep(se));
    ghost var lists := {Meta, IDs, Cmds};
    PartNext(NewStep(se), lists, Ctx);
    PartNext(NewStep(se), lists + {Ctx}, NotUntil);
    PartNext(NewStep(se), lists + {Ctx} + {NotUntil}, Timeout);
    hide PartRecord;
    var record: Record := map[Meta := MarshalStrings([se.ctx.instanceID, se.ctx.workflowName, se.ctx.name]),
                              IDs := MarshalStrings(se.ids),
                              Cmds := MarshalStrings(cmdUUIDs)];
    if |se.ctx.context| > 0 {
      record := record + map[Ctx := se.ctx.context];
    }
    assert record == PartRecord(NewStep(se), lists + {Ctx});
    if se.notUntil != 0 {
      record := record + map[NotUntil := FormatTime(se.notUntil)];
    }
    assert record == PartRecord(NewStep(se), lists + {Ctx} + {NotUntil});
    if se.timeout != 0 {
      record := record + map[Timeout := FormatTime(se.timeout)];
    }
    assert record == PartRecord(NewStep(se), lists + {Ctx} + {NotUntil} + {Timeout});
    return Ok(b + Keyed(stepID, record));
  }

  // The record of a step as far as some of its fields go.
  ghost function PartRecord(step: Step, fields: set<Field>): Record {
    map f: Field | f in fields && StepField(step, f).Some? :: StepField(step, f).value
  }

  lemma PartNext(step: Step, fields: set<Field>, f: Field)
    ensures PartRecord(step, fields + {f})
            == PartRecord(step, fields)
               + if StepField(step, f).Some? then map[f := StepField(step, f).value] else map[]
  {
    hide StepField;
  }

  // The record that is built field by field.
  lemma BuiltRecord(step: Step)
    ensures var lists := {Meta, IDs, Cmds};
            && PartRecord(step, lists)
               == map[Meta := MarshalStrings([step.ctx.instanceID, step.ctx.workflowName, step.ctx.name]),
                      IDs := MarshalStrings(step.ids),
                      Cmds := MarshalStrings(step.uuids)]
            && PartRecord(step, lists + {Ctx} + {NotUntil} + {Timeout}) == StepRecord(step)
  {
    hide FormatTime;
    hide MarshalStrings;
  }

  function GetStepCmds(b: Bucket, stepID: string): Result<seq<string>, Error> {
    var cmdUUIDs :- Get(b, Key(stepID, Cmds));
    Ok(UnmarshalStrings(cmdUUIDs))
  }

  function GetStepIDs(b: Bucket, stepID: string): Result<seq<string>, Error> {
    var ids :- Get(b, Key(stepID, IDs));
    Ok(UnmarshalStrings(ids))
  }

  // The step's metadata without its context.
  function GetStepMeta(b: Bucket, stepID: string): Result<StepContext, Error> {
    var meta :- Get(b, Key(stepID, Meta));
    var s := UnmarshalStrings(meta);
    if |s| != 3 then Err(InvalidMeta) else Ok(StepContext(s[1], s[0], s[2], ""))
  }

  function GetStepResult(b: Bucket, stepID: string): Result<StepResult, Error> {
    var ctx :- GetStepMeta(b, stepID);
    var context := if Key(stepID, Ctx) in b then b[Key(stepID, Ctx)] else "";
    Ok(StepResult(ctx.(context := context), [], []))
  }

  // One field of a stored step.
  lemma StepFieldReads(b: Bucket, steps: Steps, s: string, f: Field)
    requires StepsRep(b, steps)
    ensures Key(s, f) in b <==> s in steps && StepField(steps[s], f).Some?
    ensures Key(s, f) in b ==> b[Key(s, f)] == StepField(steps[s], f).value
  {
    assert At(b, s) == StepRecordAt(steps, s);
    FieldAt(b, s, f);
    hide At;
    hide StepField;
  }

  lemma EncodedStep(b: Bucket, steps: Steps, s: string)
    requires StepsRep(b, steps) && s in steps
    ensures Encodable(steps[s])
  {
  }

  // The lists of a step split into what was joined.
  lemma StepLists(step: Step)
    requires Encodable(step)
    ensures UnmarshalStrings(MarshalStrings([step.ctx.instanceID, step.ctx.workflowName, step.ctx.name]))
            == [step.ctx.instanceID, step.ctx.workflowName, step.ctx.name]
    ensures UnmarshalStrings(MarshalStrings(step.ids)) == step.ids
    ensures UnmarshalStrings(MarshalStrings(step.uuids)) == step.uuids
  {
    SplitOfCleanJoin([step.ctx.instanceID, step.ctx.workflowName, step.ctx.name], STRING_SEP);
    SplitOfCleanJoin(step.ids, STRING_SEP);
    SplitOfCleanJoin(step.uuids, STRING_SEP);
  }

  // Everything that is read of a stored step is what was written.
  lemma StepReads(b: Bucket, steps: Steps, s: string)
    requires StepsRep(b, steps) && s in steps
    ensures GetStepCmds(b, s) == Ok(steps[s].uuids)
    ensures GetStepIDs(b, s) == Ok(steps[s].ids)
    ensures GetStepMeta(b, s) == Ok(steps[s].ctx.(context := ""))
    ensures GetStepResult(b, s) == Ok(StepResult(steps[s].ctx, [], []))
  {
    hide StepsRep;
    hide Encodable;
    hide MarshalStrings;
    hide UnmarshalStrings;
    EncodedStep(b, steps, s);
    StepLists(steps[s]);
    StepFieldReads(b, steps, s, Meta);
    StepFieldReads(b, steps, s, IDs);
    StepFieldReads(b, steps, s, Cmds);
    StepFieldReads(b, steps, s, Ctx);
  }

  // A step's time field is present exactly when the time is set.
  lemma StepTimes(b: Bucket, steps: Steps, s: string)
    requires StepsRep(b, steps)
    ensures Key(s, NotUntil) in b <==> s in steps && steps[s].notUntil != 0
    ensures Key(s, NotUntil) in b ==> ParseTime(b[Key(s, NotUntil)]) == Ok(steps[s].notUntil)
    ensures Key(s, Timeout) in b <==> s in steps && steps[s].timeout != 0
    ensures Key(s, Timeout) in b ==> ParseTime(b[Key(s, Timeout)]) == Ok(steps[s].timeout)
    ensures Key(s, Meta) in b <==> s in steps
  {
    hide StepsRep;
    hide ParseTime;
    hide FormatTime;
    hide MarshalStrings;
    StepFieldReads(b, steps, s, NotUntil);
    StepFieldReads(b, steps, s, Timeout);
    StepFieldReads(b, steps, s, Meta);
    if s in steps {
      ParseFormatTime(steps[s].notUntil);
      ParseFormatTime(steps[s].timeout);
    }
  }

  lemma StepGone(b: Bucket, steps: Steps, s: string)
    requires StepsRep(b, steps) && s !in steps
    ensures GetStepCmds(b, s).Err?
  {
    assert At(b, s) == StepRecordAt(steps, s);
    FieldAt(b, s, Cmds);
  }

  lemma PutStepRep(b: Bucket, steps: Steps, s: string, step: Step)
    requires StepsRep(b, steps) && s !in steps && Encodable(step)
    ensures StepsRep(b + Keyed(s, StepRecord(step)), steps[s := step])
  {
    hide At;
    hide Keyed;
    hide StepRecord;
    var b' := b + Keyed(s, StepRecord(step));
    forall t
      ensures At(b', t) == StepRecordAt(steps[s := step], t)
    {
      assert At(b, t) == StepRecordAt(steps, t);
      if t == s {
        PutRecord(b, s, StepRecord(step));
      } else {
        PutElsewhere(b, s, StepRecord(step), t);
      }
    }
  }

  method DeleteStep(b: Bucket, stepID: string) returns (b': Bucket)
    ensures b' == b - KeySet(stepID, FieldSet(STEP_FIELDS))
  {
    var keys: seq<string> := [];
    for n := 0 to |STEP_FIELDS|
      invariant |keys| == n
      invariant forall j :: 0 <= j < n ==> keys[j] == Key(stepID, STEP_FIELDS[j])
    {
      keys := keys + [Key(stepID, STEP_FIELDS[n])];
    }
    b' := DeleteKeysIfExist(b, keys);
    KeysListed(stepID, STEP_FIELDS, keys);
  }

  lemma KeysListed(base: string, fields: seq<Field>, keys: seq<string>)
    requires |keys| == |fields|
    requires forall j :: 0 <= j < |keys| ==> keys[j] == Key(base, fields[j])
    ensures (set k | k in keys) == KeySet(base, FieldSet(fields))
  {
    forall k | k in KeySet(base, FieldSet(fields))
      ensures k in keys
    {
      var f :| f in FieldSet(fields) && k == Key(base, f);
      var j :| 0 <= j < |fields| && fields[j] == f;
      assert keys[j] == k;
    }
    forall k | k in keys
      ensures k in KeySet(base, FieldSet(fields))
    {
      var j :| 0 <= j < |keys| && keys[j] == k;
      assert fields[j] in FieldSet(fields);
    }
  }

  lemma StepRecordFields(step: Step)
    ensures StepRecord(step).Keys <= FieldSet(STEP_FIELDS)
  {
    assert forall f :: f in StepRecord(step) ==> f in STEP_FIELDS;
  }

  lemma DeleteStepRep(b: Bucket, steps: Steps, s: string)
    requires StepsRep(b, steps)
    ensures StepsRep(b - KeySet(s, FieldSet(STEP_FIELDS)), steps - {s})
  {
    var b' := b - KeySet(s, FieldSet(STEP_FIELDS));
    forall t
      ensures At(b', t) == StepRecordAt(steps - {s}, t)
    {
      assert At(b, t) == StepRecordAt(steps, t);
      if t == s {
        DropRecord(b, s, FieldSet(STEP_FIELDS));
        if s in steps {
          StepRecordFields(steps[s]);
        }
        assert At(b', s) == map[];
      } else {
        DropElsewhere(b, s, FieldSet(STEP_FIELDS), t);
      }
    }
  }

  method DeleteStepNotUntil(b: Bucket, stepID: string) returns (b': Bucket)
    ensures b' == b - KeySet(stepID, {NotUntil})
  {
    b' := DeleteKeysIfExist(b, [Key(stepID, NotUntil)]);
    assert (set k | k in [Key(stepID, NotUntil)]) == KeySet(stepID, {NotUntil});
  }

  lemma DeleteNotUntilRep(b: Bucket, steps: Steps, s: string)
    requires StepsRep(b, steps) && s in steps
    ensures StepsRep(b - KeySet(s, {NotUntil}), steps[s := steps[s].(notUntil := 0)])
  {
    hide At;
    hide StepRecord;
    var b' := b - KeySet(s, {NotUntil});
    var steps' := steps[s := steps[s].(notUntil := 0)];
    StepRecordReleased(steps[s]);
    forall t
      ensures At(b', t) == StepRecordAt(steps', t)
    {
      assert At(b, t) == StepRecordAt(steps, t);
      if t == s {
        DropRecord(b, s, {NotUntil});
      } else {
        DropElsewhere(b, s, {NotUntil}, t);
      }
    }
  }

  lemma StepRecordReleased(step: Step)
    ensures StepRecord(step) - {NotUntil} == StepRecord(step.(notUntil := 0))
  {
  }

  /* ---- Command records ---- */

  function IDCmdRecord(stepID: string, id: string, sc: StepCommandRaw, lastPush: Time, saveRaw: bool): Record {
    var record := map[StepRef := stepID, ReqType := sc.requestType, Owner := id];
    var record := if saveRaw && |sc.command| > 0 then record[Raw := sc.command] else record;
    record[LastPush := FormatTime(lastPush)]
  }

  function SetIDCmd(b: Bucket, stepID: string, id: string, sc: StepCommandRaw, lastPush: Time, saveRaw: bool): Bucket {
    b + Keyed(id + sc.commandUUID, IDCmdRecord(stepID, id, sc, lastPush, saveRaw))
  }

  predicate IDCmdExists(b: Bucket, id: string, cmdUUID: string) {
    Key(id + cmdUUID, StepRef) in b
  }

  predicate IDCmdIsComplete(b: Bucket, id: string, cmdUUID: string) {
    Key(id + cmdUUID, Complete) in b
  }

  function GetIDCmdReqType(b: Bucket, id: string, cmdUUID: string): Result<string, Error> {
    Get(b, Key(id + cmdUUID, ReqType))
  }

  function GetIDCmdResult(b: Bucket, id: string, cmdUUID: string): Result<Bytes, Error> {
    Get(b, Key(id + cmdUUID, Report))
  }

  function GetIDCmdStepID(b: Bucket, id: string, cmdUUID: string): Result<string, Error> {
    Get(b, Key(id + cmdUUID, StepRef))
  }

  function GetIDCmdRaw(b: Bucket, id: string, cmdUUID: string): Result<StepCommandRaw, Error> {
    var reqType :- Get(b, Key(id + cmdUUID, ReqType));
    var raw :- Get(b, Key(id + cmdUUID, Raw));
    Ok(StepCommandRaw(cmdUUID, reqType, raw))
  }

  function SetIDCmdUpdate(b: Bucket, id: string, sc: StepCommandResult): Bucket {
    var record := map[Report := sc.resultReport];
    b + Keyed(id + sc.commandUUID, if sc.completed then record[Complete := "1"] else record)
  }

  function SetIDCmdLastPush(b: Bucket, id: string, cmdUUID: string, lastPush: Time): Bucket {
    b[Key(id + cmdUUID, LastPush) := FormatTime(lastPush)]
  }

  lemma RecordOfRow(b: Bucket, rows: Rows, n: nat, id: string, uuid: string)
    requires RowsRep(b, rows, n) && |uuid| == n
    ensures At(b, id + uuid) == if CmdKey(id, uuid) in rows then RowRecord(id, rows[CmdKey(id, uuid)]) else map[]
  {
    assert KeyOf(id + uuid, n) == CmdKey(id, uuid);
  }

  // Everything that is read of a tracked command is what was written.
  lemma RowReads(b: Bucket, rows: Rows, n: nat, id: string, uuid: string)
    requires RowsRep(b, rows, n) && |uuid| == n
    ensures IDCmdExists(b, id, uuid) <==> CmdKey(id, uuid) in rows
    ensures IDCmdIsComplete(b, id, uuid) <==> CmdKey(id, uuid) in rows && rows[CmdKey(id, uuid)].done
    ensures CmdKey(id, uuid) in rows ==>
              var row := rows[CmdKey(id, uuid)];
              && GetIDCmdReqType(b, id, uuid) == Ok(row.reqType)
              && GetIDCmdStepID(b, id, uuid) == Ok(row.stepID)
              && (row.result.Some? ==> GetIDCmdResult(b, id, uuid) == Ok(row.result.value))
              && (Key(id + uuid, Report) in b <==> row.result.Some?)
              && (row.raw.Some? ==> GetIDCmdRaw(b, id, uuid) == Ok(StepCommandRaw(uuid, row.reqType, row.raw.value)))
  {
    RecordOfRow(b, rows, n, id, uuid);
    FieldAt(b, id + uuid, StepRef);
    FieldAt(b, id + uuid, ReqType);
    FieldAt(b, id + uuid, Complete);
    FieldAt(b, id + uuid, Report);
    FieldAt(b, id + uuid, Raw);
  }

  // A command is found under an ID and a UUID of any length exactly when the two
  // together spell the ID and UUID of one that is stored.
  lemma ExistsExact(b: Bucket, rows: Rows, n: nat, id: string, uuid: string)
    requires RowsRep(b, rows, n)
    ensures IDCmdExists(b, id, uuid) <==> n <= |id + uuid| && KeyOf(id + uuid, n) in rows
  {
    assert At(b, id + uuid) == RowRecordAt(rows, id + uuid, n);
    FieldAt(b, id + uuid, StepRef);
  }

  lemma PutRowRep(b: Bucket, rows: Rows, n: nat, k: CmdKey, fields: Record, row: Row)
    requires RowsRep(b, rows, n) && |k.uuid| == n
    requires RowRecord(k.owner, row) == RowRecordAt(rows, k.owner + k.uuid, n) + fields
    ensures RowsRep(b + Keyed(k.owner + k.uuid, fields), rows[k := row], n)
  {
    hide At;
    hide Keyed;
    hide RowRecord;
    var base := k.owner + k.uuid;
    var b' := b + Keyed(base, fields);
    assert KeyOf(base, n) == k;
    forall other
      ensures At(b', other) == RowRecordAt(rows[k := row], other, n)
    {
      assert At(b, other) == RowRecordAt(rows, other, n);
      if other == base {
        PutRecord(b, base, fields);
      } else {
        PutElsewhere(b, base, fields, other);
        assert n <= |other| ==> KeyOf(other, n) != k by {
          if n <= |other| {
            assert other == KeyOf(other, n).owner + KeyOf(other, n).uuid;
          }
        }
      }
    }
  }

  // The row of a command that starts to be tracked.
  function TrackedRow(stepID: string, sc: StepCommandRaw, lastPush: Time, saveRaw: bool): Row {
    Row(stepID, sc.requestType, if saveRaw then Some(sc.command) else None, lastPush, None, false)
  }

  lemma SetIDCmdRep(b: Bucket, rows: Rows, n: nat, stepID: string, id: string, sc: StepCommandRaw, lastPush: Time,
                    saveRaw: bool)
    requires RowsRep(b, rows, n) && |sc.commandUUID| == n && CmdKey(id, sc.commandUUID) !in rows
    requires saveRaw ==> sc.command != ""
    ensures RowsRep(SetIDCmd(b, stepID, id, sc, lastPush, saveRaw),
                    rows[CmdKey(id, sc.commandUUID) := TrackedRow(stepID, sc, lastPush, saveRaw)], n)
  {
    var row := TrackedRow(stepID, sc, lastPush, saveRaw);
    NewRowRecord(stepID, id, sc, lastPush, saveRaw);
    RecordOfRow(b, rows, n, id, sc.commandUUID);
    assert KeyOf(id + sc.commandUUID, n) == CmdKey(id, sc.commandUUID);
    hide RowRecord;
    hide At;
    hide Keyed;
    PutRowRep(b, rows, n, CmdKey(id, sc.commandUUID), RowRecord(id, row), row);
  }

  lemma NewRowRecord(stepID: string, id: string, sc: StepCommandRaw, lastPush: Time, saveRaw: bool)
    requires saveRaw ==> sc.command != ""
    ensures RowRecord(id, TrackedRow(stepID, sc, lastPush, saveRaw))
            == IDCmdRecord(stepID, id, sc, lastPush, saveRaw)
  {
  }

  lemma UpdateRep(b: Bucket, rows: Rows, n: nat, id: string, sc: StepCommandResult)
    requires RowsRep(b, rows, n) && CmdKey(id, sc.commandUUID) in rows
    ensures RowsRep(SetIDCmdUpdate(b, id, sc),
                    rows[CmdKey(id, sc.commandUUID) := Note(rows[CmdKey(id, sc.commandUUID)], sc)], n)
  {
    var k := CmdKey(id, sc.commandUUID);
    assert KeyOf(id + sc.commandUUID, n) == k;
    var record := map[Report := sc.resultReport];
    NotedRowRecord(id, rows[k], sc);
    hide At;
    hide Keyed;
    hide RowRecord;
    PutRowRep(b, rows, n, k, if sc.completed then record[Complete := "1"] else record, Note(rows[k], sc));
  }

  lemma NotedRowRecord(owner: string, row: Row, sc: StepCommandResult)
    ensures var record := map[Report := sc.resultReport];
            RowRecord(owner, Note(row, sc))
            == RowRecord(owner, row) + if sc.completed then record[Complete := "1"] else record
  {
  }

  lemma LastPushRep(b: Bucket, rows: Rows, n: nat, k: CmdKey, lastPush: Time)
    requires RowsRep(b, rows, n) && k in rows
    ensures RowsRep(SetIDCmdLastPush(b, k.owner, k.uuid, lastPush), rows[k := rows[k].(lastPush := lastPush)], n)
  {
    var base := k.owner + k.uuid;
    assert KeyOf(base, n) == k;
    var fields := map[LastPush := FormatTime(lastPush)];
    PushedRowRecord(k.owner, rows[k], lastPush);
    KeyedOne(base, LastPush, FormatTime(lastPush));
    hide At;
    hide Keyed;
    hide RowRecord;
    assert b + Keyed(base, fields) == SetIDCmdLastPush(b, k.owner, k.uuid, lastPush);
    PutRowRep(b, rows, n, k, fields, rows[k].(lastPush := lastPush));
  }

  lemma PushedRowRecord(owner: string, row: Row, lastPush: Time)
    ensures RowRecord(owner, row.(lastPush := lastPush))
            == RowRecord(owner, row) + map[LastPush := FormatTime(lastPush)]
  {
  }

  lemma KeyedOne(base: string, f: Field, value: Bytes)
    ensures Keyed(base, map[f := value]) == map[Key(base, f) := value]
  {
  }

  method DeleteIDCmd(b: Bucket, id: string, cmdUUID: string) returns (b': Bucket)
    ensures b' == b - KeySet(id + cmdUUID, FieldSet(CMD_FIELDS))
  {
    var keys: seq<string> := [];
    for n := 0 to |CMD_FIELDS|
      invariant |keys| == n
      invariant forall j :: 0 <= j < n ==> keys[j] == Key(id + cmdUUID, CMD_FIELDS[j])
    {
      keys := keys + [Key(id + cmdUUID, CMD_FIELDS[n])];
    }
    b' := DeleteKeysIfExist(b, keys);
    KeysListed(id + cmdUUID, CMD_FIELDS, keys);
  }

  lemma RowRecordFields(owner: string, row: Row)
    ensures RowRecord(owner, row).Keys <= FieldSet(CMD_FIELDS)
  {
    assert forall f :: f in RowRecord(owner, row) ==> f in CMD_FIELDS;
  }

  lemma DeleteRowRep(b: Bucket, rows: Rows, n: nat, k: CmdKey)
    requires RowsRep(b, rows, n) && |k.uuid| == n
    ensures RowsRep(b - KeySet(k.owner + k.uuid, FieldSet(CMD_FIELDS)), rows - {k}, n)
  {
    var base := k.owner + k.uuid;
    var b' := b - KeySet(base, FieldSet(CMD_FIELDS));
    assert KeyOf(base, n) == k;
    forall other
      ensures At(b', other) == RowRecordAt(rows - {k}, other, n)
    {
      assert At(b, other) == RowRecordAt(rows, other, n);
      if other == base {
        DropRecord(b, base, FieldSet(CMD_FIELDS));
        if k in rows {
          RowRecordFields(k.owner, rows[k]);
        }
        assert At(b', base) == map[];
      } else {
        DropElsewhere(b, base, FieldSet(CMD_FIELDS), other);
        assert n <= |other| ==> KeyOf(other, n) != k by {
          if n <= |other| {
            assert other == KeyOf(other, n).owner + KeyOf(other, n).uuid;
          }
        }
      }
    }
  }
}
