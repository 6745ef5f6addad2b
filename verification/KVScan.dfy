/**
 The loops of the key-value backend over its buckets: scans for steps and
 commands, and the per-step loops of storing, completing and deleting.
 */
module KVScan {
  import opened Wrappers
  import opened Text
  import opened Records
  import opened Tracker
  import opened Buckets
  import opened KVPrim

  /* ---- Scanning the step bucket ---- */

  ghost predicate Shares(a: seq<string>, b: seq<string>) {
    exists x :: x in a && x in b
  }

  method AnyShared(a: seq<string>, b: seq<string>) returns (found: bool)
    ensures found <==> Shares(a, b)
  {
    for n := 0 to |a|
      invariant !Shares(a[..n], b)
    {
      for m := 0 to |b|
        invariant a[n] !in b[..m]
      {
        if a[n] == b[m] {
          assert a[n] in a && b[m] in b;
          return true;
        }
      }
      assert a[..n + 1] == a[..n] + [a[n]] && b[..|b|] == b;
    }
    assert a[..|a|] == a;
    return false;
  }

  ghost predicate Wanted(steps: Steps, s: string, name: string, ids: seq<string>) {
    s in steps && steps[s].ctx.workflowName == name && Shares(steps[s].ids, ids)
  }

  // One key of the scan: the step it names if that is wanted.
  method WantedStep(b: Bucket, ghost steps: Steps, k: string, name: string, ids: seq<string>)
    returns (r: Result<bool, Error>)
    requires StepsRep(b, steps) && k in b && HasSuffix(k, Suffix(Meta))
    ensures r == Ok(Wanted(steps, Base(k, Meta), name, ids))
  {
    var stepID := Base(k, Meta);
    StepTimes(b, steps, stepID);
    StepReads(b, steps, stepID);
    match GetStepMeta(b, stepID)
    case Err(e) => return Err(e);
    case Ok(ctx) =>
      if ctx.workflowName != name {
        return Ok(false);
      }
      match GetStepIDs(b, stepID)
      case Err(e) => return Err(e);
      case Ok(stepEnrIDs) =>
        var shared := AnyShared(stepEnrIDs, ids);
        return Ok(shared);
  }

  // ids lists, once each, the records of `good` whose key is among those seen.
  ghost predicate Collected(ids: seq<string>, seen: seq<string>, f: Field, good: set<string>) {
    Distinct(ids) && forall s :: s in ids <==> s in good && Key(s, f) in seen
  }

  lemma CollectSkip(ids: seq<string>, seen: seq<string>, k: string, f: Field, good: set<string>)
    requires Collected(ids, seen, f, good)
    requires HasSuffix(k, Suffix(f)) ==> Base(k, f) !in good
    ensures Collected(ids, seen + [k], f, good)
  {
    forall s | s in good
      ensures Key(s, f) != k
    {
      BaseOfKey(s, f);
    }
  }

  lemma CollectAdd(ids: seq<string>, seen: seq<string>, k: string, f: Field, good: set<string>)
    requires Collected(ids, seen, f, good) && k !in seen
    requires HasSuffix(k, Suffix(f)) && Base(k, f) in good
    ensures Collected(ids + [Base(k, f)], seen + [k], f, good)
  {
    DistinctExtend(ids, Base(k, f));
    forall s | Key(s, f) == k
      ensures s == Base(k, f)
    {
      KeyInjective(s, f, Base(k, f), f);
    }
  }

  method FindWorkflowStepsWithIDs(b: Bucket, ghost steps: Steps, name: string, ids: seq<string>)
    returns (r: Result<seq<string>, Error>)
    requires StepsRep(b, steps)
    ensures r.Ok? && Distinct(r.value)
    ensures forall s :: s in r.value <==> Wanted(steps, s, name, ids)
  {
    var keys := ListKeys(b);
    var stepIDs: seq<string> := [];
    ghost var good := set s | s in steps && Wanted(steps, s, name, ids);
    assert Collected(stepIDs, keys[..0], Meta, good);
    hide StepsRep;
    hide Collected;
    for n := 0 to |keys|
      invariant Collected(stepIDs, keys[..n], Meta, good)
    {
      var k := keys[n];
      assert k in b && k !in keys[..n] && keys[..n + 1] == keys[..n] + [k];
      if HasSuffix(k, Suffix(Meta)) {
        var wanted := WantedStep(b, steps, k, name, ids);
        match wanted
        case Err(e) => return Err(e);
        case Ok(isWanted) =>
          if isWanted {
            CollectAdd(stepIDs, keys[..n], k, Meta, good);
            stepIDs := stepIDs + [Base(k, Meta)];
          } else {
            CollectSkip(stepIDs, keys[..n], k, Meta, good);
          }
      } else {
        CollectSkip(stepIDs, keys[..n], k, Meta, good);
      }
    }
    forall s | s in good
      ensures Key(s, Meta) in keys
    {
      StepTimes(b, steps, s);
    }
    CollectedAll(stepIDs, keys, Meta, good);
    return Ok(stepIDs);
  }

  lemma CollectedAll(ids: seq<string>, keys: seq<string>, f: Field, good: set<string>)
    requires Collected(ids, keys[..|keys|], f, good)
    requires forall s :: s in good ==> Key(s, f) in keys
    ensures Distinct(ids) && forall s :: s in ids <==> s in good
  {
    assert keys[..|keys|] == keys;
  }

  ghost predicate TimePassed(steps: Steps, s: string, f: Field, now: Time) {
    s in steps && 0 != (if f == NotUntil then steps[s].notUntil else steps[s].timeout) <= now
  }

  // Scans for the steps whose NotUntil or Timeout has come.
  method FindStepsPast(b: Bucket, ghost steps: Steps, f: Field, now: Time) returns (r: Result<seq<string>, Error>)
    requires StepsRep(b, steps) && (f == NotUntil || f == Timeout)
    ensures r.Ok? && Distinct(r.value)
    ensures forall s :: s in r.value <==> TimePassed(steps, s, f, now)
  {
    var keys := ListKeys(b);
    var stepIDs: seq<string> := [];
    ghost var good := set s | s in steps && TimePassed(steps, s, f, now);
    assert Collected(stepIDs, keys[..0], f, good);
    hide StepsRep;
    hide Collected;
    for n := 0 to |keys|
      invariant Collected(stepIDs, keys[..n], f, good)
    {
      var k := keys[n];
      assert k in b && k !in keys[..n] && keys[..n + 1] == keys[..n] + [k];
      if HasSuffix(k, Suffix(f)) {
        StepTimes(b, steps, Base(k, f));
        match ParseTime(b[k])
        case Err(e) => return Err(e);
        case Ok(time) =>
          if time > now || time == 0 {
            CollectSkip(stepIDs, keys[..n], k, f, good);
          } else {
            CollectAdd(stepIDs, keys[..n], k, f, good);
            stepIDs := stepIDs + [Base(k, f)];
          }
      } else {
        CollectSkip(stepIDs, keys[..n], k, f, good);
      }
    }
    forall s | s in good
      ensures Key(s, f) in keys
    {
      StepTimes(b, steps, s);
    }
    CollectedAll(stepIDs, keys, f, good);
    return Ok(stepIDs);
  }

  /* ---- Storing ---- */

  ghost predicate UuidsOfLength(uuids: seq<string>, n: nat) {
    forall u :: u in uuids ==> |u| == n
  }

  ghost predicate NoneTracked<R>(rows: map<CmdKey, R>, ids: seq<string>, uuids: seq<string>) {
    forall i, u :: i in ids && u in uuids ==> CmdKey(i, u) !in rows
  }

  ghost function Joined(ids: seq<string>, uuids: seq<string>): set<string> {
    set i, u | i in ids && u in uuids :: i + u
  }

  // A joined name is among those of a list exactly when its pair is.
  lemma JoinedExact(ids: seq<string>, uuids: seq<string>, n: nat, id: string, uuid: string)
    requires UuidsOfLength(uuids, n) && |uuid| == n
    ensures id + uuid in Joined(ids, uuids) <==> id in ids && uuid in uuids
  {
    if id + uuid in Joined(ids, uuids) {
      var i, u :| i in ids && u in uuids && id + uuid == i + u;
      OwnerUuidInjective(id, uuid, i, u);
    }
  }

  // The command is new for every ID, and the IDs are distinct.
  ghost predicate NewFor<R>(rows: map<CmdKey, R>, ids: seq<string>, before: seq<string>, uuid: string) {
    ids == [] || (Distinct(ids) && uuid !in before && NoneTracked(rows, ids, [uuid]))
  }

  lemma NewForExtend<R>(rows: map<CmdKey, R>, ids: seq<string>, id: string, before: seq<string>, uuid: string)
    ensures NewFor(rows, ids + [id], before, uuid)
            <==> NewFor(rows, ids, before, uuid) && id !in ids && uuid !in before && CmdKey(id, uuid) !in rows
  {
    DistinctExtend(ids, id);
    assert uuid in [uuid];
  }

  lemma NewForPrefix<R>(rows: map<CmdKey, R>, ids: seq<string>, before: seq<string>, uuid: string, m: nat)
    requires m <= |ids|
    ensures NewFor(rows, ids, before, uuid) ==> NewFor(rows, ids[..m], before, uuid)
  {
  }

  ghost function Seen(ids: seq<string>, before: seq<string>, m: nat, uuid: string): set<string>
    requires m <= |ids|
  {
    Joined(ids, before) + Joined(ids[..m], [uuid])
  }

  lemma SeenStep(ids: seq<string>, before: seq<string>, m: nat, uuid: string, n: nat)
    requires m < |ids| && |uuid| == n && UuidsOfLength(before, n)
    ensures ids[m] + uuid in Seen(ids, before, m, uuid) <==> uuid in before || ids[m] in ids[..m]
    ensures Seen(ids, before, m + 1, uuid) == Seen(ids, before, m, uuid) + {ids[m] + uuid}
  {
    JoinedExact(ids, before, n, ids[m], uuid);
    JoinedExact(ids[..m], [uuid], n, ids[m], uuid);
    assert ids[..m + 1] == ids[..m] + [ids[m]];
    assert uuid in [uuid];
  }

  lemma NothingSeen(rows: Rows, ids: seq<string>, before: seq<string>, uuid: string)
    ensures NewFor(rows, [], before, uuid)
    ensures Seen(ids, before, 0, uuid) == Joined(ids, before)
  {
  }

  lemma SeenAll(ids: seq<string>, before: seq<string>, uuid: string)
    ensures Seen(ids, before, |ids|, uuid) == Joined(ids, before + [uuid])
  {
    assert ids[..|ids|] == ids;
    assert forall u :: u in before + [uuid] <==> u in before || u in [uuid];
  }

  // One command against all IDs; seen holds the pairs of the commands before.
  method CheckCommand(b: Bucket, ghost rows: Rows, ghost n: nat, ids: seq<string>, ghost before: seq<string>,
                      uuid: string, seen: set<string>)
    returns (dup: Option<Error>, seen': set<string>)
    requires RowsRep(b, rows, n) && |uuid| == n && UuidsOfLength(before, n) && seen == Joined(ids, before)
    ensures dup.None? <==> NewFor(rows, ids, before, uuid)
    ensures dup.None? ==> seen' == Joined(ids, before + [uuid])
  {
    hide RowsRep;
    hide NewFor;
    hide UuidsOfLength;
    hide Joined;
    hide Seen;
    seen' := seen;
    NothingSeen(rows, ids, before, uuid);
    for m := 0 to |ids|
      invariant NewFor(rows, ids[..m], before, uuid)
      invariant seen' == Seen(ids, before, m, uuid)
    {
      var id := ids[m];
      SeenStep(ids, before, m, uuid, n);
      RowReads(b, rows, n, id, uuid);
      NewForExtend(rows, ids[..m], id, before, uuid);
      assert ids[..m + 1] == ids[..m] + [id];
      if id + uuid in seen' || IDCmdExists(b, id, uuid) {
        NewForPrefix(rows, ids, before, uuid, m + 1);
        return Some(DuplicateCommand(id, uuid)), seen';
      }
      seen' := seen' + {id + uuid};
    }
    SeenAll(ids, before, uuid);
    assert ids[..|ids|] == ids;
    dup := None;
  }

  // No pair is listed twice and none is tracked already.
  ghost predicate Unused<R>(rows: map<CmdKey, R>, ids: seq<string>, uuids: seq<string>) {
    ids == [] || uuids == [] || (Distinct(ids) && Distinct(uuids) && NoneTracked(rows, ids, uuids))
  }

  lemma UnusedExtend<R>(rows: map<CmdKey, R>, ids: seq<string>, before: seq<string>, uuid: string)
    ensures Unused(rows, ids, before + [uuid]) <==> Unused(rows, ids, before) && NewFor(rows, ids, before, uuid)
  {
    DistinctExtend(before, uuid);
    assert forall u :: u in before + [uuid] <==> u in before || u == uuid;
    assert uuid in [uuid];
  }

  lemma UnusedPrefix<R>(rows: map<CmdKey, R>, ids: seq<string>, uuids: seq<string>, n: nat)
    requires n <= |uuids|
    ensures Unused(rows, ids, uuids) ==> Unused(rows, ids, uuids[..n])
  {
  }

  method CheckDuplicates(b: Bucket, ghost rows: Rows, ghost n: nat, ids: seq<string>, commands: seq<StepCommandRaw>)
    returns (dup: Option<Error>)
    requires RowsRep(b, rows, n) && UuidsOfLength(Uuids(commands), n)
    ensures dup.None? <==> Unused(rows, ids, Uuids(commands))
  {
    hide RowsRep;
    hide NoneTracked;
    var seen: set<string> := {};
    ghost var uuids := Uuids(commands);
    for c := 0 to |commands|
      invariant Unused(rows, ids, uuids[..c])
      invariant seen == Joined(ids, uuids[..c])
    {
      assert uuids[..c + 1] == uuids[..c] + [uuids[c]] && uuids[c] in uuids;
      UnusedExtend(rows, ids, uuids[..c], uuids[c]);
      dup, seen := CheckCommand(b, rows, n, ids, uuids[..c], commands[c].commandUUID, seen);
      if dup.Some? {
        UnusedPrefix(rows, ids, uuids, c + 1);
        return;
      }
    }
    assert uuids[..|commands|] == uuids;
    dup := None;
  }
}
