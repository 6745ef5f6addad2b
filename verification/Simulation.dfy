/**
 The MySQL tables and the tracker's state side by side: a relation between the
 two that every operation keeps, so that the two backends complete the same
 steps on the same responses and report the same enrollments as outstanding.
 */
module Simulation {
  import opened Wrappers
  import opened Records
  import opened Tracker
  import opened Invariant
  import opened Delivery
  import opened MySQL
  import opened MySQLStore

  // The row IDs that the tables use for the tracker's step IDs.
  type Numbering = map<string, int>

  ghost predicate NumbersRel(db: DB, st: State, num: Numbering) {
    && (forall s :: s in st.steps ==> s in num && num[s] in db.steps)
    && (forall s, t :: s in st.steps && t in st.steps && num[s] == num[t] ==> s == t)
    && (forall n :: n in db.steps ==> exists s :: s in st.steps && num[s] == n)
  }

  ghost predicate StepRel(row: StepRow, step: Step, notUntil: Time) {
    && ContextOf(row) == step.ctx
    && row.notUntil == NullTime(notUntil)
    && row.timeout == NullTime(step.timeout)
    && (row.processID.Some? <==> notUntil != 0 && step.notUntil == 0)
  }

  ghost predicate StepsRel(db: DB, st: State, num: Numbering)
    requires NumbersRel(db, st, num)
  {
    forall s :: s in st.steps ==> s in st.origin && StepRel(db.steps[num[s]], st.steps[s], st.origin[s].notUntil)
  }

  // The tables keep no reports of unfinished commands.
  ghost predicate RowRel(c: IDCommand, row: Row) {
    && c.requestType == row.reqType
    && c.completed == row.done
    && c.result == (if row.done then row.result else None)
    && c.lastPush == NullTime(row.lastPush)
  }

  // A command of an enrollment, as opposed to a raw command of a step.
  ghost predicate Enrolled(st: State, k: CmdKey) {
    k in st.rows && k.owner != st.rows[k].stepID
  }

  ghost predicate KeyRel(db: DB, st: State, num: Numbering, k: CmdKey) {
    && (k in db.idCommands <==> Enrolled(st, k))
    && (k in db.idCommands ==>
          && st.rows[k].stepID in st.steps
          && st.rows[k].stepID in num
          && db.idCommands[k].stepID == num[st.rows[k].stepID]
          && RowRel(db.idCommands[k], st.rows[k]))
  }

  ghost predicate RowsRel(db: DB, st: State, num: Numbering) {
    forall k :: KeyRel(db, st, num, k)
  }

  ghost predicate RawRel(db: DB, st: State, num: Numbering, s: string, u: string) {
    && s in num
    && ((u, num[s]) in db.stepCommands <==> Delayed(st, s) && u in st.steps[s].uuids)
    && ((u, num[s]) in db.stepCommands ==>
          && CmdKey(s, u) in st.rows && st.rows[CmdKey(s, u)].raw.Some?
          && db.stepCommands[(u, num[s])] == StepCommand(st.rows[CmdKey(s, u)].reqType,
                                                         st.rows[CmdKey(s, u)].raw.value))
  }

  ghost predicate RawsRel(db: DB, st: State, num: Numbering) {
    forall s, u :: s in st.steps ==> RawRel(db, st, num, s, u)
  }

  ghost predicate Rel(db: DB, st: State, num: Numbering) {
    Consistent(db) && NumbersRel(db, st, num) && StepsRel(db, st, num) && RowsRel(db, st, num) && RawsRel(db, st, num)
  }

  lemma InitRel()
    ensures Rel(EMPTY, Init, map[])
  {
  }

  /* ---- Both accept the same steps ---- */

  // The two duplicate checks agree.
  lemma AcceptsSame(db: DB, st: State, num: Numbering, cfg: Option<StepEnqueuingWithConfig>)
    requires Inv(st) && Rel(db, st, num)
    requires cfg.Some? ==> forall i :: i in cfg.value.ids ==> i !in st.origin
    ensures Insertable(db, cfg) <==> Accepts(st, cfg)
  {
    hide Inv;
    hide Rel;
    if cfg.Some? {
      forall k: CmdKey | k.owner in cfg.value.ids
        ensures k in db.idCommands <==> k in st.rows
      {
        SameRows(db, st, num, k);
      }
    }
  }

  lemma SameRows(db: DB, st: State, num: Numbering, k: CmdKey)
    requires Inv(st) && Rel(db, st, num) && k.owner !in st.origin
    ensures k in db.idCommands <==> k in st.rows
  {
    hide NumbersRel;
    hide StepsRel;
    hide RawsRel;
    assert KeyRel(db, st, num, k);
    assert k in st.rows ==> RowOK(st, k);
  }

  lemma StoreNumbers(db: DB, st: State, num: Numbering, s: string, cfg: StepEnqueuingWithConfig, pushTime: Time)
    requires Consistent(db) && NumbersRel(db, st, num) && s !in st.steps && Accepts(st, Some(cfg))
    ensures NumbersRel(Inserted(db, cfg, Uuids(cfg.commands), pushTime), Store(st, s, Some(cfg), pushTime),
                       num[s := db.nextID])
  {
    var st' := Store(st, s, Some(cfg), pushTime);
    assert s in st'.steps;
    forall n | n in Inserted(db, cfg, Uuids(cfg.commands), pushTime).steps
      ensures exists t :: t in st'.steps && num[s := db.nextID][t] == n
    {
      if n == db.nextID {
        assert num[s := db.nextID][s] == n;
      } else {
        var t :| t in st.steps && num[t] == n;
        assert t in st'.steps && num[s := db.nextID][t] == n;
      }
    }
  }

  lemma StoreSteps(db: DB, st: State, num: Numbering, s: string, cfg: StepEnqueuingWithConfig, pushTime: Time)
    requires Consistent(db) && NumbersRel(db, st, num) && StepsRel(db, st, num)
    requires s !in st.steps && s !in st.origin && Accepts(st, Some(cfg))
    requires NumbersRel(Inserted(db, cfg, Uuids(cfg.commands), pushTime), Store(st, s, Some(cfg), pushTime),
                        num[s := db.nextID])
    ensures StepsRel(Inserted(db, cfg, Uuids(cfg.commands), pushTime), Store(st, s, Some(cfg), pushTime),
                     num[s := db.nextID])
  {
  }

  // What an insert leaves under a key, and what the tracker's store does.
  lemma InsertedAt(db: DB, cfg: StepEnqueuingWithConfig, pushTime: Time, k: CmdKey)
    ensures var t := Inserted(db, cfg, Uuids(cfg.commands), pushTime).idCommands;
            if k.owner in cfg.ids && k.uuid in Uuids(cfg.commands)
            then k in t && t[k] == IDCommandOf(db.nextID, cfg, CommandOf(cfg.commands, k.uuid), pushTime)
            else (k in t <==> k in db.idCommands) && (k in t ==> t[k] == db.idCommands[k])
  {
    hide CommandOf;
    hide Uuids;
    hide IDCommandOf;
  }

  lemma InsertedRawAt(db: DB, cfg: StepEnqueuingWithConfig, pushTime: Time, p: StepCommandKey)
    ensures var t := Inserted(db, cfg, Uuids(cfg.commands), pushTime).stepCommands;
            if cfg.notUntil != 0 && p.0 in Uuids(cfg.commands) && p.1 == db.nextID
            then p in t && t[p] == StepCommandOf(CommandOf(cfg.commands, p.0))
            else (p in t <==> p in db.stepCommands) && (p in t ==> t[p] == db.stepCommands[p])
  {
    hide CommandOf;
    hide Uuids;
    hide StepCommandOf;
  }

  lemma StoredAt(st: State, s: string, cfg: StepEnqueuingWithConfig, now: Time, k: CmdKey)
    requires Accepts(st, Some(cfg))
    ensures var rows := Store(st, s, Some(cfg), now).rows;
            if (k.owner in cfg.ids || (k.owner == s && cfg.notUntil != 0)) && k.uuid in Uuids(cfg.commands)
            then k in rows && rows[k] == NewRow(s, cfg, k, now)
            else (k in rows <==> k in st.rows) && (k in rows ==> rows[k] == st.rows[k])
    ensures Store(st, s, Some(cfg), now).steps == st.steps[s := NewStep(cfg)]
  {
    hide Accepts;
    hide CommandOf;
    hide Uuids;
    hide NewRow;
    assert s in [s];
  }

  lemma NewRowRel(s: string, cfg: StepEnqueuingWithConfig, pushTime: Time, k: CmdKey, n: int)
    requires k.uuid in Uuids(cfg.commands) && pushTime != 0
    ensures NewRow(s, cfg, k, pushTime).stepID == s
    ensures IDCommandOf(n, cfg, CommandOf(cfg.commands, k.uuid), pushTime).stepID == n
    ensures RowRel(IDCommandOf(n, cfg, CommandOf(cfg.commands, k.uuid), pushTime), NewRow(s, cfg, k, pushTime))
  {
    hide CommandOf;
    hide Uuids;
  }

  lemma StoreRow(db: DB, st: State, num: Numbering, s: string, cfg: StepEnqueuingWithConfig, pushTime: Time, k: CmdKey)
    requires KeyRel(db, st, num, k) && pushTime != 0
    requires s !in st.steps && FreshStepID(st, s, cfg) && Accepts(st, Some(cfg))
    requires k.owner == s ==> k !in st.rows
    ensures KeyRel(Inserted(db, cfg, Uuids(cfg.commands), pushTime), Store(st, s, Some(cfg), pushTime),
                   num[s := db.nextID], k)
  {
    hide Inserted;
    hide Store;
    hide Accepts;
    hide CommandOf;
    hide Uuids;
    hide RowRel;
    InsertedAt(db, cfg, pushTime, k);
    StoredAt(st, s, cfg, pushTime, k);
    if k.owner in cfg.ids && k.uuid in Uuids(cfg.commands) {
      NewRowRel(s, cfg, pushTime, k, db.nextID);
    }
    hide IDCommandOf;
    hide NewRow;
  }

  lemma NewRaw(s: string, cfg: StepEnqueuingWithConfig, now: Time, u: string)
    ensures u in Uuids(cfg.commands) ==>
              && NewRow(s, cfg, CmdKey(s, u), now).raw == Some(CommandOf(cfg.commands, u).command)
              && NewRow(s, cfg, CmdKey(s, u), now).reqType == CommandOf(cfg.commands, u).requestType
  {
    hide CommandOf;
    hide Uuids;
  }

  lemma StoreRaw(db: DB, st: State, num: Numbering, s: string, cfg: StepEnqueuingWithConfig, pushTime: Time, t: string,
                 u: string)
    requires Consistent(db) && s !in st.steps && Accepts(st, Some(cfg))
    requires t in st.steps ==> RawRel(db, st, num, t, u) && num[t] in db.steps && t !in cfg.ids
    requires t == s || t in st.steps
    requires t != s && u in st.steps[t].uuids ==> u !in Uuids(cfg.commands)
    ensures RawRel(Inserted(db, cfg, Uuids(cfg.commands), pushTime), Store(st, s, Some(cfg), pushTime),
                   num[s := db.nextID], t, u)
  {
    hide Inserted;
    hide Store;
    hide Accepts;
    hide CommandOf;
    hide Uuids;
    hide NewRow;
    InsertedRawAt(db, cfg, pushTime, (u, if t == s then db.nextID else num[t]));
    StoredAt(st, s, cfg, pushTime, CmdKey(t, u));
    NewRaw(s, cfg, pushTime, u);
  }

  lemma InsertedConsistent(db: DB, cfg: StepEnqueuingWithConfig, pushTime: Time)
    requires Consistent(db)
    ensures Consistent(Inserted(db, cfg, Uuids(cfg.commands), pushTime))
  {
    hide CommandOf;
    hide Uuids;
  }

  lemma StoreKeepsRel(db: DB, st: State, num: Numbering, s: string, cfg: StepEnqueuingWithConfig, pushTime: Time)
    requires Inv(st) && Rel(db, st, num) && MayStore(st, s, Some(cfg)) && Accepts(st, Some(cfg)) && pushTime != 0
    ensures Rel(Inserted(db, cfg, Uuids(cfg.commands), pushTime), Store(st, s, Some(cfg), pushTime),
                num[s := db.nextID])
  {
    hide Inv;
    hide Accepts;
    hide Store;
    hide Inserted;
    hide NumbersRel;
    hide StepsRel;
    hide RowsRel;
    hide RawsRel;
    hide KeyRel;
    hide RawRel;
    hide Consistent;
    hide FreshUuids;
    var db' := Inserted(db, cfg, Uuids(cfg.commands), pushTime);
    var st' := Store(st, s, Some(cfg), pushTime);
    var num' := num[s := db.nextID];
    StoredInOrigin(st, s);
    InsertedConsistent(db, cfg, pushTime);
    StoreNumbers(db, st, num, s, cfg, pushTime);
    StoreSteps(db, st, num, s, cfg, pushTime);
    StoredAt(st, s, cfg, pushTime, CmdKey(s, ""));
    assert RowsRel(db', st', num') by {
      forall k ensures KeyRel(db', st', num', k) {
        KeyOfRows(db, st, num, k);
        NoRowsYet(st, s, k);
        StoreRow(db, st, num, s, cfg, pushTime, k);
      }
      KeysAreRows(db', st', num');
    }
    assert RawsRel(db', st', num') by {
      forall t, u | t in st'.steps ensures RawRel(db', st', num', t, u) {
        if t != s {
          RawOfRaws(db, st, num, t, u);
          OldStep(db, st, num, s, cfg, t, u);
        }
        StoreRaw(db, st, num, s, cfg, pushTime, t, u);
      }
      RawsAll(db', st', num');
    }
  }

  lemma NoRowsYet(st: State, s: string, k: CmdKey)
    requires Inv(st) && s !in st.origin && (forall t :: t in st.origin ==> s !in st.origin[t].ids)
    ensures k.owner == s ==> k !in st.rows
  {
    assert k in st.rows ==> RowOK(st, k);
  }

  lemma OldStep(db: DB, st: State, num: Numbering, s: string, cfg: StepEnqueuingWithConfig, t: string, u: string)
    requires Inv(st) && NumbersRel(db, st, num) && FreshStepID(st, s, cfg) && FreshUuids(st, cfg) && t in st.steps
    ensures t in num && num[t] in db.steps && t !in cfg.ids
    ensures u in st.steps[t].uuids ==> u !in Uuids(cfg.commands)
  {
    assert StepOK(st, t);
    assert u in st.steps[t].uuids ==> Owns(st, t, u);
  }

  /* ---- Both complete on the same responses ---- */

  // The enrollment's unfinished rows of a step are the step's commands that
  // have not had their final response.
  lemma UnansweredExact(db: DB, st: State, num: Numbering, s: string, id: string, k: CmdKey)
    requires Inv(st) && NumbersRel(db, st, num) && RowsRel(db, st, num) && s in st.steps && id !in st.origin
    ensures k in Unanswered(db.idCommands, id, num[s])
            <==> k.owner == id && k.uuid in st.steps[s].uuids && k in st.rows && !st.rows[k].done
  {
    assert KeyRel(db, st, num, k);
    if k in st.rows && k.owner == id {
      assert RowOK(st, k);
      if st.rows[k].stepID == s {
        RowIsLive(st, k);
      }
      if k.uuid in st.steps[s].uuids {
        PointsBack(st, s, id, k.uuid);
      }
    }
  }

  // A command that an enrollment may answer, in both backends.
  lemma AnswerableRow(db: DB, st: State, num: Numbering, id: string, uuid: string)
    requires Inv(st) && RowsRel(db, st, num) && id !in st.origin
    ensures var k := CmdKey(id, uuid);
            && (k in db.idCommands <==> k in st.rows)
            && (k in st.rows ==>
                  var s := st.rows[k].stepID;
                  && s in st.steps && s in num && db.idCommands[k].stepID == num[s]
                  && RowRel(db.idCommands[k], st.rows[k])
                  && uuid in st.steps[s].uuids && Live(st, s, id))
  {
    var k := CmdKey(id, uuid);
    assert KeyRel(db, st, num, k);
    if k in st.rows {
      assert RowOK(st, k);
      RowIsLive(st, k);
    }
  }

  ghost function Open(st: State, id: string, uuids: seq<string>): set<CmdKey> {
    set u | u in uuids && CmdKey(id, u) in st.rows && !st.rows[CmdKey(id, u)].done :: CmdKey(id, u)
  }

  // The count that decides completion, in the tracker's terms.
  lemma CountIsOpen(db: DB, st: State, num: Numbering, id: string, uuid: string, s: string)
    requires Inv(st) && NumbersRel(db, st, num) && RowsRel(db, st, num) && id !in st.origin
    requires CmdKey(id, uuid) in st.rows && st.rows[CmdKey(id, uuid)].stepID == s
    ensures s in st.steps && s in num
    ensures CountOutstanding(db.idCommands, id, uuid) == Some(CountRow(|Open(st, id, st.steps[s].uuids)|, num[s]))
  {
    hide Inv;
    hide NumbersRel;
    hide RowsRel;
    AnswerableRow(db, st, num, id, uuid);
    CountExact(db.idCommands, id, uuid);
    LiveWaits(st, s, id);
    assert Open(st, id, st.steps[s].uuids) != {} by {
      var u :| u in st.steps[s].uuids && CmdKey(id, u) in st.rows && !st.rows[CmdKey(id, u)].done;
      assert CmdKey(id, u) in Open(st, id, st.steps[s].uuids);
    }
    assert Unanswered(db.idCommands, id, num[s]) == Open(st, id, st.steps[s].uuids) by {
      UnansweredAll(db, st, num, s, id);
    }
  }

  lemma UnansweredAll(db: DB, st: State, num: Numbering, s: string, id: string)
    requires Inv(st) && NumbersRel(db, st, num) && RowsRel(db, st, num) && s in st.steps && id !in st.origin
    ensures Unanswered(db.idCommands, id, num[s]) == Open(st, id, st.steps[s].uuids)
  {
    hide Inv;
    hide RowsRel;
    hide Unanswered;
    forall k
      ensures k in Unanswered(db.idCommands, id, num[s]) <==> k in Open(st, id, st.steps[s].uuids)
    {
      UnansweredExact(db, st, num, s, id, k);
    }
  }

  lemma CountIsNone(db: DB, st: State, num: Numbering, id: string, uuid: string)
    requires Inv(st) && RowsRel(db, st, num) && id !in st.origin && CmdKey(id, uuid) !in st.rows
    ensures CountOutstanding(db.idCommands, id, uuid) == None
  {
    AnswerableRow(db, st, num, id, uuid);
    CountExact(db.idCommands, id, uuid);
  }

  // Only one command is open exactly when all others are done.
  lemma OneOpenExact(st: State, id: string, uuids: seq<string>, uuid: string)
    requires Tracked(st.rows, id, uuids) && uuid in uuids && !st.rows[CmdKey(id, uuid)].done
    ensures |Open(st, id, uuids)| == 1 <==> OthersDone(st.rows, id, uuids, uuid)
    ensures |Open(st, id, uuids)| >= 1
  {
    var open := Open(st, id, uuids);
    var own := CmdKey(id, uuid);
    assert own in open;
    if OthersDone(st.rows, id, uuids, uuid) {
      assert open == {own};
    } else {
      var u :| u in uuids && u != uuid && !(CmdKey(id, u) in st.rows && st.rows[CmdKey(id, u)].done);
      assert {own, CmdKey(id, u)} <= open;
      SubsetSize({own, CmdKey(id, u)}, open);
    }
    SubsetSize({own}, open);
  }

  lemma {:induction false} SubsetSize<T>(a: set<T>, b: set<T>)
    requires a <= b
    ensures |a| <= |b|
  {
    if a != {} {
      var x :| x in a;
      SubsetSize(a - {x}, b - {x});
    }
  }

  // Two answers to a response agree: either both hand out the same step with
  // the same results, in whatever order, or neither hands one out.
  ghost predicate SameAnswer(a: Response, r: Result<Option<StepResult>, DBError>) {
    if a.Completed? then
      && r.Ok? && r.value.Some?
      && r.value.value.ctx == a.step.ctx
      && r.value.value.ids == a.step.ids
      && multiset(r.value.value.commands) == multiset(a.step.commands)
    else r.Err? || r.value.None?
  }

  // Once a command has had its final response it gets no other.
  ghost predicate FirstFinal(st: State, id: string, uuid: string) {
    CmdKey(id, uuid) in st.rows ==> !st.rows[CmdKey(id, uuid)].done
  }

  // The response carries the request type that was stored.
  ghost predicate TypeGiven(st: State, id: string, sc: StepCommandResult) {
    CmdKey(id, sc.commandUUID) in st.rows && sc.requestType == "" ==> st.rows[CmdKey(id, sc.commandUUID)].reqType == ""
  }

  // When a response finishes the step, the join lists every other command once.
  lemma FinishedJoinExact(db: DB, st: State, num: Numbering, s: string, id: string, uuid: string)
    requires Inv(st) && NumbersRel(db, st, num) && RowsRel(db, st, num) && RawsRel(db, st, num) && id !in st.origin
    requires s in st.steps && !Delayed(st, s) && Tracked(st.rows, id, st.steps[s].uuids)
    requires OthersDone(st.rows, id, st.steps[s].uuids, uuid)
    requires uuid in st.steps[s].uuids && !st.rows[CmdKey(id, uuid)].done
    ensures FinishedJoin(db, id, num[s])
            == set u | u in st.steps[s].uuids && u != uuid :: (CmdKey(id, u), None)
  {
    hide Inv;
    hide RowsRel;
    assert s in num && num[s] in db.steps;
    hide NumbersRel;
    forall p: StepCommandKey | p.1 == num[s]
      ensures p !in db.stepCommands
    {
      assert RawRel(db, st, num, s, p.0);
    }
    forall k: CmdKey | k.owner == id
      ensures k in db.idCommands && db.idCommands[k].stepID == num[s] && db.idCommands[k].completed
              <==> k.uuid in st.steps[s].uuids && k.uuid != uuid
    {
      FinishedRow(db, st, num, s, id, uuid, k);
    }
  }

  lemma FinishedRow(db: DB, st: State, num: Numbering, s: string, id: string, uuid: string, k: CmdKey)
    requires Inv(st) && NumbersRel(db, st, num) && RowsRel(db, st, num) && id !in st.origin && k.owner == id
    requires s in st.steps && Tracked(st.rows, id, st.steps[s].uuids)
    requires OthersDone(st.rows, id, st.steps[s].uuids, uuid)
    requires uuid in st.steps[s].uuids && !st.rows[CmdKey(id, uuid)].done
    ensures k in db.idCommands && db.idCommands[k].stepID == num[s] && db.idCommands[k].completed
            <==> k.uuid in st.steps[s].uuids && k.uuid != uuid
  {
    AnswerableRow(db, st, num, id, k.uuid);
    if k.uuid in st.steps[s].uuids {
      PointsBack(st, s, id, k.uuid);
    }
    hide Inv;
    hide RowsRel;
  }

  // One handed-out result of a finished command, in both backends.
  lemma ResultSame(db: DB, st: State, num: Numbering, id: string, u: string, sc: StepCommandResult)
    requires KeyRel(db, st, num, CmdKey(id, u)) && CmdKey(id, u) in db.idCommands
    requires u != sc.commandUUID && st.rows[CmdKey(id, u)].done
    ensures CmdKey(id, u) in st.rows
    ensures ResultOf(db, CmdKey(id, u)) == Reported(st.rows, id, u, sc)
  {
  }

  // The rows of the join, as the results of the other commands.
  ghost predicate JoinOf(joined: seq<JoinedCommand>, id: string, uuids: seq<string>, uuid: string) {
    && Distinct(joined)
    && (forall j :: j in joined <==> j in set u | u in uuids && u != uuid :: (CmdKey(id, u), None))
  }

  lemma JoinedEntry(joined: seq<JoinedCommand>, id: string, uuids: seq<string>, uuid: string, m: nat)
    requires JoinOf(joined, id, uuids, uuid) && m < |joined|
    ensures joined[m] == (CmdKey(id, joined[m].0.uuid), None)
    ensures joined[m].0.uuid in uuids && joined[m].0.uuid != uuid
  {
    assert joined[m] in joined;
  }

  // Every result handed out is the one that the tracker reports.
  lemma ReportedOne(db: DB, st: State, num: Numbering, id: string, uuids: seq<string>, sc: StepCommandResult,
                    joined: seq<JoinedCommand>, commands: seq<StepCommandResult>, m: nat)
    requires RowsRel(db, st, num) && Tracked(st.rows, id, uuids) && sc.commandUUID in uuids && sc.completed
    requires OthersDone(st.rows, id, uuids, sc.commandUUID) && TypeGiven(st, id, sc)
    requires JoinOf(joined, id, uuids, sc.commandUUID) && Reports(db, sc, joined, commands) && m < |commands|
    ensures var u := if m == 0 then sc.commandUUID else joined[m - 1].0.uuid;
            u in uuids && commands[m] == Reported(st.rows, id, u, sc)
  {
    hide RowsRel;
    hide JoinOf;
    if m > 0 {
      JoinedEntry(joined, id, uuids, sc.commandUUID, m - 1);
      var u := joined[m - 1].0.uuid;
      assert KeyRel(db, st, num, CmdKey(id, u)) by {
        KeyOfRows(db, st, num, CmdKey(id, u));
      }
      ResultSame(db, st, num, id, u, sc);
    }
  }

  lemma KeyOfRows(db: DB, st: State, num: Numbering, k: CmdKey)
    requires RowsRel(db, st, num)
    ensures KeyRel(db, st, num, k)
  {
  }

  lemma ReportsDistinct(db: DB, st: State, num: Numbering, id: string, uuids: seq<string>, sc: StepCommandResult,
                        joined: seq<JoinedCommand>, commands: seq<StepCommandResult>)
    requires RowsRel(db, st, num) && Tracked(st.rows, id, uuids) && sc.commandUUID in uuids && sc.completed
    requires OthersDone(st.rows, id, uuids, sc.commandUUID) && TypeGiven(st, id, sc)
    requires JoinOf(joined, id, uuids, sc.commandUUID) && Reports(db, sc, joined, commands)
    ensures Distinct(commands)
  {
    hide RowsRel;
    hide Reports;
    forall a, b | 0 <= a < b < |commands|
      ensures commands[a] != commands[b]
    {
      ReportsLength(db, sc, joined, commands);
      ReportedOne(db, st, num, id, uuids, sc, joined, commands, a);
      ReportedOne(db, st, num, id, uuids, sc, joined, commands, b);
      JoinedEntry(joined, id, uuids, sc.commandUUID, b - 1);
      if a > 0 {
        JoinedEntry(joined, id, uuids, sc.commandUUID, a - 1);
        assert joined[a - 1] != joined[b - 1];
      }
    }
  }

  lemma ReportsLength(db: DB, sc: StepCommandResult, joined: seq<JoinedCommand>, commands: seq<StepCommandResult>)
    requires Reports(db, sc, joined, commands)
    ensures |commands| == 1 + |joined|
  {
  }

  lemma ReportsMatch(db: DB, st: State, num: Numbering, id: string, uuids: seq<string>, sc: StepCommandResult,
                     joined: seq<JoinedCommand>, commands: seq<StepCommandResult>)
    requires RowsRel(db, st, num) && Tracked(st.rows, id, uuids) && Distinct(uuids) && sc.commandUUID in uuids
             && sc.completed
    requires OthersDone(st.rows, id, uuids, sc.commandUUID) && TypeGiven(st, id, sc)
    requires JoinOf(joined, id, uuids, sc.commandUUID) && Reports(db, sc, joined, commands)
    ensures multiset(commands) == multiset(ReportAll(st.rows, id, uuids, sc))
  {
    hide RowsRel;
    hide Reports;
    hide JoinOf;
    hide OthersDone;
    var reports := ReportAll(st.rows, id, uuids, sc);
    ReportsLength(db, sc, joined, commands);
    ReportsDistinct(db, st, num, id, uuids, sc, joined, commands);
    forall x | x in commands ensures x in reports {
      var m :| 0 <= m < |commands| && commands[m] == x;
      ReportedOne(db, st, num, id, uuids, sc, joined, commands, m);
      var j :| 0 <= j < |uuids| && uuids[j] == if m == 0 then sc.commandUUID else joined[m - 1].0.uuid;
      assert reports[j] == x;
    }
    forall j | 0 <= j < |uuids| ensures reports[j] in commands {
      var m := JoinedIndex(joined, id, uuids, sc.commandUUID, uuids[j]);
      ReportedOne(db, st, num, id, uuids, sc, joined, commands, m);
      assert commands[m] == reports[j];
    }
    assert Distinct(reports) by {
      hide Distinct;
      ReportAllDistinct(st, id, uuids, sc);
    }
    SameMultiset(commands, reports);
  }

  lemma ReportAllDistinct(st: State, id: string, uuids: seq<string>, sc: StepCommandResult)
    requires Tracked(st.rows, id, uuids) && Distinct(uuids)
    ensures Distinct(ReportAll(st.rows, id, uuids, sc))
  {
    var reports := ReportAll(st.rows, id, uuids, sc);
    assert forall j :: 0 <= j < |uuids| ==> reports[j].commandUUID == uuids[j];
  }

  // Where the result of command u is among those handed out.
  lemma JoinedIndex(joined: seq<JoinedCommand>, id: string, uuids: seq<string>, uuid: string,
                    u: string) returns (m: nat)
    requires JoinOf(joined, id, uuids, uuid) && u in uuids
    ensures m <= |joined| && u == if m == 0 then uuid else joined[m - 1].0.uuid
  {
    if u == uuid {
      m := 0;
    } else {
      assert (CmdKey(id, u), None) in joined;
      var n :| 0 <= n < |joined| && joined[n] == (CmdKey(id, u), None);
      m := n + 1;
    }
  }

  // On a response that the tracker completes the step with.
  lemma FinishesAgree(db: DB, st: State, num: Numbering, id: string, sc: StepCommandResult, s: string,
                      joined: seq<JoinedCommand>, commands: seq<StepCommandResult>)
    requires Inv(st) && Rel(db, st, num) && MayRespond(st, id, sc)
    requires Completes(st, id, sc) && FirstFinal(st, id, sc.commandUUID) && TypeGiven(st, id, sc)
    requires st.rows[CmdKey(id, sc.commandUUID)].stepID == s && s in st.steps && s in num
    requires Distinct(joined) && (forall j :: j in joined <==> j in FinishedJoin(db, id, num[s]))
    requires Reports(db, sc, joined, commands)
    ensures Tracked(st.rows, id, st.steps[s].uuids)
    ensures multiset(commands) == multiset(ReportAll(st.rows, id, st.steps[s].uuids, sc))
  {
    hide Inv;
    hide FinishedJoin;
    hide Reports;
    hide NumbersRel;
    hide RowsRel;
    hide StepsRel;
    hide RawsRel;
    hide Consistent;
    var uuids := st.steps[s].uuids;
    RowIsLive(st, CmdKey(id, sc.commandUUID));
    LiveStep(st, s);
    FinishedJoinExact(db, st, num, s, id, sc.commandUUID);
    ReportsMatch(db, st, num, id, uuids, sc, joined, commands);
  }

  /* ---- Responses keep the relation ---- */

  lemma SameSteps(db: DB, st: State, db': DB, st': State, num: Numbering)
    requires NumbersRel(db, st, num) && StepsRel(db, st, num)
    requires db'.steps == db.steps && st'.steps == st.steps && st'.origin == st.origin
    ensures NumbersRel(db', st', num) && StepsRel(db', st', num)
  {
  }

  // The tables after a response that does not complete the step.
  ghost function Updated(db: DB, id: string, sc: StepCommandResult): DB {
    if sc.completed then UpdateIDCommand(db, CmdKey(id, sc.commandUUID), true, sc.resultReport) else db
  }

  lemma UpdatedConsistent(db: DB, id: string, sc: StepCommandResult)
    requires Consistent(db)
    ensures Consistent(Updated(db, id, sc)) && Updated(db, id, sc).steps == db.steps
  {
  }

  lemma RecordedKey(db: DB, st: State, num: Numbering, id: string, sc: StepCommandResult, k: CmdKey)
    requires KeyRel(db, st, num, k) && KeyRel(db, st, num, CmdKey(id, sc.commandUUID))
    requires CmdKey(id, sc.commandUUID) in st.rows && !Completes(st, id, sc) && FirstFinal(st, id, sc.commandUUID)
    ensures KeyRel(Updated(db, id, sc), Respond(st, id, sc), num, k)
  {
    hide Completes;
  }

  lemma RecordedRaw(db: DB, st: State, num: Numbering, id: string, sc: StepCommandResult, s: string, u: string)
    requires RawRel(db, st, num, s, u) && s != id
    requires CmdKey(id, sc.commandUUID) in st.rows && !Completes(st, id, sc)
    ensures RawRel(Updated(db, id, sc), Respond(st, id, sc), num, s, u)
  {
    hide Completes;
  }

  // Recording a response that does not complete the step.
  lemma RecordKeepsRel(db: DB, st: State, num: Numbering, id: string, sc: StepCommandResult)
    requires Inv(st) && Rel(db, st, num) && id !in st.origin && FirstFinal(st, id, sc.commandUUID)
    requires CmdKey(id, sc.commandUUID) in st.rows && !Completes(st, id, sc)
    ensures Rel(Updated(db, id, sc), Respond(st, id, sc), num)
  {
    hide Inv;
    hide Respond;
    hide Updated;
    hide NumbersRel;
    hide StepsRel;
    hide Completes;
    hide FirstFinal;
    hide Consistent;
    hide KeyRel;
    hide RawRel;
    hide RowsRel;
    hide RawsRel;
    var db' := Updated(db, id, sc);
    var st' := Respond(st, id, sc);
    RecordKeepsSteps(st, id, sc);
    UpdatedConsistent(db, id, sc);
    SameSteps(db, st, db', st', num);
    assert RowsRel(db', st', num) by {
      forall k ensures KeyRel(db', st', num, k) {
        KeyOfRows(db, st, num, k);
        KeyOfRows(db, st, num, CmdKey(id, sc.commandUUID));
        RecordedKey(db, st, num, id, sc, k);
      }
      KeysAreRows(db', st', num);
    }
    assert RawsRel(db', st', num) by {
      forall s, u | s in st'.steps ensures RawRel(db', st', num, s, u) {
        RawOfRaws(db, st, num, s, u);
        StoredInOrigin(st, s);
        RecordedRaw(db, st, num, id, sc, s, u);
      }
      RawsAll(db', st', num);
    }
  }

  lemma KeysAreRows(db: DB, st: State, num: Numbering)
    requires forall k :: KeyRel(db, st, num, k)
    ensures RowsRel(db, st, num)
  {
  }

  lemma RawOfRaws(db: DB, st: State, num: Numbering, s: string, u: string)
    requires RawsRel(db, st, num) && s in st.steps
    ensures RawRel(db, st, num, s, u)
  {
  }

  lemma RawsAll(db: DB, st: State, num: Numbering)
    requires forall s, u :: s in st.steps ==> RawRel(db, st, num, s, u)
    ensures RawsRel(db, st, num)
  {
  }

  lemma RecordKeepsSteps(st: State, id: string, sc: StepCommandResult)
    requires !Completes(st, id, sc)
    ensures Respond(st, id, sc).steps == st.steps && Respond(st, id, sc).origin == st.origin
  {
    hide Completes;
  }

  // Whether anything is left of a step whose one enrollment is removed.
  lemma OthersRemain(db: DB, st: State, num: Numbering, id: string, s: string)
    requires Inv(st) && NumbersRel(db, st, num) && RowsRel(db, st, num) && s in st.steps
    ensures HasIDCommands(RemoveIDCommandsByStepID(db, id, num[s]), num[s])
            <==> exists i :: i in st.steps[s].ids && i != id && Live(st, s, i)
  {
    assert s in num;
    hide Inv;
    hide NumbersRel;
    hide RowsRel;
    hide Live;
    hide RemoveIDCommandsByStepID;
    var left := RemoveIDCommandsByStepID(db, id, num[s]);
    if HasIDCommands(left, num[s]) {
      var c :| c in left.idCommands && left.idCommands[c].stepID == num[s];
      LeftIsLive(db, st, num, id, s, c);
    }
    if i :| i in st.steps[s].ids && i != id && Live(st, s, i) {
      LiveIsLeft(db, st, num, id, s, i);
    }
  }

  lemma LeftIsLive(db: DB, st: State, num: Numbering, id: string, s: string, c: CmdKey)
    requires Inv(st) && NumbersRel(db, st, num) && RowsRel(db, st, num) && s in st.steps
    requires c in RemoveIDCommandsByStepID(db, id, num[s]).idCommands
    requires RemoveIDCommandsByStepID(db, id, num[s]).idCommands[c].stepID == num[s]
    ensures c.owner in st.steps[s].ids && c.owner != id && Live(st, s, c.owner)
  {
    KeyOfRows(db, st, num, c);
    LiveStep(st, s);
    hide RowsRel;
    assert RowOK(st, c);
    RowIsLive(st, c);
    hide Inv;
  }

  lemma LiveIsLeft(db: DB, st: State, num: Numbering, id: string, s: string, i: string)
    requires Inv(st) && NumbersRel(db, st, num) && RowsRel(db, st, num) && Live(st, s, i) && i != id
    ensures HasIDCommands(RemoveIDCommandsByStepID(db, id, num[s]), num[s])
  {
    LiveStep(st, s);
    var u := st.steps[s].uuids[0];
    assert u in st.steps[s].uuids;
    PointsBack(st, s, i, u);
    IDsAreNoSteps(st, s);
    AnswerableRow(db, st, num, i, u);
    hide Inv;
    hide RowsRel;
    assert CmdKey(i, u) in RemoveIDCommandsByStepID(db, id, num[s]).idCommands;
  }

  /* ---- Removing a finished step ---- */

  // The tables after the enrollment's commands of step n are removed, and the
  // step too unless it has others.
  ghost function Finished(db: DB, id: string, n: int): DB {
    var left := RemoveIDCommandsByStepID(db, id, n);
    if HasIDCommands(left, n) then left else left.(steps := left.steps - {n})
  }

  lemma RemovedExact(db: DB, id: string, n: int)
    requires !HasStepCommands(db, n) && n in db.steps
    ensures Removed(db, id, n) == Ok(Finished(db, id, n))
  {
    var left := RemoveIDCommandsByStepID(db, id, n);
    var unused := set s | s in left.steps && s == n && !HasIDCommands(left, s);
    assert unused == if HasIDCommands(left, n) then {} else {n};
    assert HasStepCommands(left, n) <==> HasStepCommands(db, n);
    hide HasIDCommands;
    hide HasStepCommands;
    hide RemoveIDCommandsByStepID;
    assert left.(steps := left.steps - {}) == left;
  }

  lemma FinishedConsistent(db: DB, id: string, n: int)
    requires Consistent(db) && !HasStepCommands(db, n)
    ensures Consistent(Finished(db, id, n))
  {
  }

  lemma FinishedKey(db: DB, st: State, st': State, num: Numbering, id: string, s: string, k: CmdKey)
    requires KeyRel(db, st, num, k) && s in num && s in st.steps
    requires k.owner == id && k in st.rows && k.owner != st.rows[k].stepID ==>
               st.rows[k].stepID in num && (num[st.rows[k].stepID] == num[s] <==> k.uuid in st.steps[s].uuids)
    requires st'.rows == st.rows - Keys([id], st.steps[s].uuids)
    requires k in st'.rows && k.owner != st'.rows[k].stepID ==> st'.rows[k].stepID in st'.steps
    ensures KeyRel(Finished(db, id, num[s]), st', num, k)
  {
    hide RowRel;
    assert id in [id];
    assert k in Keys([id], st.steps[s].uuids) <==> k.owner == id && k.uuid in st.steps[s].uuids;
    hide HasIDCommands;
    hide Keys;
  }

  lemma FinishedRaw(db: DB, st: State, st': State, num: Numbering, id: string, n: int, s: string, t: string, u: string)
    requires RawRel(db, st, num, t, u) && t != id && t in st.steps && t in st'.steps && st'.steps[t] == st.steps[t]
    requires s in st.steps && st'.rows == st.rows - Keys([id], st.steps[s].uuids)
    ensures RawRel(Finished(db, id, n), st', num, t, u)
  {
    hide HasIDCommands;
  }

  lemma FinishedSteps(db: DB, st: State, st': State, num: Numbering, id: string, s: string, othersLive: bool)
    requires NumbersRel(db, st, num) && StepsRel(db, st, num) && s in st.steps
    requires HasIDCommands(RemoveIDCommandsByStepID(db, id, num[s]), num[s]) <==> othersLive
    requires st'.steps == if othersLive then st.steps else st.steps - {s}
    requires st'.origin == st.origin
    ensures NumbersRel(Finished(db, id, num[s]), st', num) && StepsRel(Finished(db, id, num[s]), st', num)
  {
    hide HasIDCommands;
    var db' := Finished(db, id, num[s]);
    assert db'.steps == if othersLive then db.steps else db.steps - {num[s]};
    hide Finished;
    forall n | n in db'.steps
      ensures exists t :: t in st'.steps && num[t] == n
    {
      var t :| t in st.steps && num[t] == n;
      assert t in st'.steps;
    }
  }

  // After a completion every enrolled row still belongs to a stored step.
  lemma StaysTidy(db: DB, st: State, num: Numbering, id: string, s: string, k: CmdKey)
    requires Inv(st) && RowsRel(db, st, num) && s in st.steps
    requires id !in st.origin && id in st.steps[s].ids
    requires k in st.rows && k !in Keys([id], st.steps[s].uuids) && k.owner != st.rows[k].stepID
    ensures st.rows[k].stepID in st.steps
    ensures st.rows[k].stepID == s ==> exists i :: i in st.steps[s].ids && i != id && Live(st, s, i)
  {
    KeyOfRows(db, st, num, k);
    hide RowsRel;
    assert id in [id];
    assert RowOK(st, k);
    if st.rows[k].stepID == s {
      LiveStep(st, s);
      RowIsLive(st, k);
      assert k.owner != id;
    }
  }

  lemma OwnKeyNumber(db: DB, st: State, num: Numbering, id: string, s: string, k: CmdKey)
    requires Inv(st) && NumbersRel(db, st, num) && RowsRel(db, st, num) && s in st.steps && id !in st.origin
    requires k.owner == id && k in st.rows
    ensures st.rows[k].stepID in num && (num[st.rows[k].stepID] == num[s] <==> k.uuid in st.steps[s].uuids)
  {
    AnswerableRow(db, st, num, id, k.uuid);
    if k.uuid in st.steps[s].uuids {
      PointsBack(st, s, id, k.uuid);
    }
    hide Inv;
    hide RowsRel;
  }

  // A response that completes the step.
  lemma FinishKeepsRel(db: DB, st: State, num: Numbering, id: string, sc: StepCommandResult, s: string)
    requires Inv(st) && Rel(db, st, num) && MayRespond(st, id, sc) && Completes(st, id, sc)
    requires st.rows[CmdKey(id, sc.commandUUID)].stepID == s && s in st.steps && s in num
    ensures Removed(db, id, num[s]) == Ok(Finished(db, id, num[s]))
    ensures Rel(Finished(db, id, num[s]), Respond(st, id, sc), num)
  {
    var db' := Finished(db, id, num[s]);
    var st' := Respond(st, id, sc);
    RowIsLive(st, CmdKey(id, sc.commandUUID));
    assert num[s] in db.steps && id !in st.origin && !Delayed(st, s) && st'.origin == st.origin;
    hide Inv;
    hide Respond;
    hide Finished;
    hide NumbersRel;
    hide StepsRel;
    hide Completes;
    hide Consistent;
    hide KeyRel;
    hide RawRel;
    hide RowsRel;
    hide RawsRel;
    hide MayRespond;
    hide HasIDCommands;
    hide HasStepCommands;
    hide Removed;
    hide Keys;
    NoRaws(db, st, num, s);
    RemovedExact(db, id, num[s]);
    FinishedConsistent(db, id, num[s]);
    RespondWhenComplete(st, id, sc, s);
    OthersRemain(db, st, num, id, s);
    var othersLive := exists i :: i in st.steps[s].ids && i != id && Live(st, s, i);
    FinishedSteps(db, st, st', num, id, s, othersLive);
    assert RowsRel(db', st', num) by {
      forall k ensures KeyRel(db', st', num, k) {
        FinishedKeys(db, st, st', num, id, s, k, othersLive);
      }
      KeysAreRows(db', st', num);
    }
    assert RawsRel(db', st', num) by {
      forall t, u | t in st'.steps ensures RawRel(db', st', num, t, u) {
        RawOfRaws(db, st, num, t, u);
        StoredInOrigin(st, t);
        FinishedRaw(db, st, st', num, id, num[s], s, t, u);
      }
      RawsAll(db', st', num);
    }
  }

  lemma FinishedKeys(db: DB, st: State, st': State, num: Numbering, id: string, s: string, k: CmdKey, othersLive: bool)
    requires Inv(st) && NumbersRel(db, st, num) && RowsRel(db, st, num) && s in st.steps && s in num
    requires id !in st.origin && id in st.steps[s].ids
    requires othersLive <==> exists i :: i in st.steps[s].ids && i != id && Live(st, s, i)
    requires st'.rows == st.rows - Keys([id], st.steps[s].uuids)
    requires st'.steps == if othersLive then st.steps else st.steps - {s}
    ensures KeyRel(Finished(db, id, num[s]), st', num, k)
  {
    hide Inv;
    hide NumbersRel;
    hide RowsRel;
    hide KeyRel;
    hide Live;
    hide Keys;
    KeyOfRows(db, st, num, k);
    if k.owner == id && k in st.rows {
      OwnKeyNumber(db, st, num, id, s, k);
    }
    if k in st'.rows && k.owner != st.rows[k].stepID {
      StaysTidy(db, st, num, id, s, k);
    }
    FinishedKey(db, st, st', num, id, s, k);
  }

  lemma NoRaws(db: DB, st: State, num: Numbering, s: string)
    requires RawsRel(db, st, num) && s in st.steps && s in num && !Delayed(st, s)
    ensures !HasStepCommands(db, num[s])
  {
    if HasStepCommands(db, num[s]) {
      var p :| p in db.stepCommands && p.1 == num[s];
      RawOfRaws(db, st, num, s, p.0);
      assert false;
    }
  }

  // Whether the tables hand out a step on this response.
  ghost predicate Finishes(db: DB, id: string, sc: StepCommandResult) {
    sc.completed
    && CountOutstanding(db.idCommands, id, sc.commandUUID).Some?
    && CountOutstanding(db.idCommands, id, sc.commandUUID).value.count <= 1
  }

  // The two backends complete a step on the same responses, except exactly
  // when a final response is repeated while one other command is open: the
  // count is then one although the step is not complete.
  lemma CompletesSameExact(db: DB, st: State, num: Numbering, id: string, sc: StepCommandResult)
    requires Inv(st) && Rel(db, st, num) && id !in st.origin
    ensures var k := CmdKey(id, sc.commandUUID);
            (Finishes(db, id, sc) <==> Completes(st, id, sc))
            <==> !(sc.completed && k in st.rows && st.rows[k].done
                   && st.rows[k].stepID in st.steps && |Open(st, id, st.steps[st.rows[k].stepID].uuids)| == 1)
  {
    var k := CmdKey(id, sc.commandUUID);
    if k !in st.rows {
      CountIsNone(db, st, num, id, sc.commandUUID);
    } else if sc.completed {
      var s := st.rows[k].stepID;
      CountIsOpen(db, st, num, id, sc.commandUUID, s);
      CountExact(db.idCommands, id, sc.commandUUID);
      AnswerableRow(db, st, num, id, sc.commandUUID);
      LiveWaits(st, s, id);
      hide Inv;
      hide NumbersRel;
      hide StepsRel;
      hide RowsRel;
      hide RawsRel;
      hide CountOutstanding;
      OpenExact(st, id, st.steps[s].uuids, sc.commandUUID);
    }
  }

  lemma OpenExact(st: State, id: string, uuids: seq<string>, uuid: string)
    requires Tracked(st.rows, id, uuids) && uuid in uuids && Waiting(st.rows, id, uuids)
    ensures !st.rows[CmdKey(id, uuid)].done ==> (|Open(st, id, uuids)| == 1 <==> OthersDone(st.rows, id, uuids, uuid))
    ensures st.rows[CmdKey(id, uuid)].done ==> !OthersDone(st.rows, id, uuids, uuid)
    ensures |Open(st, id, uuids)| >= 1
  {
    var u :| u in uuids && CmdKey(id, u) in st.rows && !st.rows[CmdKey(id, u)].done;
    OneOpenExact(st, id, uuids, u);
    if !st.rows[CmdKey(id, uuid)].done {
      OneOpenExact(st, id, uuids, uuid);
    }
  }

  // The count in each of the three cases of a response.
  lemma RespondCases(db: DB, st: State, num: Numbering, id: string, sc: StepCommandResult)
    requires Inv(st) && Rel(db, st, num) && id !in st.origin
    ensures var k := CmdKey(id, sc.commandUUID);
            var count := CountOutstanding(db.idCommands, id, sc.commandUUID);
            if k !in st.rows then count.None?
            else
              && st.rows[k].stepID in st.steps && st.rows[k].stepID in num
              && count.Some? && count.value.stepID == num[st.rows[k].stepID]
  {
    var k := CmdKey(id, sc.commandUUID);
    if k !in st.rows {
      CountIsNone(db, st, num, id, sc.commandUUID);
    } else {
      CountIsOpen(db, st, num, id, sc.commandUUID, st.rows[k].stepID);
    }
  }

  lemma RespondedCases(db: DB, id: string, sc: StepCommandResult)
    ensures var count := CountOutstanding(db.idCommands, id, sc.commandUUID);
            Responded(db, id, sc)
            == if count.None? then db
               else if !Finishes(db, id, sc) then Updated(db, id, sc)
               else match Removed(db, id, count.value.stepID) case Err(_) => db case Ok(removed) => removed
  {
    hide CountOutstanding;
    hide Removed;
    hide UpdateIDCommand;
  }

  lemma RespondQuiet(st: State, id: string, sc: StepCommandResult)
    ensures CmdKey(id, sc.commandUUID) !in st.rows ==> Respond(st, id, sc) == st && !Completes(st, id, sc)
    ensures Completes(st, id, sc) ==> sc.completed
  {
  }

  // One response, handled by both backends, keeps them related.
  lemma RespondSimulates(db: DB, st: State, num: Numbering, id: string, sc: StepCommandResult)
    requires Inv(st) && Rel(db, st, num) && MayRespond(st, id, sc) && FirstFinal(st, id, sc.commandUUID)
    ensures Rel(Responded(db, id, sc), Respond(st, id, sc), num)
  {
    hide Inv;
    hide Rel;
    hide CountOutstanding;
    hide Removed;
    hide Finished;
    hide Responded;
    var k := CmdKey(id, sc.commandUUID);
    CompletesSameExact(db, st, num, id, sc);
    RespondCases(db, st, num, id, sc);
    RespondedCases(db, id, sc);
    RespondQuiet(st, id, sc);
    hide Respond;
    hide Updated;
    if k in st.rows && Completes(st, id, sc) {
      FinishKeepsRel(db, st, num, id, sc, st.rows[k].stepID);
    } else if k in st.rows {
      RecordKeepsRel(db, st, num, id, sc);
    }
  }

  // They hand out the same step with the same results, or both none.
  lemma RespondAgrees(db: DB, st: State, num: Numbering, id: string, sc: StepCommandResult,
                      joined: seq<JoinedCommand>, r: Result<Option<StepResult>, DBError>)
    requires Inv(st) && Rel(db, st, num) && MayRespond(st, id, sc)
    requires FirstFinal(st, id, sc.commandUUID) && TypeGiven(st, id, sc)
    requires Answer(db, id, sc, joined, r)
    ensures SameAnswer(RespondOutcome(st, id, sc), r)
  {
    var k := CmdKey(id, sc.commandUUID);
    CompletesSameExact(db, st, num, id, sc);
    RespondCases(db, st, num, id, sc);
    if k !in st.rows {
      Unknown(db, st, id, sc, joined, r);
    } else if Completes(st, id, sc) {
      FinishKeepsRel(db, st, num, id, sc, st.rows[k].stepID);
      Finishing(db, st, num, id, sc, joined, r, st.rows[k].stepID);
    } else {
      Recording(db, st, id, sc, joined, r);
    }
  }

  lemma Unknown(db: DB, st: State, id: string, sc: StepCommandResult,
                joined: seq<JoinedCommand>, r: Result<Option<StepResult>, DBError>)
    requires CmdKey(id, sc.commandUUID) !in st.rows && CountOutstanding(db.idCommands, id, sc.commandUUID).None?
    requires Answer(db, id, sc, joined, r)
    ensures Responded(db, id, sc) == db && Respond(st, id, sc) == st
    ensures SameAnswer(RespondOutcome(st, id, sc), r)
  {
  }

  lemma Recording(db: DB, st: State, id: string, sc: StepCommandResult,
                  joined: seq<JoinedCommand>, r: Result<Option<StepResult>, DBError>)
    requires CmdKey(id, sc.commandUUID) in st.rows && !Completes(st, id, sc) && !Finishes(db, id, sc)
    requires st.rows[CmdKey(id, sc.commandUUID)].stepID in st.steps
    requires CountOutstanding(db.idCommands, id, sc.commandUUID).Some?
    requires Answer(db, id, sc, joined, r)
    ensures Responded(db, id, sc) == Updated(db, id, sc)
    ensures SameAnswer(RespondOutcome(st, id, sc), r)
  {
    hide CountOutstanding;
    hide FinishedJoin;
    hide Reports;
  }

  lemma Finishing(db: DB, st: State, num: Numbering, id: string, sc: StepCommandResult,
                  joined: seq<JoinedCommand>, r: Result<Option<StepResult>, DBError>, s: string)
    requires Inv(st) && Rel(db, st, num) && MayRespond(st, id, sc)
    requires Completes(st, id, sc) && Finishes(db, id, sc) && FirstFinal(st, id, sc.commandUUID)
             && TypeGiven(st, id, sc)
    requires st.rows[CmdKey(id, sc.commandUUID)].stepID == s && s in st.steps && s in num
    requires CountOutstanding(db.idCommands, id, sc.commandUUID).value.stepID == num[s]
    requires Removed(db, id, num[s]) == Ok(Finished(db, id, num[s]))
    requires Answer(db, id, sc, joined, r)
    ensures Responded(db, id, sc) == Finished(db, id, num[s])
    ensures SameAnswer(RespondOutcome(st, id, sc), r)
  {
    FinishesAgree(db, st, num, id, sc, s, joined, r.value.value.commands);
    assert StepRel(db.steps[num[s]], st.steps[s], st.origin[s].notUntil);
    hide Inv;
    hide Rel;
    hide FinishedJoin;
    hide Reports;
    hide Removed;
    hide Finished;
    hide CountOutstanding;
    hide ReportAll;
  }

  /* ---- A step that is completed before its release ---- */

  // A delayed step has a raw command for each of its commands.
  lemma DelayedRaws(db: DB, st: State, num: Numbering, s: string)
    requires Inv(st) && RawsRel(db, st, num) && NumbersRel(db, st, num) && Delayed(st, s)
    ensures forall u :: (u, num[s]) in db.stepCommands <==> u in st.steps[s].uuids
    ensures HasStepCommands(db, num[s])
  {
    LiveStep(st, s);
    forall u
      ensures (u, num[s]) in db.stepCommands <==> u in st.steps[s].uuids
    {
      RawOfRaws(db, st, num, s, u);
    }
    assert (st.steps[s].uuids[0], num[s]) in db.stepCommands;
    hide Inv;
  }

  lemma JoinedPair(db: DB, n: int, id: string, c: CmdKey, p: StepCommandKey)
    requires n in db.steps && p in db.stepCommands && p.1 == n
    requires c in db.idCommands && c.owner == id && db.idCommands[c].stepID == n && db.idCommands[c].completed
    ensures (c, Some(p)) in FinishedJoin(db, id, n)
  {
    var finished := set c | c in db.idCommands && c.owner == id && db.idCommands[c].stepID == n
                            && n in db.steps && db.idCommands[c].completed;
    var raws := set p | p in db.stepCommands && p.1 == n;
    assert c in finished && p in raws;
    assert FinishedJoin(db, id, n) == set c, p | c in finished && p in raws :: (c, Some(p));
  }

  lemma JoinedRaws(db: DB, id: string, n: int, uuids: seq<string>, uuid: string)
    requires n in db.steps && HasStepCommands(db, n)
    requires forall u :: (u, n) in db.stepCommands <==> u in uuids
    requires forall k: CmdKey :: k.owner == id ==>
               (k in db.idCommands && db.idCommands[k].stepID == n && db.idCommands[k].completed
                <==> k.uuid in uuids && k.uuid != uuid)
    ensures FinishedJoin(db, id, n)
            == set u, v | u in uuids && u != uuid && v in uuids :: (CmdKey(id, u), Some((v, n)))
  {
    var raws := set p | p in db.stepCommands && p.1 == n;
    var p :| p in db.stepCommands && p.1 == n;
    assert p in raws;
    forall j | j in FinishedJoin(db, id, n)
      ensures j.0 == CmdKey(id, j.0.uuid) && j.0.uuid in uuids && j.0.uuid != uuid
      ensures j.1.Some? && j.1 == Some((j.1.value.0, n)) && j.1.value.0 in uuids
    {
      assert j.0 in db.idCommands && db.idCommands[j.0].stepID == n && db.idCommands[j.0].completed;
      assert j.1.Some? && j.1.value in raws;
    }
    forall u, v | u in uuids && u != uuid && v in uuids
      ensures (CmdKey(id, u), Some((v, n))) in FinishedJoin(db, id, n)
    {
      JoinedPair(db, n, id, CmdKey(id, u), (v, n));
    }
    hide FinishedJoin;
  }

  // If no other enrollment has the step, the tables fail on the foreign key of its
  // raw commands, and the response is lost. The tracker completes it in any case.
  lemma EarlyTablesExact(db: DB, st: State, num: Numbering, id: string, sc: StepCommandResult)
    requires Inv(st) && Rel(db, st, num) && id !in st.origin && CompletesEarly(st, id, sc)
    ensures var s := st.rows[CmdKey(id, sc.commandUUID)].stepID;
            && s in num && Finishes(db, id, sc)
            && (Removed(db, id, num[s]).Err? <==> forall i :: i in st.steps[s].ids ==> i == id)
            && (Removed(db, id, num[s]).Err? ==> Responded(db, id, sc) == db)
    ensures RespondOutcome(st, id, sc).Completed?
  {
    var k := CmdKey(id, sc.commandUUID);
    var s := st.rows[k].stepID;
    RowIsLive(st, k);
    LiveStep(st, s);
    AllLive(st, s);
    hide Inv;
    hide NumbersRel;
    hide StepsRel;
    hide RowsRel;
    hide RawsRel;
    hide Live;
    hide Removed;
    hide Responded;
    hide CountOutstanding;
    hide HasIDCommands;
    hide HasStepCommands;
    hide RemoveIDCommandsByStepID;
    RespondCases(db, st, num, id, sc);
    CompletesSameExact(db, st, num, id, sc);
    RespondedCases(db, id, sc);
    DelayedRaws(db, st, num, s);
    StepNumbered(db, st, num, s);
    RemovedFailsExact(db, id, num[s]);
    OthersRemain(db, st, num, id, s);
    EarlyOpen(st, id, sc, s);
  }

  // If another enrollment has it, they hand out each other result once per raw
  // command.
  lemma EarlyJoinExact(db: DB, st: State, num: Numbering, id: string, sc: StepCommandResult, s: string)
    requires Inv(st) && Rel(db, st, num) && id !in st.origin && CompletesEarly(st, id, sc)
    requires s == st.rows[CmdKey(id, sc.commandUUID)].stepID && s in num
    ensures FinishedJoin(db, id, num[s])
            == set u, v | u in st.steps[s].uuids && u != sc.commandUUID && v in st.steps[s].uuids
               :: (CmdKey(id, u), Some((v, num[s])))
  {
    RowIsLive(st, CmdKey(id, sc.commandUUID));
    LiveStep(st, s);
    hide Inv;
    hide NumbersRel;
    hide StepsRel;
    hide RowsRel;
    hide RawsRel;
    hide Live;
    hide FinishedJoin;
    hide HasStepCommands;
    DelayedRaws(db, st, num, s);
    StepNumbered(db, st, num, s);
    EarlyOpen(st, id, sc, s);
    forall c: CmdKey | c.owner == id
      ensures c in db.idCommands && db.idCommands[c].stepID == num[s] && db.idCommands[c].completed
              <==> c.uuid in st.steps[s].uuids && c.uuid != sc.commandUUID
    {
      FinishedRow(db, st, num, s, id, sc.commandUUID, c);
    }
    JoinedRaws(db, id, num[s], st.steps[s].uuids, sc.commandUUID);
  }

  lemma StepNumbered(db: DB, st: State, num: Numbering, s: string)
    requires NumbersRel(db, st, num) && s in st.steps
    ensures s in num && num[s] in db.steps
  {
  }

  lemma AllLive(st: State, s: string)
    requires Inv(st) && Delayed(st, s)
    ensures forall i :: i in st.steps[s].ids ==> Live(st, s, i)
  {
    assert StepOK(st, s);
  }

  // The response that completes it is the first final one of its command.
  lemma EarlyOpen(st: State, id: string, sc: StepCommandResult, s: string)
    requires Inv(st) && Completes(st, id, sc) && Live(st, s, id) && sc.commandUUID in st.steps[s].uuids
    requires st.rows[CmdKey(id, sc.commandUUID)].stepID == s
    ensures !st.rows[CmdKey(id, sc.commandUUID)].done
    ensures OthersDone(st.rows, id, st.steps[s].uuids, sc.commandUUID) && Tracked(st.rows, id, st.steps[s].uuids)
  {
    LiveWaits(st, s, id);
    hide Inv;
  }

  /* ---- Both report the same enrollments as outstanding ---- */

  lemma OutstandingSame(db: DB, st: State, num: Numbering, ids: seq<string>, workflowName: string, i: string)
    requires Inv(st) && Rel(db, st, num) && i !in st.origin
    ensures i in OutstandingRows(db, ids, workflowName) <==> i in ids && Outstanding(st, workflowName, i)
  {
    hide Inv;
    hide Rel;
    if i in OutstandingRows(db, ids, workflowName) {
      var c :| c in db.idCommands && c.owner == i && !db.idCommands[c].completed && db.idCommands[c].stepID in db.steps
               && db.steps[db.idCommands[c].stepID].workflowName == workflowName;
      OpenRowIsOutstanding(db, st, num, c);
    }
    if Outstanding(st, workflowName, i) && i in ids {
      var s :| s in st.steps && st.steps[s].ctx.workflowName == workflowName && i in st.steps[s].ids
               && Waiting(st.rows, i, st.steps[s].uuids);
      var u :| u in st.steps[s].uuids && CmdKey(i, u) in st.rows && !st.rows[CmdKey(i, u)].done;
      OutstandingRow(db, st, num, s, i, u);
      assert CmdKey(i, u) in db.idCommands;
    }
  }

  lemma OutstandingRow(db: DB, st: State, num: Numbering, s: string, i: string, u: string)
    requires Inv(st) && Rel(db, st, num) && i !in st.origin && s in st.steps
    requires u in st.steps[s].uuids && CmdKey(i, u) in st.rows && !st.rows[CmdKey(i, u)].done
    ensures CmdKey(i, u) in db.idCommands && !db.idCommands[CmdKey(i, u)].completed
    ensures db.idCommands[CmdKey(i, u)].stepID in db.steps
    ensures db.steps[db.idCommands[CmdKey(i, u)].stepID].workflowName == st.steps[s].ctx.workflowName
  {
    AnswerableRow(db, st, num, i, u);
    PointsBack(st, s, i, u);
    hide RowsRel;
    hide RawsRel;
    assert StepRel(db.steps[num[s]], st.steps[s], st.origin[s].notUntil);
  }

  lemma OpenRowIsOutstanding(db: DB, st: State, num: Numbering, c: CmdKey)
    requires Inv(st) && Rel(db, st, num) && c in db.idCommands && !db.idCommands[c].completed && c.owner !in st.origin
    requires db.idCommands[c].stepID in db.steps
    ensures Outstanding(st, db.steps[db.idCommands[c].stepID].workflowName, c.owner)
  {
    AnswerableRow(db, st, num, c.owner, c.uuid);
    var s := st.rows[c].stepID;
    assert StepRel(db.steps[num[s]], st.steps[s], st.origin[s].notUntil);
  }
}
