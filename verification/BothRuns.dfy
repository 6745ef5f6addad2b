/**
 The two backends over whole runs: whatever the tracker does along an admissible
 run, the MySQL tables follow, so nobody can tell the backends apart by what
 completes, what is outstanding and what is accepted.
 */
module BothRuns {
  import opened Wrappers
  import opened Text
  import opened Records
  import opened Tracker
  import opened Invariant
  import opened Runs
  import opened MySQL
  import opened MySQLWorker
  import opened MySQLStore
  import opened Simulation
  import opened SimPasses

  // One operation on the tables. Their release and re-push compare strictly, so
  // the matching instants are one later.
  ghost predicate TablesStep(db: DB, op: Op, db': DB) {
    match op
    case StoreOp(_, cfg, now) => db' == Stored(db, cfg, now)
    case RespondOp(id, sc) => db' == Responded(db, id, sc)
    case ReleaseOp(now, pushTime) =>
      exists processID :: FreshProcess(db, processID) && db' == ReleasedTables(db, now + 1, processID, pushTime)
    case TimeOutOp(now) => db' == TimedOutTables(db, now)
    case RePushOp(ifBefore, setTo) => db' == UpdateRePush(db, NullTime(setTo), NullTime(ifBefore + 1))
    case CancelOp(id, workflowName) => Cancelling(db, id, workflowName) == Ok(db')
  }

  // What keeps the backends together: times are set, a command gets at most one
  // final response and nothing after it, enrollment IDs are no step IDs, an
  // expired step was not delayed and released, and cancelling names an enrollment
  // and a workflow whose steps are the enrollment's.
  ghost predicate Together(st: State, op: Op) {
    match op
    case StoreOp(_, cfg, now) => now != 0 && (cfg.Some? ==> forall i :: i in cfg.value.ids ==> i !in st.origin)
    case RespondOp(id, sc) => FirstFinal(st, id, sc.commandUUID) && TypeGiven(st, id, sc)
    case ReleaseOp(_, pushTime) => pushTime != 0
    case TimeOutOp(now) => forall s :: Expired(st, s, now) ==> !WasReleased(st, s)
    case RePushOp(ifBefore, _) => ifBefore >= 0
    case CancelOp(id, workflowName) =>
      id != "" && workflowName != "" && id !in st.origin && SoleSteps(st, id, workflowName)
  }

  ghost predicate AllTogether(ops: seq<Op>) {
    ops == [] || (AllTogether(ops[..|ops| - 1]) && Together(Run(ops[..|ops| - 1]), ops[|ops| - 1]))
  }

  ghost predicate TablesRun(ops: seq<Op>, dbs: seq<DB>) {
    && |dbs| == |ops| + 1 && dbs[0] == EMPTY
    && forall n :: 0 <= n < |ops| ==> TablesStep(dbs[n], ops[n], dbs[n + 1])
  }

  ghost predicate Related(db: DB, st: State) {
    exists num :: Rel(db, st, num)
  }

  lemma StepRelated(db: DB, st: State, num: Numbering, op: Op, db': DB)
    requires Inv(st) && May(st, op) && Together(st, op) && Rel(db, st, num) && TablesStep(db, op, db')
    ensures Related(db', Next(st, op))
  {
    hide Inv;
    hide Rel;
    hide Store;
    hide Respond;
    hide Release;
    hide TimeOut;
    hide RePush;
    hide Cancel;
    hide Stored;
    hide Responded;
    hide ReleasedTables;
    hide TimedOutTables;
    hide UpdateRePush;
    hide Cancelling;
    hide MayStore;
    hide MayRespond;
    hide SoleSteps;
    hide FirstFinal;
    hide TypeGiven;
    hide FreshProcess;
    match op
    case StoreOp(s, cfg, now) =>
      StoreRelated(db, st, num, s, cfg, now);
    case RespondOp(id, sc) =>
      RespondSimulates(db, st, num, id, sc);
    case ReleaseOp(now, pushTime) =>
      var processID :| FreshProcess(db, processID) && db' == ReleasedTables(db, now + 1, processID, pushTime);
      ReleaseSimulates(db, st, num, now + 1, processID, pushTime);
    case TimeOutOp(now) =>
      TimeOutSimulates(db, st, num, now);
    case RePushOp(ifBefore, setTo) =>
      RePushSimulates(db, st, num, ifBefore + 1, setTo);
    case CancelOp(id, workflowName) =>
      CancelSimulates(db, st, num, id, workflowName);
  }

  lemma StoreRelated(db: DB, st: State, num: Numbering, s: string, cfg: Option<StepEnqueuingWithConfig>, now: Time)
    requires Inv(st) && MayStore(st, s, cfg) && Rel(db, st, num) && now != 0
    requires cfg.Some? ==> forall i :: i in cfg.value.ids ==> i !in st.origin
    ensures Related(Stored(db, cfg, now), Store(st, s, cfg, now))
  {
    AcceptsSame(db, st, num, cfg);
    if Accepts(st, cfg) {
      StoreKeepsRel(db, st, num, s, cfg.value, now);
    }
    hide Rel;
    hide Inv;
    hide Accepts;
    hide Insertable;
    hide MayStore;
    hide Inserted;
  }

  // The tables follow the tracker along every run that keeps them together.
  lemma {:induction false} RunsRelated(ops: seq<Op>, dbs: seq<DB>)
    requires Admissible(ops) && AllTogether(ops) && TablesRun(ops, dbs)
    ensures Related(dbs[|ops|], Run(ops))
  {
    hide Rel;
    if ops == [] {
      InitRel();
      assert Rel(EMPTY, Init, map[]);
    } else {
      var past := ops[..|ops| - 1];
      var op := ops[|ops| - 1];
      assert TablesStep(dbs[|past|], op, dbs[|ops|]);
      assert TablesRun(past, dbs[..|ops|]);
      RunsRelated(past, dbs[..|ops|]);
      RunKeepsInv(past);
      var num :| Rel(dbs[|past|], Run(past), num);
      StepRelated(dbs[|past|], Run(past), num, op, dbs[|ops|]);
    }
  }

  // After such a run the two backends answer the next response alike, report
  // the same enrollments as outstanding and accept the same steps.
  lemma BackendsAgree(ops: seq<Op>, dbs: seq<DB>, id: string, sc: StepCommandResult, joined: seq<JoinedCommand>,
                      r: Result<Option<StepResult>, DBError>)
    requires Admissible(ops) && AllTogether(ops) && TablesRun(ops, dbs)
    requires May(Run(ops), RespondOp(id, sc)) && Together(Run(ops), RespondOp(id, sc))
    requires Answer(dbs[|ops|], id, sc, joined, r)
    ensures SameAnswer(RespondOutcome(Run(ops), id, sc), r)
  {
    RunKeepsInv(ops);
    RunsRelated(ops, dbs);
    hide Rel;
    hide Inv;
    hide Answer;
    hide SameAnswer;
    var num :| Rel(dbs[|ops|], Run(ops), num);
    RespondAgrees(dbs[|ops|], Run(ops), num, id, sc, joined, r);
  }

  lemma QueriesAgree(ops: seq<Op>, dbs: seq<DB>, ids: seq<string>, workflowName: string, i: string)
    requires Admissible(ops) && AllTogether(ops) && TablesRun(ops, dbs) && i !in Run(ops).origin
    ensures i in OutstandingRows(dbs[|ops|], ids, workflowName) <==> i in ids && Outstanding(Run(ops), workflowName, i)
  {
    RunKeepsInv(ops);
    RunsRelated(ops, dbs);
    hide Rel;
    hide Inv;
    hide Outstanding;
    hide OutstandingRows;
    var num :| Rel(dbs[|ops|], Run(ops), num);
    OutstandingSame(dbs[|ops|], Run(ops), num, ids, workflowName, i);
  }

  lemma StoresAgree(ops: seq<Op>, dbs: seq<DB>, cfg: Option<StepEnqueuingWithConfig>)
    requires Admissible(ops) && AllTogether(ops) && TablesRun(ops, dbs)
    requires cfg.Some? ==> forall i :: i in cfg.value.ids ==> i !in Run(ops).origin
    ensures Insertable(dbs[|ops|], cfg) <==> Accepts(Run(ops), cfg)
  {
    RunKeepsInv(ops);
    RunsRelated(ops, dbs);
    hide Rel;
    hide Inv;
    hide Insertable;
    hide Accepts;
    var num :| Rel(dbs[|ops|], Run(ops), num);
    AcceptsSame(dbs[|ops|], Run(ops), num, cfg);
  }

  /* ---- The count is taken before the transaction ---- */

  lemma UpdatedUnanswered(db: DB, k: CmdKey, id: string, n: int, result: Bytes)
    ensures Unanswered(UpdateIDCommand(db, k, true, result).idCommands, id, n) == Unanswered(db.idCommands, id, n) - {k}
    ensures forall c :: c in UpdateIDCommand(db, k, true, result).idCommands <==> c in db.idCommands
    ensures forall c :: c in db.idCommands ==>
              UpdateIDCommand(db, k, true, result).idCommands[c].stepID == db.idCommands[c].stepID
  {
  }

  ghost predicate OfStep(db: DB, k: CmdKey, n: int) {
    k in db.idCommands && db.idCommands[k].stepID == n
  }

  // The last two responses of a step: handled one after the other, the second
  // counts one and completes it. When both count before either updates, both
  // count two, neither completes it, and no later response can.
  lemma CountRaceStrands(db: DB, id: string, a: StepCommandResult, b: StepCommandResult, n: int)
    requires var ka, kb := CmdKey(id, a.commandUUID), CmdKey(id, b.commandUUID);
             && a.completed && b.completed && ka != kb && ka in db.idCommands && kb in db.idCommands
             && db.idCommands[ka].stepID == n && db.idCommands[kb].stepID == n
             && Unanswered(db.idCommands, id, n) == {ka, kb}
    ensures !Finishes(db, id, a) && !Finishes(db, id, b)
    ensures Finishes(Responded(db, id, a), id, b)
    ensures var both := UpdateIDCommand(UpdateIDCommand(db, CmdKey(id, a.commandUUID), true, a.resultReport),
                                        CmdKey(id, b.commandUUID), true, b.resultReport);
            forall sc: StepCommandResult :: OfStep(db, CmdKey(id, sc.commandUUID), n) ==>
              !Finishes(both, id, sc)
  {
    var ka, kb := CmdKey(id, a.commandUUID), CmdKey(id, b.commandUUID);
    var first := UpdateIDCommand(db, ka, true, a.resultReport);
    var both := UpdateIDCommand(first, kb, true, b.resultReport);
    UpdatedUnanswered(db, ka, id, n, a.resultReport);
    UpdatedUnanswered(first, kb, id, n, b.resultReport);
    CountExact(db.idCommands, id, a.commandUUID);
    CountExact(db.idCommands, id, b.commandUUID);
    CountExact(first.idCommands, id, b.commandUUID);
    assert |{ka, kb}| == 2;
    assert {ka, kb} - {ka} == {kb} && {kb} - {kb} == {};
    RespondedCases(db, id, a);
    hide CountOutstanding;
    hide UpdateIDCommand;
    hide Unanswered;
    hide Responded;
    forall sc: StepCommandResult | OfStep(db, CmdKey(id, sc.commandUUID), n)
      ensures !Finishes(both, id, sc)
    {
      CountExact(both.idCommands, id, sc.commandUUID);
    }
  }

  // Any number of responses of one enrollment under way at once: each counts, and
  // writes its row later if it counted more than itself.
  datatype Move = Count(sc: StepCommandResult) | Write(sc: StepCommandResult)

  ghost function Played(db: DB, id: string, moves: seq<Move>): DB {
    if moves == [] then db
    else
      var before := Played(db, id, moves[..|moves| - 1]);
      var move := moves[|moves| - 1];
      if move.Write? then UpdateIDCommand(before, CmdKey(id, move.sc.commandUUID), true, move.sc.resultReport)
      else before
  }

  // The command was written to in the course of the moves.
  ghost predicate Written(moves: seq<Move>, id: string, k: CmdKey) {
    exists m :: 0 <= m < |moves| && moves[m].Write? && CmdKey(id, moves[m].sc.commandUUID) == k
  }

  lemma WrittenNext(moves: seq<Move>, id: string, k: CmdKey)
    requires moves != []
    ensures var move := moves[|moves| - 1];
            Written(moves, id, k)
            <==> Written(moves[..|moves| - 1], id, k) || (move.Write? && CmdKey(id, move.sc.commandUUID) == k)
  {
    if Written(moves, id, k) {
      var m :| 0 <= m < |moves| && moves[m].Write? && CmdKey(id, moves[m].sc.commandUUID) == k;
      assert m < |moves| - 1 ==> moves[..|moves| - 1][m] == moves[m];
    }
    if Written(moves[..|moves| - 1], id, k) {
      var past := moves[..|moves| - 1];
      var m :| 0 <= m < |past| && past[m].Write? && CmdKey(id, past[m].sc.commandUUID) == k;
      assert moves[m] == past[m];
    }
  }

  lemma {:induction false} PlayedOpen(db: DB, id: string, moves: seq<Move>, n: int)
    ensures forall k :: k in Unanswered(Played(db, id, moves).idCommands, id, n)
                        <==> k in Unanswered(db.idCommands, id, n) && !Written(moves, id, k)
    ensures forall k :: OfStep(Played(db, id, moves), k, n) <==> OfStep(db, k, n)
  {
    if moves != [] {
      var past := moves[..|moves| - 1];
      var move := moves[|moves| - 1];
      PlayedOpen(db, id, past, n);
      forall k {
        WrittenNext(moves, id, k);
      }
      UpdatedUnanswered(Played(db, id, past), CmdKey(id, move.sc.commandUUID), id, n, move.sc.resultReport);
      hide Unanswered;
      hide Written;
      hide UpdateIDCommand;
    }
  }

  // A response completes the step exactly if it counts after all other commands
  // of the step have been written to. If everything is written and nobody has
  // counted last, no later response completes it.
  lemma CountRaceExact(db: DB, id: string, n: int, moves: seq<Move>, sc: StepCommandResult)
    requires sc.completed && OfStep(db, CmdKey(id, sc.commandUUID), n)
    ensures var own := CmdKey(id, sc.commandUUID);
            var open := Unanswered(db.idCommands, id, n);
            && (own in open && !Written(moves, id, own) ==>
                  (Finishes(Played(db, id, moves), id, sc)
                   <==> forall k :: k in open && k != own ==> Written(moves, id, k)))
            && ((forall k :: k in open ==> Written(moves, id, k)) ==> !Finishes(Played(db, id, moves), id, sc))
  {
    var own := CmdKey(id, sc.commandUUID);
    var open := Unanswered(db.idCommands, id, n);
    var db' := Played(db, id, moves);
    var left := Unanswered(db'.idCommands, id, n);
    PlayedOpen(db, id, moves, n);
    assert OfStep(db', own, n);
    CountExact(db'.idCommands, id, sc.commandUUID);
    hide CountOutstanding;
    hide Unanswered;
    hide Written;
    hide Played;
    if own in open && !Written(moves, id, own) {
      assert own in left;
      SubsetSize({own}, left);
      if forall k :: k in open && k != own ==> Written(moves, id, k) {
        assert left == {own};
      } else {
        var k :| k in open && k != own && !Written(moves, id, k);
        SubsetSize({own, k}, left);
      }
    }
    if forall k :: k in open ==> Written(moves, id, k) {
      assert left == {};
    }
  }
}
