/**
 Short runs that reach the inputs on which the exact conditions fail: each is
 admissible, and shows the failing side of one of them.
 */
module Witnesses {
  import opened Wrappers
  import opened Records
  import opened Tracker
  import opened Invariant
  import opened Runs
  import opened Delivery
  import opened MySQL
  import opened MySQLWorker
  import opened MySQLStore
  import opened Simulation
  import opened SimPasses
  import opened BothRuns
  import Engine
  import Exclusive
  import Outbox

  /* ---- One or two steps, freshly stored ---- */

  const CTX := StepContext("w", "n", "p", "")
  const A := StepCommandRaw("a", "T", "x")
  const B := StepCommandRaw("b", "T", "y")
  const C := StepCommandRaw("c", "T", "z")

  function Two(ids: seq<string>, notUntil: Time, timeout: Time): StepEnqueuingWithConfig {
    StepEnqueuingWithConfig(CTX, ids, [A, B], notUntil, timeout)
  }

  function One(ids: seq<string>, command: StepCommandRaw, notUntil: Time, timeout: Time): StepEnqueuingWithConfig {
    StepEnqueuingWithConfig(CTX, ids, [command], notUntil, timeout)
  }

  lemma UuidsOf()
    ensures Uuids([A, B]) == ["a", "b"] && Uuids([A]) == ["a"] && Uuids([C]) == ["c"]
    ensures CommandOf([A, B], "a") == A && CommandOf([A, B], "b") == B && CommandOf([A], "a") == A
            && CommandOf([C], "c") == C
  {
    assert Uuids([A, B]) == ["a", "b"] && Uuids([A]) == ["a"] && Uuids([C]) == ["c"];
    assert [A, B][1..] == [B] && Uuids([B]) == ["b"];
  }

  // A step of these commands for one enrollment or two.
  ghost predicate Sample(cfg: StepEnqueuingWithConfig) {
    && cfg.ctx == CTX && (cfg.ids == ["i"] || cfg.ids == ["i", "j"])
    && (cfg.commands == [A, B] || cfg.commands == [A] || cfg.commands == [C])
  }

  lemma SampleOK(cfg: StepEnqueuingWithConfig)
    requires Sample(cfg)
    ensures ConfigOK(cfg) && RawPresent(cfg)
  {
    UuidsOf();
    hide CommandOf;
  }

  // The state after one store into an empty one.
  lemma FirstStored(s: string, cfg: StepEnqueuingWithConfig, now: Time)
    requires Sample(cfg) && (s == "s" || s == "t")
    ensures Accepts(Init, Some(cfg)) && MayStore(Init, s, Some(cfg))
    ensures var st := Store(Init, s, Some(cfg), now);
            && st.steps == map[s := NewStep(cfg)] && st.origin == map[s := cfg]
            && (forall i, u :: i in cfg.ids && u in Uuids(cfg.commands) ==> Fresh(st, s, cfg, i, u))
            && (forall k :: k in st.rows ==> k.uuid in Uuids(cfg.commands) && (k.owner in cfg.ids || k.owner == s))
  {
    SampleOK(cfg);
    hide CommandOf;
    hide Uuids;
  }

  // The row of a command as it was stored.
  ghost predicate Fresh(st: State, s: string, cfg: StepEnqueuingWithConfig, i: string, u: string) {
    CmdKey(i, u) in st.rows
    && var row := st.rows[CmdKey(i, u)];
       row.stepID == s && !row.done && row.result == None
       && u in Uuids(cfg.commands) && row.reqType == CommandOf(cfg.commands, u).requestType
  }

  lemma FreshLive(st: State, s: string, cfg: StepEnqueuingWithConfig)
    requires st.steps == map[s := NewStep(cfg)]
    requires forall i, u :: i in cfg.ids && u in Uuids(cfg.commands) ==> Fresh(st, s, cfg, i, u)
    ensures forall i :: i in cfg.ids ==> Live(st, s, i)
  {
    hide Uuids;
    hide CommandOf;
  }

  lemma Snoc(ops: seq<Op>, op: Op)
    ensures Run(ops + [op]) == Next(Run(ops), op)
    ensures Admissible(ops + [op]) <==> Admissible(ops) && May(Run(ops), op)
    ensures AllTogether(ops + [op]) <==> AllTogether(ops) && Together(Run(ops), op)
  {
    assert (ops + [op])[..|ops|] == ops;
    hide Next;
    hide May;
    hide Together;
  }

  lemma StoreStepOf(db: DB, op: Op, db': DB)
    requires op.StoreOp? && db' == Stored(db, op.cfg, op.now)
    ensures TablesStep(db, op, db')
  {
    hide Stored;
  }

  lemma SnocStore(ops: seq<Op>, op: Op, k: CmdKey)
    requires op.StoreOp? && !Answered(ops, k)
    ensures !Answered(ops + [op], k)
  {
    assert (ops + [op])[..|ops|] == ops;
  }

  // One more response to a known command.
  lemma SnocRespond(ops: seq<Op>, id: string, sc: StepCommandResult)
    requires CmdKey(id, sc.commandUUID) in Run(ops).rows
    ensures var k := CmdKey(id, sc.commandUUID);
            var later := ops + [RespondOp(id, sc)];
            && Run(later) == Respond(Run(ops), id, sc)
            && (Admissible(later) <==> Admissible(ops) && MayRespond(Run(ops), id, sc))
            && (AllTogether(later)
                <==> AllTogether(ops) && FirstFinal(Run(ops), id, sc.commandUUID) && TypeGiven(Run(ops), id, sc))
            && (Answered(later, k) <==> Answered(ops, k) || sc.completed)
            && FinalReport(later, k) == (if sc.completed then Some(sc.resultReport) else FinalReport(ops, k))
            && (Overwritten(later, k)
                <==> !sc.completed && Answered(ops, k) && FinalReport(ops, k) != Some(sc.resultReport))
  {
    Snoc(ops, RespondOp(id, sc));
    assert (ops + [RespondOp(id, sc)])[..|ops|] == ops;
    hide Respond;
    hide MayRespond;
    hide Run;
  }

  // A run of one store.
  lemma OneStore(s: string, cfg: StepEnqueuingWithConfig, now: Time)
    requires Sample(cfg) && (s == "s" || s == "t") && now != 0
    ensures var ops := [StoreOp(s, Some(cfg), now)];
            && Admissible(ops) && AllTogether(ops) && Run(ops) == Store(Init, s, Some(cfg), now)
            && Inv(Run(ops)) && forall k :: !Answered(ops, k)
  {
    var op := StoreOp(s, Some(cfg), now);
    assert [] + [op] == [op];
    FirstStored(s, cfg, now);
    Snoc([], op);
    forall k {
      SnocStore([], op, k);
    }
    StoreKeepsInv(Init, s, Some(cfg), now);
    InitInv();
    hide Store;
    hide MayStore;
    hide Accepts;
  }

  const FINAL := StepCommandResult("a", "T", "X", true)
  const LATE := StepCommandResult("a", "T", "Y", false)

  // A final response to the first of two commands is recorded.
  lemma FirstAnswered(cfg: StepEnqueuingWithConfig, sc: StepCommandResult)
    requires cfg == Two(["i"], 0, cfg.timeout) && (sc == FINAL || sc == LATE)
    ensures var st := Store(Init, "s", Some(cfg), 1);
            var st' := Respond(st, "i", sc);
            && MayRespond(st, "i", sc) && FirstFinal(st, "i", "a") && TypeGiven(st, "i", sc) && !Completes(st, "i", sc)
            && st'.steps == st.steps && st'.origin == st.origin
            && Fresh(st, "s", cfg, "i", "a") && Fresh(st, "s", cfg, "i", "b")
            && Fresh(st', "s", cfg, "i", "b")
            && CmdKey("i", "a") in st'.rows && st'.rows[CmdKey("i", "a")].stepID == "s"
            && st'.rows[CmdKey("i", "a")].done == sc.completed
            && st'.rows[CmdKey("i", "a")].result == Some(sc.resultReport)
  {
    FirstStored("s", cfg, 1);
    UuidsOf();
    var st := Store(Init, "s", Some(cfg), 1);
    hide Store;
    hide Uuids;
    hide CommandOf;
    assert "i" in cfg.ids && "a" in ["a", "b"] && "b" in ["a", "b"];
    assert Fresh(st, "s", cfg, "i", "a") && Fresh(st, "s", cfg, "i", "b");
    FirstOfTwo(st, cfg, sc);
  }

  lemma FirstOfTwo(st: State, cfg: StepEnqueuingWithConfig, sc: StepCommandResult)
    requires cfg == Two(["i"], 0, cfg.timeout) && (sc == FINAL || sc == LATE)
    requires st.steps == map["s" := NewStep(cfg)] && st.origin == map["s" := cfg] && Uuids(cfg.commands) == ["a", "b"]
    requires Fresh(st, "s", cfg, "i", "a") && Fresh(st, "s", cfg, "i", "b")
             && CommandOf(cfg.commands, "a").requestType == "T"
    ensures var st' := Respond(st, "i", sc);
            && MayRespond(st, "i", sc) && FirstFinal(st, "i", "a") && TypeGiven(st, "i", sc) && !Completes(st, "i", sc)
            && st'.steps == st.steps && st'.origin == st.origin
            && Fresh(st', "s", cfg, "i", "b")
            && CmdKey("i", "a") in st'.rows && st'.rows[CmdKey("i", "a")].stepID == "s"
            && st'.rows[CmdKey("i", "a")].done == sc.completed
            && st'.rows[CmdKey("i", "a")].result == Some(sc.resultReport)
  {
    hide Uuids;
    hide CommandOf;
    assert "b" in ["a", "b"];
    assert !OthersDone(st.rows, "i", st.steps["s"].uuids, "a");
  }

  // Two commands are stored and the first gets a response.
  function Stored2(timeout: Time): seq<Op> {
    [StoreOp("s", Some(Two(["i"], 0, timeout)), 1)]
  }

  lemma AnsweredRun(timeout: Time, sc: StepCommandResult)
    requires sc == FINAL || sc == LATE
    ensures var ops := Stored2(timeout) + [RespondOp("i", sc)];
            var cfg := Two(["i"], 0, timeout);
            && Admissible(ops) && AllTogether(ops)
            && Run(ops).steps == map["s" := NewStep(cfg)] && Run(ops).origin == map["s" := cfg]
            && Fresh(Run(ops), "s", cfg, "i", "b") && CmdKey("i", "a") in Run(ops).rows
            && Run(ops).rows[CmdKey("i", "a")].stepID == "s"
            && Run(ops).rows[CmdKey("i", "a")].done == sc.completed
            && Run(ops).rows[CmdKey("i", "a")].result == Some(sc.resultReport)
            && (Answered(ops, CmdKey("i", "a")) <==> sc.completed)
            && (sc.completed ==> FinalReport(ops, CmdKey("i", "a")) == Some(sc.resultReport))
  {
    var cfg := Two(["i"], 0, timeout);
    hide Store;
    hide Run;
    hide Respond;
    hide Admissible;
    hide AllTogether;
    hide Answered;
    hide Overwritten;
    hide FinalReport;
    hide Completes;
    OneStore("s", cfg, 1);
    FirstStored("s", cfg, 1);
    FirstAnswered(cfg, sc);
    SnocRespond(Stored2(timeout), "i", sc);
  }

  /* ---- A NotNow after the final response ---- */

  // The final report of a command is overwritten while the other is open, and
  // nothing stands in the way of handing the step out without it.
  lemma LateReportRun()
    ensures var ops := Stored2(0) + [RespondOp("i", FINAL)] + [RespondOp("i", LATE)];
            && Admissible(ops) && Answered(ops, CmdKey("i", "a")) && Overwritten(ops, CmdKey("i", "a"))
            && OthersAnswered(ops, "i", [A, B], "b")
  {
    var past := Stored2(0) + [RespondOp("i", FINAL)];
    AnsweredRun(0, FINAL);
    UuidsOf();
    hide Run;
    hide Respond;
    hide Admissible;
    hide Answered;
    hide Overwritten;
    hide FinalReport;
    hide Stored2;
    MayAnswer(past, "s", Two(["i"], 0, 0), "a", LATE);
    SnocRespond(past, "i", LATE);
  }

  // Nothing is delayed, so the enrollment may answer.
  lemma MayAnswer(ops: seq<Op>, s: string, cfg: StepEnqueuingWithConfig, u: string, sc: StepCommandResult)
    requires Run(ops).steps == map[s := NewStep(cfg)] && Run(ops).origin == map[s := cfg] && cfg.notUntil == 0
    requires (s == "s" || s == "t") && sc.commandUUID == u
    ensures MayRespond(Run(ops), "i", sc)
  {
    hide Run;
  }

  /* ---- A repeated final response ---- */

  lemma OneOpen(st: State, timeout: Time)
    requires st.steps == map["s" := NewStep(Two(["i"], 0, timeout))]
    requires Fresh(st, "s", Two(["i"], 0, timeout), "i", "b")
    requires CmdKey("i", "a") in st.rows && st.rows[CmdKey("i", "a")].done && st.rows[CmdKey("i", "a")].stepID == "s"
    ensures |Open(st, "i", st.steps["s"].uuids)| == 1
  {
    UuidsOf();
    hide Uuids;
    hide CommandOf;
    assert Open(st, "i", ["a", "b"]) == {CmdKey("i", "b")};
  }

  // With the other command open, the tables take the repeated response for the
  // missing one.
  lemma RepeatedRun(dbs: seq<DB>)
    requires TablesRun(Stored2(0) + [RespondOp("i", FINAL)], dbs)
    ensures var ops := Stored2(0) + [RespondOp("i", FINAL)];
            && Admissible(ops) && AllTogether(ops)
            && Finishes(dbs[2], "i", FINAL) && !Completes(Run(ops), "i", FINAL)
  {
    var ops := Stored2(0) + [RespondOp("i", FINAL)];
    AnsweredRun(0, FINAL);
    hide Run;
    hide Admissible;
    hide AllTogether;
    hide TablesRun;
    hide Finishes;
    OneOpen(Run(ops), 0);
    MayAnswer(ops, "s", Two(["i"], 0, 0), "a", FINAL);
    RunKeepsInv(ops);
    RunsRelated(ops, dbs);
    RepeatCounted(dbs[2], Run(ops));
  }

  lemma RepeatCounted(db: DB, st: State)
    requires Related(db, st) && Inv(st) && MayRespond(st, "i", FINAL)
    requires st.steps == map["s" := NewStep(Two(["i"], 0, 0))]
    requires Fresh(st, "s", Two(["i"], 0, 0), "i", "b") && |Open(st, "i", st.steps["s"].uuids)| == 1
    requires CmdKey("i", "a") in st.rows && st.rows[CmdKey("i", "a")].done && st.rows[CmdKey("i", "a")].stepID == "s"
    ensures Finishes(db, "i", FINAL) && !Completes(st, "i", FINAL)
  {
    UuidsOf();
    var num :| Rel(db, st, num);
    assert !OthersDone(st.rows, "i", ["a", "b"], "a");
    hide Rel;
    hide Inv;
    hide MayRespond;
    hide Finishes;
    hide Open;
    hide Uuids;
    hide CommandOf;
    CompletesSameExact(db, st, num, "i", FINAL);
  }

  // Such tables exist.
  lemma RepeatedTables() returns (dbs: seq<DB>)
    ensures TablesRun(Stored2(0) + [RespondOp("i", FINAL)], dbs)
  {
    var db1 := Stored(EMPTY, Some(Two(["i"], 0, 0)), 1);
    dbs := [EMPTY, db1, Responded(db1, "i", FINAL)];
  }

  /* ---- A refused command ---- */

  const NO_ORDER: seq<seq<string>> := [[]]
  const REFUSAL: seq<seq<bool>> := [[false]]

  // The server refuses the first of two commands, so the second is not offered;
  // the step stays stored as if both were on their way.
  lemma RefusedRun()
    ensures var ops := Stored2(0);
            && Admissible(ops) && Outbox.AreOrders(ops, NO_ORDER) && Outbox.AllAnswers(ops, NO_ORDER, REFUSAL)
            && Live(Run(ops), "s", "i") && "s" in Run(ops).origin
            && !Delayed(Run(ops), "s") && Sends(ops, Unsent, "s") == 0
            && Outbox.OfStep(Outbox.Arrived(ops, NO_ORDER, REFUSAL), "s")
               != Engine.Messages(Run(ops).origin["s"].ids, Run(ops).origin["s"].commands)
  {
    hide Inv;
    hide Store;
    hide Accepts;
    hide Fresh;
    hide Uuids;
    hide CommandOf;
    var cfg := Two(["i"], 0, 0);
    OneStore("s", cfg, 1);
    FirstStored("s", cfg, 1);
    UuidsOf();
    var ops := Stored2(0);
    assert ops[..0] == [] && NO_ORDER[..0] == [] && REFUSAL[..0] == [];
    FreshLive(Run(ops), "s", cfg);
    OfferedTwo(ops[0]);
    hide Live;
    Outbox.ArrivesExact(ops, NO_ORDER, REFUSAL, "s");
  }

  lemma OfferedTwo(op: Op)
    requires op == StoreOp("s", Some(Two(["i"], 0, 0)), 1)
    ensures Outbox.AreAnswers(Init, op, [], [false])
    ensures Outbox.Refuses(Outbox.SentBy(Init, op, []), [false], "s")
  {
    FirstStored("s", Two(["i"], 0, 0), 1);
    hide Accepts;
    assert Outbox.SentBy(Init, op, [])[0].0 == "s";
  }

  /* ---- A delayed step that was released ---- */

  function Delay(timeout: Time): StepEnqueuingWithConfig {
    One(["i"], A, 5, timeout)
  }

  function DelayedStored(timeout: Time): seq<Op> {
    [StoreOp("s", Some(Delay(timeout)), 1)]
  }

  lemma DelayedRun(timeout: Time)
    ensures var ops := DelayedStored(timeout);
            && Admissible(ops) && AllTogether(ops) && Inv(Run(ops)) && Delayed(Run(ops), "s")
            && Run(ops).steps == map["s" := NewStep(Delay(timeout))] && Run(ops).origin == map["s" := Delay(timeout)]
  {
    OneStore("s", Delay(timeout), 1);
    FirstStored("s", Delay(timeout), 1);
    hide Store;
  }

  lemma ReleasedRun()
    ensures var ops := DelayedStored(10) + [ReleaseOp(5, 6)];
            && Admissible(ops) && AllTogether(ops) && Expired(Run(ops), "s", 10) && WasReleased(Run(ops), "s")
  {
    hide Run;
    hide Admissible;
    hide AllTogether;
    hide Release;
    DelayedRun(10);
    Snoc(DelayedStored(10), ReleaseOp(5, 6));
    ReleasedState(Run(DelayedStored(10)));
  }

  lemma ReleasedState(st: State)
    requires st.steps == map["s" := NewStep(Delay(10))] && st.origin == map["s" := Delay(10)]
    ensures Expired(Release(st, 5, 6), "s", 10) && WasReleased(Release(st, 5, 6), "s")
  {
  }

  // It expires and the tables do not time it out.
  lemma ReleasedNeverOverdue(dbs: seq<DB>)
    requires TablesRun(DelayedStored(10) + [ReleaseOp(5, 6)], dbs)
    ensures var st := Run(DelayedStored(10) + [ReleaseOp(5, 6)]);
            && Related(dbs[2], st)
            && forall num :: Rel(dbs[2], st, num) ==>
                 !SameGone(st, num, Tracker.ExpiredSteps(st, 10), OverdueSteps(dbs[2], 10))
  {
    var ops := DelayedStored(10) + [ReleaseOp(5, 6)];
    ReleasedRun();
    RunKeepsInv(ops);
    RunsRelated(ops, dbs);
    hide Run;
    hide Admissible;
    hide AllTogether;
    hide TablesRun;
    hide Rel;
    hide Inv;
    hide SameGone;
    hide Expired;
    hide WasReleased;
    forall num | Rel(dbs[2], Run(ops), num)
      ensures !SameGone(Run(ops), num, Tracker.ExpiredSteps(Run(ops), 10), OverdueSteps(dbs[2], 10))
    {
      OverdueExact(dbs[2], Run(ops), num, 10);
    }
  }

  lemma ReleasedTablesRun() returns (dbs: seq<DB>)
    ensures TablesRun(DelayedStored(10) + [ReleaseOp(5, 6)], dbs)
  {
    var db1 := Stored(EMPTY, Some(Delay(10)), 1);
    dbs := [EMPTY, db1, ReleasedTables(db1, 6, "p", 6)];
    assert FreshProcess(db1, "p");
  }

  /* ---- A delayed step of two commands ---- */

  function DelayedTwo(): seq<Op> {
    [StoreOp("s", Some(Two(["i"], 5, 0)), 1)]
  }

  // A release hands out its enrollment twice.
  lemma DelayedTwoRun(db: DB, num: Numbering, se: StepEnqueueing)
    requires Rel(db, Run(DelayedTwo()), num) && "s" in num && EnqueuedAs(db, num["s"], se)
    ensures Admissible(DelayedTwo()) && AllTogether(DelayedTwo()) && Delayed(Run(DelayedTwo()), "s")
    ensures "s" in Run(DelayedTwo()).origin && multiset(se.ids) != multiset(Run(DelayedTwo()).origin["s"].ids)
  {
    OneStore("s", Two(["i"], 5, 0), 1);
    FirstStored("s", Two(["i"], 5, 0), 1);
    hide Store;
    hide Rel;
    hide EnqueuedAs;
    EnqueuedExact(db, Run(DelayedTwo()), num, "s", se);
  }

  // Such tables exist.
  lemma DelayedTwoTables() returns (dbs: seq<DB>, num: Numbering)
    ensures TablesRun(DelayedTwo(), dbs) && Rel(dbs[1], Run(DelayedTwo()), num) && "s" in num
  {
    hide Rel;
    hide Inv;
    hide Fresh;
    hide Store;
    hide Stored;
    hide Accepts;
    hide MayStore;
    var db1 := Stored(EMPTY, Some(Two(["i"], 5, 0)), 1);
    dbs := [EMPTY, db1];
    OneStore("s", Two(["i"], 5, 0), 1);
    FirstStored("s", Two(["i"], 5, 0), 1);
    StoreStepOf(EMPTY, DelayedTwo()[0], db1);
    hide TablesStep;
    RunsRelated(DelayedTwo(), dbs);
    num :| Rel(dbs[1], Run(DelayedTwo()), num);
    NumbersStored(dbs[1], Run(DelayedTwo()), num);
  }

  lemma NumbersStored(db: DB, st: State, num: Numbering)
    requires Rel(db, st, num)
    ensures forall s :: s in st.steps ==> s in num
  {
  }

  /* ---- A final response before the release ---- */

  // Nobody else has the step. The tracker completes it, and the tables lose the
  // response.
  lemma LostResponseRun(dbs: seq<DB>)
    requires TablesRun(DelayedStored(0), dbs)
    ensures var ops := DelayedStored(0);
            && Admissible(ops) && AllTogether(ops) && CompletesEarly(Run(ops), "i", FINAL)
            && RespondOutcome(Run(ops), "i", FINAL).Completed? && Finishes(dbs[1], "i", FINAL)
            && Responded(dbs[1], "i", FINAL) == dbs[1]
  {
    var ops := DelayedStored(0);
    OneStore("s", Delay(0), 1);
    FirstStored("s", Delay(0), 1);
    hide Store;
    hide Rel;
    hide Inv;
    hide TablesStep;
    RunsRelated(ops, dbs);
    hide Admissible;
    hide AllTogether;
    hide TablesRun;
    LostState(dbs[1], Run(ops));
  }

  lemma LostState(db: DB, st: State)
    requires Inv(st) && Related(db, st)
    requires st.steps == map["s" := NewStep(Delay(0))] && st.origin == map["s" := Delay(0)]
    requires forall i, u :: i in ["i"] && u in Uuids([A]) ==> Fresh(st, "s", Delay(0), i, u)
    ensures CompletesEarly(st, "i", FINAL) && RespondOutcome(st, "i", FINAL).Completed?
    ensures Finishes(db, "i", FINAL) && Responded(db, "i", FINAL) == db
  {
    UuidsOf();
    hide Inv;
    hide Rel;
    hide Uuids;
    hide CommandOf;
    hide Finishes;
    hide Responded;
    hide Removed;
    hide FinishedJoin;
    assert "i" in ["i"] && "a" in ["a"];
    assert Fresh(st, "s", Delay(0), "i", "a");
    assert CompletesEarly(st, "i", FINAL);
    hide RespondOutcome;
    hide CompletesEarly;
    var num :| Rel(db, st, num);
    EarlyTablesExact(db, st, num, "i", FINAL);
  }

  // Such tables exist.
  lemma LostTables() returns (dbs: seq<DB>)
    ensures TablesRun(DelayedStored(0), dbs)
  {
    dbs := [EMPTY, Stored(EMPTY, Some(Delay(0)), 1)];
  }

  /* ---- An expired delayed step ---- */

  // Timing it out leaves its raw command behind.
  lemma StrayRun()
    ensures var ops := DelayedStored(3);
            && Admissible(ops) && Expired(Run(ops), "s", 4)
            && exists k :: k in TimeOut(Run(ops), 4).rows && Run(ops).rows[k].stepID == "s"
  {
    DelayedRun(3);
    StraysExact(Run(DelayedStored(3)), 4, "s");
  }

  /* ---- A step of two enrollments ---- */

  function Shared2(notUntil: Time): seq<Op> {
    [StoreOp("s", Some(One(["i", "j"], A, notUntil, 0)), 1)]
  }

  // Cancelling it for one of them ends it for the other, whose row stays.
  lemma SharedCancelRun()
    ensures var st := Run(Shared2(0));
            && Admissible(Shared2(0)) && Live(st, "s", "j") && !Live(Cancel(st, "i", "w"), "s", "j")
            && exists k :: k in Cancel(st, "i", "w").rows && k in st.rows && st.rows[k].stepID == "s"
  {
    var cfg := One(["i", "j"], A, 0, 0);
    OneStore("s", cfg, 1);
    FirstStored("s", cfg, 1);
    hide Store;
    hide Inv;
    hide Run;
    hide Admissible;
    hide AllTogether;
    hide Live;
    hide Cancel;
    SharedState(Run(Shared2(0)));
  }

  lemma SharedState(st: State)
    requires Inv(st)
    requires st.steps == map["s" := NewStep(One(["i", "j"], A, 0, 0))]
    requires forall i, u :: i in ["i", "j"] && u in Uuids([A]) ==> Fresh(st, "s", One(["i", "j"], A, 0, 0), i, u)
    ensures Live(st, "s", "j") && !Live(Cancel(st, "i", "w"), "s", "j")
    ensures exists k :: k in Cancel(st, "i", "w").rows && k in st.rows && st.rows[k].stepID == "s"
  {
    UuidsOf();
    hide Inv;
    hide Uuids;
    hide CommandOf;
    assert "j" in ["i", "j"] && "a" in ["a"];
    assert Fresh(st, "s", One(["i", "j"], A, 0, 0), "j", "a");
    assert Live(st, "s", "j");
    assert Matches(st, "s", "i", "w");
    hide Fresh;
    hide Live;
    StraysOnCancelExact(st, "s", "i", "w");
    CancelEnds(st);
  }

  lemma CancelEnds(st: State)
    requires Matches(st, "s", "i", "w")
    ensures !Live(Cancel(st, "i", "w"), "s", "j")
  {
  }

  // A final answer that completes it before its release breaks the invariant.
  lemma EarlyRun()
    ensures var st := Run(Shared2(5));
            && Admissible(Shared2(5)) && "i" !in st.origin && CompletesEarly(st, "i", FINAL)
            && !Inv(Respond(st, "i", FINAL))
  {
    var cfg := One(["i", "j"], A, 5, 0);
    OneStore("s", cfg, 1);
    FirstStored("s", cfg, 1);
    hide Store;
    hide Inv;
    hide Respond;
    hide CompletesEarly;
    hide Admissible;
    hide AllTogether;
    EarlyState(Run(Shared2(5)));
  }

  lemma EarlyState(st: State)
    requires Inv(st)
    requires st.steps == map["s" := NewStep(One(["i", "j"], A, 5, 0))]
             && st.origin == map["s" := One(["i", "j"], A, 5, 0)]
    requires forall i, u :: i in ["i", "j"] && u in Uuids([A]) ==> Fresh(st, "s", One(["i", "j"], A, 5, 0), i, u)
    ensures "i" !in st.origin && CompletesEarly(st, "i", FINAL) && !Inv(Respond(st, "i", FINAL))
  {
    UuidsOf();
    hide Inv;
    hide Respond;
    hide Uuids;
    hide CommandOf;
    assert "i" in ["i", "j"] && "a" in ["a"];
    assert Fresh(st, "s", One(["i", "j"], A, 5, 0), "i", "a");
    assert CompletesEarly(st, "i", FINAL) && "j" in st.steps["s"].ids;
    EarlyCompletionExact(st, "i", FINAL);
  }

  /* ---- Two steps of one enrollment ---- */

  const FIRST := StoreOp("s", Some(One(["i"], A, 0, 10)), 1)
  const SECOND := StoreOp("t", Some(One(["i"], C, 0, 10)), 1)

  lemma SecondStored(st: State)
    requires Inv(st) && st == Store(Init, "s", FIRST.cfg, 1)
    ensures May(st, SECOND) && Together(st, SECOND) && Accepts(st, SECOND.cfg)
  {
    FirstStored("s", One(["i"], A, 0, 10), 1);
    SampleOK(One(["i"], C, 0, 10));
    UuidsOf();
    hide Store;
    hide Uuids;
    hide CommandOf;
    hide Inv;
    hide ConfigOK;
    SecondAccepted(st);
    SecondFresh(st);
  }

  lemma SecondAccepted(st: State)
    requires Uuids([C]) == ["c"]
    requires forall k :: k in st.rows ==> k.uuid == "a"
    ensures Accepts(st, SECOND.cfg)
  {
    hide Uuids;
    hide CommandOf;
  }

  lemma SecondFresh(st: State)
    requires Uuids([A]) == ["a"] && Uuids([C]) == ["c"] && st.origin == map["s" := One(["i"], A, 0, 10)]
    ensures FreshStepID(st, "t", SECOND.cfg.value) && FreshUuids(st, SECOND.cfg.value) && RawPresent(SECOND.cfg.value)
    ensures Together(st, SECOND)
  {
    hide Uuids;
    hide CommandOf;
  }

  // Both are live, and both have expired.
  lemma TwoStepsRun()
    ensures var st := Run([FIRST] + [SECOND]);
            && Admissible([FIRST] + [SECOND]) && AllTogether([FIRST] + [SECOND]) && Inv(st) && "i" !in st.origin
            && Overdue(st, 10, "s", "i") && Overdue(st, 10, "t", "i") && !SoleOverdue(st, 10, "s", "i")
            && Exclusive.LiveOf(st, "s", "i", "w") && Exclusive.LiveOf(st, "t", "i", "w")
  {
    OneStore("s", One(["i"], A, 0, 10), 1);
    FirstStored("s", One(["i"], A, 0, 10), 1);
    SecondStored(Run([FIRST]));
    Snoc([FIRST], SECOND);
    var mid := Run([FIRST]);
    var st := Run([FIRST] + [SECOND]);
    hide Run;
    hide Store;
    hide Accepts;
    hide Admissible;
    hide AllTogether;
    StoreKeepsInv(mid, "t", SECOND.cfg, 1);
    SecondLive(mid, st);
  }

  lemma SecondLive(mid: State, st: State)
    requires Inv(mid) && mid.steps == map["s" := NewStep(One(["i"], A, 0, 10))]
             && mid.origin == map["s" := One(["i"], A, 0, 10)]
    requires May(mid, SECOND) && Accepts(mid, SECOND.cfg) && st == Next(mid, SECOND)
    ensures "i" !in st.origin
    ensures Overdue(st, 10, "s", "i") && Overdue(st, 10, "t", "i") && !SoleOverdue(st, 10, "s", "i")
    ensures Exclusive.LiveOf(st, "s", "i", "w") && Exclusive.LiveOf(st, "t", "i", "w")
  {
    StepStays(mid, st);
    OnlyLive(mid);
    Exclusive.StaysLive(mid, SECOND, "s", "w", "i");
    Exclusive.StoredLive(mid, SECOND, "w", "i");
    hide Inv;
    hide May;
    hide Accepts;
    hide Next;
    hide Live;
    assert Overdue(st, 10, "t", "i");
  }

  lemma OnlyLive(st: State)
    requires Inv(st) && st.steps == map["s" := NewStep(One(["i"], A, 0, 10))]
    ensures Exclusive.LiveOf(st, "s", "i", "w")
  {
    assert StepOK(st, "s");
    hide Inv;
  }

  lemma StepStays(mid: State, st: State)
    requires mid.steps == map["s" := NewStep(One(["i"], A, 0, 10))] && mid.origin == map["s" := One(["i"], A, 0, 10)]
    requires Accepts(mid, SECOND.cfg) && st == Next(mid, SECOND)
    ensures st.origin == map["s" := One(["i"], A, 0, 10), "t" := One(["i"], C, 0, 10)]
    ensures st.steps == map["s" := NewStep(One(["i"], A, 0, 10)), "t" := NewStep(One(["i"], C, 0, 10))]
  {
    hide Accepts;
  }

  // The tables hand out both under the context of one.
  lemma GroupedTogether(db: DB, num: Numbering, listed: seq<CmdKey>, sr: StepResult)
    requires Rel(db, Run([FIRST] + [SECOND]), num)
    requires Distinct(listed) && Ordered(db.idCommands, listed)
    requires forall c :: c in listed <==> c in OverdueCommands(db, 10)
    requires GroupedAs(db, Own(listed, "i"), "i", sr)
    ensures var st := Run([FIRST] + [SECOND]);
            && Overdue(st, 10, "s", "i") && (forall c :: c in KeySeq("i", st.steps["s"].uuids) ==> c in db.idCommands)
            && !(sr.ctx == st.steps["s"].ctx
                 && multiset(sr.commands) == multiset(Details(db.idCommands, KeySeq("i", st.steps["s"].uuids))))
  {
    TwoStepsRun();
    hide Run;
    hide Rel;
    hide Inv;
    hide Ordered;
    hide OverdueCommands;
    hide GroupedAs;
    hide Overdue;
    hide SoleOverdue;
    GroupingExact(db, Run([FIRST] + [SECOND]), num, 10, listed, "i", sr, "s");
  }

  // Such tables exist.
  lemma GroupedTables() returns (dbs: seq<DB>, num: Numbering)
    ensures TablesRun([FIRST] + [SECOND], dbs) && Rel(dbs[2], Run([FIRST] + [SECOND]), num)
  {
    hide Rel;
    hide Run;
    hide Inv;
    hide Stored;
    hide Admissible;
    hide AllTogether;
    hide Overdue;
    hide SoleOverdue;
    hide Exclusive.LiveOf;
    var db1 := Stored(EMPTY, FIRST.cfg, 1);
    var db2 := Stored(db1, SECOND.cfg, 1);
    dbs := [EMPTY, db1, db2];
    TwoStepsRun();
    StoreStepOf(EMPTY, FIRST, db1);
    StoreStepOf(db1, SECOND, db2);
    hide TablesStep;
    RunsRelated([FIRST] + [SECOND], dbs);
    num :| Rel(dbs[2], Run([FIRST] + [SECOND]), num);
  }

  // A workflow that is told of an event enqueues without a check: with one step
  // live, a second one for the same enrollment breaks exclusivity.
  lemma EventRun()
    ensures var st := Next(Init, FIRST);
            && Inv(st) && Exclusive.Sole(st, "w") && May(st, SECOND) && Accepts(st, SECOND.cfg)
            && Exclusive.CalledBack(st, Exclusive.Event("w", "i"), "w", "i") && Exclusive.Enqueues(SECOND, "w", "i")
            && !Exclusive.Sole(Next(st, SECOND), "w")
  {
    hide Inv;
    hide Store;
    hide Accepts;
    hide Exclusive.Sole;
    hide Exclusive.LiveOf;
    hide MayStore;
    hide Together;
    hide Fresh;
    InitInv();
    FirstStored("s", One(["i"], A, 0, 10), 1);
    StoreKeepsInv(Init, "s", FIRST.cfg, 1);
    var st := Next(Init, FIRST);
    SecondStored(st);
    BothAllowed();
    OnlyLive(st);
    AllFree();
    assert Exclusive.Enqueues(SECOND, "w", "i");
    Exclusive.EventExact(Init, FIRST, "w");
    Exclusive.EventExact(st, SECOND, "w");
  }

  // The check of each may have seen nothing of the other.
  lemma RaceRun()
    ensures Inv(Init) && Exclusive.Sole(Init, "w")
    ensures Exclusive.Allowed(Init, FIRST, "w", ["i"]) && Exclusive.Allowed(Init, SECOND, "w", ["i"])
    ensures May(Init, FIRST) && Accepts(Init, FIRST.cfg)
    ensures May(Next(Init, FIRST), SECOND) && Accepts(Next(Init, FIRST), SECOND.cfg)
    ensures !Exclusive.Sole(Next(Next(Init, FIRST), SECOND), "w")
  {
    InitInv();
    FirstStored("s", One(["i"], A, 0, 10), 1);
    StoreKeepsInv(Init, "s", FIRST.cfg, 1);
    SecondStored(Next(Init, FIRST));
    BothAllowed();
    hide Inv;
    hide Accepts;
    hide Store;
    hide Exclusive.Sole;
    assert Exclusive.Enqueues(FIRST, "w", "i") && Exclusive.Enqueues(SECOND, "w", "i");
    Exclusive.RaceExact(Init, FIRST, ["i"], SECOND, ["i"], Init, "w");
  }

  lemma AllFree()
    ensures forall i :: Exclusive.Free(Init, "w", i)
  {
  }

  lemma BothAllowed()
    ensures Exclusive.Sole(Init, "w")
    ensures Exclusive.Allowed(Init, FIRST, "w", ["i"]) && Exclusive.Allowed(Init, SECOND, "w", ["i"])
  {
  }

  /* ---- A NotNow before a timeout ---- */

  // Its report is known to the tracker and not to the tables.
  lemma ReportedRun()
    ensures var ops := Stored2(10) + [RespondOp("i", LATE)];
            && Admissible(ops) && AllTogether(ops) && Overdue(Run(ops), 10, "s", "i") && !Unreported(Run(ops), "s", "i")
  {
    var ops := Stored2(10) + [RespondOp("i", LATE)];
    AnsweredRun(10, LATE);
    hide Run;
    hide Admissible;
    hide AllTogether;
    ReportedState(Run(ops));
  }

  lemma ReportedState(st: State)
    requires st.steps == map["s" := NewStep(Two(["i"], 0, 10))] && st.origin == map["s" := Two(["i"], 0, 10)]
    requires Fresh(st, "s", Two(["i"], 0, 10), "i", "b") && CmdKey("i", "a") in st.rows
    requires !st.rows[CmdKey("i", "a")].done && st.rows[CmdKey("i", "a")].result == Some("Y")
    ensures Overdue(st, 10, "s", "i") && !Unreported(st, "s", "i")
  {
    UuidsOf();
    hide Uuids;
    hide CommandOf;
    assert st.steps["s"].uuids == ["a", "b"];
    assert Live(st, "s", "i");
    assert !NoReport(st.rows[CmdKey("i", "a")]) && "a" in st.steps["s"].uuids;
  }
}
