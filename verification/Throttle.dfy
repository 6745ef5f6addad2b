/**
 Idle throttling: an idle event starts a subscribed workflow only if it has not
 been started for the configured number of seconds.
 */
module Throttle {
  import opened Wrappers
  import opened Text
  import opened Records
  import opened KVStore
  import opened KVStatus
  import opened KVEvents
  import MySQLStore

  const TWO_TO_64 := 0x1_0000_0000_0000_0000

  // 64-bit signed arithmetic wraps around.
  function Wrap64(n: int): int {
    (n - MIN_INT) % TWO_TO_64 + MIN_INT
  }

  // A number of seconds as a duration.
  function Wait(seconds: int): Time {
    Wrap64(SECOND * seconds)
  }

  // A duration holds the seconds exactly when there are not too many of them.
  lemma WaitExact(seconds: int)
    requires MIN_INT <= seconds <= MAX_INT
    ensures Wait(seconds) == SECOND * seconds <==> MIN_INT <= SECOND * seconds <= MAX_INT
  {
  }

  // The seconds that a subscription's event context asks for.
  function SinceSeconds(eventContext: string): Option<int> {
    if eventContext == "" then None
    else
      match Atoi(eventContext)
      case None => None
      case Some(n) => if n < 1 then None else Some(n)
  }

  ghost predicate Due(started: Time, eventContext: string, eventAt: Time) {
    SinceSeconds(eventContext).Some? && eventAt > started + Wait(SinceSeconds(eventContext).value)
  }

  lemma SinceExact(eventContext: string)
    ensures SinceSeconds(eventContext).Some? <==> Atoi(eventContext).Some? && Atoi(eventContext).value >= 1
    ensures SinceSeconds(eventContext).Some? ==> SinceSeconds(eventContext) == Atoi(eventContext)
  {
  }

  // The event context has to be a number of at least one second; leading zeros
  // and a plus sign make no difference.
  lemma DueExact(started: Time, eventContext: string, eventAt: Time)
    ensures Due(started, eventContext, eventAt)
            <==> Atoi(eventContext).Some? && Atoi(eventContext).value >= 1
                 && eventAt - started > Wait(Atoi(eventContext).value)
  {
  }

  // Whether an idle event is to start the subscribed workflow.
  method IdleNotStartedSince(storage: KV, id: string, es: Subscription, eventAt: Time) returns (due: bool)
    requires storage.Valid()
    ensures due <==> Due(LastStart(storage.starts, id, es.workflow), es.eventContext, eventAt)
  {
    hide Atoi;
    var started := storage.RetrieveWorkflowStarted(id, es.workflow);
    if es.eventContext == "" {
      return false;
    }
    var sinceSeconds := Atoi(es.eventContext);
    if sinceSeconds.None? || sinceSeconds.value < 1 {
      return false;
    }
    due := eventAt > started.value + Wait(sinceSeconds.value);
  }

  /* ---- Over runs ---- */

  // What happens to start times: an idle event of the enrollment, whose start may
  // fail; starts for other reasons; and check-ins that clear an enrollment's.
  datatype Happening =
    | IdleAt(eventAt: Time, now: Time, works: bool)
    | StartAt(ids: seq<string>, workflow: string, now: Time)
    | ClearAt(id: string, now: Time)

  // How a backend keeps one enrollment's start of one workflow: the time that it
  // gives back, and which other starts and clears concern it.
  datatype Keeping = Keeping(keep: Time -> Time, sets: (seq<string>, string) -> bool, hit: string -> bool)

  // The start time as it is kept, and when idle events started the workflow
  // since it was last cleared.
  datatype Tally = Tally(kept: Time, idle: seq<Time>)

  ghost function Happened(s: Tally, h: Happening, eventContext: string, k: Keeping): Tally {
    match h
    case IdleAt(eventAt, now, works) =>
      if works && Due(s.kept, eventContext, eventAt) then Tally(k.keep(now), s.idle + [now]) else s
    case StartAt(ids, workflow, now) => if k.sets(ids, workflow) then s.(kept := k.keep(now)) else s
    case ClearAt(id, _) => if k.hit(id) then Tally(0, []) else s
  }

  ghost function After(hs: seq<Happening>, eventContext: string, k: Keeping): Tally {
    if hs == [] then Tally(0, [])
    else Happened(After(hs[..|hs| - 1], eventContext, k), hs[|hs| - 1], eventContext, k)
  }

  ghost function KeptInBuckets(id: string, workflow: string): Keeping {
    Keeping(t => t, (ids, w) => exists i :: i in ids && Shared(i, w, id, workflow), i => Hits(i, id, workflow))
  }

  // The key-value backend's start times along the same run, where an idle event
  // starts the workflow as IdleNotStartedSince says.
  ghost function StartsAfter(hs: seq<Happening>, eventContext: string, id: string, workflow: string): Starts {
    if hs == [] then map[]
    else
      var starts := StartsAfter(hs[..|hs| - 1], eventContext, id, workflow);
      match hs[|hs| - 1]
      case IdleAt(eventAt, now, works) =>
        if works && Due(LastStart(starts, id, workflow), eventContext, eventAt)
        then WithStart(starts, [id], workflow, now) else starts
      case StartAt(ids, w, now) => WithStart(starts, ids, w, now)
      case ClearAt(i, _) => Unprefixed(starts, i + ".")
  }

  lemma {:induction false} KeptIsLastStart(hs: seq<Happening>, eventContext: string, id: string, workflow: string)
    ensures After(hs, eventContext, KeptInBuckets(id, workflow)).kept
            == LastStart(StartsAfter(hs, eventContext, id, workflow), id, workflow)
  {
    if hs != [] {
      var past := hs[..|hs| - 1];
      var starts := StartsAfter(past, eventContext, id, workflow);
      KeptIsLastStart(past, eventContext, id, workflow);
      hide Due;
      hide Shared;
      hide Hits;
      hide LastStart;
      hide WithStart;
      hide Unprefixed;
      match hs[|hs| - 1]
      case IdleAt(_, now, _) =>
        WithStartExact(starts, [id], workflow, now, id, workflow);
        SharedOwn(id, workflow);
      case StartAt(ids, w, now) => WithStartExact(starts, ids, w, now, id, workflow);
      case ClearAt(i, _) => ClearedExact(starts, i, id, workflow);
    }
  }

  lemma SharedOwn(id: string, workflow: string)
    ensures Shared(id, workflow, id, workflow) && id in [id]
  {
  }

  ghost function KeptInTables(id: string, workflow: string): Keeping {
    Keeping(t => MySQLStore.WholeSeconds(t), (ids, w) => id in ids && w == workflow, i => i == id)
  }

  // The MySQL backend's start times along the run.
  ghost function StatusAfter(hs: seq<Happening>, eventContext: string, id: string, workflow: string)
    : MySQLStore.Statuses
  {
    if hs == [] then map[]
    else
      var status := StatusAfter(hs[..|hs| - 1], eventContext, id, workflow);
      match hs[|hs| - 1]
      case IdleAt(eventAt, now, works) =>
        if works && Due(MySQLStore.StartedOf(status, id, workflow), eventContext, eventAt)
        then MySQLStore.WithStarted(status, [id], workflow, now) else status
      case StartAt(ids, w, now) => MySQLStore.WithStarted(status, ids, w, now)
      case ClearAt(i, _) => MySQLStore.ClearedOf(status, i)
  }

  lemma {:induction false} KeptIsStartedOf(hs: seq<Happening>, eventContext: string, id: string, workflow: string)
    ensures After(hs, eventContext, KeptInTables(id, workflow)).kept
            == MySQLStore.StartedOf(StatusAfter(hs, eventContext, id, workflow), id, workflow)
  {
    if hs != [] {
      KeptIsStartedOf(hs[..|hs| - 1], eventContext, id, workflow);
      hide Due;
    }
  }

  // One after the other: the clock does not go back, and a start is recorded
  // after its event.
  ghost predicate Sequential(hs: seq<Happening>) {
    && (forall m :: 0 <= m < |hs| && hs[m].IdleAt? ==> hs[m].eventAt <= hs[m].now)
    && forall m, n :: 0 <= m < n < |hs| ==> hs[m].now <= hs[n].now
  }

  // Storage keeps a start time no later than it was, and less than slack early.
  ghost predicate KeepsWithin(keep: Time -> Time, slack: Time) {
    forall t :: t - slack <= keep(t) <= t
  }

  ghost predicate SpacedBy(times: seq<Time>, gap: Time) {
    forall a, b :: 0 <= a < b < |times| ==> times[b] - times[a] > gap
  }

  lemma {:induction false} SpacedSoFar(hs: seq<Happening>, eventContext: string, k: Keeping, slack: Time)
    requires Sequential(hs) && KeepsWithin(k.keep, slack) && SinceSeconds(eventContext).Some?
    requires SECOND * SinceSeconds(eventContext).value <= MAX_INT && 0 <= slack < SECOND
    ensures var s := After(hs, eventContext, k);
            && SpacedBy(s.idle, SECOND * SinceSeconds(eventContext).value - slack)
            && (forall m :: 0 <= m < |s.idle| ==>
                  s.idle[m] <= s.kept + slack && exists n :: 0 <= n < |hs| && s.idle[m] <= hs[n].now)
  {
    if hs != [] {
      var past := hs[..|hs| - 1];
      var h := hs[|hs| - 1];
      SpacedSoFar(past, eventContext, k, slack);
      SecondsFit(eventContext);
      WaitExact(SinceSeconds(eventContext).value);
      hide Wait;
      hide SinceSeconds;
      var before := After(past, eventContext, k);
      var s := After(hs, eventContext, k);
      forall m | 0 <= m < |before.idle|
        ensures before.idle[m] <= h.now && exists n :: 0 <= n < |hs| && before.idle[m] <= hs[n].now
      {
        var n :| 0 <= n < |past| && before.idle[m] <= past[n].now;
        assert hs[n] == past[n];
      }
      assert k.keep(h.now) >= h.now - slack;
      assert hs[|hs| - 1] == h;
    }
  }

  lemma SecondsFit(eventContext: string)
    ensures SinceSeconds(eventContext).Some? ==> 1 <= SinceSeconds(eventContext).value <= MAX_INT
  {
  }

  // Two idle events, the second as early as the wait that fits allows.
  function TwoEvents(seconds: int): seq<Happening> {
    var gap := if Wait(seconds) > 0 then Wait(seconds) + 1 else 1;
    [IdleAt(gap, gap, true), IdleAt(gap + gap, gap + gap, true)]
  }

  // They both start the workflow, and no further apart than that.
  lemma TwoStarts(eventContext: string, k: Keeping, slack: Time)
    requires KeepsWithin(k.keep, slack) && SinceSeconds(eventContext).Some?
    ensures var hs := TwoEvents(SinceSeconds(eventContext).value);
            Sequential(hs) && After(hs, eventContext, k).idle == [hs[0].now, hs[1].now]
  {
    var hs := TwoEvents(SinceSeconds(eventContext).value);
    assert hs[..1] == [hs[0]] && hs[..1][..0] == [];
    var first := After(hs[..1], eventContext, k);
    assert first == Happened(After([], eventContext, k), hs[0], eventContext, k);
    assert k.keep(hs[0].now) <= hs[0].now;
    hide Wait;
    hide SinceSeconds;
  }

  // When the seconds do not fit, the wait falls short of them by far.
  lemma ShortWait(seconds: int)
    requires 1 <= seconds <= MAX_INT && SECOND * seconds > MAX_INT
    ensures TwoEvents(seconds)[1].now - TwoEvents(seconds)[0].now <= SECOND * seconds - SECOND
  {
  }

  // Successive idle-driven starts, with no clear between them, are more than the
  // configured seconds apart, in every run, exactly if the seconds fit a 64-bit
  // duration. Start times are kept exactly, as the key-value storage does.
  lemma IdleStartsSpacedExact(id: string, workflow: string, eventContext: string)
    requires Atoi(eventContext).Some? && Atoi(eventContext).value >= 1
    ensures var gap := SECOND * Atoi(eventContext).value;
            (forall hs :: Sequential(hs) ==>
               SpacedBy(After(hs, eventContext, KeptInBuckets(id, workflow)).idle, gap))
            <==> gap <= MAX_INT
  {
    SinceExact(eventContext);
    SpacedExact(eventContext, KeptInBuckets(id, workflow), 0);
  }

  // With whole-second start times they may come closer, by less than a second,
  // under the same condition.
  lemma IdleStartsSpacedMySQLExact(id: string, workflow: string, eventContext: string)
    requires Atoi(eventContext).Some? && Atoi(eventContext).value >= 1
    ensures var gap := SECOND * Atoi(eventContext).value;
            (forall hs :: Sequential(hs) ==>
               SpacedBy(After(hs, eventContext, KeptInTables(id, workflow)).idle, gap - (SECOND - 1)))
            <==> gap <= MAX_INT
  {
    SinceExact(eventContext);
    var k := KeptInTables(id, workflow);
    forall t: Time ensures t - (SECOND - 1) <= k.keep(t) <= t {
      MySQLStore.WholeSecondsExact(t);
    }
    SpacedExact(eventContext, k, SECOND - 1);
  }

  // Any other event context never starts the workflow.
  lemma {:induction false} OtherwiseNever(hs: seq<Happening>, eventContext: string, k: Keeping)
    requires Atoi(eventContext).None? || Atoi(eventContext).value < 1
    ensures After(hs, eventContext, k).idle == []
  {
    if hs != [] {
      OtherwiseNever(hs[..|hs| - 1], eventContext, k);
      hide Atoi;
      hide Wait;
    }
  }

  lemma SpacedExact(eventContext: string, k: Keeping, slack: Time)
    requires SinceSeconds(eventContext).Some? && KeepsWithin(k.keep, slack) && 0 <= slack < SECOND
    ensures var gap := SECOND * SinceSeconds(eventContext).value;
            (forall hs :: Sequential(hs) ==> SpacedBy(After(hs, eventContext, k).idle, gap - slack))
            <==> gap <= MAX_INT
  {
    var seconds := SinceSeconds(eventContext).value;
    SecondsFit(eventContext);
    if SECOND * seconds <= MAX_INT {
      forall hs | Sequential(hs)
        ensures SpacedBy(After(hs, eventContext, k).idle, SECOND * seconds - slack)
      {
        SpacedSoFar(hs, eventContext, k, slack);
      }
    } else {
      var hs := TwoEvents(seconds);
      TwoStarts(eventContext, k, slack);
      ShortWait(seconds);
      hide After;
      hide Wait;
      hide SinceSeconds;
      var times := After(hs, eventContext, k).idle;
      assert times[1] - times[0] <= SECOND * seconds - SECOND;
      assert !SpacedBy(After(hs, eventContext, k).idle, SECOND * seconds - slack);
    }
  }
}
