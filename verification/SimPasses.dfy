/**
 The worker's passes and cancelling, on the MySQL tables and in the tracker:
 they keep the relation, or exactly when they do not.
 */
module SimPasses {
  import opened Wrappers
  import opened Records
  import opened Tracker
  import opened Invariant
  import opened Delivery
  import opened MySQL
  import opened MySQLWorker
  import opened MySQLStore
  import opened Simulation

  /* ---- Re-pushing ---- */

  lemma RePushKey(db: DB, st: State, num: Numbering, ifBefore: Time, setTo: Time, k: CmdKey)
    requires KeyRel(db, st, num, k) && ifBefore != 0
    ensures KeyRel(UpdateRePush(db, NullTime(setTo), NullTime(ifBefore)), RePush(st, ifBefore - 1, setTo), num, k)
    ensures k in db.idCommands ==>
              (LastPushBefore(db.idCommands[k], NullTime(ifBefore)) <==> Stale(st.rows[k], ifBefore - 1))
  {
  }

  lemma RePushRaw(db: DB, st: State, num: Numbering, ifBefore: Time, setTo: Time, s: string, u: string)
    requires RawRel(db, st, num, s, u)
    ensures RawRel(UpdateRePush(db, NullTime(setTo), NullTime(ifBefore)), RePush(st, ifBefore - 1, setTo), num, s, u)
  {
  }

  lemma RePushConsistent(db: DB, setTo: Time, ifBefore: Time)
    requires Consistent(db)
    ensures Consistent(UpdateRePush(db, NullTime(setTo), NullTime(ifBefore)))
  {
  }

  // One backend pushes what is older than the cutoff, the other what is as old
  // as the cutoff or older: they agree on cutoffs one instant apart.
  lemma RePushSimulates(db: DB, st: State, num: Numbering, ifBefore: Time, setTo: Time)
    requires Inv(st) && Rel(db, st, num) && ifBefore != 0
    ensures Rel(UpdateRePush(db, NullTime(setTo), NullTime(ifBefore)), RePush(st, ifBefore - 1, setTo), num)
    ensures RePushRows(db, NullTime(ifBefore)) == PushedIDs(st, ifBefore - 1)
  {
    var db' := UpdateRePush(db, NullTime(setTo), NullTime(ifBefore));
    var st' := RePush(st, ifBefore - 1, setTo);
    hide Inv;
    hide NumbersRel;
    hide StepsRel;
    hide RowsRel;
    hide RawsRel;
    hide Consistent;
    RePushConsistent(db, setTo, ifBefore);
    SameSteps(db, st, db', st', num);
    RePushedSame(db, st, num, ifBefore);
    hide RePush;
    hide UpdateRePush;
    hide KeyRel;
    hide RawRel;
    assert RowsRel(db', st', num) by {
      forall k ensures KeyRel(db', st', num, k) {
        KeyOfRows(db, st, num, k);
        RePushKey(db, st, num, ifBefore, setTo, k);
      }
      KeysAreRows(db', st', num);
    }
    assert RawsRel(db', st', num) by {
      forall s, u | s in st'.steps ensures RawRel(db', st', num, s, u) {
        RawOfRaws(db, st, num, s, u);
        RePushRaw(db, st, num, ifBefore, setTo, s, u);
      }
      RawsAll(db', st', num);
    }
  }

  lemma RePushedSame(db: DB, st: State, num: Numbering, ifBefore: Time)
    requires Inv(st) && RowsRel(db, st, num) && ifBefore != 0
    ensures RePushRows(db, NullTime(ifBefore)) == PushedIDs(st, ifBefore - 1)
  {
    hide Inv;
    hide RowsRel;
    hide KeyRel;
    hide Stale;
    hide LastPushBefore;
    forall k
      ensures k in db.idCommands && LastPushBefore(db.idCommands[k], NullTime(ifBefore))
              <==> k in st.rows && Stale(st.rows[k], ifBefore - 1)
    {
      KeyOfRows(db, st, num, k);
      StaleSame(db, st, num, ifBefore, k);
    }
  }

  // Raw commands are never stale: they have not been sent.
  lemma StaleSame(db: DB, st: State, num: Numbering, ifBefore: Time, k: CmdKey)
    requires Inv(st) && KeyRel(db, st, num, k) && ifBefore != 0
    ensures k in db.idCommands && LastPushBefore(db.idCommands[k], NullTime(ifBefore))
            <==> k in st.rows && Stale(st.rows[k], ifBefore - 1)
  {
    assert k in st.rows ==> RowOK(st, k);
    RePushKey(db, st, num, ifBefore, 0, k);
    hide Inv;
  }

  /* ---- Dropping steps ---- */

  ghost predicate DropsTables(db: DB, db': DB, gone: set<int>) {
    && db'.steps == db.steps - gone
    && db'.nextID == db.nextID
    && (forall k :: k in db'.idCommands <==> k in db.idCommands && db.idCommands[k].stepID !in gone)
    && (forall k :: k in db'.idCommands ==> db'.idCommands[k] == db.idCommands[k])
    && (forall p :: p in db'.stepCommands <==> p in db.stepCommands && p.1 !in gone)
    && (forall p :: p in db'.stepCommands ==> db'.stepCommands[p] == db.stepCommands[p])
  }

  // Some steps go, with all rows that enrollments have of them.
  ghost predicate DropsSteps(st: State, st': State, gone: set<string>) {
    && st'.origin == st.origin
    && st'.steps == st.steps - gone
    && (forall k :: k in st'.rows ==> k in st.rows && st'.rows[k] == st.rows[k])
    && (forall k :: k in st.rows && k.owner != st.rows[k].stepID ==> (k in st'.rows <==> st.rows[k].stepID !in gone))
    && (forall k :: k in st.rows && k.owner == st.rows[k].stepID ==> k in st'.rows)
  }

  ghost predicate SameGone(st: State, num: Numbering, gone: set<string>, numbers: set<int>) {
    && gone <= st.steps.Keys
    && (forall s :: s in st.steps ==> s in num && (s in gone <==> num[s] in numbers))
  }

  lemma DroppedKey(db: DB, st: State, db': DB, st': State, num: Numbering, gone: set<string>, numbers: set<int>,
                   k: CmdKey)
    requires KeyRel(db, st, num, k) && DropsTables(db, db', numbers) && DropsSteps(st, st', gone)
    requires SameGone(st, num, gone, numbers)
    ensures KeyRel(db', st', num, k)
  {
    hide RowRel;
  }

  lemma DroppedRaw(db: DB, st: State, db': DB, st': State, num: Numbering, gone: set<string>, numbers: set<int>,
                   s: string, u: string)
    requires RawRel(db, st, num, s, u) && DropsTables(db, db', numbers) && DropsSteps(st, st', gone)
    requires SameGone(st, num, gone, numbers) && s in st'.steps
    requires CmdKey(s, u) in st.rows && Delayed(st, s) && u in st.steps[s].uuids ==> st.rows[CmdKey(s, u)].stepID == s
    ensures RawRel(db', st', num, s, u)
  {
  }

  lemma DroppedSteps(db: DB, st: State, db': DB, st': State, num: Numbering, gone: set<string>, numbers: set<int>)
    requires Consistent(db) && NumbersRel(db, st, num) && StepsRel(db, st, num)
    requires DropsTables(db, db', numbers) && DropsSteps(st, st', gone) && SameGone(st, num, gone, numbers)
    ensures Consistent(db') && NumbersRel(db', st', num) && StepsRel(db', st', num)
  {
    forall n | n in db'.steps
      ensures exists s :: s in st'.steps && num[s] == n
    {
      var s :| s in st.steps && num[s] == n;
      assert s in st'.steps;
    }
  }

  lemma DropKeepsRel(db: DB, st: State, db': DB, st': State, num: Numbering, gone: set<string>, numbers: set<int>)
    requires Inv(st) && Rel(db, st, num)
    requires DropsTables(db, db', numbers) && DropsSteps(st, st', gone) && SameGone(st, num, gone, numbers)
    ensures Rel(db', st', num)
  {
    assert st'.steps == st.steps - gone;
    hide Inv;
    hide NumbersRel;
    hide StepsRel;
    hide RowsRel;
    hide RawsRel;
    hide Consistent;
    hide KeyRel;
    hide RawRel;
    hide DropsTables;
    hide DropsSteps;
    hide SameGone;
    DroppedSteps(db, st, db', st', num, gone, numbers);
    assert RowsRel(db', st', num) by {
      forall k ensures KeyRel(db', st', num, k) {
        KeyOfRows(db, st, num, k);
        DroppedKey(db, st, db', st', num, gone, numbers, k);
      }
      KeysAreRows(db', st', num);
    }
    assert RawsRel(db', st', num) by {
      forall s, u | s in st'.steps ensures RawRel(db', st', num, s, u) {
        RawOfRaws(db, st, num, s, u);
        if u in st.steps[s].uuids && CmdKey(s, u) in st.rows {
          PointsBack(st, s, s, u);
        }
        DroppedRaw(db, st, db', st', num, gone, numbers, s, u);
      }
      RawsAll(db', st', num);
    }
  }

  /* ---- Timing out ---- */

  // Whether a stored step was delayed once and has been released.
  ghost predicate WasReleased(st: State, s: string) {
    s in st.steps && s in st.origin && st.origin[s].notUntil != 0 && st.steps[s].notUntil == 0
  }

  lemma OverdueOne(db: DB, st: State, num: Numbering, now: Time, s: string)
    requires Rel(db, st, num) && s in st.steps
    ensures num[s] in OverdueSteps(db, now) <==> Expired(st, s, now) && !WasReleased(st, s)
  {
    hide RowsRel;
    hide RawsRel;
    assert StepRel(db.steps[num[s]], st.steps[s], st.origin[s].notUntil);
  }

  // The tables time out exactly the expired steps, unless one of them was once
  // delayed and then released: that one never times out.
  lemma OverdueExact(db: DB, st: State, num: Numbering, now: Time)
    requires Inv(st) && Rel(db, st, num)
    ensures SameGone(st, num, Tracker.ExpiredSteps(st, now), OverdueSteps(db, now))
            <==> forall s :: Expired(st, s, now) ==> !WasReleased(st, s)
  {
    forall s | s in st.steps
      ensures s in num && (num[s] in OverdueSteps(db, now) <==> Expired(st, s, now) && !WasReleased(st, s))
    {
      OverdueOne(db, st, num, now, s);
    }
    hide OverdueSteps;
    hide Rel;
    hide Inv;
    hide WasReleased;
  }

  lemma TimeOutTables(db: DB, now: Time)
    ensures DropsTables(db, TimedOutTables(db, now), OverdueSteps(db, now))
  {
    hide OverdueSteps;
  }

  lemma TimeOutDrops(st: State, now: Time)
    requires Inv(st) && forall k :: Enrolled(st, k) ==> st.rows[k].stepID in st.steps
    ensures DropsSteps(st, TimeOut(st, now), Tracker.ExpiredSteps(st, now))
  {
    hide Inv;
    hide ExpiredKeys;
    hide Expired;
    forall k | k in st.rows
      ensures k in ExpiredKeys(st, now) <==> k.owner != st.rows[k].stepID && Expired(st, st.rows[k].stepID, now)
    {
      ExpiredRow(st, now, k);
    }
    assert forall s :: s in st.steps ==> (s in Tracker.ExpiredSteps(st, now) <==> Expired(st, s, now));
    assert forall s :: Expired(st, s, now) ==> s in st.steps by {
      OnlyStoredExpire(st, now);
    }
    hide Tracker.ExpiredSteps;
  }

  lemma OnlyStoredExpire(st: State, now: Time)
    ensures forall s :: Expired(st, s, now) ==> s in st.steps
    ensures forall s :: s in Tracker.ExpiredSteps(st, now) <==> Expired(st, s, now)
  {
  }

  lemma ExpiredRow(st: State, now: Time, k: CmdKey)
    requires Inv(st) && k in st.rows
    ensures k in ExpiredKeys(st, now) <==> k.owner != st.rows[k].stepID && Expired(st, st.rows[k].stepID, now)
  {
    var s := st.rows[k].stepID;
    assert RowOK(st, k);
    StoredInOrigin(st, s);
    if s in st.steps {
      LiveStep(st, s);
      if k.owner != s {
        RowIsLive(st, k);
      }
    }
    hide Expired;
  }

  // A timeout pass over both backends, if no expired step was released before.
  lemma TimeOutSimulates(db: DB, st: State, num: Numbering, now: Time)
    requires Inv(st) && Rel(db, st, num)
    requires forall s :: Expired(st, s, now) ==> !WasReleased(st, s)
    ensures Rel(TimedOutTables(db, now), TimeOut(st, now), num)
  {
    forall k | Enrolled(st, k)
      ensures st.rows[k].stepID in st.steps
    {
      KeyOfRows(db, st, num, k);
    }
    OverdueExact(db, st, num, now);
    TimeOutTables(db, now);
    TimeOutDrops(st, now);
    hide Inv;
    hide Rel;
    DropKeepsRel(db, st, TimedOutTables(db, now), TimeOut(st, now), num, Tracker.ExpiredSteps(st, now),
                 OverdueSteps(db, now));
  }

  ghost function KeySeq(i: string, uuids: seq<string>): seq<CmdKey> {
    seq(|uuids|, j requires 0 <= j < |uuids| => CmdKey(i, uuids[j]))
  }

  // An expired step that both backends time out for the enrollment.
  ghost predicate Overdue(st: State, now: Time, s: string, i: string) {
    Live(st, s, i) && Expired(st, s, now) && !WasReleased(st, s)
  }

  // A command that times out for an enrollment, and the step it belongs to.
  lemma OverdueCommand(db: DB, st: State, num: Numbering, now: Time, c: CmdKey)
    requires Inv(st) && Rel(db, st, num) && c.owner !in st.origin
    ensures c in OverdueCommands(db, now)
            <==> exists s :: Overdue(st, now, s, c.owner) && c.uuid in st.steps[s].uuids
    ensures c in OverdueCommands(db, now) ==>
              && c in st.rows && Overdue(st, now, st.rows[c].stepID, c.owner)
              && c.uuid in st.steps[st.rows[c].stepID].uuids
  {
    AnswerableRow(db, st, num, c.owner, c.uuid);
    if c in st.rows {
      OverdueOne(db, st, num, now, st.rows[c].stepID);
    }
    if exists s :: Overdue(st, now, s, c.owner) && c.uuid in st.steps[s].uuids {
      var s :| Overdue(st, now, s, c.owner) && c.uuid in st.steps[s].uuids;
      PointsBack(st, s, c.owner, c.uuid);
    }
    hide Inv;
    hide Rel;
    hide OverdueSteps;
    hide Expired;
    hide WasReleased;
  }

  ghost function Details(t: IDCommands, keys: seq<CmdKey>): seq<StepCommandResult>
    requires forall c :: c in keys ==> c in t
  {
    seq(|keys|, m requires 0 <= m < |keys| => DetailOf(t, keys[m]))
  }

  lemma DetailsDistinct(t: IDCommands, a: seq<CmdKey>, i: string)
    requires Distinct(a) && forall c :: c in a ==> c in t && c.owner == i
    ensures Distinct(Details(t, a))
    ensures forall c :: c in a ==> DetailOf(t, c) in Details(t, a)
  {
    forall m, n | 0 <= m < n < |a|
      ensures Details(t, a)[m] != Details(t, a)[n]
    {
      assert a[m] in a && a[n] in a;
    }
    forall c | c in a
      ensures DetailOf(t, c) in Details(t, a)
    {
      var m :| 0 <= m < |a| && a[m] == c;
      assert Details(t, a)[m] == DetailOf(t, c);
    }
  }

  lemma SameDetails(t: IDCommands, a: seq<CmdKey>, b: seq<CmdKey>, i: string)
    requires (forall c :: c in a ==> c in t && c.owner == i) && Distinct(a) && Distinct(b)
    requires forall c :: c in a <==> c in b
    ensures multiset(Details(t, a)) == multiset(Details(t, b))
  {
    DetailsDistinct(t, a, i);
    DetailsDistinct(t, b, i);
    hide DetailOf;
    forall x | x in Details(t, a)
      ensures x in Details(t, b)
    {
      var m :| 0 <= m < |a| && Details(t, a)[m] == x;
      assert a[m] in a && a[m] in b;
    }
    forall x | x in Details(t, b)
      ensures x in Details(t, a)
    {
      var m :| 0 <= m < |b| && Details(t, b)[m] == x;
      assert b[m] in b && b[m] in a;
    }
    SameMultiset(Details(t, a), Details(t, b));
  }

  // The command is of a step that times out for the enrollment.
  ghost predicate OverdueUuid(st: State, now: Time, i: string, uuid: string) {
    exists t :: Overdue(st, now, t, i) && uuid in st.steps[t].uuids
  }

  // The commands that time out for an enrollment.
  lemma OwnOverdue(db: DB, st: State, num: Numbering, now: Time, listed: seq<CmdKey>, i: string)
    requires Inv(st) && Rel(db, st, num) && i !in st.origin
    requires Distinct(listed) && Ordered(db.idCommands, listed)
    requires forall c :: c in listed <==> c in OverdueCommands(db, now)
    ensures Distinct(Own(listed, i)) && (forall c :: c in Own(listed, i) ==> c.owner == i)
    ensures forall c: CmdKey :: c.owner == i ==>
              (c in Own(listed, i) <==> OverdueUuid(st, now, i, c.uuid))
    ensures forall c :: c in Own(listed, i) ==>
              && c in st.rows && Overdue(st, now, st.rows[c].stepID, i)
              && c.uuid in st.steps[st.rows[c].stepID].uuids
  {
    hide Inv;
    hide Rel;
    hide OverdueCommands;
    hide Own;
    hide Expired;
    hide WasReleased;
    hide Ordered;
    OwnExact(db.idCommands, listed, i);
    forall c: CmdKey | c.owner == i
      ensures c in Own(listed, i) <==> OverdueUuid(st, now, i, c.uuid)
      ensures c in Own(listed, i) ==>
                c in st.rows && Overdue(st, now, st.rows[c].stepID, i) && c.uuid in st.steps[st.rows[c].stepID].uuids
    {
      OverdueCommand(db, st, num, now, c);
    }
  }

  // The rows of the commands of a step that times out.
  lemma OverdueRow(db: DB, st: State, num: Numbering, now: Time, s: string, i: string, u: string)
    requires Inv(st) && Rel(db, st, num) && i !in st.origin && Overdue(st, now, s, i) && u in st.steps[s].uuids
    ensures CmdKey(i, u) in st.rows && CmdKey(i, u) in db.idCommands && s in num
    ensures db.idCommands[CmdKey(i, u)].stepID == num[s]
    ensures RowRel(db.idCommands[CmdKey(i, u)], st.rows[CmdKey(i, u)])
  {
    hide NumbersRel;
    hide StepsRel;
    hide RawsRel;
    PointsBack(st, s, i, u);
    AnswerableRow(db, st, num, i, u);
  }

  // No other step of the enrollment times out in the same pass.
  ghost predicate SoleOverdue(st: State, now: Time, s: string, i: string) {
    forall t :: Overdue(st, now, t, i) ==> t == s
  }

  // Grouping by enrollment alone gives a step's own commands, all of them and
  // under its own context, exactly when the enrollment has no other step that
  // times out in the same pass.
  lemma GroupingExact(db: DB, st: State, num: Numbering, now: Time, listed: seq<CmdKey>, i: string, sr: StepResult,
                      s: string)
    requires Inv(st) && Rel(db, st, num) && i !in st.origin && Overdue(st, now, s, i)
    requires Distinct(listed) && Ordered(db.idCommands, listed)
    requires forall c :: c in listed <==> c in OverdueCommands(db, now)
    requires GroupedAs(db, Own(listed, i), i, sr)
    ensures forall c :: c in KeySeq(i, st.steps[s].uuids) ==> c in db.idCommands
    ensures sr.ctx == st.steps[s].ctx
            && multiset(sr.commands) == multiset(Details(db.idCommands, KeySeq(i, st.steps[s].uuids)))
            <==> SoleOverdue(st, now, s, i)
  {
    hide Inv;
    hide Rel;
    hide OverdueCommands;
    hide Own;
    hide Expired;
    hide WasReleased;
    hide Ordered;
    var own := Own(listed, i);
    var keys := KeySeq(i, st.steps[s].uuids);
    OwnOverdue(db, st, num, now, listed, i);
    LiveStep(st, s);
    KeySeqDistinct(i, st.steps[s].uuids);
    DistinctSize(own);
    DistinctSize(keys);
    forall c | c in keys
      ensures c in db.idCommands
    {
      OverdueRow(db, st, num, now, s, i, c.uuid);
    }
    GroupedSets(st, now, own, keys, i, s);
    GroupDetails(db, own, i, sr);
    assert |multiset(sr.commands)| == |own| && |multiset(Details(db.idCommands, keys))| == |keys|;
    if SoleOverdue(st, now, s, i) {
      SoleKeys(st, now, own, keys, i, s);
      SameDetails(db.idCommands, own, keys, i);
      assert own[0] in keys;
      OverdueRow(db, st, num, now, s, i, own[0].uuid);
      ContextSame(db, st, num, s);
      LiveStep(st, s);
    }
  }

  lemma GroupDetails(db: DB, own: seq<CmdKey>, i: string, sr: StepResult)
    requires GroupedAs(db, own, i, sr)
    ensures own != [] && (forall c :: c in own ==> c in db.idCommands) && db.idCommands[own[0]].stepID in db.steps
    ensures sr.commands == Details(db.idCommands, own) && sr.ctx == ContextOf(db.steps[db.idCommands[own[0]].stepID])
  {
  }

  lemma SoleKeys(st: State, now: Time, own: seq<CmdKey>, keys: seq<CmdKey>, i: string, s: string)
    requires SoleOverdue(st, now, s, i) && Overdue(st, now, s, i)
    requires forall c: CmdKey :: c in keys <==> c.owner == i && c.uuid in st.steps[s].uuids
    requires forall c :: c in own ==> c.owner == i
    requires forall c: CmdKey :: c.owner == i ==> (c in own <==> OverdueUuid(st, now, i, c.uuid))
    ensures forall c :: c in own <==> c in keys
  {
    hide Overdue;
  }

  // No command without a final response has had a report.
  ghost predicate Unreported(st: State, s: string, i: string)
    requires Live(st, s, i)
  {
    forall u :: u in st.steps[s].uuids ==> NoReport(st.rows[CmdKey(i, u)])
  }

  // Then, and only then, both backends hand out the same results: the tables
  // keep no report of a NotNow.
  lemma TimedOutSameExact(db: DB, st: State, num: Numbering, now: Time, s: string, i: string)
    requires Inv(st) && Rel(db, st, num) && i !in st.origin && Overdue(st, now, s, i)
    ensures forall c :: c in KeySeq(i, st.steps[s].uuids) ==> c in db.idCommands
    ensures multiset(Details(db.idCommands, KeySeq(i, st.steps[s].uuids)))
            == multiset(TimedOutResult(st, s, i).commands)
            <==> Unreported(st, s, i)
  {
    var uuids := st.steps[s].uuids;
    hide Inv;
    hide Rel;
    hide Expired;
    hide WasReleased;
    LiveStep(st, s);
    KeySeqDistinct(i, uuids);
    forall u | u in uuids
      ensures CmdKey(i, u) in db.idCommands && RowRel(db.idCommands[CmdKey(i, u)], st.rows[CmdKey(i, u)])
    {
      OverdueRow(db, st, num, now, s, i, u);
    }
    hide RowRel;
    hide KeySeq;
    DetailsOfStep(db.idCommands, st, s, i);
  }

  // A command without a final response has had no report.
  ghost predicate NoReport(row: Row) {
    !row.done ==> row.result == None || row.result == Some("")
  }

  lemma DetailExact(t: IDCommands, st: State, k: CmdKey)
    requires k in t && k in st.rows && RowRel(t[k], st.rows[k])
    ensures DetailOf(t, k) == Unfinished(k.uuid, st.rows[k]) <==> NoReport(st.rows[k])
    ensures DetailOf(t, k).commandUUID == k.uuid && Unfinished(k.uuid, st.rows[k]).commandUUID == k.uuid
  {
  }

  lemma DetailsOfStep(t: IDCommands, st: State, s: string, i: string)
    requires Live(st, s, i) && Distinct(st.steps[s].uuids)
    requires forall c :: c in KeySeq(i, st.steps[s].uuids) ==> c in t
    requires forall u :: u in st.steps[s].uuids ==> CmdKey(i, u) in t && RowRel(t[CmdKey(i, u)], st.rows[CmdKey(i, u)])
    ensures multiset(Details(t, KeySeq(i, st.steps[s].uuids))) == multiset(TimedOutResult(st, s, i).commands)
            <==> Unreported(st, s, i)
  {
    var uuids := st.steps[s].uuids;
    var a := Details(t, KeySeq(i, uuids));
    var b := TimedOutResult(st, s, i).commands;
    hide RowRel;
    hide DetailOf;
    hide Unfinished;
    hide NoReport;
    forall j | 0 <= j < |uuids|
      ensures a[j].commandUUID == uuids[j] && b[j].commandUUID == uuids[j]
      ensures a[j] == b[j] <==> NoReport(st.rows[CmdKey(i, uuids[j])])
    {
      assert uuids[j] in uuids;
      DetailExact(t, st, CmdKey(i, uuids[j]));
    }
    ByUuidExact(a, b, uuids);
    forall u | u in uuids && a == b
      ensures NoReport(st.rows[CmdKey(i, u)])
    {
      var j :| 0 <= j < |uuids| && uuids[j] == u;
      assert a[j] == b[j];
    }
  }

  // Results in one order of distinct commands are the same multiset only if they
  // are the same.
  lemma ByUuidExact(a: seq<StepCommandResult>, b: seq<StepCommandResult>, uuids: seq<string>)
    requires Distinct(uuids) && |a| == |uuids| && |b| == |uuids|
    requires forall j :: 0 <= j < |uuids| ==> a[j].commandUUID == uuids[j] && b[j].commandUUID == uuids[j]
    ensures multiset(a) == multiset(b) <==> a == b
  {
    if multiset(a) == multiset(b) {
      forall j | 0 <= j < |uuids|
        ensures a[j] == b[j]
      {
        assert a[j] in multiset(a) && a[j] in multiset(b);
        var m :| 0 <= m < |b| && b[m] == a[j];
        assert m == j;
      }
    }
  }

  lemma KeySeqDistinct(i: string, uuids: seq<string>)
    requires Distinct(uuids)
    ensures Distinct(KeySeq(i, uuids))
    ensures forall c: CmdKey :: c in KeySeq(i, uuids) <==> c.owner == i && c.uuid in uuids
  {
    forall c: CmdKey | c.owner == i && c.uuid in uuids
      ensures c in KeySeq(i, uuids)
    {
      var j :| 0 <= j < |uuids| && uuids[j] == c.uuid;
      assert KeySeq(i, uuids)[j] == c;
    }
  }

  lemma GroupedSets(st: State, now: Time, own: seq<CmdKey>, keys: seq<CmdKey>, i: string, s: string)
    requires Inv(st) && Overdue(st, now, s, i)
    requires forall c: CmdKey :: c in keys <==> c.owner == i && c.uuid in st.steps[s].uuids
    requires forall c :: c in own ==> c.owner == i && c in st.rows && Overdue(st, now, st.rows[c].stepID, i)
                                      && c.uuid in st.steps[st.rows[c].stepID].uuids
    requires forall c: CmdKey :: c.owner == i && OverdueUuid(st, now, i, c.uuid) ==> c in own
    requires |set c | c in own| == |own| && |set c | c in keys| == |keys| && |keys| == |st.steps[s].uuids|
    ensures |own| == |keys| <==> forall t :: Overdue(st, now, t, i) ==> t == s
  {
    hide Inv;
    hide Expired;
    hide WasReleased;
    var a, b := set c | c in own, set c | c in keys;
    assert b <= a;
    if forall t :: Overdue(st, now, t, i) ==> t == s {
      forall c | c in a ensures c in b {
        assert Overdue(st, now, st.rows[c].stepID, i);
      }
      assert a == b;
    } else {
      var t :| Overdue(st, now, t, i) && t != s;
      OwnCommand(st, s, t, i);
      var u := st.steps[t].uuids[0];
      assert CmdKey(i, u) in a - b;
      SubsetSize(b + {CmdKey(i, u)}, a);
    }
  }

  lemma OwnCommand(st: State, s: string, t: string, i: string)
    requires Inv(st) && Live(st, s, i) && Live(st, t, i) && s != t
    ensures st.steps[t].uuids != [] && st.steps[t].uuids[0] !in st.steps[s].uuids
  {
    LiveStep(st, t);
    var u := st.steps[t].uuids[0];
    assert u in st.steps[t].uuids;
    if u in st.steps[s].uuids {
      PointsBack(st, s, i, u);
      PointsBack(st, t, i, u);
    }
  }

  /* ---- Releasing ---- */

  // The tables release what is due strictly before the given instant.
  lemma DueSame(db: DB, st: State, num: Numbering, before: Time, s: string)
    requires Inv(st) && Rel(db, st, num) && s in st.steps
    ensures s in num && (num[s] in DueSteps(db, before) <==> Due(st, s, before - 1))
  {
    hide RowsRel;
    hide RawsRel;
    assert StepOK(st, s);
    assert StepRel(db.steps[num[s]], st.steps[s], st.origin[s].notUntil);
  }

  lemma ReleasedSteps(db: DB, st: State, num: Numbering, before: Time, processID: string, now: Time)
    requires NumbersRel(db, st, num) && StepsRel(db, st, num)
    requires forall s :: s in st.steps ==> s in num && (num[s] in DueSteps(db, before) <==> Due(st, s, before - 1))
    ensures NumbersRel(ReleasedTables(db, before, processID, now), Release(st, before - 1, now), num)
    ensures StepsRel(ReleasedTables(db, before, processID, now), Release(st, before - 1, now), num)
  {
    var db' := ReleasedTables(db, before, processID, now);
    var st' := Release(st, before - 1, now);
    ReleaseAddsNone(st, before - 1, now, CmdKey("", ""));
    assert db'.steps.Keys == db.steps.Keys && st'.origin == st.origin;
    hide Release;
    hide ReleasedTables;
    hide DueSteps;
    hide Due;
    hide StepRel;
    NumbersSame(db, st, db', st', num);
    forall s | s in st'.steps
      ensures s in st'.origin && StepRel(db'.steps[num[s]], st'.steps[s], st'.origin[s].notUntil)
    {
      ReleasedStep(db, st, num, before, processID, now, s);
    }
  }

  lemma NumbersSame(db: DB, st: State, db': DB, st': State, num: Numbering)
    requires NumbersRel(db, st, num) && db'.steps.Keys == db.steps.Keys && st'.steps.Keys == st.steps.Keys
    ensures NumbersRel(db', st', num)
  {
    assert forall s :: s in st'.steps <==> s in st.steps;
    forall n | n in db'.steps
      ensures exists s :: s in st'.steps && num[s] == n
    {
      assert n in db.steps;
      var s :| s in st.steps && num[s] == n;
      assert s in st'.steps;
    }
  }

  lemma ReleasedStep(db: DB, st: State, num: Numbering, before: Time, processID: string, now: Time, s: string)
    requires s in st.steps && s in num && num[s] in db.steps && s in st.origin
    requires StepRel(db.steps[num[s]], st.steps[s], st.origin[s].notUntil)
    requires num[s] in DueSteps(db, before) <==> Due(st, s, before - 1)
    ensures StepRel(ReleasedTables(db, before, processID, now).steps[num[s]], Release(st, before - 1, now).steps[s],
                    st.origin[s].notUntil)
  {
  }

  // A row of an enrollment outlives the release; its push time starts then.
  lemma ReleasedRow(st: State, now: Time, pushTime: Time, k: CmdKey)
    requires Inv(st) && k in st.rows
    ensures k.owner != st.rows[k].stepID ==>
              && k in Release(st, now, pushTime).rows
              && Release(st, now, pushTime).rows[k]
                 == if Due(st, st.rows[k].stepID, now) then st.rows[k].(lastPush := pushTime) else st.rows[k]
    ensures k.owner == st.rows[k].stepID && k in Release(st, now, pushTime).rows ==>
              !Due(st, k.owner, now) && Release(st, now, pushTime).rows[k] == st.rows[k]
    ensures k.owner == st.rows[k].stepID && !Due(st, k.owner, now) ==> k in Release(st, now, pushTime).rows
  {
    var s := st.rows[k].stepID;
    assert RowOK(st, k);
    StoredInOrigin(st, k.owner);
    if s in st.steps {
      LiveStep(st, s);
      if k.owner != s {
        RowIsLive(st, k);
      }
    }
    hide Inv;
  }

  lemma ReleasedKey(db: DB, st: State, num: Numbering, before: Time, processID: string, now: Time, k: CmdKey)
    requires Inv(st) && KeyRel(db, st, num, k) && now != 0
    requires forall s :: s in st.steps ==> s in num && (num[s] in DueSteps(db, before) <==> Due(st, s, before - 1))
    ensures KeyRel(ReleasedTables(db, before, processID, now), Release(st, before - 1, now), num, k)
  {
    if k in st.rows {
      ReleasedRow(st, before - 1, now, k);
    }
    ReleaseAddsNone(st, before - 1, now, k);
    hide Inv;
    hide Release;
    hide DueSteps;
    hide Due;
  }

  lemma ReleaseAddsNone(st: State, now: Time, pushTime: Time, k: CmdKey)
    ensures k in Release(st, now, pushTime).rows ==> k in st.rows
    ensures Release(st, now, pushTime).steps.Keys == st.steps.Keys
  {
  }

  lemma ReleasedRaw(db: DB, st: State, num: Numbering, before: Time, processID: string, now: Time, s: string, u: string)
    requires Inv(st) && RawRel(db, st, num, s, u) && s in st.steps
    requires num[s] in DueSteps(db, before) <==> Due(st, s, before - 1)
    ensures RawRel(ReleasedTables(db, before, processID, now), Release(st, before - 1, now), num, s, u)
  {
    if u in st.steps[s].uuids && CmdKey(s, u) in st.rows {
      PointsBack(st, s, s, u);
      ReleasedRow(st, before - 1, now, CmdKey(s, u));
    }
    DelayedAfter(st, before - 1, now, s);
    ReleasedRawTable(db, before, processID, now, (u, num[s]));
    hide Inv;
    hide Release;
    hide ReleasedTables;
    hide DueSteps;
    hide Due;
    hide Delayed;
  }

  lemma DelayedAfter(st: State, now: Time, pushTime: Time, s: string)
    requires s in st.steps
    ensures s in Release(st, now, pushTime).steps && Release(st, now, pushTime).steps[s].uuids == st.steps[s].uuids
    ensures Delayed(Release(st, now, pushTime), s) <==> Delayed(st, s) && !Due(st, s, now)
  {
  }

  lemma ReleasedRawTable(db: DB, before: Time, processID: string, now: Time, p: StepCommandKey)
    ensures var t := ReleasedTables(db, before, processID, now).stepCommands;
            (p in t <==> p in db.stepCommands && p.1 !in DueSteps(db, before))
            && (p in t ==> t[p] == db.stepCommands[p])
  {
    hide DueSteps;
  }

  lemma ReleasedConsistent(db: DB, before: Time, processID: string, now: Time)
    requires Consistent(db)
    ensures Consistent(ReleasedTables(db, before, processID, now))
  {
  }

  // A release pass over both backends, at instants one apart.
  lemma ReleaseSimulates(db: DB, st: State, num: Numbering, before: Time, processID: string, now: Time)
    requires Inv(st) && Rel(db, st, num) && now != 0
    ensures Rel(ReleasedTables(db, before, processID, now), Release(st, before - 1, now), num)
  {
    var db' := ReleasedTables(db, before, processID, now);
    var st' := Release(st, before - 1, now);
    ReleaseAddsNone(st, before - 1, now, CmdKey("", ""));
    hide Inv;
    hide NumbersRel;
    hide StepsRel;
    hide RowsRel;
    hide RawsRel;
    hide Consistent;
    hide KeyRel;
    hide RawRel;
    hide Release;
    hide ReleasedTables;
    hide DueSteps;
    hide Due;
    forall s | s in st.steps
      ensures s in num && (num[s] in DueSteps(db, before) <==> Due(st, s, before - 1))
    {
      DueSame(db, st, num, before, s);
    }
    ReleasedConsistent(db, before, processID, now);
    ReleasedSteps(db, st, num, before, processID, now);
    assert RowsRel(db', st', num) by {
      forall k ensures KeyRel(db', st', num, k) {
        KeyOfRows(db, st, num, k);
        ReleasedKey(db, st, num, before, processID, now, k);
      }
      KeysAreRows(db', st', num);
    }
    assert RawsRel(db', st', num) by {
      forall s, u | s in st'.steps ensures RawRel(db', st', num, s, u) {
        RawOfRaws(db, st, num, s, u);
        ReleasedRaw(db, st, num, before, processID, now, s, u);
      }
      RawsAll(db', st', num);
    }
  }

  /* ---- What a release hands out ---- */

  lemma CommandOfStep(db: DB, st: State, num: Numbering, s: string, c: CmdKey)
    requires Inv(st) && Rel(db, st, num) && Delayed(st, s) && c.owner in st.steps[s].ids && s in num
    ensures c in db.idCommands && db.idCommands[c].stepID == num[s] <==> c.uuid in st.steps[s].uuids
  {
    assert StepOK(st, s) && Live(st, s, c.owner);
    LiveStep(st, s);
    AnswerableRow(db, st, num, c.owner, c.uuid);
    if c.uuid in st.steps[s].uuids {
      PointsBack(st, s, c.owner, c.uuid);
    }
    hide Inv;
    hide RowsRel;
    hide RawsRel;
    hide StepsRel;
  }

  // The commands of one enrollment in a stored step, in the tables.
  lemma CommandsOfStep(db: DB, st: State, num: Numbering, s: string, i: string)
    requires Inv(st) && Rel(db, st, num) && Delayed(st, s) && i in st.steps[s].ids && s in num
    ensures |CommandsOf(db.idCommands, num[s], i)| == |st.steps[s].uuids|
  {
    hide Rel;
    LiveStep(st, s);
    hide Inv;
    forall c: CmdKey | c.owner == i
      ensures c in db.idCommands && db.idCommands[c].stepID == num[s] <==> c.uuid in st.steps[s].uuids
    {
      CommandOfStep(db, st, num, s, c);
    }
    CommandsCounted(db.idCommands, num[s], i, st.steps[s].uuids);
  }

  lemma CommandsCounted(t: IDCommands, n: int, i: string, uuids: seq<string>)
    requires Distinct(uuids)
    requires forall c: CmdKey :: c.owner == i ==> (c in t && t[c].stepID == n <==> c.uuid in uuids)
    ensures |CommandsOf(t, n, i)| == |uuids|
  {
    KeySeqDistinct(i, uuids);
    DistinctSize(KeySeq(i, uuids));
    assert |KeySeq(i, uuids)| == |uuids|;
    hide KeySeq;
    assert CommandsOf(t, n, i) == set c | c in KeySeq(i, uuids);
  }

  lemma ContextSame(db: DB, st: State, num: Numbering, s: string)
    requires Inv(st) && Rel(db, st, num) && s in st.steps
    ensures s in num && num[s] in db.steps && s in st.origin && ContextOf(db.steps[num[s]]) == st.origin[s].ctx
  {
    LiveStep(st, s);
    hide Inv;
    hide RowsRel;
    hide RawsRel;
    assert StepRel(db.steps[num[s]], st.steps[s], st.origin[s].notUntil);
  }

  // The raw commands handed out are the original ones; every enrollment comes
  // once per command, so the list of enrollments is right exactly for a step
  // of one command.
  lemma EnqueuedExact(db: DB, st: State, num: Numbering, s: string, se: StepEnqueueing)
    requires Inv(st) && Rel(db, st, num) && Delayed(st, s) && s in num && EnqueuedAs(db, num[s], se)
    ensures s in st.origin && se.ctx == st.origin[s].ctx.(context := "")
    ensures multiset(se.commands) == multiset(st.origin[s].commands)
    ensures forall i :: i in st.origin[s].ids ==> multiset(se.ids)[i] == |st.origin[s].commands|
    ensures multiset(se.ids) == multiset(st.origin[s].ids) <==> |st.origin[s].commands| == 1
  {
    hide Rel;
    LiveStep(st, s);
    ContextSame(db, st, num, s);
    EnqueuedCommands(db, st, num, s, se);
    hide Inv;
    forall i
      ensures multiset(se.ids)[i] == if i in st.origin[s].ids then |st.origin[s].commands| else 0
    {
      EnqueuedIDs(db, st, num, s, se, i);
    }
    hide EnqueuedAs;
    EachTimes(se.ids, st.origin[s].ids, |st.origin[s].commands|);
  }

  // A list that repeats each element of another one n times.
  lemma EachTimes(a: seq<string>, b: seq<string>, n: nat)
    requires Distinct(b) && b != [] && forall x :: multiset(a)[x] == if x in b then n else 0
    ensures multiset(a) == multiset(b) <==> n == 1
  {
    DistinctCounts(b);
    assert b[0] in b;
    if n != 1 {
      assert multiset(a)[b[0]] != multiset(b)[b[0]];
    }
  }

  lemma EnqueuedIDs(db: DB, st: State, num: Numbering, s: string, se: StepEnqueueing, i: string)
    requires Inv(st) && Rel(db, st, num) && Delayed(st, s) && s in num && EnqueuedAs(db, num[s], se) && s in st.origin
    ensures multiset(se.ids)[i] == if i in st.origin[s].ids then |st.origin[s].commands| else 0
  {
    hide Rel;
    LiveStep(st, s);
    hide Inv;
    assert multiset(se.ids)[i] == |CommandsOf(db.idCommands, num[s], i)|;
    if i in st.steps[s].ids {
      CommandsOfStep(db, st, num, s, i);
    } else {
      forall c | c in CommandsOf(db.idCommands, num[s], i)
        ensures false
      {
        StrangersHaveNone(db, st, num, s, c);
      }
      assert CommandsOf(db.idCommands, num[s], i) == {};
    }
  }

  lemma StrangersHaveNone(db: DB, st: State, num: Numbering, s: string, c: CmdKey)
    requires Inv(st) && Rel(db, st, num) && s in st.steps && s in num && c in db.idCommands
             && db.idCommands[c].stepID == num[s]
    ensures c.owner in st.steps[s].ids
  {
    KeyOfRows(db, st, num, c);
    LiveStep(st, s);
    hide RowsRel;
    assert RowOK(st, c);
  }

  lemma EnqueuedCommands(db: DB, st: State, num: Numbering, s: string, se: StepEnqueueing)
    requires Inv(st) && Rel(db, st, num) && Delayed(st, s) && s in num && EnqueuedAs(db, num[s], se) && s in st.origin
    ensures multiset(se.commands) == multiset(st.origin[s].commands)
  {
    LiveStep(st, s);
    var commands := st.origin[s].commands;
    forall sc: StepCommandRaw
      ensures (sc.commandUUID, num[s]) in db.stepCommands
              && db.stepCommands[(sc.commandUUID, num[s])] == StepCommandOf(sc)
              <==> sc in commands
    {
      RawIsOriginal(db, st, num, s, sc);
    }
    assert Distinct(commands) by {
      assert forall j :: 0 <= j < |commands| ==> Uuids(commands)[j] == commands[j].commandUUID;
    }
    hide Inv;
    hide Rel;
    SameMultiset(se.commands, commands);
  }

  lemma RawIsOriginal(db: DB, st: State, num: Numbering, s: string, sc: StepCommandRaw)
    requires Inv(st) && Rel(db, st, num) && Delayed(st, s) && s in num && s in st.origin
    ensures (sc.commandUUID, num[s]) in db.stepCommands
            && db.stepCommands[(sc.commandUUID, num[s])] == StepCommandOf(sc)
            <==> sc in st.origin[s].commands
  {
    hide Inv;
    hide Rel;
    var u := sc.commandUUID;
    var commands := st.origin[s].commands;
    LiveStep(st, s);
    RawOfOrigin(db, st, num, s, u);
    if sc in commands {
      var j :| 0 <= j < |commands| && commands[j] == sc;
      assert Uuids(commands)[j] == u;
      CommandOfDistinct(commands, j);
    }
  }

  lemma RawOfOrigin(db: DB, st: State, num: Numbering, s: string, u: string)
    requires Inv(st) && Rel(db, st, num) && Delayed(st, s) && s in num && s in st.origin
    ensures (u, num[s]) in db.stepCommands <==> u in Uuids(st.origin[s].commands)
    ensures u in Uuids(st.origin[s].commands) ==>
              db.stepCommands[(u, num[s])] == StepCommandOf(CommandOf(st.origin[s].commands, u))
  {
    LiveStep(st, s);
    RawOfRaws(db, st, num, s, u);
    if u in Uuids(st.origin[s].commands) {
      assert StepOK(st, s);
      PointsBack(st, s, s, u);
      assert RowOK(st, CmdKey(s, u));
    }
    hide Rel;
    hide CommandOf;
  }

  /* ---- Cancelling ---- */

  // Every step that cancelling would delete is live for the enrollment alone.
  ghost predicate SoleSteps(st: State, id: string, workflowName: string) {
    forall s, i :: Matches(st, s, id, workflowName) && Live(st, s, i) ==> i == id
  }

  ghost function Numbers(st: State, num: Numbering, steps: set<string>): set<int>
    requires forall s :: s in steps ==> s in num
  {
    set s | s in steps :: num[s]
  }

  lemma NumbersOf(db: DB, st: State, num: Numbering, steps: set<string>)
    requires NumbersRel(db, st, num) && steps <= st.steps.Keys
    ensures forall s :: s in steps ==> s in num
    ensures SameGone(st, num, steps, Numbers(st, num, steps))
  {
  }

  // Which rows cancelling deletes, in the tracker's terms.
  lemma CancelledRow(db: DB, st: State, num: Numbering, id: string, workflowName: string, c: CmdKey)
    requires Inv(st) && Rel(db, st, num) && workflowName != "" && SoleSteps(st, id, workflowName) && c in db.idCommands
    ensures c in st.rows && st.rows[c].stepID in st.steps
    ensures c.owner == id && OfWorkflow(db, db.idCommands[c].stepID, workflowName)
            <==> st.rows[c].stepID in MatchingSteps(st, id, workflowName)
    ensures db.idCommands[c].stepID == num[st.rows[c].stepID]
  {
    KeyOfRows(db, st, num, c);
    var s := st.rows[c].stepID;
    ContextSame(db, st, num, s);
    LiveStep(st, s);
    hide RowsRel;
    hide RawsRel;
    hide StepsRel;
    assert RowOK(st, c);
    RowIsLive(st, c);
    hide Inv;
  }

  lemma CancelDrops(st: State, id: string, workflowName: string)
    requires Inv(st) && SoleSteps(st, id, workflowName) && id !in st.origin
    ensures DropsSteps(st, Cancel(st, id, workflowName), MatchingSteps(st, id, workflowName))
  {
    hide Inv;
    hide SoleSteps;
    hide CancelledKeys;
    hide MatchingSteps;
    forall k | k in st.rows
      ensures k in CancelledKeys(st, id, workflowName)
              <==> k.owner != st.rows[k].stepID && st.rows[k].stepID in MatchingSteps(st, id, workflowName)
    {
      CancelledKey(st, id, workflowName, k);
    }
  }

  lemma CancelledKey(st: State, id: string, workflowName: string, k: CmdKey)
    requires Inv(st) && SoleSteps(st, id, workflowName) && id !in st.origin && k in st.rows
    ensures k in CancelledKeys(st, id, workflowName)
            <==> k.owner != st.rows[k].stepID && st.rows[k].stepID in MatchingSteps(st, id, workflowName)
  {
    var s := st.rows[k].stepID;
    assert RowOK(st, k);
    if s in st.steps {
      LiveStep(st, s);
      if k.owner != s {
        RowIsLive(st, k);
      }
    }
    hide Inv;
  }

  // The rows, raw commands and steps that are left by the three deletions.
  lemma CancelLeaves(db: DB, st: State, num: Numbering, id: string, workflowName: string, gone: set<int>)
    requires Inv(st) && Rel(db, st, num) && workflowName != "" && SoleSteps(st, id, workflowName)
    requires SameGone(st, num, MatchingSteps(st, id, workflowName), gone)
    ensures forall c :: c in DeleteIDCommands(db, id, workflowName).idCommands
                        <==> c in db.idCommands && db.idCommands[c].stepID !in gone
  {
    forall c | c in db.idCommands
      ensures c.owner == id && OfWorkflow(db, db.idCommands[c].stepID, workflowName)
              <==> db.idCommands[c].stepID in gone
    {
      CancelledRow(db, st, num, id, workflowName, c);
      hide *;
      hide SameGone;
    }
    hide Inv;
    hide Rel;
    hide SoleSteps;
    hide OfWorkflow;
  }

  // A raw command is unused exactly when its own step goes.
  lemma UnusedRaw(db: DB, st: State, num: Numbering, gone: set<int>, t: IDCommands, p: StepCommandKey)
    requires Inv(st) && Rel(db, st, num) && p in db.stepCommands
    requires forall c :: c in t <==> c in db.idCommands && db.idCommands[c].stepID !in gone
    ensures (exists c :: c in t && c.uuid == p.0) <==> p.1 !in gone
  {
    var s := RawStep(db, st, num, p);
    forall c | c in db.idCommands && c.uuid == p.0
      ensures db.idCommands[c].stepID == p.1
    {
      RowOfRaw(db, st, num, s, p, c);
    }
    var c := SomeRow(db, st, num, s, p);
    hide Inv;
    hide Rel;
    assert p.1 !in gone ==> c in t;
  }

  lemma StepNumbered(db: DB, st: State, num: Numbering, n: int) returns (s: string)
    requires NumbersRel(db, st, num) && n in db.steps
    ensures s in st.steps && s in num && num[s] == n
  {
    s :| s in st.steps && num[s] == n;
  }

  lemma RawStep(db: DB, st: State, num: Numbering, p: StepCommandKey) returns (s: string)
    requires Rel(db, st, num) && p in db.stepCommands
    ensures s in st.steps && s in num && num[s] == p.1 && Delayed(st, s) && p.0 in st.steps[s].uuids
  {
    s := StepNumbered(db, st, num, p.1);
    RawOfRaws(db, st, num, s, p.0);
  }

  lemma RowOfRaw(db: DB, st: State, num: Numbering, s: string, p: StepCommandKey, c: CmdKey)
    requires Inv(st) && Rel(db, st, num) && s in st.steps && s in num && num[s] == p.1 && p.0 in st.steps[s].uuids
    requires c in db.idCommands && c.uuid == p.0
    ensures db.idCommands[c].stepID == p.1
  {
    KeyOfRows(db, st, num, c);
    hide RowsRel;
    hide RawsRel;
    hide StepsRel;
    PointsBack(st, s, c.owner, c.uuid);
  }

  lemma SomeRow(db: DB, st: State, num: Numbering, s: string, p: StepCommandKey) returns (c: CmdKey)
    requires Inv(st) && Rel(db, st, num) && s in st.steps && s in num && num[s] == p.1 && p.0 in st.steps[s].uuids
    ensures c in db.idCommands && c.uuid == p.0 && db.idCommands[c].stepID == p.1
  {
    var i := SomeLiveID(st, s);
    c := CmdKey(i, p.0);
    AnswerableRow(db, st, num, i, p.0);
    RowOfRaw(db, st, num, s, p, c);
  }

  lemma SomeLiveID(st: State, s: string) returns (i: string)
    requires Inv(st) && s in st.steps
    ensures Live(st, s, i) && i !in st.origin
  {
    assert StepOK(st, s);
    i :| Live(st, s, i);
    LiveStep(st, s);
  }

  // A step has rows left exactly if it stays.
  lemma StepKeepsRows(db: DB, st: State, num: Numbering, gone: set<int>, t: IDCommands, n: int)
    requires Inv(st) && Rel(db, st, num) && n in db.steps
    requires forall c :: c in t <==> c in db.idCommands && db.idCommands[c].stepID !in gone
    requires forall c :: c in t ==> t[c] == db.idCommands[c]
    ensures (exists c :: c in t && t[c].stepID == n) <==> n !in gone
  {
    var s :| s in st.steps && num[s] == n;
    LiveStep(st, s);
    var u := st.steps[s].uuids[0];
    assert u in st.steps[s].uuids;
    var c := SomeRow(db, st, num, s, (u, n));
    hide Inv;
    hide Rel;
    assert n !in gone ==> c in t;
  }

  lemma CancelTables(db: DB, st: State, num: Numbering, id: string, workflowName: string, gone: set<int>)
    requires Inv(st) && Rel(db, st, num) && workflowName != "" && SoleSteps(st, id, workflowName)
    requires SameGone(st, num, MatchingSteps(st, id, workflowName), gone)
    ensures Cancelling(db, id, workflowName).Ok?
    ensures DropsTables(db, Cancelling(db, id, workflowName).value, gone)
  {
    var db1 := DeleteIDCommands(db, id, workflowName);
    var db2 := DeleteUnusedStepCommands(db1);
    hide Inv;
    hide Rel;
    hide SoleSteps;
    hide SameGone;
    hide OfWorkflow;
    hide HasIDCommands;
    CancelLeaves(db, st, num, id, workflowName, gone);
    DeletionsKeep(db, id, workflowName);
    hide DeleteIDCommands;
    hide DeleteUnusedStepCommands;
    UnusedRaws(db, st, num, gone, db1);
    StepsLeft(db, st, num, id, workflowName, gone, db2);
    DeleteLeft(db, db1, db2, workflowName, gone);
  }

  lemma DeletionsKeep(db: DB, id: string, workflowName: string)
    ensures var db1 := DeleteIDCommands(db, id, workflowName);
            var db2 := DeleteUnusedStepCommands(db1);
            && db1.steps == db.steps && db1.nextID == db.nextID && db1.stepCommands == db.stepCommands
            && (forall c :: c in db1.idCommands ==> c in db.idCommands && db1.idCommands[c] == db.idCommands[c])
            && db2.steps == db.steps && db2.nextID == db.nextID && db2.idCommands == db1.idCommands
            && (forall p :: p in db2.stepCommands ==> p in db.stepCommands && db2.stepCommands[p] == db.stepCommands[p])
  {
    hide OfWorkflow;
  }

  lemma UnusedRaws(db: DB, st: State, num: Numbering, gone: set<int>, db1: DB)
    requires Inv(st) && Rel(db, st, num) && db1.stepCommands == db.stepCommands
    requires forall c :: c in db1.idCommands <==> c in db.idCommands && db.idCommands[c].stepID !in gone
    ensures forall p :: p in DeleteUnusedStepCommands(db1).stepCommands <==> p in db.stepCommands && p.1 !in gone
  {
    hide Inv;
    hide Rel;
    forall p | p in db.stepCommands
      ensures (exists c :: c in db1.idCommands && c.uuid == p.0) <==> p.1 !in gone
    {
      UnusedRaw(db, st, num, gone, db1.idCommands, p);
    }
  }

  lemma StepsLeft(db: DB, st: State, num: Numbering, id: string, workflowName: string, gone: set<int>, db2: DB)
    requires Inv(st) && Rel(db, st, num) && SameGone(st, num, MatchingSteps(st, id, workflowName), gone)
    requires forall c :: c in db2.idCommands <==> c in db.idCommands && db.idCommands[c].stepID !in gone
    requires forall c :: c in db2.idCommands ==> db2.idCommands[c] == db.idCommands[c]
    ensures forall n :: n in db.steps ==> (HasIDCommands(db2, n) <==> n !in gone)
    ensures forall n :: n in db.steps && n in gone ==> OfWorkflow(db, n, workflowName)
  {
    hide Inv;
    hide Rel;
    hide SameGone;
    hide OfWorkflow;
    forall n | n in db.steps
      ensures HasIDCommands(db2, n) <==> n !in gone
      ensures n in gone ==> OfWorkflow(db, n, workflowName)
    {
      StepKeepsRows(db, st, num, gone, db2.idCommands, n);
      GoneOfWorkflow(db, st, num, id, workflowName, gone, n);
    }
  }

  lemma GoneOfWorkflow(db: DB, st: State, num: Numbering, id: string, workflowName: string, gone: set<int>, n: int)
    requires Inv(st) && Rel(db, st, num) && n in db.steps
    requires SameGone(st, num, MatchingSteps(st, id, workflowName), gone)
    ensures n in gone ==> OfWorkflow(db, n, workflowName)
  {
    var s :| s in st.steps && num[s] == n;
    ContextSame(db, st, num, s);
    hide Inv;
    hide RowsRel;
    hide StepsRel;
    hide RawsRel;
  }

  lemma DeleteLeft(db: DB, db1: DB, db2: DB, workflowName: string, gone: set<int>)
    requires db2.steps == db.steps
    requires forall n :: n in db.steps ==> (HasIDCommands(db2, n) <==> n !in gone)
    requires forall n :: n in db.steps && n in gone ==> OfWorkflow(db, n, workflowName)
    requires forall p :: p in db2.stepCommands ==> p.1 !in gone
    ensures DeleteStepsHavingNoCommands(db2, workflowName) == Ok(db2.(steps := db.steps - gone))
  {
    var unused := set s | s in db2.steps && !HasIDCommands(db2, s) && OfWorkflow(db2, s, workflowName);
    hide HasIDCommands;
    assert forall n :: n in db.steps ==> (OfWorkflow(db2, n, workflowName) <==> OfWorkflow(db, n, workflowName));
    hide OfWorkflow;
    assert forall n :: n in db.steps ==> (n in unused <==> n in gone);
    assert db2.steps - unused == db.steps - gone;
  }

  // Cancelling by name on both backends, if it deletes no step of others.
  lemma CancelSimulates(db: DB, st: State, num: Numbering, id: string, workflowName: string)
    requires Inv(st) && Rel(db, st, num) && workflowName != "" && id !in st.origin && SoleSteps(st, id, workflowName)
    ensures Cancelling(db, id, workflowName).Ok?
    ensures Rel(Cancelling(db, id, workflowName).value, Cancel(st, id, workflowName), num)
  {
    var gone := MatchingSteps(st, id, workflowName);
    NumbersOf(db, st, num, gone);
    var numbers := Numbers(st, num, gone);
    hide Inv;
    hide Rel;
    hide SoleSteps;
    hide Cancelling;
    hide MatchingSteps;
    CancelTables(db, st, num, id, workflowName, numbers);
    CancelDrops(st, id, workflowName);
    DropKeepsRel(db, st, Cancelling(db, id, workflowName).value, Cancel(st, id, workflowName), num, gone, numbers);
  }

  // Related tables never stand in the way of cancelling, whatever it names.
  lemma CancellingNeverFails(db: DB, st: State, num: Numbering, id: string, workflowName: string)
    requires Inv(st) && Rel(db, st, num)
    ensures !Blocked(db, id, workflowName)
  {
    hide Inv;
    hide Rel;
    hide OfWorkflow;
    forall p, c | p in db.stepCommands && Survives(db, c, id, workflowName) && c.uuid == p.0
      ensures db.idCommands[c].stepID == p.1
    {
      var s := RawStep(db, st, num, p);
      RowOfRaw(db, st, num, s, p, c);
    }
    forall p | p in db.stepCommands && UuidUsed(db, p.0, id, workflowName)
      ensures StepUsed(db, p.1, id, workflowName)
    {
      var c :| Survives(db, c, id, workflowName) && c.uuid == p.0;
      assert db.idCommands[c].stepID == p.1;
    }
    hide UuidUsed;
    hide StepUsed;
  }

  // Whom cancelling leaves with an open command of a workflow: the enrollment
  // itself for other workflows than the named one, everybody else as before.
  lemma CancellingSparesExact(db: DB, db': DB, id: string, workflowName: string, w: string, i: string)
    requires CancelledTables(db, db', id, workflowName)
    requires forall c :: c in db.idCommands ==> db.idCommands[c].stepID in db.steps
    ensures OpenIn(db', w, i) <==> OpenIn(db, w, i) && !(i == id && (workflowName == "" || workflowName == w))
  {
    if OpenIn(db', w, i) {
      var c :| c in db'.idCommands && c.owner == i && !db'.idCommands[c].completed
               && db'.idCommands[c].stepID in db'.steps && db'.steps[db'.idCommands[c].stepID].workflowName == w;
      assert Survives(db, c, id, workflowName);
    }
    if OpenIn(db, w, i) && !(i == id && (workflowName == "" || workflowName == w)) {
      var c :| c in db.idCommands && c.owner == i && !db.idCommands[c].completed
               && db.idCommands[c].stepID in db.steps && db.steps[db.idCommands[c].stepID].workflowName == w;
      assert Survives(db, c, id, workflowName);
      assert c in db'.idCommands && db'.idCommands[c] == db.idCommands[c];
      assert StepUsed(db, db.idCommands[c].stepID, id, workflowName);
    }
  }

  // So, unlike the key-value backend, these tables keep the storage contract for
  // an empty name and for steps shared between enrollments.
  lemma CancelKeepsContract(db: DB, st: State, num: Numbering, id: string, workflowName: string, w: string, i: string)
    requires Inv(st) && Rel(db, st, num)
    ensures Cancelling(db, id, workflowName).Ok?
    ensures OpenIn(Cancelling(db, id, workflowName).value, w, i)
            <==> OpenIn(db, w, i) && !(i == id && (workflowName == "" || workflowName == w))
  {
    CancellingNeverFails(db, st, num, id, workflowName);
    CancellingExact(db, id, workflowName);
    CancellingSparesExact(db, Cancelling(db, id, workflowName).value, id, workflowName, w, i);
  }
}
