/**
 The messages of a whole run: every command of a stored step is due to be sent
 exactly once, as it was stored, or never; and which of these the server gets,
 given its answers. A store gives up at the first refusal, a release goes on.
 */
module Outbox {
  import opened Records
  import opened Tracker
  import opened Invariant
  import opened Runs
  import opened Delivery
  import opened Engine
  import opened Worker

  // A message together with the step that it was sent for.
  type Tagged = (string, Message)

  ghost function Tag(s: string, messages: seq<Message>): seq<Tagged> {
    seq(|messages|, j requires 0 <= j < |messages| => (s, messages[j]))
  }

  ghost function TagAll(st: State, due: seq<string>): seq<Tagged>
    requires forall s :: s in due ==> s in st.origin
  {
    if due == [] then []
    else
      var s := due[|due| - 1];
      TagAll(st, due[..|due| - 1]) + Tag(s, Messages(st.origin[s].ids, st.origin[s].commands))
  }

  ghost function Untagged(log: seq<Tagged>): seq<Message> {
    seq(|log|, j requires 0 <= j < |log| => log[j].1)
  }

  // Without their tags these are the messages of a release pass.
  lemma {:induction false} TagAllExact(st: State, due: seq<string>)
    requires forall s :: s in due ==> s in st.origin
    ensures Untagged(TagAll(st, due)) == DueMessages(st, due)
  {
    if due != [] {
      TagAllExact(st, due[..|due| - 1]);
    }
  }

  // The order in which a release pass comes across the steps that are due.
  ghost predicate IsOrder(st: State, op: Op, order: seq<string>) {
    op.ReleaseOp? ==>
      Distinct(order) && forall s :: s in order <==> Due(st, s, op.now) && s in st.origin
  }

  // What one operation sends: a step stored without delay at once, the steps
  // that are due on release.
  ghost function SentBy(st: State, op: Op, order: seq<string>): seq<Tagged>
    requires IsOrder(st, op, order)
  {
    match op
    case StoreOp(s, cfg, _) => Tag(s, SentAtOnce(st, cfg))
    case ReleaseOp(_, _) => TagAll(st, order)
    case _ => []
  }

  ghost predicate AreOrders(ops: seq<Op>, orders: seq<seq<string>>) {
    |orders| == |ops| &&
    (ops == [] ||
     (AreOrders(ops[..|ops| - 1], orders[..|ops| - 1])
      && IsOrder(Run(ops[..|ops| - 1]), ops[|ops| - 1], orders[|ops| - 1])))
  }

  ghost function Log(ops: seq<Op>, orders: seq<seq<string>>): seq<Tagged>
    requires AreOrders(ops, orders)
  {
    if ops == [] then []
    else
      var last := |ops| - 1;
      Log(ops[..last], orders[..last]) + SentBy(Run(ops[..last]), ops[last], orders[last])
  }

  ghost function OfStep(log: seq<Tagged>, s: string): seq<Message> {
    if log == [] then []
    else OfStep(log[..|log| - 1], s) + if log[|log| - 1].0 == s then [log[|log| - 1].1] else []
  }

  lemma {:induction false} OfConcat(a: seq<Tagged>, b: seq<Tagged>, s: string)
    ensures OfStep(a + b, s) == OfStep(a, s) + OfStep(b, s)
  {
    if b == [] {
      assert a + b == a;
    } else {
      assert (a + b)[..|a + b| - 1] == a + b[..|b| - 1];
      OfConcat(a, b[..|b| - 1], s);
    }
  }

  lemma {:induction false} OfTag(t: string, messages: seq<Message>, s: string)
    ensures OfStep(Tag(t, messages), s) == if t == s then messages else []
  {
    if messages != [] {
      var last := |messages| - 1;
      assert Tag(t, messages)[..last] == Tag(t, messages[..last]);
      OfTag(t, messages[..last], s);
      assert messages == messages[..last] + [messages[last]];
    }
  }

  lemma {:induction false} OfTagAll(st: State, due: seq<string>, s: string)
    requires Distinct(due) && forall t :: t in due ==> t in st.origin
    ensures OfStep(TagAll(st, due), s) == if s in due then Messages(st.origin[s].ids, st.origin[s].commands) else []
  {
    if due != [] {
      var t := due[|due| - 1];
      var rest := due[..|due| - 1];
      assert due == rest + [t];
      DistinctExtend(rest, t);
      OfTagAll(st, rest, s);
      OfConcat(TagAll(st, rest), Tag(t, Messages(st.origin[t].ids, st.origin[t].commands)), s);
      OfTag(t, Messages(st.origin[t].ids, st.origin[t].commands), s);
      hide Messages;
    }
  }

  ghost function Whole(st: State, s: string): seq<Message> {
    if s in st.origin then Messages(st.origin[s].ids, st.origin[s].commands) else []
  }

  // One operation sends all commands of a step or none of them.
  lemma SentByExact(st: State, op: Op, order: seq<string>, s: string)
    requires Inv(st) && May(st, op) && IsOrder(st, op, order)
    ensures OfStep(SentBy(st, op, order), s)
            == if Leaves(st, op, AtOnce, s) || Leaves(st, op, OnRelease, s) then Whole(Next(st, op), s) else []
    ensures s in st.origin ==> Whole(Next(st, op), s) == Whole(st, s)
  {
    hide Messages;
    hide Inv;
    StoredInOrigin(st, s);
    match op
    case StoreOp(_, _, _) =>
      StoreSends(st, op, order, s);
    case ReleaseOp(_, _) =>
      OfTagAll(st, order, s);
      assert s in order <==> Due(st, s, op.now) && s in st.origin;
    case _ =>
  }

  lemma StoreSends(st: State, op: Op, order: seq<string>, s: string)
    requires op.StoreOp? && May(st, op)
    ensures OfStep(SentBy(st, op, order), s)
            == if Leaves(st, op, AtOnce, s) then Whole(Next(st, op), s) else []
    ensures s in st.origin ==> Whole(Next(st, op), s) == Whole(st, s)
  {
    hide Messages;
    hide OfStep;
    OfTag(op.s, SentAtOnce(st, op.cfg), s);
  }

  lemma NothingSent(s: string)
    ensures OfStep([], s) == []
  {
  }

  // In every run a stored step's commands come up to be sent exactly once each,
  // in their order and as they were stored, except exactly when it still waits
  // for its release or was dropped before: then none of them does.
  lemma {:induction false} EachSentOnce(ops: seq<Op>, orders: seq<seq<string>>, s: string)
    requires Admissible(ops) && AreOrders(ops, orders)
    ensures OfStep(Log(ops, orders), s)
            == if s in Run(ops).origin && !Delayed(Run(ops), s) && Sends(ops, Unsent, s) == 0
               then Messages(Run(ops).origin[s].ids, Run(ops).origin[s].commands) else []
  {
    SentOnce(ops, s);
    SentSoFar(ops, orders, s);
  }

  lemma {:induction false} SentSoFar(ops: seq<Op>, orders: seq<seq<string>>, s: string)
    requires Admissible(ops) && AreOrders(ops, orders)
    ensures OfStep(Log(ops, orders), s)
            == if Sends(ops, AtOnce, s) + Sends(ops, OnRelease, s) == 0 then [] else Whole(Run(ops), s)
    ensures Sends(ops, AtOnce, s) + Sends(ops, OnRelease, s) > 0 ==> s in Run(ops).origin
  {
    SentOnce(ops, s);
    if ops != [] {
      var last := |ops| - 1;
      SentSoFar(ops[..last], orders[..last], s);
      SentNext(ops, orders, s);
    }
  }

  // What the last operation adds.
  lemma SentNext(ops: seq<Op>, orders: seq<seq<string>>, s: string)
    requires Admissible(ops) && AreOrders(ops, orders) && ops != []
    requires AreOrders(ops[..|ops| - 1], orders[..|ops| - 1])
    requires var past := ops[..|ops| - 1];
             OfStep(Log(past, orders[..|ops| - 1]), s)
             == if Sends(past, AtOnce, s) + Sends(past, OnRelease, s) == 0 then [] else Whole(Run(past), s)
    requires Sends(ops[..|ops| - 1], AtOnce, s) + Sends(ops[..|ops| - 1], OnRelease, s) > 0 ==>
               s in Run(ops[..|ops| - 1]).origin
    ensures OfStep(Log(ops, orders), s)
            == if Sends(ops, AtOnce, s) + Sends(ops, OnRelease, s) == 0 then [] else Whole(Run(ops), s)
    ensures Sends(ops, AtOnce, s) + Sends(ops, OnRelease, s) > 0 ==> s in Run(ops).origin
  {
    var last := |ops| - 1;
    var st := Run(ops[..last]);
    SentOnce(ops, s);
    RunKeepsInv(ops[..last]);
    hide Inv;
    hide Whole;
    hide Leaves;
    hide Next;
    hide May;
    hide SentBy;
    hide IsOrder;
    hide OfStep;
    hide Delayed;
    SentByExact(st, ops[last], orders[last], s);
    OfConcat(Log(ops[..last], orders[..last]), SentBy(st, ops[last], orders[last]), s);
  }

  /* ---- What the server answers ---- */

  // The answers to what one operation sends: a store stops at the first refusal,
  // and a release offers everything.
  ghost predicate AreAnswers(st: State, op: Op, order: seq<string>, oks: seq<bool>)
    requires IsOrder(st, op, order)
  {
    if op.StoreOp? then UntilRefused(|SentBy(st, op, order)|, oks) else |oks| == |SentBy(st, op, order)|
  }

  // The entries that are offered and taken.
  ghost function Kept(log: seq<Tagged>, oks: seq<bool>): seq<Tagged>
    requires |oks| <= |log|
  {
    if log == [] then []
    else
      var last := |log| - 1;
      if |oks| <= last then Kept(log[..last], oks)
      else Kept(log[..last], oks[..last]) + if oks[last] then [log[last]] else []
  }

  // This is what the engine and the worker ask of the server, what it answers and
  // what it takes, as the contracts of EnqueueStep and ProcessEnqueuings state it.
  lemma OffersExact(st: State, op: Op, order: seq<string>, oks: seq<bool>)
    requires IsOrder(st, op, order)
    ensures op.StoreOp? ==>
              && Untagged(SentBy(st, op, order)) == SentAtOnce(st, op.cfg)
              && (AreAnswers(st, op, order, oks) <==> UntilRefused(|SentAtOnce(st, op.cfg)|, oks))
    ensures op.ReleaseOp? ==>
              && Untagged(SentBy(st, op, order)) == DueMessages(st, order)
              && (AreAnswers(st, op, order, oks) <==> |oks| == |DueMessages(st, order)|)
    ensures AreAnswers(st, op, order, oks) ==>
              Untagged(Kept(SentBy(st, op, order), oks)) == Taken(Untagged(SentBy(st, op, order))[..|oks|], oks)
  {
    if op.ReleaseOp? {
      TagAllExact(st, order);
    }
    hide SentAtOnce;
    if AreAnswers(st, op, order, oks) {
      KeptTaken(SentBy(st, op, order), oks);
    }
  }

  lemma {:induction false} KeptTaken(log: seq<Tagged>, oks: seq<bool>)
    requires |oks| <= |log|
    ensures Untagged(Kept(log, oks)) == Taken(Untagged(log)[..|oks|], oks)
  {
    if log != [] {
      var last := |log| - 1;
      var asked := Untagged(log)[..|oks|];
      if |oks| <= last {
        KeptTaken(log[..last], oks);
        assert Untagged(log[..last])[..|oks|] == asked;
      } else {
        KeptTaken(log[..last], oks[..last]);
        assert Untagged(log[..last])[..last] == asked[..last];
      }
    }
  }

  ghost predicate AllAnswers(ops: seq<Op>, orders: seq<seq<string>>, answers: seq<seq<bool>>)
    requires AreOrders(ops, orders)
  {
    |answers| == |ops| &&
    (ops == [] ||
     (AllAnswers(ops[..|ops| - 1], orders[..|ops| - 1], answers[..|ops| - 1])
      && AreAnswers(Run(ops[..|ops| - 1]), ops[|ops| - 1], orders[|ops| - 1], answers[|ops| - 1])))
  }

  // Everything that the server takes in a run.
  ghost function Arrived(ops: seq<Op>, orders: seq<seq<string>>, answers: seq<seq<bool>>): seq<Tagged>
    requires AreOrders(ops, orders) && AllAnswers(ops, orders, answers)
  {
    if ops == [] then []
    else
      var last := |ops| - 1;
      Arrived(ops[..last], orders[..last], answers[..last])
      + Kept(SentBy(Run(ops[..last]), ops[last], orders[last]), answers[last])
  }

  ghost predicate Refuses(sent: seq<Tagged>, oks: seq<bool>, s: string)
    requires |oks| <= |sent|
  {
    exists j :: 0 <= j < |oks| && sent[j].0 == s && !oks[j]
  }

  // The server refuses a command of the step at some point of the run.
  ghost predicate Refused(ops: seq<Op>, orders: seq<seq<string>>, answers: seq<seq<bool>>, s: string)
    requires AreOrders(ops, orders) && AllAnswers(ops, orders, answers)
  {
    ops != [] &&
    (Refused(ops[..|ops| - 1], orders[..|ops| - 1], answers[..|ops| - 1], s)
     || Refuses(SentBy(Run(ops[..|ops| - 1]), ops[|ops| - 1], orders[|ops| - 1]), answers[|ops| - 1], s))
  }

  // The message is offered and taken.
  ghost predicate Yes(oks: seq<bool>, j: nat) {
    j < |oks| && oks[j]
  }

  // Whether each entry of the step is taken.
  ghost function Flags(log: seq<Tagged>, oks: seq<bool>, s: string): seq<bool>
    requires |oks| <= |log|
  {
    if log == [] then []
    else
      var last := |log| - 1;
      Flags(log[..last], if |oks| <= last then oks else oks[..last], s)
      + if log[last].0 == s then [Yes(oks, last)] else []
  }

  ghost function RunFlags(ops: seq<Op>, orders: seq<seq<string>>, answers: seq<seq<bool>>, s: string): seq<bool>
    requires AreOrders(ops, orders) && AllAnswers(ops, orders, answers)
  {
    if ops == [] then []
    else
      var last := |ops| - 1;
      RunFlags(ops[..last], orders[..last], answers[..last], s)
      + Flags(SentBy(Run(ops[..last]), ops[last], orders[last]), answers[last], s)
  }

  ghost predicate All(flags: seq<bool>) {
    forall j :: 0 <= j < |flags| ==> flags[j]
  }

  lemma AllFew(flag: bool)
    ensures All([]) && (All([flag]) <==> flag)
  {
    assert [flag][0] == flag;
  }

  lemma AllConcat(a: seq<bool>, b: seq<bool>)
    ensures All(a + b) <==> All(a) && All(b)
  {
    if All(a + b) {
      assert forall j :: 0 <= j < |a| ==> a[j] == (a + b)[j];
      assert forall j :: 0 <= j < |b| ==> b[j] == (a + b)[|a| + j];
    }
  }

  // The step's entries that are kept, in their order.
  lemma {:induction false} KeptOf(log: seq<Tagged>, oks: seq<bool>, s: string)
    requires |oks| <= |log|
    ensures |Flags(log, oks, s)| == |OfStep(log, s)|
    ensures OfStep(Kept(log, oks), s) == Taken(OfStep(log, s), Flags(log, oks, s))
  {
    if log != [] {
      var last := |log| - 1;
      var before := if |oks| <= last then oks else oks[..last];
      var flag := Yes(oks, last);
      KeptOf(log[..last], before, s);
      var kept := Kept(log[..last], before);
      assert Kept(log, oks) == kept + if flag then [log[last]] else [];
      var flags := Flags(log[..last], before, s);
      assert Flags(log, oks, s) == flags + if log[last].0 == s then [flag] else [];
      hide Kept;
      hide Flags;
      hide Taken;
      OfConcat(kept, if flag then [log[last]] else [], s);
      OfOne(log[last], s);
      var of := OfStep(log[..last], s);
      assert OfStep(log, s) == of + if log[last].0 == s then [log[last].1] else [];
      hide OfStep;
      TakenNext(of, flags, log[last].1, flag);
      if log[last].0 != s {
        assert of + [] == of && flags + [] == flags;
      }
    }
  }

  // Every entry of the step is offered and taken.
  ghost predicate AllYes(log: seq<Tagged>, oks: seq<bool>, s: string) {
    forall j :: 0 <= j < |log| && log[j].0 == s ==> Yes(oks, j)
  }

  lemma AllYesNext(log: seq<Tagged>, oks: seq<bool>, s: string)
    requires log != [] && |oks| <= |log|
    ensures var last := |log| - 1;
            AllYes(log, oks, s)
            <==> AllYes(log[..last], if |oks| <= last then oks else oks[..last], s)
                 && (log[last].0 == s ==> Yes(oks, last))
  {
    var last := |log| - 1;
    var before := if |oks| <= last then oks else oks[..last];
    assert forall j :: 0 <= j < last ==> log[..last][j] == log[j];
    assert forall j: nat :: j < last ==> (Yes(before, j) <==> Yes(oks, j));
    if AllYes(log[..last], before, s) && (log[last].0 == s ==> Yes(oks, last)) {
      forall j | 0 <= j < |log| && log[j].0 == s
        ensures Yes(oks, j)
      {
        if j < last {
          assert log[..last][j].0 == s && Yes(before, j);
        }
      }
    }
    hide Yes;
  }

  lemma {:induction false} FlagsOf(log: seq<Tagged>, oks: seq<bool>, s: string)
    requires |oks| <= |log|
    ensures All(Flags(log, oks, s)) <==> AllYes(log, oks, s)
  {
    if log != [] {
      var last := |log| - 1;
      var before := if |oks| <= last then oks else oks[..last];
      FlagsOf(log[..last], before, s);
      AllYesNext(log, oks, s);
      AllConcat(Flags(log[..last], before, s), [Yes(oks, last)]);
      assert log[last].0 != s ==> Flags(log, oks, s) == Flags(log[..last], before, s);
      AllFew(Yes(oks, last));
      hide AllYes;
    }
  }

  lemma OfOne(entry: Tagged, s: string)
    ensures OfStep([entry], s) == (if entry.0 == s then [entry.1] else []) && OfStep([], s) == []
  {
    assert [entry][..0] == [];
  }

  // Of one operation, all of the step's entries are taken exactly if none is
  // refused: what a store does not offer follows a refusal.
  lemma FlagsExact(st: State, op: Op, order: seq<string>, oks: seq<bool>, s: string)
    requires IsOrder(st, op, order) && AreAnswers(st, op, order, oks)
    ensures |oks| <= |SentBy(st, op, order)|
    ensures All(Flags(SentBy(st, op, order), oks, s)) <==> !Refuses(SentBy(st, op, order), oks, s)
  {
    var sent := SentBy(st, op, order);
    FlagsOf(sent, oks, s);
    if op.StoreOp? && |oks| < |sent| {
      assert sent[|oks| - 1].0 == op.s && sent[|oks|].0 == op.s;
    }
    hide SentBy;
    hide Flags;
  }

  lemma {:induction false} RunKept(ops: seq<Op>, orders: seq<seq<string>>, answers: seq<seq<bool>>, s: string)
    requires AreOrders(ops, orders) && AllAnswers(ops, orders, answers)
    ensures |RunFlags(ops, orders, answers, s)| == |OfStep(Log(ops, orders), s)|
    ensures OfStep(Arrived(ops, orders, answers), s)
            == Taken(OfStep(Log(ops, orders), s), RunFlags(ops, orders, answers, s))
    ensures All(RunFlags(ops, orders, answers, s)) <==> !Refused(ops, orders, answers, s)
  {
    hide SentBy;
    hide IsOrder;
    hide AreAnswers;
    hide Kept;
    hide Flags;
    hide OfStep;
    hide Taken;
    hide All;
    hide Refuses;
    hide Run;
    NothingSent(s);
    NoneTaken();
    AllFew(true);
    if ops != [] {
      var last := |ops| - 1;
      RunKept(ops[..last], orders[..last], answers[..last], s);
      var sent := SentBy(Run(ops[..last]), ops[last], orders[last]);
      FlagsExact(Run(ops[..last]), ops[last], orders[last], answers[last], s);
      KeptOf(sent, answers[last], s);
      OfConcat(Log(ops[..last], orders[..last]), sent, s);
      OfConcat(Arrived(ops[..last], orders[..last], answers[..last]), Kept(sent, answers[last]), s);
      TakenConcat(OfStep(Log(ops[..last], orders[..last]), s),
                  RunFlags(ops[..last], orders[..last], answers[..last], s),
                  OfStep(sent, s), Flags(sent, answers[last], s));
      AllConcat(RunFlags(ops[..last], orders[..last], answers[..last], s), Flags(sent, answers[last], s));
    }
  }

  // Everything is taken exactly if every flag is set.
  lemma {:induction false} TakenAllExact(messages: seq<Message>, flags: seq<bool>)
    requires |flags| == |messages|
    ensures |Taken(messages, flags)| <= |messages|
    ensures Taken(messages, flags) == messages <==> All(flags)
  {
    if messages != [] {
      var last := |messages| - 1;
      TakenAllExact(messages[..last], flags[..last]);
      AllConcat(flags[..last], [flags[last]]);
      assert flags == flags[..last] + [flags[last]] && messages == messages[..last] + [messages[last]];
    }
  }

  // In every run the server gets all commands of a step that was stored, has been
  // released if it was delayed, and was not dropped before, exactly if it refuses
  // none of them; it never gets anything else, twice, or out of order.
  lemma ArrivesExact(ops: seq<Op>, orders: seq<seq<string>>, answers: seq<seq<bool>>, s: string)
    requires Admissible(ops) && AreOrders(ops, orders) && AllAnswers(ops, orders, answers)
    ensures s in Run(ops).origin && !Delayed(Run(ops), s) && Sends(ops, Unsent, s) == 0 ==>
              var cfg := Run(ops).origin[s];
              var all := Messages(cfg.ids, cfg.commands);
              && (forall j :: 0 <= j < |cfg.commands| ==> all[j] == (cfg.ids, cfg.commands[j].command))
              && (OfStep(Arrived(ops, orders, answers), s) == all <==> !Refused(ops, orders, answers, s))
              && |RunFlags(ops, orders, answers, s)| == |all|
              && OfStep(Arrived(ops, orders, answers), s) == Taken(all, RunFlags(ops, orders, answers, s))
    ensures !(s in Run(ops).origin && !Delayed(Run(ops), s) && Sends(ops, Unsent, s) == 0) ==>
              OfStep(Arrived(ops, orders, answers), s) == []
  {
    EachSentOnce(ops, orders, s);
    RunKept(ops, orders, answers, s);
    assert s in Run(ops).origin ==>
        var cfg := Run(ops).origin[s];
        forall j :: 0 <= j < |cfg.commands| ==>
          Messages(cfg.ids, cfg.commands)[j] == (cfg.ids, cfg.commands[j].command);
    hide Run;
    hide Admissible;
    hide AreOrders;
    hide AllAnswers;
    hide Log;
    hide Arrived;
    hide RunFlags;
    hide Refused;
    hide OfStep;
    hide Messages;
    hide Sends;
    TakenAllExact(OfStep(Log(ops, orders), s), RunFlags(ops, orders, answers, s));
  }
}
