/**
 Event subscriptions: the names and numbers of the event flags, and the bucket in
 which the key-value backend keeps the subscriptions.
 */
module KVEvents {
  import opened Wrappers
  import opened Text
  import opened Records
  import opened Buckets
  import opened KVScan

  /* ---- Event flags ---- */

  const ALL_COMMAND_RESPONSE := 1
  const AUTHENTICATE := 2
  const TOKEN_UPDATE := 4
  const ENROLLMENT := 8
  const CHECK_OUT := 16
  const IDLE := 32
  const IDLE_NOT_STARTED_SINCE := 64
  const MAX_EVENT_FLAG := 128

  predicate ValidFlag(f: int) {
    0 < f < MAX_EVENT_FLAG
  }

  function FlagString(f: int): string {
    if f == ALL_COMMAND_RESPONSE then "AllCommandResponse"
    else if f == AUTHENTICATE then "Authenticate"
    else if f == TOKEN_UPDATE then "TokenUpdate"
    else if f == ENROLLMENT then "Enrollment"
    else if f == CHECK_OUT then "CheckOut"
    else if f == IDLE then "Idle"
    else if f == IDLE_NOT_STARTED_SINCE then "IdleNotStartedSince"
    else "unknown event type: " + FormatInt(f)
  }

  function FlagForString(s: string): int {
    if s == "AllCommandResponse" then ALL_COMMAND_RESPONSE
    else if s == "Authenticate" then AUTHENTICATE
    else if s == "TokenUpdate" then TOKEN_UPDATE
    else if s == "Enrollment" then ENROLLMENT
    else if s == "CheckOut" then CHECK_OUT
    else if s == "Idle" then IDLE
    else if s == "IdleNotStartedSince" then IDLE_NOT_STARTED_SINCE
    else 0
  }

  predicate SingleFlag(f: int) {
    f in {ALL_COMMAND_RESPONSE, AUTHENTICATE, TOKEN_UPDATE, ENROLLMENT, CHECK_OUT, IDLE, IDLE_NOT_STARTED_SINCE}
  }

  // A name survives the trip through its number exactly when it is the name of
  // a flag, and a number the trip through its name exactly when it is one flag.
  lemma FlagRoundTripExact(s: string, f: int)
    ensures FlagString(FlagForString(s)) == s <==> FlagForString(s) != 0 || s == "unknown event type: 0"
    ensures FlagForString(FlagString(f)) == f <==> SingleFlag(f) || f == 0
    ensures ValidFlag(FlagForString(s)) <==> FlagForString(s) != 0
    ensures FlagForString(s) != 0 ==> SingleFlag(FlagForString(s))
  {
    assert FormatInt(0) == "0";
    if !SingleFlag(f) {
      UnknownName(f);
    }
  }

  // The flags count up by powers of two in this order; other names have none.
  lemma FlagsInOrder(s: string)
    ensures var names := ["AllCommandResponse", "Authenticate", "TokenUpdate", "Enrollment", "CheckOut", "Idle",
                          "IdleNotStartedSince"];
            && (forall k :: 0 <= k < 7 ==> FlagForString(names[k]) == [1, 2, 4, 8, 16, 32, 64][k])
            && (FlagForString(s) != 0 <==> s in names)
  {
  }

  lemma UnknownName(f: int)
    ensures FlagForString("unknown event type: " + FormatInt(f)) == 0
  {
    var s := "unknown event type: " + FormatInt(f);
    assert s[0] == 'u';
  }

  /* ---- Subscriptions ---- */

  datatype Subscription = Subscription(event: string, workflow: string, context: string, eventContext: string)

  type Subscriptions = map<string, Subscription>

  predicate ValidSubscription(es: Option<Subscription>) {
    es.Some? && es.value.event != "" && ValidFlag(FlagForString(es.value.event)) && es.value.workflow != ""
  }

  // A subscription is to one of the seven events and starts some workflow.
  lemma ValidSubscriptionExact(es: Option<Subscription>)
    ensures ValidSubscription(es)
            <==> es.Some? && es.value.workflow != ""
                 && es.value.event in {"AllCommandResponse", "Authenticate", "TokenUpdate", "Enrollment", "CheckOut",
                                       "Idle", "IdleNotStartedSince"}
  {
  }

  function SubscriptionRecord(es: Subscription): Record {
    map[Workflow := es.workflow, Flag := FormatInt(FlagForString(es.event))]
    + ContextRecord(es.context, es.eventContext)
  }

  ghost function SubscriptionAt(subs: Subscriptions, name: string): Record {
    if name in subs then SubscriptionRecord(subs[name]) else map[]
  }

  ghost predicate EventsRep(b: Bucket, subs: Subscriptions) {
    && (forall name :: At(b, name) == SubscriptionAt(subs, name))
    && (forall name :: name in subs ==> name != "" && ValidSubscription(Some(subs[name])))
  }

  // What storing a subscription leaves: where it has no context of its own, the
  // context of the one it replaces stays.
  function Merged(subs: Subscriptions, name: string, es: Subscription): Subscription {
    if name !in subs then es
    else
      es.(context := if |es.context| > 0 then es.context else subs[name].context,
          eventContext := if |es.eventContext| > 0 then es.eventContext else subs[name].eventContext)
  }

  // So a subscription is stored as given exactly when the name is new or it
  // leaves out no context that the one before it had.
  lemma MergedExact(subs: Subscriptions, name: string, es: Subscription)
    ensures Merged(subs, name, es) == es
            <==> name in subs ==>
                   && (es.context == "" ==> subs[name].context == "")
                   && (es.eventContext == "" ==> subs[name].eventContext == "")
  {
  }

  function SetSubscription(b: Bucket, name: string, es: Option<Subscription>): Result<Bucket, Error> {
    if name == "" || !ValidSubscription(es) then Err(InvalidSubscription)
    else Ok(b + Keyed(name, SubscriptionRecord(es.value)))
  }

  lemma SetRep(b: Bucket, subs: Subscriptions, name: string, es: Subscription)
    requires EventsRep(b, subs) && ValidSubscription(Some(es)) && name != ""
    ensures EventsRep(b + Keyed(name, SubscriptionRecord(es)), subs[name := Merged(subs, name, es)])
  {
    hide At;
    hide Keyed;
    var b' := b + Keyed(name, SubscriptionRecord(es));
    forall other
      ensures At(b', other) == SubscriptionAt(subs[name := Merged(subs, name, es)], other)
    {
      assert At(b, other) == SubscriptionAt(subs, other);
      if other == name {
        PutRecord(b, name, SubscriptionRecord(es));
        MergedRecord(subs, name, es);
      } else {
        PutElsewhere(b, name, SubscriptionRecord(es), other);
      }
    }
  }

  function ContextRecord(context: string, eventContext: string): Record {
    (if |context| > 0 then map[Ctx := context] else map[])
    + (if |eventContext| > 0 then map[EventCtx := eventContext] else map[])
  }

  lemma ContextsMerge(a: string, b: string, a': string, b': string)
    ensures ContextRecord(a, b) + ContextRecord(a', b')
            == ContextRecord(if |a'| > 0 then a' else a, if |b'| > 0 then b' else b)
  {
  }

  lemma RecordsMerge(w: string, f: string, c: Record, w': string, f': string, c': Record)
    requires c.Keys + c'.Keys <= {Ctx, EventCtx}
    ensures (map[Workflow := w, Flag := f] + c) + (map[Workflow := w', Flag := f'] + c')
            == map[Workflow := w', Flag := f'] + (c + c')
  {
  }

  lemma MergedRecord(subs: Subscriptions, name: string, es: Subscription)
    ensures SubscriptionAt(subs, name) + SubscriptionRecord(es) == SubscriptionRecord(Merged(subs, name, es))
  {
    if name in subs {
      var was := subs[name];
      ContextsMerge(was.context, was.eventContext, es.context, es.eventContext);
      hide FlagForString;
      RecordsMerge(was.workflow, FormatInt(FlagForString(was.event)), ContextRecord(was.context, was.eventContext),
                   es.workflow, FormatInt(FlagForString(es.event)), ContextRecord(es.context, es.eventContext));
      hide ContextRecord;
    } else {
      assert map[] + SubscriptionRecord(es) == SubscriptionRecord(es);
    }
  }

  function GetSubscription(b: Bucket, name: string): Result<Subscription, Error> {
    if name == "" then Err(InvalidSubscription)
    else
      var workflow :- Get(b, Key(name, Workflow));
      var flag :- Get(b, Key(name, Flag));
      match Atoi(flag)
      case None => Err(InvalidFlag)
      case Some(eventFlag) =>
        Ok(Subscription(FlagString(eventFlag), workflow,
                        if Key(name, Ctx) in b then b[Key(name, Ctx)] else "",
                        if Key(name, EventCtx) in b then b[Key(name, EventCtx)] else ""))
  }

  // Reading gives what was stored, for every name, dots included.
  lemma SubscriptionReads(b: Bucket, subs: Subscriptions, name: string)
    requires EventsRep(b, subs)
    ensures name != "" && name in subs ==> GetSubscription(b, name) == Ok(subs[name])
    ensures name !in subs ==> GetSubscription(b, name).Err?
    ensures Key(name, Flag) in b <==> name in subs
    ensures name in subs ==> Atoi(b[Key(name, Flag)]) == Some(FlagForString(subs[name].event))
  {
    hide At;
    hide FlagString;
    hide FlagForString;
    hide Atoi;
    assert At(b, name) == SubscriptionAt(subs, name);
    FieldAt(b, name, Workflow);
    FieldAt(b, name, Flag);
    FieldAt(b, name, Ctx);
    FieldAt(b, name, EventCtx);
    if name in subs {
      FlagRoundTripExact(subs[name].event, 0);
      AtoiFormatExact(FlagForString(subs[name].event));
      FlagFits(subs[name].event);
    }
  }

  lemma FlagFits(s: string)
    ensures MIN_INT <= FlagForString(s) <= MAX_INT
  {
  }

  const EVENT_FIELDS: set<Field> := {Flag, Workflow, Ctx, EventCtx}

  method DeleteSubscription(b: Bucket, name: string) returns (b': Bucket)
    ensures b' == b - KeySet(name, EVENT_FIELDS)
  {
    b' := DeleteKeysIfExist(b, [Key(name, Flag), Key(name, Workflow), Key(name, Ctx), Key(name, EventCtx)]);
    ghost var keys := [Key(name, Flag), Key(name, Workflow), Key(name, Ctx), Key(name, EventCtx)];
    forall k
      ensures k in keys <==> k in KeySet(name, EVENT_FIELDS)
    {
    }
  }

  lemma DeletedRep(b: Bucket, subs: Subscriptions, name: string)
    requires EventsRep(b, subs)
    ensures EventsRep(b - KeySet(name, EVENT_FIELDS), subs - {name})
  {
    hide At;
    forall other
      ensures At(b - KeySet(name, EVENT_FIELDS), other) == SubscriptionAt(subs - {name}, other)
    {
      assert At(b, other) == SubscriptionAt(subs, other);
      if other == name {
        DropRecord(b, name, EVENT_FIELDS);
        if name in subs {
          assert SubscriptionRecord(subs[name]) - EVENT_FIELDS == map[];
        }
      } else {
        DropElsewhere(b, name, EVENT_FIELDS, other);
      }
    }
  }

  ghost function WithFlag(subs: Subscriptions, f: int): set<string> {
    set name | name in subs && FlagForString(subs[name].event) == f
  }

  // A subscription has the flag of the event that it names.
  lemma WithFlagExact(subs: Subscriptions, f: int, name: string)
    requires SingleFlag(f)
    ensures name in WithFlag(subs, f) <==> name in subs && subs[name].event == FlagString(f)
  {
    if name in subs {
      FlagRoundTripExact(subs[name].event, f);
    }
  }

  // Scans for the subscriptions to an event.
  method FindNamesByEvent(b: Bucket, ghost subs: Subscriptions, f: int) returns (names: seq<string>)
    requires EventsRep(b, subs)
    ensures Distinct(names) && forall name :: name in names <==> name in WithFlag(subs, f)
  {
    var keys := ListKeys(b);
    names := [];
    ghost var good := WithFlag(subs, f);
    assert Collected(names, keys[..0], Flag, good);
    hide EventsRep;
    hide Collected;
    hide FlagForString;
    hide Atoi;
    for n := 0 to |keys|
      invariant Collected(names, keys[..n], Flag, good)
    {
      var k := keys[n];
      assert k in b && k !in keys[..n] && keys[..n + 1] == keys[..n] + [k];
      if HasSuffix(k, Suffix(Flag)) {
        SubscriptionReads(b, subs, Base(k, Flag));
        var eventFlag := Atoi(b[k]);
        if eventFlag.None? || eventFlag.value != f {
          CollectSkip(names, keys[..n], k, Flag, good);
        } else {
          CollectAdd(names, keys[..n], k, Flag, good);
          names := names + [Base(k, Flag)];
        }
      } else {
        CollectSkip(names, keys[..n], k, Flag, good);
      }
    }
    forall name | name in good
      ensures Key(name, Flag) in keys
    {
      SubscriptionReads(b, subs, name);
    }
    CollectedAll(names, keys, Flag, good);
  }

  // The subscriptions under the listed names, in their order.
  ghost predicate AreSubscriptions(subs: Subscriptions, names: seq<string>, found: seq<Subscription>) {
    |found| == |names| && forall n :: 0 <= n < |names| ==> names[n] in subs && found[n] == subs[names[n]]
  }

  method GetAll(b: Bucket, ghost subs: Subscriptions, names: seq<string>) returns (r: Result<seq<Subscription>, Error>)
    requires EventsRep(b, subs)
    ensures r.Ok? <==> forall name :: name in names ==> name != "" && name in subs
    ensures r.Ok? ==> AreSubscriptions(subs, names, r.value)
  {
    var ret: seq<Subscription> := [];
    hide EventsRep;
    hide GetSubscription;
    for n := 0 to |names|
      invariant AreSubscriptions(subs, names[..n], ret)
      invariant forall name :: name in names[..n] ==> name != "" && name in subs
    {
      assert names[n] in names && names[..n + 1] == names[..n] + [names[n]];
      SubscriptionReads(b, subs, names[n]);
      EmptyName(b);
      match GetSubscription(b, names[n])
      case Err(e) => return Err(e);
      case Ok(es) => ret := ret + [es];
    }
    assert names[..|names|] == names;
    r := Ok(ret);
  }

  lemma EmptyName(b: Bucket)
    ensures GetSubscription(b, "").Err?
  {
  }

  lemma NamedSubscriptions(b: Bucket, subs: Subscriptions, f: int)
    requires EventsRep(b, subs)
    ensures forall name :: name in WithFlag(subs, f) ==> name != "" && name in subs
  {
  }

  // The part of the key-value backend that keeps event subscriptions.
  class EventStore {
    var eventStore: Bucket
    ghost var subs: Subscriptions

    ghost predicate Valid()
      reads this
    {
      EventsRep(eventStore, subs)
    }

    constructor ()
      ensures Valid() && subs == map[]
    {
      eventStore, subs := map[], map[];
    }

    method StoreEventSubscription(name: string, es: Option<Subscription>) returns (err: Option<Error>)
      requires Valid()
      modifies this
      ensures Valid()
      ensures err.None? <==> name != "" && ValidSubscription(es)
      ensures subs == if err.None? then old(subs)[name := Merged(old(subs), name, es.value)] else old(subs)
    {
      hide EventsRep;
      match SetSubscription(eventStore, name, es)
      case Err(e) => err := Some(e);
      case Ok(b) =>
        SetRep(eventStore, subs, name, es.value);
        eventStore := b;
        subs := subs[name := Merged(subs, name, es.value)];
        err := None;
    }

    method RetrieveEventSubscriptions(names: seq<string>) returns (r: Result<seq<Subscription>, Error>)
      requires Valid()
      ensures r.Ok? <==> names != [] && forall name :: name in names ==> name != "" && name in subs
      ensures r.Ok? ==> AreSubscriptions(subs, names, r.value)
    {
      if |names| < 1 {
        return Err(NoNames);
      }
      r := GetAll(eventStore, subs, names);
    }

    // The subscriptions to exactly that event, each once.
    method RetrieveEventSubscriptionsByEvent(f: int) returns (r: Result<seq<Subscription>, Error>,
                                             ghost names: seq<string>)
      requires Valid()
      ensures r.Ok? <==> f >= 1
      ensures Distinct(names)
      ensures f >= 1 ==> AreSubscriptions(subs, names, r.value)
      ensures f >= 1 ==> forall name :: name in names <==> name in WithFlag(subs, f)
    {
      names := [];
      if f < 1 {
        return Err(InvalidEventFlag), names;
      }
      var found := FindNamesByEvent(eventStore, subs, f);
      names := found;
      NamedSubscriptions(eventStore, subs, f);
      r := GetAll(eventStore, subs, found);
    }

    method DeleteEventSubscription(name: string)
      requires Valid()
      modifies this
      ensures Valid() && subs == old(subs) - {name}
    {
      hide EventsRep;
      DeletedRep(eventStore, subs, name);
      eventStore := DeleteSubscription(eventStore, name);
      subs := subs - {name};
    }
  }
}
