/**
 Flat key-value buckets. A record with several fields is spread over keys that
 join the record's name and the field's suffix with no separator; this module
 shows that such keys never collide, so that a bucket is a table of records.
 */
module Buckets {
  import opened Wrappers
  import opened Text
  import opened Records

  type Bucket = map<string, Bytes>

  datatype Field =
    | Meta | IDs | Ctx | Cmds | NotUntil | Timeout                        // step bucket
    | StepRef | ReqType | Raw | LastPush | Report | Complete | Owner      // id-command bucket
    | Flag | Workflow | EventCtx                                          // event bucket, with Ctx

  function Suffix(f: Field): string {
    match f
    case Meta => ".meta"
    case IDs => ".ids"
    case Ctx => ".ctx"
    case Cmds => ".cmds"
    case NotUntil => ".notuntil"
    case Timeout => ".timeout"
    case StepRef => ".step"
    case ReqType => ".reqtype"
    case Raw => ".raw"
    case LastPush => ".lastpush"
    case Report => ".result"
    case Complete => ".done"
    case Owner => ".id"
    case Flag => ".flag"
    case Workflow => ".name"
    case EventCtx => ".evctx"
  }

  function Key(base: string, f: Field): string {
    base + Suffix(f)
  }

  /* ---- Keys do not collide ---- */

  // A suffix starts with the last dot of any key that ends in it.
  predicate StartsAtLastDot(suffix: string) {
    suffix != "" && suffix[0] == '.' && '.' !in suffix[1..]
  }

  lemma SuffixStartsAtLastDot(f: Field)
    ensures StartsAtLastDot(Suffix(f))
  {
    match f
    case Meta => assert Suffix(f)[1..] == "meta";
    case IDs => assert Suffix(f)[1..] == "ids";
    case Ctx => assert Suffix(f)[1..] == "ctx";
    case Cmds => assert Suffix(f)[1..] == "cmds";
    case NotUntil => assert Suffix(f)[1..] == "notuntil";
    case Timeout => assert Suffix(f)[1..] == "timeout";
    case StepRef => assert Suffix(f)[1..] == "step";
    case ReqType => assert Suffix(f)[1..] == "reqtype";
    case Raw => assert Suffix(f)[1..] == "raw";
    case LastPush => assert Suffix(f)[1..] == "lastpush";
    case Report => assert Suffix(f)[1..] == "result";
    case Complete => assert Suffix(f)[1..] == "done";
    case Owner => assert Suffix(f)[1..] == "id";
    case Flag => assert Suffix(f)[1..] == "flag";
    case Workflow => assert Suffix(f)[1..] == "name";
    case EventCtx => assert Suffix(f)[1..] == "evctx";
  }

  // A number that tells the suffixes apart: their length, then their last two
  // characters.
  function Tag(s: string): (int, char, char)
    requires |s| >= 2
  {
    (|s|, s[|s| - 1], s[|s| - 2])
  }

  lemma SuffixInjective(f: Field, g: Field)
    requires Suffix(f) == Suffix(g)
    ensures f == g
  {
    assert Tag(Suffix(f)) == Tag(Suffix(g));
  }

  // If y starts later than x does, its dot lies inside x.
  lemma LaterDot(a: string, x: string, b: string, y: string)
    requires a + x == b + y && y != "" && y[0] == '.' && |a| < |b|
    ensures '.' in x[1..]
  {
    assert (b + y)[|b|] == '.';
    assert (a + x)[|b|] == x[1..][|b| - |a| - 1];
  }

  lemma DotSplitsUniquely(a: string, x: string, b: string, y: string)
    requires StartsAtLastDot(x) && StartsAtLastDot(y) && a + x == b + y
    ensures |a| == |b|
  {
    if |a| < |b| {
      LaterDot(a, x, b, y);
    } else if |b| < |a| {
      LaterDot(b, y, a, x);
    }
  }

  // Whatever the two names are, dots included, equal keys are the same field
  // of the same record.
  lemma KeyInjective(a: string, f: Field, b: string, g: Field)
    requires Key(a, f) == Key(b, g)
    ensures a == b && f == g
  {
    SuffixStartsAtLastDot(f);
    SuffixStartsAtLastDot(g);
    DotSplitsUniquely(a, Suffix(f), b, Suffix(g));
    assert a == Key(a, f)[..|a|] && b == Key(b, g)[..|b|];
    assert Suffix(f) == Key(a, f)[|a|..] && Suffix(g) == Key(b, g)[|b|..];
    SuffixInjective(f, g);
  }

  function Base(k: string, f: Field): (base: string)
    requires HasSuffix(k, Suffix(f))
    ensures Key(base, f) == k
  {
    k[..|k| - |Suffix(f)|]
  }

  lemma BaseOfKey(base: string, f: Field)
    ensures HasSuffix(Key(base, f), Suffix(f)) && Base(Key(base, f), f) == base
  {
  }

  // An enrollment ID followed by a command UUID of known length comes apart in
  // one way only.
  lemma OwnerUuidInjective(id: string, uuid: string, id': string, uuid': string)
    requires |uuid| == |uuid'| && id + uuid == id' + uuid'
    ensures id == id' && uuid == uuid'
  {
    assert |id| == |id'|;
    assert id == (id + uuid)[..|id|] && id' == (id' + uuid')[..|id'|];
    assert uuid == (id + uuid)[|id|..] && uuid' == (id' + uuid')[|id'|..];
  }

  /* ---- A bucket as a table of records ---- */

  type Record = map<Field, Bytes>

  function At(m: Bucket, base: string): Record {
    map f: Field | Key(base, f) in m :: m[Key(base, f)]
  }

  lemma FieldAt(b: Bucket, base: string, f: Field)
    ensures f in At(b, base) <==> Key(base, f) in b
    ensures f in At(b, base) ==> At(b, base)[f] == b[Key(base, f)]
  {
  }

  // The keys under which a record's fields are written.
  function Keyed(base: string, fields: Record): (keyed: Bucket)
    ensures forall f :: f in fields ==> Key(base, f) in keyed && keyed[Key(base, f)] == fields[f]
    ensures forall k :: k in keyed ==> exists f :: f in fields && k == Key(base, f)
  {
    KeyInjectiveAt(base);
    map f | f in fields :: Key(base, f) := fields[f]
  }

  lemma KeyInjectiveAt(base: string)
    ensures forall f, g :: Key(base, f) == Key(base, g) ==> f == g
  {
    forall f, g | Key(base, f) == Key(base, g) ensures f == g {
      KeyInjective(base, f, base, g);
    }
  }

  function KeySet(base: string, fields: set<Field>): set<string> {
    set f | f in fields :: Key(base, f)
  }

  lemma PutField(m: Bucket, base: string, fields: Record, f: Field)
    ensures Key(base, f) in m + Keyed(base, fields) <==> Key(base, f) in m || f in fields
    ensures Key(base, f) in m + Keyed(base, fields) ==>
              (m + Keyed(base, fields))[Key(base, f)] == if f in fields then fields[f] else m[Key(base, f)]
  {
    if Key(base, f) in Keyed(base, fields) {
      var g :| g in fields && Key(base, f) == Key(base, g);
      KeyInjective(base, f, base, g);
    }
  }

  lemma PutRecord(m: Bucket, base: string, fields: Record)
    ensures At(m + Keyed(base, fields), base) == At(m, base) + fields
  {
    forall f: Field {
      PutField(m, base, fields, f);
    }
  }

  lemma PutElsewhere(m: Bucket, base: string, fields: Record, other: string)
    requires other != base
    ensures At(m + Keyed(base, fields), other) == At(m, other)
  {
    forall f: Field
      ensures Key(other, f) !in Keyed(base, fields)
    {
      if Key(other, f) in Keyed(base, fields) {
        var g :| g in fields && Key(other, f) == Key(base, g);
        KeyInjective(other, f, base, g);
      }
    }
  }

  lemma DropRecord(m: Bucket, base: string, fields: set<Field>)
    ensures At(m - KeySet(base, fields), base) == At(m, base) - fields
  {
    forall f: Field
      ensures Key(base, f) in KeySet(base, fields) <==> f in fields
    {
      if Key(base, f) in KeySet(base, fields) {
        var g :| g in fields && Key(base, f) == Key(base, g);
        KeyInjective(base, f, base, g);
      }
    }
  }

  lemma DropElsewhere(m: Bucket, base: string, fields: set<Field>, other: string)
    requires other != base
    ensures At(m - KeySet(base, fields), other) == At(m, other)
  {
    forall f: Field
      ensures Key(other, f) !in KeySet(base, fields)
    {
      if Key(other, f) in KeySet(base, fields) {
        var g :| g in fields && Key(other, f) == Key(base, g);
        KeyInjective(other, f, base, g);
      }
    }
  }

  /* ---- Reading a bucket ---- */

  datatype Error =
    | KeyNotFound(key: string)
    | CommandNotFound(uuid: string)
    | DuplicateCommand(id: string, uuid: string)
    | InvalidStep(reason: ValidationError)
    | InvalidMeta
    | InvalidTime
    | InvalidFlag
    | InvalidSubscription
    | NoNames
    | InvalidEventFlag
    | EmptyIDOrUUID

  function Get(m: Bucket, k: string): Result<Bytes, Error> {
    if k in m then Ok(m[k]) else Err(KeyNotFound(k))
  }

  // The keys of a bucket in no particular order.
  method ListKeys(m: Bucket) returns (keys: seq<string>)
    ensures Distinct(keys)
    ensures forall k :: k in keys <==> k in m
  {
    keys := Elements(m.Keys);
  }

  // Deletes the listed keys that exist.
  method DeleteKeysIfExist(m: Bucket, keys: seq<string>) returns (m': Bucket)
    ensures m' == m - (set k | k in keys)
  {
    m' := m;
    for n := 0 to |keys|
      invariant m' == m - (set k | k in keys[..n])
    {
      if keys[n] in m' {
        m' := m' - {keys[n]};
      }
      assert keys[..n + 1] == keys[..n] + [keys[n]];
    }
    assert keys[..|keys|] == keys;
  }

  /* ---- Times as text ---- */

  function FormatTime(t: Time): Bytes {
    FormatInt(t)
  }

  function ParseTime(b: Bytes): Result<Time, Error> {
    match ParseInt(b)
    case Some(t) => Ok(t)
    case None => Err(InvalidTime)
  }

  lemma ParseFormatTime(t: Time)
    ensures ParseTime(FormatTime(t)) == Ok(t)
  {
    ParseFormatInt(t);
  }
}
