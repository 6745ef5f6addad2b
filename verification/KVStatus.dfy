/**
 When workflows were last started: one bucket entry for each enrollment and
 workflow, under the two names joined by a dot.
 */
module KVStatus {
  import opened Wrappers
  import opened Text
  import opened Records
  import opened Buckets

  // Start times by the joined name of enrollment and workflow.
  type Starts = map<string, Time>

  function WorkflowStatusKey(id: string, workflowName: string): string {
    id + "." + workflowName
  }

  predicate DotFree(id: string) {
    '.' !in id
  }

  // Whether clearing an ID forgets the start of a workflow for another: its own
  // starts, those of IDs that extend it past a dot, and those of a shorter ID
  // whose workflow name makes up for the rest of it.
  predicate Hits(id: string, other: string, workflowName: string) {
    || other == id
    || HasPrefix(other, id + ".")
    || (HasPrefix(id, other + ".") && HasPrefix(workflowName, id[|other| + 1..] + "."))
  }

  // Whether two enrollments and workflows share one start time: one ID extends
  // the other past a dot by what the other's workflow name has more.
  predicate Shared(id: string, workflowName: string, other: string, workflowName': string) {
    || (other == id && workflowName' == workflowName)
    || (HasPrefix(id, other + ".") && workflowName' == id[|other| + 1..] + "." + workflowName)
    || (HasPrefix(other, id + ".") && workflowName == other[|id| + 1..] + "." + workflowName')
  }

  // For any IDs and names at all.
  lemma ClearHitsExact(id: string, other: string, workflowName: string)
    ensures HasPrefix(WorkflowStatusKey(other, workflowName), id + ".") <==> Hits(id, other, workflowName)
  {
    var key := WorkflowStatusKey(other, workflowName);
    var prefix := id + ".";
    if |id| < |other| {
      assert |prefix| <= |key| && key[..|prefix|] == other[..|prefix|];
    } else if |id| == |other| {
      assert key[..|prefix|] == other + ".";
      assert prefix[..|id|] == id && (other + ".")[..|other|] == other;
    } else {
      assert key == (other + ".") + workflowName;
      LongerPrefix(key, other + ".", workflowName, id);
    }
  }

  lemma LongerPrefix(key: string, head: string, tail: string, id: string)
    requires key == head + tail && |head| <= |id|
    ensures HasPrefix(key, id + ".") <==> HasPrefix(id, head) && HasPrefix(tail, id[|head|..] + ".")
  {
    var rest := id[|head|..] + ".";
    if |rest| <= |tail| {
      assert key[..|head| + |rest|] == head + tail[..|rest|];
    }
    assert HasPrefix(id, head) ==> id + "." == head + rest;
    assert (id + ".")[..|head|] == id[..|head|] && (id + ".")[|head|..] == rest;
    if HasPrefix(key, id + ".") {
      assert key[..|head|] == (id + ".")[..|head|];
      assert (head + tail[..|rest|])[|head|..] == tail[..|rest|];
    }
  }

  lemma LongerShares(id: string, workflowName: string, other: string, workflowName': string)
    requires |other| < |id|
    ensures WorkflowStatusKey(id, workflowName) == WorkflowStatusKey(other, workflowName')
            <==> HasPrefix(id, other + ".") && workflowName' == id[|other| + 1..] + "." + workflowName
  {
    var key, key' := WorkflowStatusKey(id, workflowName), WorkflowStatusKey(other, workflowName');
    var head := other + ".";
    assert key[..|head|] == id[..|head|] && key[|head|..] == id[|head|..] + "." + workflowName;
    assert key'[..|head|] == head && key'[|head|..] == workflowName';
    assert key == key[..|head|] + key[|head|..] && key' == key'[..|head|] + key'[|head|..];
  }

  lemma SharedExact(id: string, workflowName: string, other: string, workflowName': string)
    ensures WorkflowStatusKey(id, workflowName) == WorkflowStatusKey(other, workflowName')
            <==> Shared(id, workflowName, other, workflowName')
  {
    if |other| < |id| {
      LongerShares(id, workflowName, other, workflowName');
    } else if |id| < |other| {
      LongerShares(other, workflowName', id, workflowName);
    } else {
      var key, key' := WorkflowStatusKey(id, workflowName), WorkflowStatusKey(other, workflowName');
      assert key[..|id|] == id && key'[..|id|] == other;
      assert key[|id| + 1..] == workflowName && key'[|id| + 1..] == workflowName';
    }
  }

  lemma DotFreeHasNoPrefix(id: string, other: string)
    ensures HasPrefix(id, other + ".") ==> !DotFree(id)
  {
    if HasPrefix(id, other + ".") {
      assert id[|other|] == (other + ".")[|other|];
    }
  }

  // Between IDs without dots nothing is shared and a clear hits its own ID only.
  lemma DotFreeApart(id: string, workflowName: string, other: string, workflowName': string)
    requires DotFree(id) && DotFree(other)
    ensures Hits(id, other, workflowName') <==> other == id
    ensures Shared(id, workflowName, other, workflowName') <==> other == id && workflowName' == workflowName
  {
    DotFreeHasNoPrefix(id, other);
    DotFreeHasNoPrefix(other, id);
  }

  ghost predicate StartsRep(b: Bucket, starts: Starts) {
    b.Keys == starts.Keys && forall key :: key in starts ==> b[key] == FormatTime(starts[key])
  }

  // The zero time stands for never.
  ghost function LastStart(starts: Starts, id: string, workflowName: string): Time {
    var key := WorkflowStatusKey(id, workflowName);
    if key in starts then starts[key] else 0
  }

  function ReadStarted(b: Bucket, id: string, workflowName: string): Result<Time, Error> {
    if WorkflowStatusKey(id, workflowName) !in b then Ok(0)
    else ParseTime(b[WorkflowStatusKey(id, workflowName)])
  }

  lemma ReadStartedExact(b: Bucket, starts: Starts, id: string, workflowName: string)
    requires StartsRep(b, starts)
    ensures ReadStarted(b, id, workflowName) == Ok(LastStart(starts, id, workflowName))
  {
    ParseFormatTime(LastStart(starts, id, workflowName));
  }

  ghost function WithStart(starts: Starts, ids: seq<string>, workflowName: string, started: Time): Starts {
    if ids == [] then starts
    else
      var before := WithStart(starts, ids[..|ids| - 1], workflowName, started);
      before[WorkflowStatusKey(ids[|ids| - 1], workflowName) := started]
  }

  // Recording sets the start for the given IDs, and for whoever shares theirs.
  lemma {:induction false} WithStartExact(starts: Starts, ids: seq<string>, workflowName: string, started: Time,
                                          other: string, w: string)
    ensures LastStart(WithStart(starts, ids, workflowName, started), other, w)
            == if exists id :: id in ids && Shared(id, workflowName, other, w) then started
               else LastStart(starts, other, w)
  {
    if ids != [] {
      var last := ids[|ids| - 1];
      var rest := ids[..|ids| - 1];
      assert ids == rest + [last];
      WithStartExact(starts, rest, workflowName, started, other, w);
      SharedExact(last, workflowName, other, w);
      hide Shared;
    }
  }

  method WriteStarted(b: Bucket, ghost starts: Starts, ids: seq<string>, workflowName: string, started: Time)
    returns (b': Bucket)
    requires StartsRep(b, starts)
    ensures StartsRep(b', WithStart(starts, ids, workflowName, started))
  {
    b' := b;
    for m := 0 to |ids|
      invariant StartsRep(b', WithStart(starts, ids[..m], workflowName, started))
    {
      assert ids[..m + 1][..m] == ids[..m];
      b' := b'[WorkflowStatusKey(ids[m], workflowName) := FormatTime(started)];
    }
    assert ids[..|ids|] == ids;
  }

  // What is left without the keys that start with the prefix.
  ghost function Unprefixed<V>(b: map<string, V>, prefix: string): map<string, V> {
    map k | k in b && !HasPrefix(k, prefix) :: b[k]
  }

  // Clearing an ID forgets exactly the starts that it hits.
  lemma ClearedExact(starts: Starts, id: string, other: string, w: string)
    ensures LastStart(Unprefixed(starts, id + "."), other, w)
            == if Hits(id, other, w) then 0 else LastStart(starts, other, w)
  {
    ClearHitsExact(id, other, w);
  }

  method DeleteStarted(b: Bucket, id: string) returns (b': Bucket)
    ensures b' == Unprefixed(b, id + ".")
  {
    var keys := ListKeys(b);
    var toDelete: seq<string> := [];
    for m := 0 to |keys|
      invariant forall k :: k in toDelete <==> k in keys[..m] && HasPrefix(k, id + ".")
    {
      assert keys[..m + 1] == keys[..m] + [keys[m]];
      if HasPrefix(keys[m], id + ".") {
        toDelete := toDelete + [keys[m]];
      }
    }
    assert keys[..|keys|] == keys;
    b' := DeleteKeysIfExist(b, toDelete);
  }

  lemma ClearedRep(b: Bucket, starts: Starts, id: string)
    requires StartsRep(b, starts)
    ensures StartsRep(Unprefixed(b, id + "."), Unprefixed(starts, id + "."))
  {
  }
}
