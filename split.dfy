/** What MasterServer computes, as functions on task values: the split of
    a task into chunks, the positional dispatch to slaves, the merge of the
    results, and the whole submitTask round trip, with the facts that follow
    from the split's integer arithmetic. */
module MasterSpec {
  import opened Common
  import opened LinkedMap
  import opened Slave

  /** A task's observable state: its name and its entries in order. */
  datatype TaskValue = TaskValue(name: string, entries: seq<Entry>)

  /** The chunk length splitTask uses, total / slaveNum + 1: large enough
      that slaveNum chunks of it hold more than total entries. */
  function ChunkLength(total: nat, slaveNum: nat): (length: nat)
    requires 1 <= slaveNum
    ensures 1 <= length
    ensures total < length * slaveNum
  {
    var q := total / slaveNum;
    assert total == q * slaveNum + total % slaveNum;
    q + 1
  }

  /** The chunks the counting loop cuts from a key sequence: a chunk is
      flushed each time it reaches `length` keys, and whatever is left,
      possibly nothing, is flushed as the final chunk. */
  function Chunks(keys: seq<string>, length: nat): (cs: seq<seq<string>>)
    requires 1 <= length
    decreases |keys|
  {
    if |keys| < length then [keys]
    else [keys[..length]] + Chunks(keys[length..], length)
  }

  function Flatten(css: seq<seq<string>>): seq<string> {
    if css == [] then [] else css[0] + Flatten(css[1..])
  }

  /** Putting the chunks back together in order gives the keys back. */
  lemma {:induction false} ChunksFlatten(keys: seq<string>, length: nat)
    requires 1 <= length
    ensures Flatten(Chunks(keys, length)) == keys
    decreases |keys|
  {
    if |keys| >= length {
      ChunksFlatten(keys[length..], length);
      assert keys == keys[..length] + keys[length..];
    }
  }

  /** Removing one chunk's worth of entries removes one from the quotient
      and leaves the remainder. */
  lemma DivSubtract(n: nat, d: nat)
    requires 1 <= d <= n
    ensures (n - d) / d == n / d - 1
    ensures (n - d) % d == n % d
  {
    var q, r := (n - d) / d, (n - d) % d;
    assert n - d == q * d + r;
    assert n == (q + 1) * d + r;
    DivUnique(n, d, q + 1, r);
  }

  /** Division is determined by its defining equation. */
  lemma DivUnique(n: nat, d: nat, q: int, r: int)
    requires 1 <= d && n == q * d + r && 0 <= r < d
    ensures q == n / d && r == n % d
  {
    var q', r' := n / d, n % d;
    assert n == q' * d + r';
    assert (q - q') * d == r' - r;
    if q > q' {
      MulAtLeast(q - q', d);
    } else if q < q' {
      MulAtLeast(q' - q, d);
    }
  }

  lemma MulAtLeast(a: int, d: int)
    requires 1 <= a && 1 <= d
    ensures d <= a * d
  {
    assert a * d == (a - 1) * d + d;
  }

  /** The shape of the split: total / length + 1 chunks, every chunk but
      the last holding exactly `length` keys, and the last holding
      total mod length keys, which is none when length divides total. */
  lemma {:induction false} ChunksShape(keys: seq<string>, length: nat)
    requires 1 <= length
    ensures |Chunks(keys, length)| == |keys| / length + 1
    ensures forall i :: 0 <= i < |Chunks(keys, length)| - 1 ==> |Chunks(keys, length)[i]| == length
    ensures |Chunks(keys, length)[|Chunks(keys, length)| - 1]| == |keys| % length
    decreases |keys|
  {
    if |keys| < length {
      DivUnique(|keys|, length, 0, |keys|);
    } else {
      ChunksShape(keys[length..], length);
      DivSubtract(|keys|, length);
    }
  }

  /** The number of chunks never exceeds the number of slaves, so the
      positional lookup of a slave for every chunk stays in range. */
  lemma ChunkCountBound(total: nat, slaveNum: nat)
    requires 1 <= slaveNum
    ensures total / ChunkLength(total, slaveNum) + 1 <= slaveNum
  {
    var length := ChunkLength(total, slaveNum);
    var c := total / length;
    assert c * length <= total;
  }

  /** Entries for the given keys with null results (addSubTask). */
  function NullEntries(ks: seq<string>): (e: seq<Entry>)
    ensures |e| == |ks|
    ensures forall i :: 0 <= i < |ks| ==> e[i] == Entry(ks[i], None)
    ensures Keys(e) == ks
  {
    seq(|ks|, i requires 0 <= i < |ks| => Entry(ks[i], None))
  }

  /** Adding the next key of a duplicate-free key sequence to the entries
      built from the keys before it never meets a duplicate and extends
      them by one null entry. */
  lemma NullEntriesNext(keys: seq<string>, lo: nat, k: nat)
    requires Distinct(keys) && lo <= k < |keys|
    ensures !ContainsKey(NullEntries(keys[lo..k]), keys[k])
    ensures keys[lo..k] + [keys[k]] == keys[lo..k + 1]
    ensures NullEntries(keys[lo..k]) + [Entry(keys[k], None)] == NullEntries(keys[lo..k + 1])
  {
  }

  /** splitTask: chunk i is named after the main task followed by the
      decimal digits of i, and holds the i-th chunk of keys with null
      results. */
  function Split(name: string, entries: seq<Entry>, slaveNum: nat): (parts: seq<TaskValue>)
    requires 1 <= slaveNum
  {
    Label(name, 0, Chunks(Keys(entries), ChunkLength(|entries|, slaveNum)))
  }

  /** The chunks cs, numbered from `from`: chunk i becomes the part named
      name + (from + i) with null results. */
  function Label(name: string, from: nat, cs: seq<seq<string>>): (parts: seq<TaskValue>)
  {
    seq(|cs|, i requires 0 <= i < |cs| => TaskValue(name + Decimal(from + i), NullEntries(cs[i])))
  }

  /** Numbering a chunk list that starts with chunk c from `from`. */
  lemma LabelCons(name: string, from: nat, c: seq<string>, cs: seq<seq<string>>)
    ensures Label(name, from, [c] + cs) == [TaskValue(name + Decimal(from), NullEntries(c))] + Label(name, from + 1, cs)
  {
  }

  /** The counting loop of splitTask, from key k on: `chunk` holds the keys
      added to the current chunk (always fewer than `length`), `index` is
      the current chunk's number and `done` the chunks already built. A key
      that fills the chunk builds it; at the end the chunk is built
      whatever it holds. */
  function SplitLoop(name: string, keys: seq<string>, length: nat, k: nat, index: nat,
                     chunk: seq<string>, done: seq<TaskValue>): seq<TaskValue>
    requires 1 <= length && k <= |keys|
    decreases |keys| - k
  {
    if k == |keys| then done + [TaskValue(name + Decimal(index), NullEntries(chunk))]
    else if |chunk| + 1 == length then
      SplitLoop(name, keys, length, k + 1, index + 1, [], done + [TaskValue(name + Decimal(index), NullEntries(chunk + [keys[k]]))])
    else SplitLoop(name, keys, length, k + 1, index, chunk + [keys[k]], done)
  }

  /** The loop cuts the keys it has still to see, after those already in
      the current chunk, into the chunks of Chunks, numbered on from the
      current index. */
  lemma {:induction false} SplitLoopChunks(name: string, keys: seq<string>, length: nat, k: nat, index: nat,
                                           chunk: seq<string>, done: seq<TaskValue>)
    requires 1 <= length && k <= |keys| && |chunk| < length
    ensures SplitLoop(name, keys, length, k, index, chunk, done)
            == done + Label(name, index, Chunks(chunk + keys[k..], length))
    decreases |keys| - k
  {
    if k == |keys| {
      assert chunk + keys[k..] == chunk;
    } else {
      var next := chunk + [keys[k]];
      assert chunk + keys[k..] == next + keys[k + 1..];
      if |next| == length {
        var built := TaskValue(name + Decimal(index), NullEntries(next));
        SplitLoopChunks(name, keys, length, k + 1, index + 1, [], done + [built]);
        assert [] + keys[k + 1..] == keys[k + 1..];
        var all := next + keys[k + 1..];
        assert all[..length] == next && all[length..] == keys[k + 1..];
        LabelCons(name, index, next, Chunks(keys[k + 1..], length));
      } else {
        SplitLoopChunks(name, keys, length, k + 1, index, next, done);
      }
    }
  }

  /** Run from the start, the loop computes the split. */
  lemma SplitLoopIsSplit(name: string, entries: seq<Entry>, slaveNum: nat)
    requires 1 <= slaveNum
    ensures SplitLoop(name, Keys(entries), ChunkLength(|entries|, slaveNum), 0, 0, [], [])
            == Split(name, entries, slaveNum)
  {
    var keys := Keys(entries);
    SplitLoopChunks(name, keys, ChunkLength(|entries|, slaveNum), 0, 0, [], []);
    assert [] + keys[0..] == keys;
  }

  /** The keys of each part, in order. */
  function PartKeys(parts: seq<TaskValue>): seq<seq<string>> {
    seq(|parts|, i requires 0 <= i < |parts| => Keys(parts[i].entries))
  }

  /** Everything the split promises about its parts. */
  lemma SplitProperties(name: string, entries: seq<Entry>, slaveNum: nat)
    requires 1 <= slaveNum
    ensures var parts := Split(name, entries, slaveNum);
            var length := ChunkLength(|entries|, slaveNum);
            && |parts| == |entries| / length + 1
            && |parts| <= slaveNum
            && (forall i :: 0 <= i < |parts| ==> parts[i].name == name + Decimal(i))
            && (forall i, j :: 0 <= i < |parts| && 0 <= j < |parts[i].entries| ==> parts[i].entries[j].value == None)
            && (forall i :: 0 <= i < |parts| - 1 ==> |parts[i].entries| == length)
            && |parts[|parts| - 1].entries| == |entries| % length
            && Flatten(PartKeys(parts)) == Keys(entries)
  {
    var length := ChunkLength(|entries|, slaveNum);
    var cs := Chunks(Keys(entries), length);
    var parts := Split(name, entries, slaveNum);
    ChunksShape(Keys(entries), length);
    ChunkCountBound(|entries|, slaveNum);
    ChunksFlatten(Keys(entries), length);
    assert PartKeys(parts) == cs;
  }

  /** Three requests over three slaves: the chunk length is 2, so only two
      chunks are cut, of two requests and one, and the third slave gets
      nothing. */
  lemma ThreeOverThree(name: string, entries: seq<Entry>)
    requires |entries| == 3
    ensures var parts := Split(name, entries, 3);
            |parts| == 2 && |parts[0].entries| == 2 && |parts[1].entries| == 1
  {
    assert ChunkLength(3, 3) == 2;
    SplitProperties(name, entries, 3);
  }

  /** There is a slave for every part. */
  lemma SplitSize(name: string, entries: seq<Entry>, slaveNum: nat)
    requires 1 <= slaveNum
    ensures 1 <= |Split(name, entries, slaveNum)| <= slaveNum
  {
    ChunksShape(Keys(entries), ChunkLength(|entries|, slaveNum));
    ChunkCountBound(|entries|, slaveNum);
  }

  /** Every chunk of a duplicate-free key sequence is duplicate-free. */
  lemma {:induction false} ChunksDistinct(keys: seq<string>, length: nat)
    requires 1 <= length && Distinct(keys)
    ensures forall i :: 0 <= i < |Chunks(keys, length)| ==> Distinct(Chunks(keys, length)[i])
    decreases |keys|
  {
    if |keys| >= length {
      ChunksDistinct(keys[length..], length);
    }
  }

  /** Each part is a valid task: its name is not empty and its requests are
      distinct. */
  lemma SplitPartsValid(name: string, entries: seq<Entry>, slaveNum: nat)
    requires 1 <= slaveNum && DistinctKeys(entries)
    ensures var parts := Split(name, entries, slaveNum);
            forall i :: 0 <= i < |parts| ==> |parts[i].name| > 0 && DistinctKeys(parts[i].entries)
  {
    var cs := Chunks(Keys(entries), ChunkLength(|entries|, slaveNum));
    DistinctKeysIff(entries);
    ChunksDistinct(Keys(entries), ChunkLength(|entries|, slaveNum));
    forall i | 0 <= i < |cs| ensures DistinctKeys(NullEntries(cs[i])) {
      DistinctKeysIff(NullEntries(cs[i]));
    }
  }

  /** The final chunk is empty exactly when the chunk length divides the
      size of the task. */
  lemma LastPartEmpty(name: string, entries: seq<Entry>, slaveNum: nat)
    requires 1 <= slaveNum
    ensures var parts := Split(name, entries, slaveNum);
            parts[|parts| - 1].entries == [] <==> |entries| % ChunkLength(|entries|, slaveNum) == 0
  {
    SplitProperties(name, entries, slaveNum);
  }

  /** Some part holds no entries. */
  predicate HasEmptyPart(parts: seq<TaskValue>) {
    exists i :: 0 <= i < |parts| && parts[i].entries == []
  }

  /** No part other than the last can be empty, so some part is empty
      exactly when the chunk length divides the size of the task. */
  lemma EmptyPartIsLast(name: string, entries: seq<Entry>, slaveNum: nat)
    requires 1 <= slaveNum
    ensures var parts := Split(name, entries, slaveNum);
            HasEmptyPart(parts) <==> |entries| % ChunkLength(|entries|, slaveNum) == 0
  {
    var parts := Split(name, entries, slaveNum);
    SplitProperties(name, entries, slaveNum);
    if |entries| % ChunkLength(|entries|, slaveNum) == 0 {
      assert parts[|parts| - 1].entries == [];
    }
  }

  /** map: part i goes to slave i; the results come back in part order,
      and any slave that throws makes the whole call fail with
      RuntimeException. A slave throws on an empty part. */
  function MapParts(parts: seq<TaskValue>): (r: Result<seq<TaskValue>>)
  {
    if HasEmptyPart(parts) then Err(Runtime) else Ok(ExecuteParts(parts))
  }

  /** Every part executed by its slave, in part order. */
  function ExecuteParts(parts: seq<TaskValue>): seq<TaskValue> {
    seq(|parts|, i requires 0 <= i < |parts| => TaskValue(parts[i].name, Executed(parts[i].entries)))
  }

  /** All entries of all parts, part by part, each part in its own order. */
  function Merge(parts: seq<TaskValue>): seq<Entry> {
    if parts == [] then [] else parts[0].entries + Merge(parts[1..])
  }

  lemma {:induction false} MergeKeys(parts: seq<TaskValue>)
    ensures Keys(Merge(parts)) == Flatten(PartKeys(parts))
  {
    if parts != [] {
      MergeKeys(parts[1..]);
      KeysAppend(parts[0].entries, Merge(parts[1..]));
      assert PartKeys(parts[1..]) == PartKeys(parts)[1..];
    }
  }

  lemma {:induction false} MergeMember(parts: seq<TaskValue>, k: nat)
    requires k < |Merge(parts)|
    ensures exists i, j :: 0 <= i < |parts| && 0 <= j < |parts[i].entries| && Merge(parts)[k] == parts[i].entries[j]
  {
    if k < |parts[0].entries| {
      assert Merge(parts)[k] == parts[0].entries[k];
    } else {
      MergeMember(parts[1..], k - |parts[0].entries|);
      var i, j :| 0 <= i < |parts[1..]| && 0 <= j < |parts[1..][i].entries|
                  && Merge(parts[1..])[k - |parts[0].entries|] == parts[1..][i].entries[j];
      assert Merge(parts)[k] == parts[i + 1].entries[j];
    }
  }

  /** Merging a concatenation merges each half. */
  lemma {:induction false} MergeAppend(a: seq<TaskValue>, b: seq<TaskValue>)
    ensures Merge(a + b) == Merge(a) + Merge(b)
  {
    if a == [] {
      assert a + b == b;
    } else {
      var ab := a + b;
      assert ab[0] == a[0];
      assert ab[1..] == a[1..] + b;
      MergeAppend(a[1..], b);
      calc {
        Merge(ab);
        ab[0].entries + Merge(ab[1..]);
        a[0].entries + (Merge(a[1..]) + Merge(b));
        (a[0].entries + Merge(a[1..])) + Merge(b);
        Merge(a) + Merge(b);
      }
    }
  }

  /** reduce: the merged task is named "[Merged]" followed by the first
      part's name and holds all parts' entries in order, values unchanged.
      A request seen twice makes the builder throw. */
  function Reduce(parts: seq<TaskValue>): (r: Result<TaskValue>)
    requires 1 <= |parts|
  {
    if DistinctKeys(Merge(parts)) then Ok(TaskValue("[Merged]" + parts[0].name, Merge(parts)))
    else Err(IllegalArgument)
  }

  /** submitTask on a non-null task: reject an empty one, then split, map
      and reduce. */
  function Submit(task: TaskValue, slaveNum: nat): (r: Result<TaskValue>)
    requires 1 <= slaveNum
  {
    if |task.entries| == 0 then Err(IllegalArgument)
    else
      var parts := Split(task.name, task.entries, slaveNum);
      match MapParts(parts)
      case Err(e) => Err(e)
      case Ok(results) => Reduce(results)
  }

  /** Executed parts keep their keys, so the merge of the executed parts
      has the keys of the original task, each result filled in. */
  lemma ExecutedMerge(parts: seq<TaskValue>, results: seq<TaskValue>)
    requires |results| == |parts|
    requires forall i :: 0 <= i < |parts| ==> results[i].entries == Executed(parts[i].entries)
    ensures Keys(Merge(results)) == Flatten(PartKeys(parts))
    ensures forall k :: 0 <= k < |Merge(results)| ==> Merge(results)[k].value == Some(RESULT)
  {
    MergeKeys(results);
    forall i | 0 <= i < |parts| ensures PartKeys(results)[i] == PartKeys(parts)[i] {
      assert Keys(Executed(parts[i].entries)) == Keys(parts[i].entries);
    }
    assert PartKeys(results) == PartKeys(parts);
    forall k | 0 <= k < |Merge(results)| ensures Merge(results)[k].value == Some(RESULT) {
      MergeMember(results, k);
      var i, j :| 0 <= i < |results| && 0 <= j < |results[i].entries| && Merge(results)[k] == results[i].entries[j];
    }
  }

  /** The submitTask round trip. On a task with distinct keys it succeeds
      exactly when the task is non-empty and the chunk length does not
      divide its size; the merged task is named "[Merged]" + name + "0" and
      has the original keys in the original order, each holding the
      slave's result. An empty task is an IllegalArgumentException, an
      empty final chunk a RuntimeException. */
  lemma SubmitRoundTrip(task: TaskValue, slaveNum: nat)
    requires 1 <= slaveNum
    requires DistinctKeys(task.entries)
    ensures var r := Submit(task, slaveNum);
            && (r.Ok? <==> |task.entries| > 0 && |task.entries| % ChunkLength(|task.entries|, slaveNum) != 0)
            && (r.Err? ==> r.error == (if |task.entries| == 0 then IllegalArgument else Runtime))
            && (r.Ok? ==> r.value.name == "[Merged]" + task.name + "0")
            && (r.Ok? ==> Keys(r.value.entries) == Keys(task.entries))
            && (r.Ok? ==> forall k :: 0 <= k < |r.value.entries| ==> r.value.entries[k].value == Some(RESULT))
  {
    if |task.entries| > 0 {
      var parts := Split(task.name, task.entries, slaveNum);
      SplitProperties(task.name, task.entries, slaveNum);
      EmptyPartIsLast(task.name, task.entries, slaveNum);
      var m := MapParts(parts);
      if m.Ok? {
        ExecutedMerge(parts, m.value);
        DistinctKeysIff(task.entries);
        DistinctKeysIff(Merge(m.value));
        assert Decimal(0) == "0";
      }
    }
  }

  // The split as the source evidently intends it: a trailing empty chunk
  // is not dispatched, so no slave receives a task it must reject.

  /** Split with an empty final chunk dropped. */
  function SplitCorrected(name: string, entries: seq<Entry>, slaveNum: nat): (parts: seq<TaskValue>)
    requires 1 <= slaveNum
  {
    var parts := Split(name, entries, slaveNum);
    if 1 < |parts| && parts[|parts| - 1].entries == [] then parts[..|parts| - 1] else parts
  }

  function SubmitCorrected(task: TaskValue, slaveNum: nat): (r: Result<TaskValue>)
    requires 1 <= slaveNum
  {
    if |task.entries| == 0 then Err(IllegalArgument)
    else
      var parts := SplitCorrected(task.name, task.entries, slaveNum);
      match MapParts(parts)
      case Err(e) => Err(e)
      case Ok(results) => Reduce(results)
  }

  /** The corrected split sends every slave a non-empty chunk, uses no
      more slaves than there are, and still covers the keys in order. */
  lemma SplitCorrectedProperties(name: string, entries: seq<Entry>, slaveNum: nat)
    requires 1 <= slaveNum && 0 < |entries|
    ensures var parts := SplitCorrected(name, entries, slaveNum);
            && 1 <= |parts| <= slaveNum
            && !HasEmptyPart(parts)
            && Flatten(PartKeys(parts)) == Keys(entries)
  {
    var all := Split(name, entries, slaveNum);
    var parts := SplitCorrected(name, entries, slaveNum);
    var length := ChunkLength(|entries|, slaveNum);
    SplitProperties(name, entries, slaveNum);
    if 1 < |all| && all[|all| - 1].entries == [] {
      FlattenDropEmptyLast(PartKeys(all));
      assert PartKeys(parts) == PartKeys(all)[..|all| - 1];
    } else {
      if |all| == 1 {
        assert |all[0].entries| == |entries| % length;
        assert |entries| == (|entries| / length) * length + |entries| % length;
      }
    }
  }

  lemma {:induction false} FlattenDropEmptyLast(css: seq<seq<string>>)
    requires 1 <= |css| && css[|css| - 1] == []
    ensures Flatten(css[..|css| - 1]) == Flatten(css)
  {
    if |css| > 1 {
      FlattenDropEmptyLast(css[1..]);
      assert css[1..][..|css[1..]| - 1] == css[..|css| - 1][1..];
    }
  }

  /** The corrected round trip succeeds on every non-empty task with
      distinct keys and preserves its keys in order. */
  lemma SubmitCorrectedRoundTrip(task: TaskValue, slaveNum: nat)
    requires 1 <= slaveNum
    requires DistinctKeys(task.entries)
    ensures var r := SubmitCorrected(task, slaveNum);
            && (r.Ok? <==> |task.entries| > 0)
            && (r.Ok? ==> r.value.name == "[Merged]" + task.name + "0")
            && (r.Ok? ==> Keys(r.value.entries) == Keys(task.entries))
            && (r.Ok? ==> forall k :: 0 <= k < |r.value.entries| ==> r.value.entries[k].value == Some(RESULT))
  {
    if |task.entries| > 0 {
      var parts := SplitCorrected(task.name, task.entries, slaveNum);
      SplitCorrectedProperties(task.name, task.entries, slaveNum);
      SplitProperties(task.name, task.entries, slaveNum);
      var m := MapParts(parts);
      ExecutedMerge(parts, m.value);
      DistinctKeysIff(task.entries);
      DistinctKeysIff(Merge(m.value));
      assert parts[0] == Split(task.name, task.entries, slaveNum)[0];
      assert Decimal(0) == "0";
    }
  }

  /** The discrepancy: with two slaves, a task of one or two requests has
      chunk length 1 or 2, which divides its size, so the final chunk is
      empty and the as-written round trip fails with RuntimeException,
      while the corrected one succeeds. */
  lemma EmptyLastChunkCounterexample(task: TaskValue)
    requires 1 <= |task.entries| <= 2 && DistinctKeys(task.entries)
    ensures Submit(task, 2) == Err(Runtime)
    ensures SubmitCorrected(task, 2).Ok?
  {
    assert ChunkLength(|task.entries|, 2) == |task.entries|;
    SubmitRoundTrip(task, 2);
    SubmitCorrectedRoundTrip(task, 2);
  }
}
