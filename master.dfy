/** server.master.MasterServer: splits a submitted task into one chunk per
    slave, has the slaves execute the chunks, and merges their results.
    Each method is proved against the matching function of MasterSpec. */
module Master {
  import opened Common
  import opened LinkedMap
  import opened Tasks
  import opened Slave
  import opened MasterSpec
  import opened ServerInfos

  /** The slaves the constructor looks up, in this order. */
  const SLAVE_ROSTER: seq<ServerInfo> := [
    ServerInfo(Some("Slave1"), Some("127.0.0.1"), 19092),
    ServerInfo(Some("Slave2"), Some("127.0.0.1"), 19093)
  ]

  /** The observable state of a task object. */
  function Value(t: Task): (v: TaskValue)
    reads t
  {
    TaskValue(t.taskName, t.subTasks)
  }

  function Values(ts: seq<Task>): (vs: seq<TaskValue>)
    reads ts
    ensures |vs| == |ts|
    ensures forall i :: 0 <= i < |ts| ==> vs[i] == Value(ts[i])
  {
    if ts == [] then [] else Values(ts[..|ts| - 1]) + [Value(ts[|ts| - 1])]
  }

  /** The counting loop of splitTask: walks the entries in order, adding
      each key to a builder; whenever the count reaches `length` the chunk
      is built and the builder renamed for the next index; the builder is
      built once more at the end, whatever it holds. */
  method CutChunks(mainTask: Task, length: nat) returns (splitTasks: seq<Task>)
    requires mainTask.Valid() && 1 <= length
    ensures var parts := SplitLoop(mainTask.taskName, Keys(mainTask.subTasks), length, 0, 0, [], []);
            && |splitTasks| == |parts|
            && (forall i :: 0 <= i < |parts| ==> splitTasks[i].taskName == parts[i].name)
            && (forall i :: 0 <= i < |parts| ==> splitTasks[i].subTasks == parts[i].entries)
  {
    var entries := mainTask.subTasks;
    var total := |entries|;
    var count := 0;
    var index := 0;
    ghost var keys := Keys(entries);
    DistinctKeysIff(entries);

    splitTasks := [];
    ghost var vals: seq<TaskValue> := [];
    var builder := new Builder();
    var _ := builder.SetTaskName(Some(mainTask.taskName + Decimal(index)));
    var k := 0;
    while k < total
      invariant 0 <= count <= k <= total && count < length
      invariant builder.Valid()
      invariant builder.builderTaskName == Some(mainTask.taskName + Decimal(index))
      invariant builder.builderSubTasks == NullEntries(keys[k - count..k])
      invariant SplitLoop(mainTask.taskName, keys, length, k, index, keys[k - count..k], vals)
                == SplitLoop(mainTask.taskName, keys, length, 0, 0, [], [])
      invariant |splitTasks| == |vals|
      invariant forall i :: 0 <= i < |vals| ==> splitTasks[i].taskName == vals[i].name
      invariant forall i :: 0 <= i < |vals| ==> splitTasks[i].subTasks == vals[i].entries
    {
      count, index, splitTasks, vals := CountKey(builder, entries[k].key, mainTask.taskName, keys, k, count, index, length, splitTasks, vals);
      k := k + 1;
    }
    var last := builder.Build();
    splitTasks := splitTasks + [last.value];
    vals := vals + [Value(last.value)];
  }

  /** One step of the counting loop, on key k of the duplicate-free
      sequence `keys`: the key goes into the builder and the count goes up;
      when the count reaches `length` the chunk is built, the count reset
      and the builder renamed for the next index. The step is the one that
      SplitLoop takes: running the rest of the loop from the new state gives
      what it gave from the old one. */
  method CountKey(builder: Builder, key: string, name: string, ghost keys: seq<string>, k: nat,
                  count: nat, index: nat, length: nat, splitTasks: seq<Task>, ghost vals: seq<TaskValue>)
    returns (count': nat, index': nat, splitTasks': seq<Task>, ghost vals': seq<TaskValue>)
    requires Distinct(keys) && k < |keys| && key == keys[k] && count <= k && count < length
    requires builder.Valid() && builder.builderTaskName == Some(name + Decimal(index))
    requires builder.builderSubTasks == NullEntries(keys[k - count..k])
    requires |splitTasks| == |vals|
    requires forall i :: 0 <= i < |vals| ==> splitTasks[i].taskName == vals[i].name && splitTasks[i].subTasks == vals[i].entries
    modifies builder
    ensures count' <= k + 1 && count' < length
    ensures builder.Valid() && builder.builderTaskName == Some(name + Decimal(index'))
    ensures builder.builderSubTasks == NullEntries(keys[k + 1 - count'..k + 1])
    ensures SplitLoop(name, keys, length, k + 1, index', keys[k + 1 - count'..k + 1], vals')
            == SplitLoop(name, keys, length, k, index, keys[k - count..k], vals)
    ensures |splitTasks'| == |vals'|
    ensures forall i :: 0 <= i < |vals'| ==> splitTasks'[i].taskName == vals'[i].name
    ensures forall i :: 0 <= i < |vals'| ==> splitTasks'[i].subTasks == vals'[i].entries
  {
    NullEntriesNext(keys, k - count, k);
    var _ := builder.AddSubTask(key);
    count' := count + 1;
    index' := index;
    splitTasks' := splitTasks;
    vals' := vals;
    if count' == length {
      var t := builder.Build();
      splitTasks' := splitTasks + [t.value];
      vals' := vals + [Value(t.value)];
      count' := 0;
      index' := index + 1;
      var _ := builder.SetTaskName(Some(name + Decimal(index')));
      assert keys[k + 1 - count'..k + 1] == [];
    }
  }

  /** The values of tasks whose names and entries are known one by one. */
  lemma ValuesPointwise(ts: seq<Task>, vs: seq<TaskValue>)
    requires |ts| == |vs|
    requires forall m :: 0 <= m < |ts| ==> ts[m].taskName == vs[m].name && ts[m].subTasks == vs[m].entries
    ensures Values(ts) == vs
  {
  }

  class MasterServer {
    const serviceName: string
    const hostName: string
    const port: int
    const slaveServices: seq<SlaveServer>

    /** The roster is fixed at construction and never empty. */
    predicate Valid() {
      1 <= |slaveServices|
    }

    /** The constructor with one looked-up slave per roster entry; the
        registry lookups and the working directory are left out. */
    constructor (serviceName: string, hostName: string, port: int, slaves: seq<SlaveServer>)
      requires |slaves| == |SLAVE_ROSTER|
      ensures Valid()
      ensures this.serviceName == serviceName && this.hostName == hostName && this.port == port
      ensures slaveServices == slaves
    {
      this.serviceName := serviceName;
      this.hostName := hostName;
      this.port := port;
      this.slaveServices := slaves;
    }

    /** submitTask: a null or empty task is rejected with
        IllegalArgumentException; otherwise the task is split, mapped onto
        the slaves and reduced. The given task is not changed. On success
        the merged task holds the submitted keys in their order, each with
        the slave's result; success is exactly when the chunk length does
        not divide the task's size. */
    method SubmitTask(task: Task?) returns (r: Result<Task>)
      requires Valid()
      requires task != null ==> task.Valid()
      ensures task == null ==> r == Err(IllegalArgument)
      ensures task != null ==>
                var spec := Submit(Value(task), |slaveServices|);
                && (r.Ok? <==> spec.Ok?)
                && (r.Err? ==> r.error == spec.error)
                && (r.Ok? ==> Value(r.value) == spec.value)
      ensures task != null ==>
                (r.Ok? <==> 0 < |task.subTasks| && |task.subTasks| % ChunkLength(|task.subTasks|, |slaveServices|) != 0)
      ensures r.Ok? ==> Keys(r.value.subTasks) == Keys(task.subTasks)
      ensures r.Ok? ==> r.value.taskName == "[Merged]" + task.taskName + "0"
      ensures r.Ok? ==> forall k :: 0 <= k < |r.value.subTasks| ==> r.value.subTasks[k].value == Some(RESULT)
    {
      if task == null || task.GetSize() == 0 {
        return Err(IllegalArgument);
      }
      SubmitRoundTrip(Value(task), |slaveServices|);
      var results := Map(task);
      if results.Err? {
        return Err(results.error);
      }
      r := Reduce(results.value);
    }

    /** splitTask: the chunk length is total / slaveNum + 1, and the
        counting loop cuts the entries into chunks of that length. */
    method SplitTask(mainTask: Task) returns (splitTasks: seq<Task>)
      requires Valid() && mainTask.Valid()
      ensures Values(splitTasks) == Split(mainTask.taskName, mainTask.subTasks, |slaveServices|)
    {
      var total := |mainTask.subTasks|;
      var slaveNum := |slaveServices|;
      var length := total / slaveNum + 1;
      assert length == ChunkLength(total, slaveNum);
      splitTasks := CutChunks(mainTask, length);
      SplitLoopIsSplit(mainTask.taskName, mainTask.subTasks, slaveNum);
      assert Values(splitTasks) == Split(mainTask.taskName, mainTask.subTasks, slaveNum);
    }

    /** map: chunk i is paired with slave i, all calls are made, and the
        results are collected in chunk order; the first failed call aborts
        the whole map with RuntimeException. */
    method Map(mainTask: Task) returns (r: Result<seq<Task>>)
      requires Valid() && mainTask.Valid()
      ensures var spec := MapParts(Split(mainTask.taskName, mainTask.subTasks, |slaveServices|));
              && (r.Ok? <==> spec.Ok?)
              && (r.Err? ==> r.error == Runtime)
              && (r.Ok? ==> Values(r.value) == spec.value)
    {
      ghost var parts := Split(mainTask.taskName, mainTask.subTasks, |slaveServices|);
      SplitSize(mainTask.taskName, mainTask.subTasks, |slaveServices|);
      SplitPartsValid(mainTask.taskName, mainTask.subTasks, |slaveServices|);
      var splitTasks := SplitTask(mainTask);

      var pairedSlaves := PairSlaves(|splitTasks|);
      var outcomes := InvokeAllChunks(pairedSlaves, splitTasks, parts);
      r := GetAll(outcomes);
      if r.Ok? {
        ValuesPointwise(r.value, ExecuteParts(parts));
      }
    }

    /** The pairing loop of map: chunk i goes to slave i. */
    method PairSlaves(n: nat) returns (pairedSlaves: seq<SlaveServer>)
      requires n <= |slaveServices|
      ensures pairedSlaves == slaveServices[..n]
    {
      pairedSlaves := [];
      var index := 0;
      while index < n
        invariant 0 <= index <= n && pairedSlaves == slaveServices[..index]
      {
        pairedSlaves := pairedSlaves + [slaveServices[index]];
        index := index + 1;
      }
    }

    /** reduce: a builder named "[Merged]" + the first chunk's name receives
        every chunk's entries in order, values unchanged, and is built; a
        request that occurs twice makes the builder throw. */
    method Reduce(splitTasks: seq<Task>) returns (r: Result<Task>)
      requires 1 <= |splitTasks|
      ensures var spec := MasterSpec.Reduce(Values(splitTasks));
              && (r.Ok? <==> spec.Ok?)
              && (r.Err? ==> r.error == spec.error)
              && (r.Ok? ==> fresh(r.value) && r.value.Valid() && Value(r.value) == spec.value)
    {
      ghost var vs := Values(splitTasks);
      var builder := new Builder();
      var _ := builder.SetTaskName(Some("[Merged]" + splitTasks[0].taskName));
      var i := 0;
      while i < |splitTasks|
        invariant 0 <= i <= |splitTasks|
        invariant |vs| == |splitTasks|
        invariant forall m :: 0 <= m < |splitTasks| ==> splitTasks[m].taskName == vs[m].name && splitTasks[m].subTasks == vs[m].entries
        invariant builder.Valid()
        invariant builder.builderTaskName == Some("[Merged]" + splitTasks[0].taskName)
        invariant builder.builderSubTasks == Merge(vs[..i])
      {
        var out := AddEntries(builder, splitTasks[i].subTasks);
        if out.Thrown? {
          ReduceDuplicate(vs, i);
          ValuesPointwise(splitTasks, vs);
          return Err(IllegalArgument);
        }
        MergeNext(vs, i);
        i := i + 1;
      }
      assert vs[..i] == vs;
      r := builder.Build();
      ValuesPointwise(splitTasks, vs);
    }
  }

  /** invokeAll over the chunk callables, taken one after the other: the
      i-th call sends chunk i to its paired slave. A remote call passes the
      task by value, so the slave executes a copy of the chunk and the
      caller receives a task of its own; the chunks themselves are left as
      they are. A call on an empty chunk throws; every other call returns
      the chunk's requests, each with its result. */
  method InvokeAllChunks(slaves: seq<SlaveServer>, chunks: seq<Task>, ghost parts: seq<TaskValue>)
    returns (outcomes: seq<Result<Task>>)
    requires |slaves| == |chunks| && Values(chunks) == parts
    requires forall j :: 0 <= j < |parts| ==> |parts[j].name| > 0 && DistinctKeys(parts[j].entries)
    ensures |outcomes| == |chunks|
    ensures forall j :: 0 <= j < |chunks| ==> (outcomes[j].Ok? <==> parts[j].entries != [])
    ensures forall j :: 0 <= j < |chunks| && outcomes[j].Ok? ==>
              outcomes[j].value.taskName == parts[j].name && outcomes[j].value.subTasks == Executed(parts[j].entries)
  {
    outcomes := [];
    var i := 0;
    while i < |chunks|
      invariant 0 <= i <= |chunks| && |outcomes| == i
      invariant forall j :: 0 <= j < i ==> (outcomes[j].Ok? <==> parts[j].entries != [])
      invariant forall j :: 0 <= j < i && outcomes[j].Ok? ==>
                  outcomes[j].value.taskName == parts[j].name && outcomes[j].value.subTasks == Executed(parts[j].entries)
    {
      var sent := new Task.Make(chunks[i].taskName, chunks[i].subTasks);
      var outcome := slaves[i].Execute(sent);
      outcomes := outcomes + [outcome];
      i := i + 1;
    }
  }

  /** Future.get on each outcome in order: the first failure is rethrown as
      RuntimeException, otherwise the results are collected in order. */
  method GetAll(outcomes: seq<Result<Task>>) returns (r: Result<seq<Task>>)
    ensures r.Ok? <==> forall j :: 0 <= j < |outcomes| ==> outcomes[j].Ok?
    ensures r.Err? ==> r.error == Runtime
    ensures r.Ok? ==> |r.value| == |outcomes| && forall j :: 0 <= j < |outcomes| ==> r.value[j] == outcomes[j].value
  {
    var results: seq<Task> := [];
    var j := 0;
    while j < |outcomes|
      invariant 0 <= j <= |outcomes| && |results| == j
      invariant forall m :: 0 <= m < j ==> outcomes[m].Ok? && results[m] == outcomes[m].value
    {
      if outcomes[j].Err? {
        return Err(Runtime);
      }
      results := results + [outcomes[j].value];
      j := j + 1;
    }
    return Ok(results);
  }

  /** The inner loop of reduce: each entry of one chunk is added to the
      builder with its result, in order. The first request already present
      makes the builder throw, so the whole call succeeds exactly when the
      builder's entries and the chunk's have no request in common and the
      chunk repeats none. */
  method AddEntries(builder: Builder, entries: seq<Entry>) returns (out: Outcome)
    requires builder.Valid() && ValidName(builder.builderTaskName)
    modifies builder
    ensures builder.Valid() && builder.builderTaskName == old(builder.builderTaskName)
    ensures out.Done? <==> DistinctKeys(old(builder.builderSubTasks) + entries)
    ensures out.Thrown? ==> out.error == IllegalArgument
    ensures out.Done? ==> builder.builderSubTasks == old(builder.builderSubTasks) + entries
  {
    ghost var before := builder.builderSubTasks;
    var j := 0;
    while j < |entries|
      invariant 0 <= j <= |entries|
      invariant builder.Valid() && builder.builderTaskName == old(builder.builderTaskName)
      invariant builder.builderSubTasks == before + entries[..j]
    {
      out := builder.AddSubTaskResult(entries[j].key, entries[j].value);
      if out.Thrown? {
        DuplicateAhead(before + entries[..j], entries[j], before + entries);
        return;
      }
      assert entries[..j + 1] == entries[..j] + [entries[j]];
      j := j + 1;
    }
    assert entries[..j] == entries;
    return Done;
  }

  /** A key already present before position |a| reappears at |a|. */
  lemma DuplicateAhead(a: seq<Entry>, e: Entry, whole: seq<Entry>)
    requires ContainsKey(a, e.key)
    requires |a| < |whole| && whole[..|a|] == a && whole[|a|] == e
    ensures !DistinctKeys(whole)
  {
    var p :| 0 <= p < |a| && a[p].key == e.key;
    assert whole[p] == a[p];
  }

  /** Merging one more part appends its entries. */
  lemma MergeNext(vs: seq<TaskValue>, i: nat)
    requires i < |vs|
    ensures Merge(vs[..i + 1]) == Merge(vs[..i]) + vs[i].entries
  {
    assert vs[..i + 1] == vs[..i] + [vs[i]];
    MergeAppend(vs[..i], [vs[i]]);
    assert Merge([vs[i]]) == vs[i].entries + Merge([]);
  }

  /** When merging part i onto the parts before it repeats a request, the
      whole merge repeats it. */
  lemma ReduceDuplicate(vs: seq<TaskValue>, i: nat)
    requires i < |vs|
    requires !DistinctKeys(Merge(vs[..i]) + vs[i].entries)
    ensures !DistinctKeys(Merge(vs))
  {
    var prefix := Merge(vs[..i]) + vs[i].entries;
    assert vs == vs[..i + 1] + vs[i + 1..];
    MergeAppend(vs[..i + 1], vs[i + 1..]);
    MergeNext(vs, i);
    var whole := Merge(vs);
    assert whole[..|prefix|] == prefix;
    var p, q :| 0 <= p < q < |prefix| && prefix[p].key == prefix[q].key;
    assert whole[p] == prefix[p] && whole[q] == prefix[q];
  }
}
