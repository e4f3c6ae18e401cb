/** server.client.ClientServer: builds the sample task that the client
    submits to the master. */
module Client {
  import opened Common
  import opened LinkedMap
  import opened Tasks
  import opened Slave
  import opened MasterSpec

  /** The number of requests in the sample task. */
  const MAX_SUBTASKS: nat := 100

  /** The name of the sample task. */
  const TASK_NAME: string := "Simulate a simple task"

  /** The i-th request of the sample task. */
  function RequestKey(i: nat): string {
    "task" + Decimal(i)
  }

  /** The first n requests of the sample task, each without a result. */
  function RequestEntries(n: nat): seq<Entry> {
    seq(n, i requires 0 <= i < n => Entry(RequestKey(i), None))
  }

  /** The request keys are pairwise distinct, so the builder never sees a
      duplicate. */
  lemma RequestEntriesDistinct(n: nat)
    ensures DistinctKeys(RequestEntries(n))
  {
    var e := RequestEntries(n);
    forall i, j | 0 <= i < j < n ensures e[i].key != e[j].key {
      PrefixedDecimalInjective("task", i, j);
    }
  }

  /** buildTask: a builder named TASK_NAME receives "task0" up to
      "task99" in order, each without a result, and is built. Every
      addSubTask succeeds, and so does the build. */
  method BuildTask() returns (task: Task)
    ensures fresh(task) && task.Valid()
    ensures task.taskName == TASK_NAME
    ensures task.subTasks == RequestEntries(MAX_SUBTASKS)
  {
    var builder := new Builder();
    var _ := builder.SetTaskName(Some(TASK_NAME));
    var i := 0;
    while i < MAX_SUBTASKS
      invariant 0 <= i <= MAX_SUBTASKS
      invariant builder.Valid()
      invariant builder.builderTaskName == Some(TASK_NAME)
      invariant builder.builderSubTasks == RequestEntries(i)
    {
      forall j | 0 <= j < i ensures RequestEntries(i)[j].key != RequestKey(i) {
        PrefixedDecimalInjective("task", j, i);
      }
      var out := builder.AddSubTask(RequestKey(i));
      assert out.Done?;
      assert RequestEntries(i) + [Entry(RequestKey(i), None)] == RequestEntries(i + 1);
      i := i + 1;
    }
    var built := builder.Build();
    task := built.value;
  }

  /** The sample task is non-empty with distinct keys, so it passes the
      master's guard; on the two slaves of the roster the chunk length is
      51, which does not divide 100, so the round trip succeeds and gives
      back all one hundred requests in order, each with its result. */
  lemma SampleTaskSubmits()
    ensures var task := TaskValue(TASK_NAME, RequestEntries(MAX_SUBTASKS));
            var r := Submit(task, 2);
            && r.Ok?
            && r.value.name == "[Merged]" + TASK_NAME + "0"
            && Keys(r.value.entries) == Keys(task.entries)
            && |r.value.entries| == MAX_SUBTASKS
            && forall k :: 0 <= k < |r.value.entries| ==> r.value.entries[k].value == Some(RESULT)
  {
    var task := TaskValue(TASK_NAME, RequestEntries(MAX_SUBTASKS));
    RequestEntriesDistinct(MAX_SUBTASKS);
    assert ChunkLength(MAX_SUBTASKS, 2) == 51;
    SubmitRoundTrip(task, 2);
  }

  /** On the two slaves of the roster the sample task is cut into a chunk
      of 51 requests named TASK_NAME + "0" and one of 49 named
      TASK_NAME + "1". */
  lemma SampleTaskSplit()
    ensures var parts := Split(TASK_NAME, RequestEntries(MAX_SUBTASKS), 2);
            && |parts| == 2
            && parts[0].name == TASK_NAME + "0" && |parts[0].entries| == 51
            && parts[1].name == TASK_NAME + "1" && |parts[1].entries| == 49
  {
    assert ChunkLength(MAX_SUBTASKS, 2) == 51;
    SplitProperties(TASK_NAME, RequestEntries(MAX_SUBTASKS), 2);
    assert Decimal(0) == "0" && Decimal(1) == "1";
  }
}
