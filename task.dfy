/** utility.Task and its Builder. A task is a non-empty name and an
    insertion-ordered map from request to result. Tasks are objects: a
    slave rewrites a task's results in place, so the entries are a mutable
    field while the name is final. */
module Tasks {
  import opened Common
  import opened LinkedMap

  class Task {
    const taskName: string
    var subTasks: seq<Entry>

    ghost predicate Valid()
      reads this
    {
      |taskName| > 0 && DistinctKeys(subTasks)
    }

    /** The part of `new Task(name, map)` that runs once the name check has
        passed (see NewTask). The entries are copied: the sequence is a
        value, so no later change to the caller's map can reach it. */
    constructor Make(taskName: string, subTasks: seq<Entry>)
      requires |taskName| > 0 && DistinctKeys(subTasks)
      ensures Valid()
      ensures this.taskName == taskName && this.subTasks == subTasks
    {
      this.taskName := taskName;
      this.subTasks := subTasks;
    }

    /** getSize: the number of distinct requests the task holds. */
    function GetSize(): (n: nat)
      reads this
      requires Valid()
      ensures n == |set i | 0 <= i < |subTasks| :: subTasks[i].key|
    {
      KeySetSize(subTasks);
      |subTasks|
    }
  }

  /** `new Task(taskName, subTasks)`: a null or empty name is rejected with
      IllegalArgumentException; otherwise a new task holds a copy of the map. */
  method NewTask(taskName: Option<string>, subTasks: seq<Entry>) returns (r: Result<Task>)
    requires DistinctKeys(subTasks)
    ensures r.Ok? <==> ValidName(taskName)
    ensures r.Err? ==> r.error == IllegalArgument
    ensures r.Ok? ==> fresh(r.value) && r.value.Valid()
    ensures r.Ok? ==> r.value.taskName == taskName.value && r.value.subTasks == subTasks
  {
    if taskName.None? || |taskName.value| == 0 {
      return Err(IllegalArgument);
    }
    var t := new Task.Make(taskName.value, subTasks);
    return Ok(t);
  }

  /** Task.Builder: collects a name and entries, then builds a task and
      resets itself so that it can be reused. */
  class Builder {
    var builderTaskName: Option<string>
    var builderSubTasks: seq<Entry>

    ghost predicate Valid()
      reads this
    {
      DistinctKeys(builderSubTasks)
    }

    constructor ()
      ensures Valid()
      ensures builderTaskName == None && builderSubTasks == []
    {
      builderTaskName := None;
      builderSubTasks := [];
    }

    /** setTaskName: a null or empty name throws and changes nothing;
        otherwise the name is replaced and the entries are kept. */
    method SetTaskName(taskName: Option<string>) returns (out: Outcome)
      requires Valid()
      modifies this
      ensures Valid()
      ensures out.Done? <==> ValidName(taskName)
      ensures out.Thrown? ==> out.error == IllegalArgument && unchanged(this)
      ensures out.Done? ==> builderTaskName == taskName && builderSubTasks == old(builderSubTasks)
    {
      if taskName.None? || |taskName.value| == 0 {
        return Thrown(IllegalArgument);
      }
      builderTaskName := taskName;
      return Done;
    }

    /** addSubTask(request) is addSubTaskResult(request, null). */
    method AddSubTask(request: string) returns (out: Outcome)
      requires Valid()
      modifies this
      ensures Valid()
      ensures out.Done? <==> ValidName(old(builderTaskName)) && !ContainsKey(old(builderSubTasks), request)
      ensures out.Thrown? ==> out.error == IllegalArgument && unchanged(this)
      ensures out.Done? ==> builderTaskName == old(builderTaskName)
      ensures out.Done? ==> builderSubTasks == old(builderSubTasks) + [Entry(request, None)]
    {
      out := AddSubTaskResult(request, None);
    }

    /** addSubTaskResult: throws, changing nothing, when no name is set or
        when the request is already present (a duplicate is an error, never
        an overwrite); otherwise the entry goes at the end. */
    method AddSubTaskResult(request: string, result: Option<string>) returns (out: Outcome)
      requires Valid()
      modifies this
      ensures Valid()
      ensures out.Done? <==> ValidName(old(builderTaskName)) && !ContainsKey(old(builderSubTasks), request)
      ensures out.Thrown? ==> out.error == IllegalArgument && unchanged(this)
      ensures out.Done? ==> builderTaskName == old(builderTaskName)
      ensures out.Done? ==> builderSubTasks == old(builderSubTasks) + [Entry(request, result)]
    {
      if builderTaskName.None? || |builderTaskName.value| == 0 {
        return Thrown(IllegalArgument);
      }
      if IndexOf(builderSubTasks, request) >= 0 {
        return Thrown(IllegalArgument);
      }
      builderSubTasks := Put(builderSubTasks, request, result);
      return Done;
    }

    /** build: a new task with the builder's name and entries in insertion
        order, after which the name is unset and the entries are empty.
        With no name set the task constructor throws before the reset. */
    method Build() returns (r: Result<Task>)
      requires Valid()
      modifies this
      ensures Valid()
      ensures r.Ok? <==> ValidName(old(builderTaskName))
      ensures r.Err? ==> r.error == IllegalArgument && unchanged(this)
      ensures r.Ok? ==> fresh(r.value) && r.value.Valid()
      ensures r.Ok? ==> r.value.taskName == old(builderTaskName).value
      ensures r.Ok? ==> r.value.subTasks == old(builderSubTasks)
      ensures r.Ok? ==> builderTaskName == None && builderSubTasks == []
    {
      r := NewTask(builderTaskName, builderSubTasks);
      if r.Err? {
        return;
      }
      builderTaskName := None;
      builderSubTasks := [];
    }
  }

  /** A built task is a separate object: whatever the builder does next
      leaves it as it was built. */
  method BuiltTaskIsIsolated(request: string)
  {
    var b := new Builder();
    var _ := b.SetTaskName(Some("T"));
    var _ := b.AddSubTask(request);
    var r := b.Build();
    var t := r.value;
    assert t.subTasks == [Entry(request, None)];
    var _ := b.SetTaskName(Some("U"));
    var _ := b.AddSubTaskResult(request, Some("other"));
    assert b.builderSubTasks == [Entry(request, Some("other"))];
    assert t.taskName == "T" && t.subTasks == [Entry(request, None)];
    var again := b.Build();
    var second := b.Build();
    assert second == Err(IllegalArgument);
  }
}
