/** server.slave.SlaveServer: executes every request of a sub-task and
    writes the results back into the task it was given. */
module Slave {
  import opened Common
  import opened LinkedMap
  import opened Tasks

  /** The fixed acknowledgement that concreteFunction returns. */
  const RESULT: string := "Result(Assume we have calculated the result)"

  /** concreteFunction: the placeholder computation; it ignores its request
      (apart from logging it) and never throws. */
  function ConcreteFunction(request: string): string {
    RESULT
  }

  /** invokeAll over one callable per request, taken sequentially: the i-th
      result belongs to the i-th request, whatever the completion order. */
  function InvokeAll(requests: seq<string>): (results: seq<string>)
    ensures |results| == |requests|
    ensures forall i :: 0 <= i < |requests| ==> results[i] == ConcreteFunction(requests[i])
  {
    if requests == [] then []
    else InvokeAll(requests[..|requests| - 1]) + [ConcreteFunction(requests[|requests| - 1])]
  }

  /** The entries of a task after a successful execute: each key keeps
      its place and holds concreteFunction of itself. Execution keeps the
      key sequence, fills every result with the fixed acknowledgement, and
      keeps the keys distinct. */
  function Executed(e: seq<Entry>): (r: seq<Entry>)
    ensures Keys(r) == Keys(e)
    ensures forall i :: 0 <= i < |r| ==> r[i].value == Some(RESULT)
    ensures DistinctKeys(e) ==> DistinctKeys(r)
  {
    seq(|e|, i requires 0 <= i < |e| => Entry(e[i].key, Some(ConcreteFunction(e[i].key))))
  }

  /** The callable list of execute: one request per key, in the map's
      key order. */
  method MakeCallables(subTasks: seq<Entry>) returns (callables: seq<string>)
    ensures callables == Keys(subTasks)
  {
    callables := [];
    var k := 0;
    while k < |subTasks|
      invariant 0 <= k <= |subTasks|
      invariant callables == Keys(subTasks)[..k]
    {
      callables := callables + [subTasks[k].key];
      k := k + 1;
    }
  }

  class SlaveServer {
    const serviceName: string
    const hostName: string
    const port: int

    /** The constructor; creating the working directory is left out. */
    constructor (serviceName: string, hostName: string, port: int)
      ensures this.serviceName == serviceName && this.hostName == hostName && this.port == port
    {
      this.serviceName := serviceName;
      this.hostName := hostName;
      this.port := port;
    }

    /** execute: a null or empty task is rejected with
        IllegalArgumentException and left alone. Otherwise one callable is
        made per request in key order, all are run, and the i-th result is
        put under the i-th key of the task's own map; the same task object
        is returned with its keys, their order and its size unchanged. */
    method Execute(task: Task?) returns (r: Result<Task>)
      requires task != null ==> task.Valid()
      modifies task
      ensures r.Err? <==> task == null || old(task.subTasks) == []
      ensures r.Err? ==> r.error == IllegalArgument
      ensures r.Err? && task != null ==> task.subTasks == old(task.subTasks)
      ensures r.Ok? ==> r.value == task && task.Valid()
      ensures r.Ok? ==> task.subTasks == Executed(old(task.subTasks))
    {
      if task == null || task.GetSize() == 0 {
        return Err(IllegalArgument);
      }
      var subTasks := task.subTasks;

      var callables := MakeCallables(subTasks);
      var results := InvokeAll(callables);

      // write the i-th result back under the i-th key
      var i := 0;
      while i < |subTasks|
        invariant 0 <= i <= |subTasks|
        invariant DistinctKeys(task.subTasks)
        invariant |task.subTasks| == |subTasks|
        invariant forall j :: 0 <= j < |subTasks| ==> task.subTasks[j].key == subTasks[j].key
        invariant forall j :: 0 <= j < i ==> task.subTasks[j] == Executed(subTasks)[j]
        invariant forall j :: i <= j < |subTasks| ==> task.subTasks[j] == subTasks[j]
      {
        var key := subTasks[i].key;
        assert task.subTasks[i].key == key;
        task.subTasks := Put(task.subTasks, key, Some(results[i]));
        i := i + 1;
      }
      return Ok(task);
    }
  }
}
