# Master/slave task fan-out, modelled in Dafny

A client builds a *task*: a name and an insertion-ordered map from request
to result. It submits the task to a *master*. The master splits the task
into one chunk per *slave*, has every slave execute its chunk, and merges
the executed chunks back into one task. This project models the sequential
bookkeeping behind that fan-out and proves what it guarantees. The remote
calls, the thread pools and the registry are not modelled.

Modules, one per source file:

- `Common` (common.dfy): Java's null as `Option`, exceptions as
  `Result`/`Outcome`, and `Integer.toString` on non-negative ints (`Decimal`).
- `LinkedMap` (linked_map.dfy): `LinkedHashMap<String, String>` as a
  sequence of entries with distinct keys. `put` on a present key keeps that
  key's position.
- `Tasks` (task.dfy): `utility.Task` is a class. Its name is final and its
  entries are a mutable field, because a slave rewrites them in place.
  `Task.Builder` is a class with the builder's two fields.
- `Slave` (slave.dfy): `SlaveServer.execute`, with the guard, the callable
  list built in key order and the in-place writeback loop.
- `MasterSpec` (split.dfy): what the master computes, as functions on task
  values. This covers the split arithmetic, the positional dispatch, the
  merge and the whole submit round trip, with the lemmas about them.
- `Master` (master.dfy): `MasterServer` as a class. Its `splitTask`, `map`
  and `reduce` loops are methods proved against the `MasterSpec` functions.
- `ServerInfos` (server_info.dfy): the `ServerInfo` record, its null-safe
  `equals` and its 32-bit `hashCode`.
- `Client` (client.dfy): `ClientServer.buildTask` and the sample task's
  trip through the master.

One might expect the split to produce more chunks than there are slaves,
which would make the positional lookup of a slave fail. The chunk length
`total / slaveNum + 1` rules that out: `MasterSpec.ChunkCountBound` proves
that the chunk count `total / length + 1` never exceeds `slaveNum`, so the
lookup is always in range. What does go wrong is the opposite edge: see
"## Findings".

A `Task` crosses a remote interface and is serializable, so a remote call
passes it by value. The master's chunks are therefore never touched by a
slave. The slave executes its own copy, and the master receives a new task
object back (`Master.InvokeAllChunks`). Within one process, `execute`
rewrites the given task's map and returns the same object
(`Slave.SlaveServer.Execute`).

## Model

| member | source | states |
|---|---|---|
| Common.DecimalRoundTrip | src/main/java/server/master/MasterServer.java:137 | parsing the decimal rendering of a chunk index gives the index back |
| Common.PrefixedDecimalInjective | src/main/java/server/master/MasterServer.java:146 | a fixed prefix followed by distinct indices gives distinct names |
| LinkedMap.IndexOf | src/main/java/utility/Task.java:129 | containsKey: the position found holds the key, and -1 exactly when the key is absent |
| LinkedMap.Put | src/main/java/utility/Task.java:132 | put keeps keys distinct; a present key keeps its position and other entries are unchanged; an absent key is appended; get returns the new value |
| LinkedMap.KeySetSize | src/main/java/utility/Task.java:64-66 | with distinct keys, the key set has as many members as there are entries |
| Tasks.NewTask | src/main/java/utility/Task.java:33-39 | a null or empty name throws IllegalArgumentException; otherwise a fresh task holds the name and a copy of the entries |
| Tasks.Task.Make | src/main/java/utility/Task.java:37-38 | the task holds exactly the given name and entries |
| Tasks.Task.GetSize | src/main/java/utility/Task.java:64-66 | getSize is the number of distinct requests the task holds |
| Tasks.Builder.constructor | src/main/java/utility/Task.java:76-82 | a new builder has no name and no entries |
| Tasks.Builder.SetTaskName | src/main/java/utility/Task.java:91-98 | throws on a null or empty name and changes nothing; otherwise replaces the name and keeps the entries |
| Tasks.Builder.AddSubTask | src/main/java/utility/Task.java:107-110 | exactly the contract of addSubTaskResult with a null result |
| Tasks.Builder.AddSubTaskResult | src/main/java/utility/Task.java:121-134 | succeeds iff a name is set and the request is absent; on success the entry is appended at the end; on failure IllegalArgumentException and the builder is unchanged |
| Tasks.Builder.Build | src/main/java/utility/Task.java:141-146 | with a name set: a fresh task with the builder's name and entries in insertion order, then the builder is reset; with no name: IllegalArgumentException before any reset |
| Slave.InvokeAll | src/main/java/server/slave/SlaveServer.java:74-84 | one result per request, the i-th result computed from the i-th request |
| Slave.MakeCallables | src/main/java/server/slave/SlaveServer.java:72-81 | the callables are the requests in the map's key order |
| Slave.Executed | src/main/java/server/slave/SlaveServer.java:86-89 | execution keeps the key sequence and distinctness, and fills every result with the fixed acknowledgement |
| Slave.SlaveServer.constructor | src/main/java/server/slave/SlaveServer.java:49-52 | the server holds its service name, host name and port |
| Slave.SlaveServer.Execute | src/main/java/server/slave/SlaveServer.java:62-96 | a null or empty task throws IllegalArgumentException and is left alone; otherwise the same task object is returned with its own entries rewritten: same keys in the same order, each with its result |
| MasterSpec.ChunkLength | src/main/java/server/master/MasterServer.java:131 | the chunk length is at least 1, and slaveNum chunks of it hold more than total entries |
| MasterSpec.ChunksFlatten | src/main/java/server/master/MasterServer.java:138-149 | the chunks concatenated in order give the keys back |
| MasterSpec.ChunksShape | src/main/java/server/master/MasterServer.java:138-149 | total / length + 1 chunks; every chunk but the last holds exactly length keys; the last holds total mod length, possibly none |
| MasterSpec.ChunkCountBound | src/main/java/server/master/MasterServer.java:165-175 | the chunk count never exceeds the number of slaves |
| MasterSpec.NullEntriesNext | src/main/java/server/master/MasterServer.java:139 | adding the next key of a duplicate-free task to the current chunk never hits a duplicate and appends one null entry |
| MasterSpec.SplitLoopChunks | src/main/java/server/master/MasterServer.java:138-149 | from any point of the counting loop, the rest of the loop cuts the remaining keys into the chunks of Chunks, numbered on from the current index |
| MasterSpec.SplitLoopIsSplit | src/main/java/server/master/MasterServer.java:132-149 | the counting loop run from the start computes the split |
| MasterSpec.SplitProperties | src/main/java/server/master/MasterServer.java:127-152 | chunk i is named name + decimal(i); every result is null; the sizes are length, ..., length, total mod length; at most slaveNum chunks; the keys concatenate back to the task's keys |
| MasterSpec.ThreeOverThree | src/main/java/server/master/MasterServer.java:131 | three requests over three slaves give two chunks, of two requests and one |
| MasterSpec.SplitSize | src/main/java/server/master/MasterServer.java:167 | there are between 1 and slaveNum chunks, so every chunk has a slave |
| MasterSpec.ChunksDistinct | src/main/java/server/master/MasterServer.java:138-139 | every chunk of a duplicate-free key sequence is duplicate-free |
| MasterSpec.SplitPartsValid | src/main/java/server/master/MasterServer.java:137-146 | every chunk is a valid task: a non-empty name and distinct requests |
| MasterSpec.LastPartEmpty | src/main/java/server/master/MasterServer.java:149 | the final chunk is empty exactly when the chunk length divides the task's size |
| MasterSpec.EmptyPartIsLast | src/main/java/server/master/MasterServer.java:141-149 | some chunk is empty exactly when the chunk length divides the task's size |
| MasterSpec.MergeKeys | src/main/java/server/master/MasterServer.java:200-204 | the merged keys are the chunks' keys in chunk order, then within-chunk order |
| MasterSpec.MergeMember | src/main/java/server/master/MasterServer.java:200-204 | every merged entry is an entry of some chunk, value unchanged |
| MasterSpec.MergeAppend | src/main/java/server/master/MasterServer.java:200-204 | merging a concatenation merges each half |
| MasterSpec.ExecutedMerge | src/main/java/server/master/MasterServer.java:197-205 | the merge of the executed chunks has the split task's keys, each with its result |
| MasterSpec.SubmitRoundTrip | src/main/java/server/master/MasterServer.java:104-118 | on a task with distinct keys, submit succeeds iff the task is non-empty and the chunk length does not divide its size; an empty task is IllegalArgumentException, an empty final chunk RuntimeException; the result is named "[Merged]" + name + "0" and keeps the keys in order, each with its result |
| MasterSpec.SplitCorrectedProperties | src/main/java/server/master/MasterServer.java:127-152 | the corrected split cuts 1 to slaveNum chunks, none empty, whose keys concatenate to the task's keys |
| MasterSpec.SubmitCorrectedRoundTrip | src/main/java/server/master/MasterServer.java:104-118 | with the corrected split, submit succeeds on every non-empty task with distinct keys, keeping the keys in order, each with its result |
| MasterSpec.EmptyLastChunkCounterexample | src/main/java/server/master/MasterServer.java:149 | with two slaves, a task of one or two requests fails with RuntimeException as written and succeeds with the corrected split |
| Master.CutChunks | src/main/java/server/master/MasterServer.java:132-149 | the counting loop's tasks, in order, have the names and entries the loop function gives |
| Master.CountKey | src/main/java/server/master/MasterServer.java:139-147 | one step of the loop: the key joins the builder, a full chunk is built and the builder renamed for the next index, and the loop function's result is unchanged |
| Master.MasterServer.constructor | src/main/java/server/master/MasterServer.java:71-88 | the master holds its name, host, port and one slave per roster entry |
| Master.MasterServer.SubmitTask | src/main/java/server/master/MasterServer.java:104-118 | a null task is IllegalArgumentException; otherwise the outcome is the Submit round trip on the task's value: success iff non-empty and the chunk length does not divide the size, the result named "[Merged]" + name + "0" with the keys in order, each with its result |
| Master.MasterServer.SplitTask | src/main/java/server/master/MasterServer.java:127-152 | the tasks built have exactly the values of Split |
| Master.MasterServer.PairSlaves | src/main/java/server/master/MasterServer.java:165-175 | chunk i is paired with slave i |
| Master.MasterServer.Map | src/main/java/server/master/MasterServer.java:160-189 | the outcome is MapParts of the split: RuntimeException when some chunk is empty, otherwise every chunk executed, in chunk order |
| Master.InvokeAllChunks | src/main/java/server/master/MasterServer.java:177-179 | call i fails exactly when chunk i is empty, and otherwise returns chunk i's name with its requests executed |
| Master.GetAll | src/main/java/server/master/MasterServer.java:180-186 | succeeds iff every call succeeded, with the results in call order; otherwise RuntimeException |
| Master.AddEntries | src/main/java/server/master/MasterServer.java:201-203 | a chunk's entries are appended with their values iff no request repeats; otherwise IllegalArgumentException |
| Master.MasterServer.Reduce | src/main/java/server/master/MasterServer.java:197-206 | the outcome is Reduce of the chunk values: a fresh task named "[Merged]" + the first chunk's name holding every chunk's entries in order, or IllegalArgumentException on a repeated request |
| Master.ReduceDuplicate | src/main/java/server/master/MasterServer.java:200-203 | a request repeated by one chunk's entries is repeated in the whole merge |
| ServerInfos.Wrap32 | src/main/java/server/ServerInfo.java:84-85 | Java int arithmetic: the result is congruent to the exact value modulo 2^32 |
| ServerInfos.NullSafeEquals | src/main/java/server/ServerInfo.java:77-78 | the null-safe string comparison is value equality, null matching only null |
| ServerInfos.Equals | src/main/java/server/ServerInfo.java:69-79 | false for null or another class; for a ServerInfo, true iff port, host name and service name are all equal |
| ServerInfos.EqualsReflexive | src/main/java/server/ServerInfo.java:70-71 | every info equals itself |
| ServerInfos.EqualsSymmetric | src/main/java/server/ServerInfo.java:77-78 | equals is symmetric |
| ServerInfos.EqualsConsistentWithHashCode | src/main/java/server/ServerInfo.java:82-87 | equal infos have equal hash codes, whatever the string hash is |
| ServerInfos.HashCodePolynomial | src/main/java/server/ServerInfo.java:82-87 | the hash code is 31^2 h(host) + 31 h(service) + port wrapped once into the int range |
| Client.RequestEntriesDistinct | src/main/java/server/client/ClientServer.java:52 | the sample requests are pairwise distinct |
| Client.BuildTask | src/main/java/server/client/ClientServer.java:47-55 | a fresh task named "Simulate a simple task" holding "task0" to "task99" in order with null results; no addSubTask throws |
| Client.SampleTaskSplit | src/main/java/server/client/ClientServer.java:20 | over two slaves the sample task is cut into a chunk of 51 and a chunk of 49 requests |
| Client.SampleTaskSubmits | src/main/java/server/client/ClientServer.java:51-54 | over two slaves the sample task's round trip succeeds and returns all 100 requests in order, each with its result |

## Left out

- RMI plumbing is not modelled: registry lookup and bind, object export, `loadSlaveServers`, `sendToMaster` and every `main`. These are network I/O. The slaves a master uses are passed to its constructor.
- Thread pools are not modelled. `invokeAll` and `Future.get` are taken one call after the other, in submission order, because concurrency is outside the model. The results are positional either way.
- Console logging and the timestamp in `submitTask` are left out. They are output with no logical effect.
- Creating the working directory in the constructors is left out, because it is filesystem I/O.
- The service interfaces have no behaviour of their own and are not modelled.
- Slave.SlaveServer.Execute: a callable that throws (RuntimeException, with part of the map possibly already rewritten) is not modelled, because `concreteFunction` never throws, which makes that path unreachable.
- A null request key is not modelled: requests are non-null strings, as every caller in the core passes. Java's map and the builder would accept a null request and carry it through split, execute and reduce.
- Tasks.Builder.AddSubTaskResult: the re-creation of a null map is not modelled, because the map is never null.
- `String.hashCode` is not modelled. It is a library internal, so `ServerInfos.HashCode` takes it as a parameter.
- Int overflow is not modelled for sizes, counts and indices. They are unbounded naturals, and every size here is far below 2^31.
- Object identity is not modelled in `ServerInfo.equals`. Identity implies equal fields, so it gives the same answer.
- Master.InvokeAllChunks: a slave receives a copy of its chunk, as a remote call on a serializable task does. A slave mutating the master's own chunk object is not modelled.
- Master.MasterServer.constructor: the two hard-coded roster entries are in `SLAVE_ROSTER`. The constructor takes one slave per entry instead of looking them up.

## Findings

| source | as written | input that shows it | evidently intended | confidence | as-written member | corrected member |
|---|---|---|---|---|---|---|
| src/main/java/server/master/MasterServer.java:131-149 | the chunk length total / slaveNum + 1 divides total for some sizes; the counting loop then ends on a full chunk, and the unconditional final build appends an empty chunk; the slave rejects it (SlaveServer.java:64-65) and the whole submit fails with RuntimeException | a task of 1 or 2 requests with two slaves (chunk length 1 or 2) | a trailing empty chunk is not dispatched, so every non-empty task is processed | high (proved; not executed) | MasterSpec.EmptyLastChunkCounterexample | MasterSpec.SubmitCorrectedRoundTrip |
