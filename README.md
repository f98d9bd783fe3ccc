# Hop-queue coordinator of the transaction-chopping router

This project models the single-partition core of a partitioned transaction
router. A transaction is cut into hops, and each hop is queued on the
partition that owns its data. A coordinator drains its partition's queue one
hop at a time:

- It holds back the hop of transaction T7 until T2, T3, T4 and T6 are done.
- It hands every other hop to the partition's node.
- On `abort` it drops every queued hop of that transaction.
- On `commit` it dequeues the head. If the hop was the transaction's last, it
  records the transaction in the done list.

Files:

- `defs.dfy`, module `Defs`. It holds the hop record and the hop queue
  (`HopsQueue`, a class whose `queue` field is the deque). It also holds the
  done list (`DoneList`, a class whose `doneList` field is the list), the
  node's `Response` record, and `RemoveTag`, the function that specifies
  `remove_all`. The source has two copies of the queue and the done list:
  defs.py:14-55 and transaction-manager.py:22-63, which match line for line.
  One generic class models both. The two hop records differ only in what a
  hop carries, so the hop is `Hop<P>`:
  - a list of operations in defs.py (`Hop<seq<Operation>>`);
  - one inline operation in transaction-manager.py (`Hop<Operation>`).
- `transaction_manager.dfy`, module `TransactionManager`. It holds the
  simulated node `SendToNode`, the T7 dependency gate, `Step` (one iteration
  of `process_queue`) and `Run` (the whole loop as a function). It also holds
  `ProcessQueue`, the loop itself, written over the two classes and proved to
  end in exactly the state `Run` gives.
- Module `TransactionManagerScenarios` holds the ten hops that `main` enqueues
  and three scenarios.

The node is a parameter of the loop (`node: TmHop -> NodeReply`). So every
property of `Run` holds whatever the node answers, `abort` included. The
source's own node, `SendToNode`, always answers `commit`.

In the wait branch of the gate, the source sleeps and then checks the same
condition again. Within one partition nothing can change while it waits, so
the source would spin forever. `Run` and `ProcessQueue` end at that point
with the outcome `Stalled` and leave the state untouched.

The code keeps no per-transaction progress map, and its dependency wait has
no bound. The model has neither.

## Model

| member | source | states |
|---|---|---|
| `Defs.RemoveTag` | transaction-manager.py:48-49 | Every hop left in the result comes from the input queue and has a tag other than the one removed. The result is never longer than the input. |
| `Defs.RemoveTagAppend` | transaction-manager.py:48-49 | Removal distributes over concatenation, so the hops that remain keep their relative order. |
| `Defs.RemoveTagCounts` | transaction-manager.py:48-49 | Removal is exact. A hop with another tag keeps every one of its occurrences, and a hop with the removed tag keeps none. |
| `Defs.RemoveTagAbsent` | defs.py:40-41 | A queue that has no hop with the tag is left unchanged. |
| `Defs.RemoveTagIdempotent` | defs.py:40-41 | Removing a tag twice gives the same queue as removing it once. |
| `Defs.RemoveTagShrinks` | transaction-manager.py:84-85 | If the tag occurs in the queue, the queue strictly shrinks. This is why an abort makes progress. |
| `Defs.HopsQueue.constructor` | defs.py:15-16 | A new queue is empty. |
| `Defs.HopsQueue.Enqueue` | defs.py:18-19 | The hop is appended at the tail. The length grows by one, and the earlier hops stay in place and in order. |
| `Defs.HopsQueue.Dequeue` | defs.py:21-24 | On an empty queue: returns the IndexError "dequeue from an empty queue" and the queue stays empty. Otherwise: returns the old head and leaves exactly the old tail. |
| `Defs.HopsQueue.IsEmpty` | defs.py:26-27 | True exactly when the queue holds no hop. |
| `Defs.HopsQueue.Peek` | defs.py:29-32 | On an empty queue: returns the IndexError "peek from an empty queue". Otherwise: returns the head. The queue never changes. |
| `Defs.HopsQueue.Length` | defs.py:34-35 | Returns the number of pending hops. It is 0 exactly when the queue is empty, which is when `IsEmpty` holds. |
| `Defs.HopsQueue.RemoveAll` | defs.py:40-41 | The new queue is `RemoveTag` of the old one, so no hop with the tag is left. The method builds the kept list front to back. |
| `Defs.AddTag` | transaction-manager.py:55-57 | After `add`, the tag is in the list and the earlier entries keep their places. At most one entry is added, none if the tag was already there. A list without duplicates stays without duplicates. |
| `Defs.AddTagMembers` | transaction-manager.py:59-60 | After `add(tag)`, `contains(t)` holds exactly for the earlier tags and for `tag`. |
| `Defs.AddTagIdempotent` | defs.py:47-49 | Adding the same tag a second time changes nothing. |
| `Defs.DoneList.constructor` | defs.py:44-45 | A new done list is empty and has no duplicates. |
| `Defs.DoneList.Add` | defs.py:47-49 | The new list is `AddTag` of the old one. The tag is in it, the old entries are a prefix of it, and it still has no duplicates. |
| `Defs.DoneList.Contains` | defs.py:51-52 | True exactly when the tag is in the list. |
| `TransactionManager.SendToNode` | transaction-manager.py:65-72 | The answer is always `commit`. A read hop gets back its own `data`. A hop that is not a read gets nothing back. |
| `TransactionManager.AllDone` | transaction-manager.py:78 | The short-circuit `all(contains(t) ...)` is true exactly when every given tag is in the done list. |
| `TransactionManager.Step` | transaction-manager.py:75-93 | One iteration waits exactly when the head is T7 and a prerequisite is missing; waiting changes nothing. Otherwise the head is dispatched with the current done list, the dispatch's status is the node's answer for that hop, and the queue strictly shrinks. On abort, the new queue is exactly `RemoveTag` of the old one: every hop of that tag is gone, the other hops stay in their order, and the done list is unchanged. On commit, exactly the head is dequeued and the tag is added iff the hop is last. |
| `TransactionManager.Run` | transaction-manager.py:74-96 | The loop ends drained exactly when the queue is empty. Otherwise it ends stalled with T7 at the head, and a further iteration would wait. Every dispatched hop, T7 included, passed the gate against the done list its dispatch records; `RunGateAgainstDone` shows that this is the done list the run has at that dispatch. At most one hop is dispatched per queued hop. Every recorded status is the node's answer for that hop. |
| `TransactionManager.RunGateAgainstDone` | transaction-manager.py:77-93 | The done list each dispatch records is the starting list replayed over the earlier dispatches (a committed last hop marks its transaction, an abort changes nothing). So every dispatched hop, T7 included, passed the gate against the live done list. The final done list is the replay of the whole trace. |
| `TransactionManager.RunDoneGrows` | transaction-manager.py:91-92 | Over a whole run, the done list only grows: old entries keep their places and it stays free of duplicates. |
| `TransactionManager.RunDoneExactly` | transaction-manager.py:87-93 | A tag ends in the done list iff it was there before or the run committed a last hop of that tag. |
| `TransactionManager.RunDispatchesFromQueue` | transaction-manager.py:75-83 | Every hop handed to the node came from the queue the run started with. |
| `TransactionManager.RunAbortIsFinal` | transaction-manager.py:84-85 | After a hop of a transaction aborts, no hop of that transaction is dispatched again in this partition. |
| `TransactionManager.ThinnedNoneIsEqual` | transaction-manager.py:74-90 | When no transaction aborted, the order relation of `RunKeepsOrder` allows no deletion: the dispatched hops followed by the ones left are exactly the starting queue. |
| `TransactionManager.ThinnedThroughRemove` | transaction-manager.py:48-49 | A queue obtained from `remove_all(tag)`'s result by deleting hops of aborted tags is also obtained from the original queue that way, when `tag` itself is aborted. |
| `TransactionManager.RunKeepsOrder` | transaction-manager.py:74-90 | Whatever the node answers: the dispatched hops followed by the hops left are the starting queue with some hops deleted, in the same order. Every deleted hop has the tag of a transaction the node aborted during the run. |
| `TransactionManager.RunAllCommitIsFifo` | transaction-manager.py:75-90 | If the node commits every queued hop, all dispatches commit. The hops are dispatched in FIFO order: the dispatched hops followed by the ones left make up the original queue. |
| `TransactionManager.RunAllCommitMarksDone` | transaction-manager.py:87-93 | If the node commits every queued hop, the final done list is the old one with the tags of the dispatched last hops added in dispatch order. |
| `TransactionManager.RunDrainsWhenGatesOpen` | transaction-manager.py:74-93 | If the node commits every hop and each hop finds its gate open once the earlier hops have committed, the loop drains the queue. The final done list then holds the tags of all the last hops. |
| `TransactionManager.ProcessQueue` | transaction-manager.py:74-96 | The loop over the queue and done-list objects returns `Run`'s outcome and leaves exactly `Run`'s final queue and done list. So when it returns `Drained`, the queue is empty. |
| `TransactionManagerScenarios.MainShapeDrains` | transaction-manager.py:103-151 | For any ten hops with `main`'s tags and last-hop flags, the source's node drains the queue. T7 finds T2, T3, T4 and T6 done, and the done list ends as T1 to T7 in order. |
| `TransactionManagerScenarios.MainScenario` | transaction-manager.py:142-157 | The same for the exact hops `main` enqueues. |
| `TransactionManagerScenarios.AbortScenario` | transaction-manager.py:84-85 | The first hop of TX aborts, so both TX hops leave the queue. Only the first is dispatched, and TX never enters the done list. |
| `TransactionManagerScenarios.GateStallScenario` | transaction-manager.py:77-81 | If T7 is at the head while T2 is not done, nothing is dispatched and nothing changes: the loop stalls. |

## Left out

- Threads are not modelled. Nor are the `queue.Queue` message and response channels, the `Request` wrapper, `threading.current_thread()` or the global partition wiring (`numberOfPartitions`, `globalQueuesList`, `allQueues`, `allNodes`, the `Node` and `Queue` classes, defs.py:57-88). They are concurrency plumbing, and the model covers one partition run by one thread.
- `Node.csvFile`, the per-partition row store, is not modelled. No code for it is shown, and no executor applies operations anywhere in the code that is modelled.
- `time.sleep` and `random.uniform` are not modelled. They only simulate delays.
- The gate's sleep-and-recheck is modelled as the outcome `Stalled`, because within one partition a recheck sees the same state forever.
- `print` and `__repr__` output is not modelled.
- `main`'s timing and throughput figures are not modelled; they are floating-point telemetry. Its enqueue sequence is kept as `MainHops`.
- `Response`: no lemma states that a response carries the status and body it was built with. That holds of any Dafny datatype by construction.
- Float fields of `main`'s records (70.5, 15.0, ...) are exact `real` values, not binary floats. Nothing in the loop looks at them.
- `SendToNode`: its answer is a `Response` with status and body. The source returns a `(response, read_value)` tuple of the same two parts. Status is `Commit` or `Abort`, and the loop treats any status other than `abort` as a commit, as the source does.
