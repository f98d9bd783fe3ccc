/** The single-partition coordinator: it drains one hop queue, holding back
    transaction T7 until its prerequisites are done, dispatching every other
    hop to the node and reconciling the queue and the done list with the
    node's answer.

    The node is a parameter (`node`), so every property below holds whatever
    the node answers; `SendToNode` is the node of the source, which always
    commits. `Run` is the specification of the whole loop, `ProcessQueue` the
    loop itself, proved to end in the state `Run` describes. */
module TransactionManager {
  import opened Defs

  /** The hop of transaction-manager.py: one operation inline. */
  type TmHop = Hop<Operation>

  /** The node's answer: a status and, for a read, the value read. */
  type NodeReply = Response<Option<Record>>

  /** The simulated node: always commits, and returns the hop's data for a
      read hop and nothing otherwise. */
  function SendToNode(hop: TmHop): (r: NodeReply)
    ensures r.status == Commit
    ensures r.body.Some? ==> hop.payload.operationType == "read" && r.body == hop.payload.data
    ensures hop.payload.operationType == "read" ==> r.body == hop.payload.data
  {
    var readValue := if hop.payload.operationType == "read" then hop.payload.data else None;
    Response(Commit, readValue)
  }

  // ---------------------------------------------------------------------------
  // The dependency gate

  /** The transaction whose dispatch waits for others. */
  const GatedTag: string := "T7"

  /** The transactions that must all be done before `GatedTag` is dispatched. */
  const Prerequisites: seq<string> := ["T2", "T3", "T4", "T6"]

  /** True when `hop` may be dispatched given the done list `done`. */
  predicate GateOpen(hop: TmHop, done: seq<string>)
  {
    hop.transactionTag != GatedTag || forall t :: t in Prerequisites ==> t in done
  }

  // ---------------------------------------------------------------------------
  // One iteration of the loop

  /** The coordinator's state: the partition's queue and the done list. */
  datatype State = State(queue: seq<TmHop>, done: seq<string>)

  /** A hop handed to the node, the node's status, and the done list as it
      stood when the hop was handed over. */
  datatype Dispatch = Dispatch(hop: TmHop, status: Status, doneBefore: seq<string>)

  /** An iteration either waits at the gate or dispatches the head hop. */
  datatype StepResult = Wait | Sent(dispatch: Dispatch, next: State)

  /** One iteration of the loop on a non-empty queue. */
  function Step(s: State, node: TmHop -> NodeReply): (r: StepResult)
    requires s.queue != []
    ensures r.Wait? <==> !GateOpen(s.queue[0], s.done)
    ensures r.Sent? ==> r.dispatch.hop == s.queue[0] && r.dispatch.doneBefore == s.done
    ensures r.Sent? ==> r.dispatch.status == node(s.queue[0]).status
    ensures r.Sent? ==> |r.next.queue| < |s.queue|
    ensures r.Sent? ==> |s.done| <= |r.next.done| && r.next.done[..|s.done|] == s.done
    ensures r.Sent? && r.dispatch.status == Abort ==>
      r.next.queue == RemoveTag(s.queue, s.queue[0].transactionTag) &&
      !HasTag(r.next.queue, s.queue[0].transactionTag) && r.next.done == s.done
    ensures r.Sent? && r.dispatch.status == Commit ==>
      r.next.queue == s.queue[1..] && r.next.done == MarkOne(s.done, s.queue[0])
  {
    var hop := s.queue[0];
    if !GateOpen(hop, s.done) then Wait
    else
      var status := node(hop).status;
      if status == Abort then
        RemoveTagShrinks(s.queue, hop.transactionTag);
        Sent(Dispatch(hop, status, s.done), State(RemoveTag(s.queue, hop.transactionTag), s.done))
      else
        Sent(Dispatch(hop, status, s.done), State(s.queue[1..], MarkOne(s.done, hop)))
  }

  // ---------------------------------------------------------------------------
  // The whole loop

  /** Drained: the queue emptied. Stalled: T7 reached the head with its gate
      shut; nothing else can change in a single partition, so the source's
      loop re-checks the gate forever from here. */
  datatype Outcome = Drained | Stalled

  /** How the loop ends, the state it ends in and the hops it dispatched. */
  datatype RunResult = RunResult(outcome: Outcome, final: State, trace: seq<Dispatch>)

  /** The loop as a function: iterate `Step` until the queue is empty or the
      head must wait. */
  function Run(s: State, node: TmHop -> NodeReply): (r: RunResult)
    decreases |s.queue|
    ensures r.outcome == Drained <==> r.final.queue == []
    ensures r.outcome == Stalled ==>
      r.final.queue != [] && Step(r.final, node) == Wait &&
      r.final.queue[0].transactionTag == GatedTag
    ensures |r.trace| <= |s.queue|
    ensures forall i :: 0 <= i < |r.trace| ==> GateOpen(r.trace[i].hop, r.trace[i].doneBefore)
    ensures forall i :: 0 <= i < |r.trace| ==> r.trace[i].status == node(r.trace[i].hop).status
  {
    if s.queue == [] then RunResult(Drained, s, [])
    else
      match Step(s, node)
      case Wait => RunResult(Stalled, s, [])
      case Sent(d, next) =>
        var rest := Run(next, node);
        RunResult(rest.outcome, rest.final, [d] + rest.trace)
  }

  /** The hops of a trace, in dispatch order. */
  function DispatchedHops(trace: seq<Dispatch>): (r: seq<TmHop>)
    ensures |r| == |trace|
    ensures forall i :: 0 <= i < |trace| ==> r[i] == trace[i].hop
  {
    if trace == [] then [] else [trace[0].hop] + DispatchedHops(trace[1..])
  }

  lemma DispatchedHopsCons(d: Dispatch, trace: seq<Dispatch>)
    ensures DispatchedHops([d] + trace) == [d.hop] + DispatchedHops(trace)
  {
    assert ([d] + trace)[1..] == trace;
  }

  /** The done list after committing `hop`: its tag is added when it is the
      transaction's last hop. */
  function MarkOne(done: seq<string>, hop: TmHop): seq<string>
  {
    if hop.isLast then AddTag(done, hop.transactionTag) else done
  }

  /** The done list after committing `hops` in order. */
  function MarkDone(done: seq<string>, hops: seq<TmHop>): seq<string>
    decreases |hops|
  {
    if hops == [] then done else MarkDone(MarkOne(done, hops[0]), hops[1..])
  }

  /** Committing one more hop after `hops` marks it on top of the rest. */
  lemma {:induction false} MarkDoneSnoc(done: seq<string>, hops: seq<TmHop>, hop: TmHop)
    ensures MarkDone(done, hops + [hop]) == MarkOne(MarkDone(done, hops), hop)
    decreases |hops|
  {
    if hops == [] {
      assert MarkDone(done, [hop]) == MarkDone(MarkOne(done, hop), []);
    } else {
      assert (hops + [hop])[1..] == hops[1..] + [hop];
      MarkDoneSnoc(MarkOne(done, hops[0]), hops[1..], hop);
    }
  }

  /** True when the dispatch at index `i` committed the last hop of `tag`. */
  predicate CompletedAt(trace: seq<Dispatch>, i: int, tag: string)
  {
    0 <= i < |trace| && trace[i].status == Commit && trace[i].hop.isLast &&
    trace[i].hop.transactionTag == tag
  }

  /** The done list only grows: old entries keep their places and it stays
      free of duplicates. */
  lemma {:induction false} RunDoneGrows(s: State, node: TmHop -> NodeReply)
    ensures var r := Run(s, node);
      |s.done| <= |r.final.done| && r.final.done[..|s.done|] == s.done &&
      (NoDuplicates(s.done) ==> NoDuplicates(r.final.done))
    decreases |s.queue|
  {
    if s.queue != [] {
      match Step(s, node)
      case Wait =>
      case Sent(d, next) =>
        RunDoneGrows(next, node);
        var f := Run(next, node).final.done;
        assert f[..|s.done|] == f[..|next.done|][..|s.done|];
        if NoDuplicates(s.done) {
          var hop := s.queue[0];
          assert next.done == s.done || next.done == AddTag(s.done, hop.transactionTag);
        }
    }
  }

  /** True when some dispatch of `trace` committed the last hop of `tag`. */
  predicate Completed(trace: seq<Dispatch>, tag: string)
  {
    exists i :: 0 <= i < |trace| && CompletedAt(trace, i, tag)
  }

  lemma CompletedCons(d: Dispatch, trace: seq<Dispatch>, tag: string)
    ensures Completed([d] + trace, tag) <==> CompletedAt([d], 0, tag) || Completed(trace, tag)
  {
    var t := [d] + trace;
    forall i | 0 <= i < |trace| ensures CompletedAt(t, i + 1, tag) <==> CompletedAt(trace, i, tag) {
      assert t[i + 1] == trace[i];
    }
    assert CompletedAt(t, 0, tag) <==> CompletedAt([d], 0, tag);
    if Completed(t, tag) {
      var i :| 0 <= i < |t| && CompletedAt(t, i, tag);
      if i > 0 {
        assert CompletedAt(trace, i - 1, tag);
      }
    }
  }

  /** A tag is in the final done list exactly when it was there already or
      the run committed a last hop of that tag. */
  lemma {:induction false} RunDoneExactly(s: State, node: TmHop -> NodeReply, tag: string)
    ensures tag in Run(s, node).final.done <==> tag in s.done || Completed(Run(s, node).trace, tag)
    decreases |s.queue|
  {
    if s.queue != [] {
      match Step(s, node)
      case Wait =>
      case Sent(d, next) =>
        RunDoneExactly(next, node, tag);
        var r, rest := Run(s, node), Run(next, node);
        assert r.trace == [d] + rest.trace && r.final == rest.final;
        CompletedCons(d, rest.trace, tag);
        if d.status == Commit {
          AddTagMembers(s.done, s.queue[0].transactionTag, tag);
        }
        assert tag in next.done <==> tag in s.done || CompletedAt([d], 0, tag);
    }
  }

  /** The done list after replaying `trace` from `done`: a committed hop
      marks its transaction when it is the last one, an aborted hop leaves
      the list as it is. */
  function DoneAfter(done: seq<string>, trace: seq<Dispatch>): seq<string>
    decreases |trace|
  {
    if trace == [] then done
    else
      var d := trace[0];
      DoneAfter(if d.status == Commit then MarkOne(done, d.hop) else done, trace[1..])
  }

  /** Each dispatch of `trace` records the done list replayed from `done` up to it. */
  predicate RecordsDoneFrom(trace: seq<Dispatch>, done: seq<string>)
  {
    forall i :: 0 <= i < |trace| ==> trace[i].doneBefore == DoneAfter(done, trace[..i])
  }

  /** Each dispatched hop found its gate open against the done list as it was
      when the hop reached the node. */
  predicate GatedAgainstDone(trace: seq<Dispatch>, done: seq<string>)
  {
    forall i :: 0 <= i < |trace| ==> GateOpen(trace[i].hop, DoneAfter(done, trace[..i]))
  }

  /** The done list a dispatch records is the one the run actually has at that
      dispatch, so every dispatched hop, T7 included, passed the gate against
      the live done list; the final done list is the replay of the whole trace. */
  lemma {:induction false} RunGateAgainstDone(s: State, node: TmHop -> NodeReply)
    ensures RecordsDoneFrom(Run(s, node).trace, s.done)
    ensures GatedAgainstDone(Run(s, node).trace, s.done)
    ensures Run(s, node).final.done == DoneAfter(s.done, Run(s, node).trace)
    decreases |s.queue|
  {
    if s.queue != [] {
      match Step(s, node)
      case Wait =>
      case Sent(d, next) =>
        RunGateAgainstDone(next, node);
        var r, rest := Run(s, node), Run(next, node);
        assert r.trace == [d] + rest.trace && r.final == rest.final;
        assert next.done == (if d.status == Commit then MarkOne(s.done, d.hop) else s.done);
        assert ([d] + rest.trace)[1..] == rest.trace;
        forall i | 0 <= i < |r.trace|
          ensures r.trace[i].doneBefore == DoneAfter(s.done, r.trace[..i])
        {
          if i > 0 {
            assert r.trace[..i][1..] == rest.trace[..i - 1];
          }
        }
    }
  }

  /** Every hop of `trace` is one of `queue`. */
  predicate DispatchedFrom(trace: seq<Dispatch>, queue: seq<TmHop>)
  {
    forall i :: 0 <= i < |trace| ==> trace[i].hop in queue
  }

  /** No hop of a transaction follows an aborted hop of that transaction. */
  predicate NothingAfterAbort(trace: seq<Dispatch>)
  {
    forall i, j :: 0 <= i < j < |trace| && trace[i].status == Abort ==>
      trace[j].hop.transactionTag != trace[i].hop.transactionTag
  }

  /** Every dispatched hop was in the queue the run started from. */
  lemma {:induction false} RunDispatchesFromQueue(s: State, node: TmHop -> NodeReply)
    ensures DispatchedFrom(Run(s, node).trace, s.queue)
    decreases |s.queue|
  {
    if s.queue != [] {
      match Step(s, node)
      case Wait =>
      case Sent(d, next) =>
        RunDispatchesFromQueue(next, node);
        var rest := Run(next, node);
        forall i | 0 <= i < |rest.trace| ensures rest.trace[i].hop in s.queue {
          var h := rest.trace[i].hop;
          assert h in next.queue;
          if d.status == Commit {
            assert h in s.queue[1..];
          } else {
            var k :| 0 <= k < |next.queue| && next.queue[k] == h;
          }
        }
    }
  }

  /** After a hop of a transaction aborts, no hop of that transaction is
      dispatched again in this partition. */
  lemma {:induction false} RunAbortIsFinal(s: State, node: TmHop -> NodeReply)
    ensures NothingAfterAbort(Run(s, node).trace)
    decreases |s.queue|
  {
    if s.queue != [] {
      match Step(s, node)
      case Wait =>
      case Sent(d, next) =>
        RunAbortIsFinal(next, node);
        RunDispatchesFromQueue(next, node);
        var r, rest := Run(s, node), Run(next, node);
        assert r.trace == [d] + rest.trace;
        forall i, j | 0 <= i < j < |r.trace| && r.trace[i].status == Abort
          ensures r.trace[j].hop.transactionTag != r.trace[i].hop.transactionTag
        {
          assert r.trace[j] == rest.trace[j - 1];
          if i > 0 {
            assert r.trace[i] == rest.trace[i - 1];
          } else {
            var h := rest.trace[j - 1].hop;
            var k :| 0 <= k < |next.queue| && next.queue[k] == h;
          }
        }
    }
  }

  /** The tags of the hops of `trace` that the node aborted. */
  function AbortedTags(trace: seq<Dispatch>): set<string>
  {
    if trace == [] then {}
    else (if trace[0].status == Abort then {trace[0].hop.transactionTag} else {}) + AbortedTags(trace[1..])
  }

  /** `sub` is `queue` with some hops deleted, each deleted hop carrying a
      tag in `aborted`; the hops kept stay in their order. */
  predicate Thinned(sub: seq<TmHop>, queue: seq<TmHop>, aborted: set<string>)
    decreases |queue|
  {
    if queue == [] then sub == []
    else
      (sub != [] && sub[0] == queue[0] && Thinned(sub[1..], queue[1..], aborted)) ||
      (queue[0].transactionTag in aborted && Thinned(sub, queue[1..], aborted))
  }

  lemma {:induction false} ThinnedRefl(queue: seq<TmHop>, aborted: set<string>)
    ensures Thinned(queue, queue, aborted)
    decreases |queue|
  {
    if queue != [] {
      ThinnedRefl(queue[1..], aborted);
    }
  }

  lemma {:induction false} ThinnedMono(sub: seq<TmHop>, queue: seq<TmHop>, aborted: set<string>, more: set<string>)
    requires aborted <= more && Thinned(sub, queue, aborted)
    ensures Thinned(sub, queue, more)
    decreases |queue|
  {
    if queue != [] {
      if sub != [] && sub[0] == queue[0] && Thinned(sub[1..], queue[1..], aborted) {
        ThinnedMono(sub[1..], queue[1..], aborted, more);
      } else {
        ThinnedMono(sub, queue[1..], aborted, more);
      }
    }
  }

  /** With no aborted tag nothing may be deleted: thinning is equality. */
  lemma {:induction false} ThinnedNoneIsEqual(sub: seq<TmHop>, queue: seq<TmHop>)
    requires Thinned(sub, queue, {})
    ensures sub == queue
    decreases |queue|
  {
    if queue != [] {
      ThinnedNoneIsEqual(sub[1..], queue[1..]);
      assert sub == [sub[0]] + sub[1..];
    }
  }

  /** Thinning the queue left by `remove_all(tag)` thins the whole queue, when
      `tag` is among the aborted tags. */
  lemma {:induction false} ThinnedThroughRemove(sub: seq<TmHop>, queue: seq<TmHop>, tag: string, aborted: set<string>)
    requires tag in aborted && Thinned(sub, RemoveTag(queue, tag), aborted)
    ensures Thinned(sub, queue, aborted)
    decreases |queue|
  {
    if queue != [] {
      var q0 := queue[0];
      if q0.transactionTag == tag {
        ThinnedThroughRemove(sub, queue[1..], tag, aborted);
      } else {
        var kept := RemoveTag(queue, tag);
        assert kept == [q0] + RemoveTag(queue[1..], tag);
        assert kept[0] == q0 && kept[1..] == RemoveTag(queue[1..], tag);
        if sub != [] && sub[0] == q0 && Thinned(sub[1..], kept[1..], aborted) {
          ThinnedThroughRemove(sub[1..], queue[1..], tag, aborted);
        } else {
          ThinnedThroughRemove(sub, queue[1..], tag, aborted);
        }
      }
    }
  }

  /** Whatever the node answers, the run keeps FIFO order: the dispatched
      hops followed by the hops left in the queue are the starting queue
      with some hops deleted, in the same order, and every deleted hop
      belongs to a transaction the node aborted during the run. */
  lemma {:induction false} RunKeepsOrder(s: State, node: TmHop -> NodeReply)
    ensures Thinned(DispatchedHops(Run(s, node).trace) + Run(s, node).final.queue, s.queue,
                    AbortedTags(Run(s, node).trace))
    decreases |s.queue|
  {
    if s.queue == [] {
      assert DispatchedHops([]) + [] == [];
    } else {
      match Step(s, node)
      case Wait =>
        assert DispatchedHops([]) + s.queue == s.queue;
        ThinnedRefl(s.queue, {});
      case Sent(d, next) =>
        RunKeepsOrder(next, node);
        var r, rest := Run(s, node), Run(next, node);
        assert r.trace == [d] + rest.trace && r.final == rest.final;
        assert ([d] + rest.trace)[1..] == rest.trace;
        var ab := AbortedTags(r.trace);
        assert AbortedTags(rest.trace) <= ab;
        var x := DispatchedHops(rest.trace) + rest.final.queue;
        ThinnedMono(x, next.queue, AbortedTags(rest.trace), ab);
        DispatchedHopsCons(d, rest.trace);
        assert DispatchedHops(r.trace) + r.final.queue == [s.queue[0]] + x;
        assert ([s.queue[0]] + x)[1..] == x;
        if d.status == Abort {
          var tag := s.queue[0].transactionTag;
          assert tag in ab;
          assert RemoveTag(s.queue, tag) == RemoveTag(s.queue[1..], tag);
          ThinnedThroughRemove(x, s.queue[1..], tag, ab);
        }
    }
  }

  /** True when `node` commits every hop of `queue`. */
  predicate CommitsAll(node: TmHop -> NodeReply, queue: seq<TmHop>)
  {
    forall i :: 0 <= i < |queue| ==> node(queue[i]).status == Commit
  }

  /** When the node commits every queued hop, every dispatch commits and the
      run dispatches the queue in FIFO order: the dispatched hops followed by
      what is left are the original queue. */
  lemma {:induction false} RunAllCommitIsFifo(s: State, node: TmHop -> NodeReply)
    requires CommitsAll(node, s.queue)
    ensures s.queue == DispatchedHops(Run(s, node).trace) + Run(s, node).final.queue
    ensures forall i :: 0 <= i < |Run(s, node).trace| ==> Run(s, node).trace[i].status == Commit
    decreases |s.queue|
  {
    if s.queue != [] {
      match Step(s, node)
      case Wait =>
      case Sent(d, next) =>
        CommitsAllTail(node, s.queue);
        RunAllCommitIsFifo(next, node);
        var r, rest := Run(s, node), Run(next, node);
        assert r.trace == [d] + rest.trace && r.final == rest.final;
        DequeueThenRest(s.queue, d, rest.trace, rest.final.queue);
    }
  }

  /** When the node commits every queued hop, the done list gains the tags
      of the last hops among the dispatched ones, in dispatch order. */
  lemma {:induction false} RunAllCommitMarksDone(s: State, node: TmHop -> NodeReply)
    requires CommitsAll(node, s.queue)
    ensures Run(s, node).final.done == MarkDone(s.done, DispatchedHops(Run(s, node).trace))
    decreases |s.queue|
  {
    if s.queue != [] {
      match Step(s, node)
      case Wait =>
      case Sent(d, next) =>
        CommitsAllTail(node, s.queue);
        RunAllCommitMarksDone(next, node);
        var r, rest := Run(s, node), Run(next, node);
        assert r.trace == [d] + rest.trace && r.final == rest.final;
        DispatchedHopsCons(d, rest.trace);
        assert ([d.hop] + DispatchedHops(rest.trace))[1..] == DispatchedHops(rest.trace);
    }
  }

  /** If the head was dispatched and the tail splits into `trace`'s hops and
      `rest`, the whole queue splits into the longer trace's hops and `rest`. */
  lemma DequeueThenRest(queue: seq<TmHop>, d: Dispatch, trace: seq<Dispatch>, rest: seq<TmHop>)
    requires queue != [] && d.hop == queue[0] && queue[1..] == DispatchedHops(trace) + rest
    ensures queue == DispatchedHops([d] + trace) + rest
  {
    DispatchedHopsCons(d, trace);
    assert queue == [queue[0]] + queue[1..];
  }

  lemma CommitsAllTail(node: TmHop -> NodeReply, queue: seq<TmHop>)
    requires queue != [] && CommitsAll(node, queue)
    ensures node(queue[0]).status == Commit && CommitsAll(node, queue[1..])
  {
    forall i | 0 <= i < |queue[1..]| ensures node(queue[1..][i]).status == Commit {
      assert queue[1..][i] == queue[i + 1];
    }
  }

  /** True when each hop of `queue` finds its gate open once the hops before
      it have committed on top of `done`. */
  predicate GatesOpenInTurn(queue: seq<TmHop>, done: seq<string>)
  {
    forall k :: 0 <= k < |queue| ==> GateOpen(queue[k], MarkDone(done, queue[..k]))
  }

  /** When the node commits every hop and no hop finds its gate shut at its
      turn, the loop drains the queue and the done list ends with the tags of
      all the last hops added in order. */
  lemma {:induction false} RunDrainsWhenGatesOpen(s: State, node: TmHop -> NodeReply)
    requires CommitsAll(node, s.queue) && GatesOpenInTurn(s.queue, s.done)
    ensures Run(s, node).outcome == Drained
    ensures Run(s, node).final.done == MarkDone(s.done, s.queue)
    decreases |s.queue|
  {
    if s.queue != [] {
      var q := s.queue;
      assert q[..0] == [];
      assert GateOpen(q[0], s.done);
      CommitsAllTail(node, q);
      var next := State(q[1..], MarkOne(s.done, q[0]));
      assert Step(s, node) == Sent(Dispatch(q[0], Commit, s.done), next);
      assert GatesOpenInTurn(next.queue, next.done) by {
        forall k | 0 <= k < |next.queue|
          ensures GateOpen(next.queue[k], MarkDone(next.done, next.queue[..k]))
        {
          assert q[..k + 1] == [q[0]] + next.queue[..k];
          assert q[..k + 1][1..] == next.queue[..k];
          assert next.queue[k] == q[k + 1];
        }
      }
      RunDrainsWhenGatesOpen(next, node);
    }
  }

  // ---------------------------------------------------------------------------
  // The loop itself

  /** Python's `all(done_list.contains(t) for t in tags)`, stopping at the
      first tag not yet done. */
  method AllDone(doneList: DoneList, tags: seq<string>) returns (b: bool)
    ensures b <==> forall t :: t in tags ==> t in doneList.doneList
  {
    b := true;
    var i := 0;
    while i < |tags| && b
      invariant 0 <= i <= |tags|
      invariant b <==> forall k :: 0 <= k < i ==> tags[k] in doneList.doneList
    {
      b := doneList.Contains(tags[i]);
      i := i + 1;
    }
  }

  /** Drains `queue` against `node`, ending exactly as `Run` says. */
  method ProcessQueue(queue: HopsQueue<Operation>, doneList: DoneList, node: TmHop -> NodeReply)
    returns (outcome: Outcome)
    modifies queue, doneList
    ensures var r := Run(State(old(queue.queue), old(doneList.doneList)), node);
      outcome == r.outcome && queue.queue == r.final.queue && doneList.doneList == r.final.done
  {
    ghost var expected := Run(State(queue.queue, doneList.doneList), node);
    var empty := queue.IsEmpty();
    while !empty
      invariant empty <==> queue.queue == []
      invariant var r := Run(State(queue.queue, doneList.doneList), node);
        r.outcome == expected.outcome && r.final == expected.final
      decreases |queue.queue|
    {
      ghost var s := State(queue.queue, doneList.doneList);
      var peeked := queue.Peek();
      var hop := peeked.value;
      if hop.transactionTag == GatedTag {
        var ready := AllDone(doneList, Prerequisites);
        if !ready {
          // The source sleeps and re-checks here; nothing it re-checks can
          // have changed, so this is where it would spin for ever.
          assert Step(s, node) == Wait;
          return Stalled;
        }
      }
      var reply := node(hop);
      if reply.status == Abort {
        queue.RemoveAll(hop.transactionTag);
      } else {
        var _ := queue.Dequeue();
        if hop.isLast {
          doneList.Add(hop.transactionTag);
        }
      }
      assert Step(s, node).next == State(queue.queue, doneList.doneList);
      empty := queue.IsEmpty();
    }
    return Drained;
  }
}

module TransactionManagerScenarios {
  import opened Defs
  import opened TransactionManager

  function WriteOp(table: string, keyName: string, key: int, data: Record): Operation
  {
    Operation("write", table, keyName, Int(key), Some(data))
  }

  function ReadOp(table: string, keyName: string, key: int): Operation
  {
    Operation("read", table, keyName, Int(key), None)
  }

  /** The ten hops the source's `main` enqueues, in its order. */
  function MainHops(): seq<TmHop>
  {
    [ Hop("T1", false, WriteOp("Users", "user_id", 1,
            map["name" := Str("John Doe"), "email" := Str("john.doe@example.com")])),
      Hop("T1", true, WriteOp("Workouts", "workout_id", 101,
            map["user_id" := Int(1), "duration" := Int(30), "calories" := Int(300)])),
      Hop("T2", false, WriteOp("DietLogs", "diet_log_id", 201,
            map["user_id" := Int(1), "meal" := Str("Breakfast"), "calories" := Int(400)])),
      Hop("T2", true, WriteOp("ProgressReports", "report_id", 301,
            map["user_id" := Int(1), "date" := Str("2023-01-01"), "weight" := Real(70.5), "body_fat" := Real(15.0)])),
      Hop("T3", false, ReadOp("Users", "user_id", 1)),
      Hop("T3", true, WriteOp("Users", "user_id", 1, map["last_login" := Str("2023-01-02")])),
      Hop("T4", true, ReadOp("Workouts", "workout_id", 101)),
      Hop("T5", true, WriteOp("ProgressReports", "report_id", 302,
            map["user_id" := Int(1), "date" := Str("2023-01-02"), "weight" := Real(70.3), "body_fat" := Real(14.8)])),
      Hop("T6", true, WriteOp("Workouts", "workout_id", 101,
            map["user_id" := Int(1), "duration" := Int(45), "calories" := Int(350)])),
      Hop("T7", true, WriteOp("Users", "user_id", 1, map["calorie_count" := Int(1500)])) ]
  }

  /** `main`: with the source's node every hop commits, T7 finds T2, T3, T4
      and T6 done when it reaches the head, the queue drains and the done
      list ends as T1 to T7 in order. */
  lemma MainScenario()
    ensures Run(State(MainHops(), []), SendToNode).outcome == Drained
    ensures Run(State(MainHops(), []), SendToNode).final.done == ["T1", "T2", "T3", "T4", "T5", "T6", "T7"]
  {
    MainShapeDrains(MainHops());
  }

  /** The tags and last-hop flags of `main`'s queue, hop by hop. */
  predicate MainShape(q: seq<TmHop>)
  {
    |q| == 10 &&
    q[0].transactionTag == "T1" && !q[0].isLast && q[1].transactionTag == "T1" && q[1].isLast &&
    q[2].transactionTag == "T2" && !q[2].isLast && q[3].transactionTag == "T2" && q[3].isLast &&
    q[4].transactionTag == "T3" && !q[4].isLast && q[5].transactionTag == "T3" && q[5].isLast &&
    q[6].transactionTag == "T4" && q[6].isLast && q[7].transactionTag == "T5" && q[7].isLast &&
    q[8].transactionTag == "T6" && q[8].isLast && q[9].transactionTag == "T7" && q[9].isLast
  }

  /** The done list after the first three hops of `main`. */
  lemma MainDoneAfterThree(q: seq<TmHop>)
    requires MainShape(q)
    ensures MarkDone([], q[..3]) == ["T1"]
  {
    assert q[..0] == [];
    assert q[..1] == q[..0] + [q[0]];
    MarkDoneSnoc([], q[..0], q[0]);
    assert q[..2] == q[..1] + [q[1]];
    MarkDoneSnoc([], q[..1], q[1]);
    assert q[..3] == q[..2] + [q[2]];
    MarkDoneSnoc([], q[..2], q[2]);
  }

  /** The done list after the first five hops of `main`. */
  lemma MainDoneAfterFive(q: seq<TmHop>)
    requires MainShape(q)
    ensures MarkDone([], q[..5]) == ["T1", "T2"]
  {
    MainDoneAfterThree(q);
    assert q[..4] == q[..3] + [q[3]];
    MarkDoneSnoc([], q[..3], q[3]);
    assert q[..5] == q[..4] + [q[4]];
    MarkDoneSnoc([], q[..4], q[4]);
  }

  /** The done list after the first seven hops of `main`. */
  lemma MainDoneAfterSeven(q: seq<TmHop>)
    requires MainShape(q)
    ensures MarkDone([], q[..7]) == ["T1", "T2", "T3", "T4"]
  {
    MainDoneAfterFive(q);
    assert q[..6] == q[..5] + [q[5]];
    MarkDoneSnoc([], q[..5], q[5]);
    assert q[..7] == q[..6] + [q[6]];
    MarkDoneSnoc([], q[..6], q[6]);
  }

  /** The done list after the first nine hops of `main`. */
  lemma MainDoneAfterNine(q: seq<TmHop>)
    requires MainShape(q)
    ensures MarkDone([], q[..9]) == ["T1", "T2", "T3", "T4", "T5", "T6"]
  {
    MainDoneAfterSeven(q);
    assert q[..8] == q[..7] + [q[7]];
    MarkDoneSnoc([], q[..7], q[7]);
    assert q[..9] == q[..8] + [q[8]];
    MarkDoneSnoc([], q[..8], q[8]);
  }

  /** The done list after the first ten hops of `main`. */
  lemma MainDoneAfterTen(q: seq<TmHop>)
    requires MainShape(q)
    ensures MarkDone([], q[..10]) == ["T1", "T2", "T3", "T4", "T5", "T6", "T7"]
  {
    MainDoneAfterNine(q);
    assert q[..10] == q[..9] + [q[9]];
    MarkDoneSnoc([], q[..9], q[9]);
  }

  lemma MainShapeDrains(q: seq<TmHop>)
    requires MainShape(q)
    ensures Run(State(q, []), SendToNode).outcome == Drained
    ensures Run(State(q, []), SendToNode).final.done == ["T1", "T2", "T3", "T4", "T5", "T6", "T7"]
  {
    MainDoneAfterNine(q);
    MainDoneAfterTen(q);
    assert q[..10] == q;
    assert GatesOpenInTurn(q, []) by {
      forall k | 0 <= k < |q| ensures GateOpen(q[k], MarkDone([], q[..k])) {
        if k < 9 {
          assert q[k].transactionTag != GatedTag;
        }
      }
    }
    assert CommitsAll(SendToNode, q);
    RunDrainsWhenGatesOpen(State(q, []), SendToNode);
  }

  /** A transaction whose first hop aborts loses its later hop too: both are
      gone from the queue, only the first was dispatched, and the done list
      is unchanged, so the tag never becomes done here. */
  lemma AbortScenario(first: TmHop, second: TmHop, done: seq<string>, node: TmHop -> NodeReply)
    requires first.transactionTag == "TX" && !first.isLast
    requires second.transactionTag == "TX" && second.isLast
    requires node(first).status == Abort
    ensures Run(State([first, second], done), node).outcome == Drained
    ensures Run(State([first, second], done), node).final == State([], done)
    ensures Run(State([first, second], done), node).trace == [Dispatch(first, Abort, done)]
  {
    assert RemoveTag([first, second], "TX") == [];
  }

  /** With one partition, a T7 hop at the head while T2 is not done stalls
      the loop: nothing is dispatched and nothing changes, which is the
      state the source's loop keeps re-checking for ever. */
  lemma GateStallScenario(gated: TmHop, rest: seq<TmHop>, done: seq<string>, node: TmHop -> NodeReply)
    requires gated.transactionTag == "T7" && "T2" !in done
    ensures Run(State([gated] + rest, done), node).outcome == Stalled
    ensures Run(State([gated] + rest, done), node).final == State([gated] + rest, done)
    ensures Run(State([gated] + rest, done), node).trace == []
  {
    assert "T2" in Prerequisites;
  }
}
