/** Shared definitions of the transaction router: operations, hops, the
    per-partition hop queue, the done list of committed transactions and the
    response record a node answers with.

    The hop record comes in two shapes: one whose payload is a list of
    operations (defs.py) and one that carries a single operation inline
    (transaction-manager.py). Both are `Hop<P>`; the queue and the done list
    only look at a hop's tag, so one generic class serves both. */
module Defs {

  datatype Option<T> = None | Some(value: T)

  datatype Result<T, E> = Success(value: T) | Failure(error: E)

  /** The exception the queue raises when asked for the head of an empty queue. */
  datatype IndexError = IndexError(message: string)

  /** A field value of a stored record: text, an integer or a decimal number. */
  datatype Value = Str(s: string) | Int(i: int) | Real(r: real)

  type Record = map<string, Value>

  /** One read or write against a table row. `data` is absent (`None`) for the
      reads that carry no template. */
  datatype Operation = Operation(
    operationType: string,
    tableName: string,
    primaryKeyName: string,
    primaryKeyValue: Value,
    data: Option<Record>)

  /** One step of a transaction, routed to one partition. */
  datatype Hop<P> = Hop(transactionTag: string, isLast: bool, payload: P)

  datatype Status = Commit | Abort

  /** What a node answers: a status and a body of read results. */
  datatype Response<B> = Response(status: Status, body: B)

  // ---------------------------------------------------------------------------
  // remove_all, as a function on the queue contents

  /** The hops of `hops` whose tag differs from `tag`, in their original order. */
  function RemoveTag<P>(hops: seq<Hop<P>>, tag: string): (r: seq<Hop<P>>)
    ensures |r| <= |hops|
    ensures forall i :: 0 <= i < |r| ==> r[i] in hops && r[i].transactionTag != tag
  {
    if hops == [] then []
    else if hops[0].transactionTag != tag then [hops[0]] + RemoveTag(hops[1..], tag)
    else RemoveTag(hops[1..], tag)
  }

  predicate HasTag<P>(hops: seq<Hop<P>>, tag: string)
  {
    exists i :: 0 <= i < |hops| && hops[i].transactionTag == tag
  }

  /** Filtering distributes over concatenation: the kept hops stay in order. */
  lemma {:induction false} RemoveTagAppend<P>(a: seq<Hop<P>>, b: seq<Hop<P>>, tag: string)
    ensures RemoveTag(a + b, tag) == RemoveTag(a, tag) + RemoveTag(b, tag)
  {
    if a == [] {
      assert a + b == b;
    } else {
      assert (a + b)[1..] == a[1..] + b;
      RemoveTagAppend(a[1..], b, tag);
    }
  }

  /** A queue with no hop of `tag` is left as it is. */
  lemma {:induction false} RemoveTagAbsent<P>(hops: seq<Hop<P>>, tag: string)
    requires !HasTag(hops, tag)
    ensures RemoveTag(hops, tag) == hops
  {
    if hops != [] {
      assert !HasTag(hops[1..], tag) by {
        forall i | 0 <= i < |hops[1..]| ensures hops[1..][i].transactionTag != tag {
          assert hops[1..][i] == hops[i + 1];
        }
      }
      RemoveTagAbsent(hops[1..], tag);
    }
  }

  /** Removing the hops of a tag twice is the same as removing them once. */
  lemma RemoveTagIdempotent<P>(hops: seq<Hop<P>>, tag: string)
    ensures RemoveTag(RemoveTag(hops, tag), tag) == RemoveTag(hops, tag)
  {
    RemoveTagAbsent(RemoveTag(hops, tag), tag);
  }

  /** Removal is exact: a hop of another tag keeps every one of its
      occurrences, a hop of `tag` keeps none. */
  lemma {:induction false} RemoveTagCounts<P>(hops: seq<Hop<P>>, tag: string, h: Hop<P>)
    ensures h.transactionTag != tag ==> multiset(RemoveTag(hops, tag))[h] == multiset(hops)[h]
    ensures h.transactionTag == tag ==> multiset(RemoveTag(hops, tag))[h] == 0
  {
    if hops != [] {
      assert hops == [hops[0]] + hops[1..];
      RemoveTagCounts(hops[1..], tag, h);
    }
  }

  /** When the tag occurs, the queue strictly shrinks. */
  lemma {:induction false} RemoveTagShrinks<P>(hops: seq<Hop<P>>, tag: string)
    requires HasTag(hops, tag)
    ensures |RemoveTag(hops, tag)| < |hops|
  {
    if hops[0].transactionTag != tag {
      var i :| 0 <= i < |hops| && hops[i].transactionTag == tag;
      assert hops[1..][i - 1] == hops[i];
      RemoveTagShrinks(hops[1..], tag);
    }
  }

  // ---------------------------------------------------------------------------
  // HopsQueue

  /** The per-partition FIFO of pending hops; `queue` is the deque, head first. */
  class HopsQueue<P> {
    var queue: seq<Hop<P>>

    constructor ()
      ensures queue == []
    {
      queue := [];
    }

    /** Appends `hop` at the tail. */
    method Enqueue(hop: Hop<P>)
      modifies this
      ensures queue == old(queue) + [hop]
      ensures |queue| == |old(queue)| + 1 && queue[..|old(queue)|] == old(queue)
    {
      queue := queue + [hop];
    }

    /** Removes and returns the head; an empty queue is an error and stays empty. */
    method Dequeue() returns (r: Result<Hop<P>, IndexError>)
      modifies this
      ensures old(queue) == [] ==>
        r == Failure(IndexError("dequeue from an empty queue")) && queue == []
      ensures old(queue) != [] ==>
        r == Success(old(queue)[0]) && queue == old(queue)[1..]
    {
      var empty := IsEmpty();
      if empty {
        return Failure(IndexError("dequeue from an empty queue"));
      }
      r := Success(queue[0]);
      queue := queue[1..];
    }

    method IsEmpty() returns (b: bool)
      ensures b <==> queue == []
    {
      b := |queue| == 0;
    }

    /** Returns the head without removing it; an empty queue is an error. */
    method Peek() returns (r: Result<Hop<P>, IndexError>)
      ensures queue == [] ==> r == Failure(IndexError("peek from an empty queue"))
      ensures queue != [] ==> r == Success(queue[0])
    {
      var empty := IsEmpty();
      if empty {
        return Failure(IndexError("peek from an empty queue"));
      }
      r := Success(queue[0]);
    }

    /** The number of pending hops. */
    method Length() returns (n: nat)
      ensures n == |queue|
      ensures n == 0 <==> queue == []
    {
      n := |queue|;
    }

    /** Drops every hop of `tag` and keeps the others in order, by building
        the kept list front to back and replacing the queue with it. */
    method RemoveAll(tag: string)
      modifies this
      ensures queue == RemoveTag(old(queue), tag)
      ensures !HasTag(queue, tag)
    {
      var hops := queue;
      var kept: seq<Hop<P>> := [];
      for i := 0 to |hops|
        invariant kept == RemoveTag(hops[..i], tag)
      {
        assert hops[..i + 1] == hops[..i] + [hops[i]];
        RemoveTagAppend(hops[..i], [hops[i]], tag);
        if hops[i].transactionTag != tag {
          kept := kept + [hops[i]];
        }
      }
      assert hops[..|hops|] == hops;
      queue := kept;
    }
  }

  // ---------------------------------------------------------------------------
  // DoneList

  predicate NoDuplicates(tags: seq<string>)
  {
    forall i, j :: 0 <= i < j < |tags| ==> tags[i] != tags[j]
  }

  /** The done list after `add(tag)`: the tag is appended unless already there. */
  function AddTag(done: seq<string>, tag: string): (r: seq<string>)
    ensures tag in r
    ensures |done| <= |r| <= |done| + 1 && r[..|done|] == done
    ensures tag in done ==> r == done
    ensures NoDuplicates(done) ==> NoDuplicates(r)
  {
    if tag in done then done else done + [tag]
  }

  /** The tags in the list after `add(tag)` are the earlier ones and `tag`. */
  lemma AddTagMembers(done: seq<string>, tag: string, t: string)
    ensures t in AddTag(done, tag) <==> t in done || t == tag
  {
  }

  /** Adding the same tag again changes nothing. */
  lemma AddTagIdempotent(done: seq<string>, tag: string)
    ensures AddTag(AddTag(done, tag), tag) == AddTag(done, tag)
  {
  }

  /** The append-only list of tags of fully committed transactions. */
  class DoneList {
    var doneList: seq<string>

    constructor ()
      ensures doneList == [] && NoDuplicates(doneList)
    {
      doneList := [];
    }

    method Add(tag: string)
      modifies this
      ensures doneList == AddTag(old(doneList), tag)
      ensures tag in doneList && doneList[..|old(doneList)|] == old(doneList)
      ensures NoDuplicates(old(doneList)) ==> NoDuplicates(doneList)
    {
      if tag !in doneList {
        doneList := doneList + [tag];
      }
    }

    method Contains(tag: string) returns (b: bool)
      ensures b <==> tag in doneList
    {
      b := tag in doneList;
    }
  }
}
