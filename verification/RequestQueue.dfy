/** The request queue: a singly linked list with a head and a tail pointer. */
module RequestQueue {
  import opened Common

  class Node<T> {
    var next: Node?<T>
    const request: T

    constructor (request: T)
      ensures this.request == request && next == null
    {
      this.request := request;
      next := null;
    }
  }

  class Queue<T> {
    var head: Node?<T>
    var tail: Node?<T>
    /** The linked nodes, from `head` on. */
    ghost var spine: seq<Node<T>>

    ghost predicate Valid()
      reads this, spine
    {
      && (forall i, j :: 0 <= i < j < |spine| ==> spine[i] != spine[j])
      && (forall i :: 0 <= i < |spine| - 1 ==> spine[i].next == spine[i + 1])
      && (spine != [] ==> spine[|spine| - 1].next == null)
      && head == (if spine == [] then null else spine[0])
      && tail == (if spine == [] then null else spine[|spine| - 1])
    }

    ghost function Contents(): seq<T>
      reads this, spine
    {
      seq(|spine|, i requires 0 <= i < |spine| reads this, spine => spine[i].request)
    }

    constructor ()
      ensures Valid() && Contents() == [] && spine == []
    {
      head, tail, spine := null, null, [];
    }

    method Enqueue(request: T)
      requires Valid()
      modifies this, spine
      ensures Valid() && Contents() == old(Contents()) + [request]
      ensures fresh(set n | n in spine && n !in old(spine))
      ensures head != null && tail != null
    {
      var newnode := new Node(request);
      if tail == null {
        head := newnode;
      } else {
        tail.next := newnode;
      }
      tail := newnode;
      spine := spine + [newnode];
    }

    /** The oldest request, or None when the queue is empty. */
    method Dequeue() returns (result: Option<T>)
      requires Valid()
      modifies this
      ensures Valid() && forall n :: n in spine ==> n in old(spine)
      ensures old(Contents()) == [] ==> result == None && Contents() == []
      ensures old(Contents()) != [] ==>
        result == Some(old(Contents())[0]) && Contents() == old(Contents())[1..]
    {
      if head == null {
        return None;
      }
      result := Some(head.request);
      head := head.next;
      if head == null {
        tail := null;
      }
      spine := spine[1..];
      assert forall i :: 0 <= i < |spine| ==> spine[i] == old(spine)[i + 1];
      assert old(Contents())[1..] == Contents();
    }
  }

  // ---- Any sequence of operations ----

  datatype Op<T> = Put(request: T) | Take

  /** The queue after `ops`, starting from `contents`. */
  function After<T>(contents: seq<T>, ops: seq<Op<T>>): seq<T>
    decreases |ops|
  {
    if ops == [] then contents
    else
      match ops[0]
      case Put(r) => After(contents + [r], ops[1..])
      case Take => After(if contents == [] then [] else contents[1..], ops[1..])
  }

  /** What the dequeues among `ops` return. */
  function Taken<T>(contents: seq<T>, ops: seq<Op<T>>): seq<Option<T>>
    decreases |ops|
  {
    if ops == [] then []
    else
      match ops[0]
      case Put(r) => Taken(contents + [r], ops[1..])
      case Take =>
        if contents == [] then [None] + Taken([], ops[1..])
        else [Some(contents[0])] + Taken(contents[1..], ops[1..])
  }

  method Perform<T>(queue: Queue<T>, ops: seq<Op<T>>) returns (results: seq<Option<T>>)
    requires queue.Valid()
    modifies queue, queue.spine
    ensures queue.Valid() && queue.Contents() == After(old(queue.Contents()), ops)
    ensures results == Taken(old(queue.Contents()), ops)
    ensures (queue.head == null <==> queue.tail == null) && (queue.head == null <==> queue.Contents() == [])
  {
    results := [];
    var k := 0;
    while k < |ops|
      invariant k <= |ops| && queue.Valid()
      invariant fresh(set n | n in queue.spine && n !in old(queue.spine))
      invariant After(queue.Contents(), ops[k..]) == After(old(queue.Contents()), ops)
      invariant results + Taken(queue.Contents(), ops[k..]) == Taken(old(queue.Contents()), ops)
    {
      assert ops[k..][0] == ops[k] && ops[k..][1..] == ops[k + 1..];
      match ops[k] {
        case Put(r) => queue.Enqueue(r);
        case Take =>
          var result := queue.Dequeue();
          results := results + [result];
      }
      k := k + 1;
    }
  }

  // ---- First in, first out ----

  function Puts<T>(ops: seq<Op<T>>): seq<T> {
    if ops == [] then []
    else (match ops[0] case Put(r) => [r] case Take => []) + Puts(ops[1..])
  }

  function Received<T>(results: seq<Option<T>>): seq<T> {
    if results == [] then []
    else (match results[0] case None => [] case Some(r) => [r]) + Received(results[1..])
  }

  lemma ReceivedCons<T>(result: Option<T>, rest: seq<Option<T>>)
    ensures Received([result] + rest)
         == (match result case None => [] case Some(r) => [r]) + Received(rest)
  {
    assert ([result] + rest)[1..] == rest;
  }

  /** The requests taken, followed by those still queued, are the requests put, in order. */
  lemma {:induction false} FirstInFirstOut<T>(contents: seq<T>, ops: seq<Op<T>>)
    ensures Received(Taken(contents, ops)) + After(contents, ops) == contents + Puts(ops)
    decreases |ops|
  {
    hide Received;
    if ops == [] {
      assert Received<T>([]) == [] by { ReceivedNone<T>(); }
      assert [] + contents == contents + [];
    } else {
      var rest := ops[1..];
      match ops[0]
      case Put(r) =>
        FirstInFirstOut(contents + [r], rest);
        Shift(contents, [r], Puts(rest));
      case Take =>
        if contents == [] {
          FirstInFirstOut(contents, rest);
          ReceivedCons(None, Taken(contents, rest));
        } else {
          FirstInFirstOut(contents[1..], rest);
          ReceivedCons(Some(contents[0]), Taken(contents[1..], rest));
          Shift([contents[0]], Received(Taken(contents[1..], rest)), After(contents[1..], rest));
          Shift([contents[0]], contents[1..], Puts(rest));
          assert [contents[0]] + contents[1..] == contents;
        }
    }
  }

  lemma ReceivedNone<T>()
    ensures Received<T>([]) == []
  {
  }
}
