/** The bounded priority queue of requests, and the three queues that behave as one. */
module RequestQueue {
  import opened Storage
  import opened RequestHeap

  /** What one pass of Dequeue finds: a request, the end of a closed queue, or a reason to wait. */
  datatype Taken = Got(request: Request) | Ended | Waits

  /** Nothing still to come precedes what has been returned. */
  ghost predicate InOrder(result: seq<Request>, rest: multiset<Request>) {
    Sorted(result) && forall x, i :: x in rest && 0 <= i < |result| ==> !Precedes(x, result[i])
  }

  lemma DrainBegins(all: multiset<Request>)
    ensures InOrder([], all)
  {
  }

  lemma OnlyInOrder(result: seq<Request>)
    requires InOrder(result, multiset{})
    ensures Sorted(result) && forall i, j :: 0 <= i < j < |result| ==>
      result[i].priority < result[j].priority
      || (result[i].priority == result[j].priority && result[i].createdAt <= result[j].createdAt)
  {
  }

  lemma NextInOrder(result: seq<Request>, rest: multiset<Request>, r: Request)
    requires InOrder(result, rest) && First(r, rest)
    ensures InOrder(result + [r], rest - multiset{r})
    ensures multiset(result + [r]) == multiset(result) + multiset{r}
    ensures rest - multiset{r} + multiset(result + [r]) == rest + multiset(result)
  {
  }

  /** Every request taken in has been served, has been drained or is still held. */
  ghost predicate Balanced<T>(accepted: multiset<T>, served: multiset<T>, drained: multiset<T>, held: multiset<T>) {
    accepted == served + drained + held
  }

  lemma BalancedMoves<T>(accepted: multiset<T>, served: multiset<T>, drained: multiset<T>, held: multiset<T>, r: T)
    requires Balanced(accepted, served, drained, held)
    ensures Balanced(accepted + multiset{r}, served, drained, held + multiset{r})
    ensures r in held ==> Balanced(accepted, served + multiset{r}, drained, held - multiset{r})
    ensures Balanced(accepted, served, drained + held, multiset{})
  {
  }

  class PriorityQueue {
    const heap: RequestHeap
    const maxSize: int
    var closed: bool
    var enqueued: nat
    var dequeued: nat
    var dropped: nat
    ghost var accepted: multiset<Request>   // every request Enqueue took
    ghost var served: multiset<Request>     // every request a dequeue returned
    ghost var drained: multiset<Request>    // every request Drain returned

    ghost function Contents(): multiset<Request>
      reads heap
    {
      multiset(heap.items)
    }

    ghost predicate Valid()
      reads this, heap
    {
      && heap.Valid()
      && Balanced(accepted, served, drained, Contents())
      && enqueued == |accepted| && dequeued == |served|
      && (heap.items == [] || |heap.items| <= maxSize)
    }

    constructor (maxSize: int)
      ensures Valid() && fresh(heap) && Contents() == multiset{} && !closed && this.maxSize == maxSize
      ensures enqueued == 0 && dequeued == 0 && dropped == 0
    {
      this.maxSize := maxSize;
      heap := new RequestHeap();
      closed, enqueued, dequeued, dropped := false, 0, 0, 0;
      accepted, served, drained := multiset{}, multiset{}, multiset{};
    }

    /** enqueued = dequeued + drained + size */
    lemma NothingLost()
      requires Valid()
      ensures enqueued == dequeued + |drained| + |heap.items|
    {
      assert |Contents()| == |heap.items|;
    }

    method Enqueue(r: Request) returns (ok: bool)
      requires Valid()
      modifies this`enqueued, this`dropped, this`accepted, heap
      ensures Valid()
      ensures ok <==> !closed && old(|heap.items|) < maxSize
      ensures Contents() == if ok then old(Contents()) + multiset{r} else old(Contents())
      ensures accepted == old(accepted) + if ok then multiset{r} else multiset{}
      ensures dropped == old(dropped) + if !closed && !ok then 1 else 0
      ensures !ok ==> heap.items == old(heap.items)
    {
      hide Heap, Balanced;
      BalancedMoves(accepted, served, drained, Contents(), r);
      if closed {
        return false;
      }
      if |heap.items| >= maxSize {
        dropped := dropped + 1;
        return false;
      }
      heap.Push(r);
      enqueued := enqueued + 1;
      accepted := accepted + multiset{r};
      return true;
    }

    /** Dequeue between two waits: a closed queue still gives up what it holds. */
    method Dequeue() returns (taken: Taken)
      requires Valid()
      modifies this`dequeued, this`served, heap
      ensures Valid()
      ensures taken.Got? <==> old(heap.items) != []
      ensures taken.Ended? <==> old(heap.items) == [] && closed
      ensures taken.Got? ==> taken.request in old(Contents()) && forall x :: x in old(Contents()) ==>
        taken.request.priority < x.priority
        || (taken.request.priority == x.priority && taken.request.createdAt <= x.createdAt)
      ensures Contents() == if taken.Got? then old(Contents()) - multiset{taken.request} else old(Contents())
      ensures served == old(served) + if taken.Got? then multiset{taken.request} else multiset{}
    {
      if |heap.items| == 0 && !closed {
        return Waits;
      }
      if closed && |heap.items| == 0 {
        return Ended;
      }
      var r := Take();
      return Got(r);
    }

    method Take() returns (r: Request)
      requires Valid() && heap.items != []
      modifies this`dequeued, this`served, heap
      ensures Valid()
      ensures First(r, old(Contents())) && Contents() == old(Contents()) - multiset{r}
      ensures served == old(served) + multiset{r} && |heap.items| == old(|heap.items|) - 1
    {
      hide Heap, Balanced;
      ghost var before := Contents();
      r := heap.Pop();
      BalancedMoves(accepted, served, drained, before, r);
      dequeued := dequeued + 1;
      served := served + multiset{r};
    }

    /** TryDequeue gives up nothing once the queue is closed. */
    method TryDequeue() returns (found: Option<Request>)
      requires Valid()
      modifies this`dequeued, this`served, heap
      ensures Valid()
      ensures found.Some? <==> old(Contents()) != multiset{} && !closed
      ensures found.Some? ==> First(found.value, old(Contents()))
      ensures found.Some? ==> forall x :: x in old(Contents()) ==>
        found.value.priority < x.priority
        || (found.value.priority == x.priority && found.value.createdAt <= x.createdAt)
      ensures Contents() == if found.Some? then old(Contents()) - multiset{found.value} else old(Contents())
      ensures served == old(served) + if found.Some? then multiset{found.value} else multiset{}
      ensures found.None? ==> heap.items == old(heap.items)
    {
      assert |Contents()| == |heap.items|;
      if |heap.items| == 0 || closed {
        return None;
      }
      var r := Take();
      return Some(r);
    }

    /** Drain returns everything in order; it does not count as dequeuing. */
    method Drain() returns (result: seq<Request>)
      requires Valid()
      modifies this`drained, heap
      ensures Valid() && heap.items == []
      ensures multiset(result) == old(Contents())
      ensures Sorted(result) && forall i, j :: 0 <= i < j < |result| ==>
        result[i].priority < result[j].priority
        || (result[i].priority == result[j].priority && result[i].createdAt <= result[j].createdAt)
      ensures drained == old(drained) + multiset(result)
    {
      hide Heap, Sorted, InOrder, First, Balanced;
      BalancedMoves(accepted, served, drained, Contents(), Request(0, 0, 0));
      DrainBegins(Contents());
      result := [];
      while |heap.items| > 0
        invariant heap.Valid() && |heap.items| <= old(|heap.items|)
        invariant drained == old(drained)
        invariant Contents() + multiset(result) == old(Contents())
        invariant InOrder(result, Contents()) && Contents() == multiset(heap.items)
        decreases |heap.items|
      {
        ghost var before := Contents();
        var r := heap.Pop();
        NextInOrder(result, before, r);
        result := result + [r];
      }
      assert heap.items == [];
      assert Contents() == multiset{} && multiset(result) == old(Contents());
      OnlyInOrder(result);
      drained := drained + multiset(result);
    }

    method Close()
      requires Valid()
      modifies this`closed
      ensures Valid() && closed
    {
      closed := true;
    }
  }

  ghost predicate OfPriority(all: multiset<Request>, p: int) {
    forall r :: r in all ==> r.priority == p
  }

  lemma StillOfPriority(all: multiset<Request>, r: Request, p: int)
    requires OfPriority(all, p)
    ensures OfPriority(all - multiset{r}, p)
    ensures r.priority == p ==> OfPriority(all + multiset{r}, p)
    ensures r in all ==> r.priority == p
  {
  }

  ghost function Union(c: multiset<Request>, h: multiset<Request>, n: multiset<Request>): multiset<Request> {
    c + h + n
  }

  lemma UnionChanges(c: multiset<Request>, h: multiset<Request>, n: multiset<Request>, r: Request)
    ensures Union(c + multiset{r}, h, n) == Union(c, h + multiset{r}, n) == Union(c, h, n + multiset{r}) == Union(c, h, n) + multiset{r}
    ensures r in c ==> Union(c - multiset{r}, h, n) == Union(c, h, n) - multiset{r}
    ensures r in h ==> Union(c, h - multiset{r}, n) == Union(c, h, n) - multiset{r}
    ensures r in n ==> Union(c, h, n - multiset{r}) == Union(c, h, n) - multiset{r}
  {
  }

  lemma UnionEmpty(c: multiset<Request>, h: multiset<Request>, n: multiset<Request>)
    ensures Union(c, h, n) == multiset{} <==> c == multiset{} && h == multiset{} && n == multiset{}
  {
    assert forall r :: r in Union(c, h, n) <==> r in c || r in h || r in n;
  }

  /** What no request of the first queue that holds any precedes, no request of a later queue precedes. */
  lemma FirstOfAll(c: multiset<Request>, h: multiset<Request>, n: multiset<Request>, p: int, r: Request)
    requires OfPriority(c, 0) && OfPriority(h, 1) && OfPriority(n, 2)
    requires 0 <= p < 3 && First(r, if p == 0 then c else if p == 1 then h else n)
    requires (p > 0 ==> c == multiset{}) && (p > 1 ==> h == multiset{})
    ensures First(r, Union(c, h, n))
  {
  }

  /** Nothing has a smaller priority value, nor the same one and an earlier time. */
  lemma FirstInFields(r: Request, all: multiset<Request>)
    requires First(r, all)
    ensures r in all && forall x :: x in all ==>
      r.priority < x.priority || (r.priority == x.priority && r.createdAt <= x.createdAt)
  {
  }

  lemma FirstIsHeld(r: Request, all: multiset<Request>)
    requires First(r, all)
    ensures r in all
  {
  }

  /** The queues by priority: critical (0), high (1) and normal (2). */
  class MultiPriorityQueue {
    const critical: PriorityQueue
    const high: PriorityQueue
    const normal: PriorityQueue

    function Queue(p: int): PriorityQueue
      requires 0 <= p < 3
    {
      if p == 0 then critical else if p == 1 then high else normal
    }

    ghost function Parts(): set<object> {
      {critical, high, normal, critical.heap, high.heap, normal.heap}
    }

    ghost predicate Separate() {
      && critical != high && critical != normal && high != normal
      && critical.heap != high.heap && critical.heap != normal.heap && high.heap != normal.heap
    }

    /** Each queue holds requests of its own priority, and all are closed or none is. */
    ghost predicate Valid()
      reads Parts()
    {
      && Separate()
      && critical.Valid() && high.Valid() && normal.Valid()
      && critical.closed == high.closed == normal.closed
      && OfPriority(critical.Contents(), 0) && OfPriority(high.Contents(), 1) && OfPriority(normal.Contents(), 2)
    }

    ghost predicate Closed()
      reads critical
    {
      critical.closed
    }

    ghost function Contents(): multiset<Request>
      reads critical.heap, high.heap, normal.heap
    {
      Union(critical.Contents(), high.Contents(), normal.Contents())
    }

    constructor (maxSizePerPriority: int)
      ensures Valid() && fresh(Parts()) && Contents() == multiset{} && !Closed()
      ensures forall p :: 0 <= p < 3 ==> Queue(p).maxSize == maxSizePerPriority
    {
      hide PriorityQueue.Valid, Union;
      UnionEmpty(multiset{}, multiset{}, multiset{});
      critical := new PriorityQueue(maxSizePerPriority);
      high := new PriorityQueue(maxSizePerPriority);
      normal := new PriorityQueue(maxSizePerPriority);
    }

    /** A request of no known priority is refused. */
    method Enqueue(r: Request) returns (ok: bool)
      requires Valid()
      modifies Parts()
      ensures Valid() && Closed() == old(Closed())
      ensures ok <==> 0 <= r.priority < 3 && !Closed() && old(|Queue(r.priority).heap.items|) < Queue(r.priority).maxSize
      ensures Contents() == if ok then old(Contents()) + multiset{r} else old(Contents())
    {
      hide PriorityQueue.Valid, PriorityQueue.Contents, OfPriority, Union;
      if !(0 <= r.priority < 3) {
        return false;
      }
      UnionChanges(critical.Contents(), high.Contents(), normal.Contents(), r);
      StillOfPriority(Queue(r.priority).Contents(), r, r.priority);
      ok := Queue(r.priority).Enqueue(r);
    }

    /** One queue for everything would have given up the same: a request that nothing held precedes. */
    method Dequeue() returns (found: Option<Request>)
      requires Valid()
      modifies Parts()
      ensures Valid() && Closed() == old(Closed())
      ensures found.Some? <==> !Closed() && old(Contents()) != multiset{}
      ensures found.Some? ==> found.value in old(Contents()) && forall x :: x in old(Contents()) ==>
        found.value.priority < x.priority
        || (found.value.priority == x.priority && found.value.createdAt <= x.createdAt)
      ensures Contents() == if found.Some? then old(Contents()) - multiset{found.value} else old(Contents())
    {
      hide Valid, PriorityQueue.Contents, First, Contents, Closed;
      ghost var c, h, n := critical.Contents(), high.Contents(), normal.Contents();
      ContentsEmpty();
      var p := 0;
      while p < 3
        invariant 0 <= p <= 3 && Valid() && Closed() == old(Closed()) && Contents() == old(Contents())
        invariant critical.Contents() == c && high.Contents() == h && normal.Contents() == n
        invariant Closed() || ((p > 0 ==> c == multiset{}) && (p > 1 ==> h == multiset{}) && (p > 2 ==> n == multiset{}))
      {
        AllFirst(p);
        found := TryQueue(p);
        if found.Some? {
          FirstInFields(found.value, old(Contents()));
          return;
        }
        p := p + 1;
      }
      return None;
    }

    method TryQueue(p: int) returns (found: Option<Request>)
      requires Valid() && 0 <= p < 3
      modifies Parts()
      ensures Valid() && Closed() == old(Closed())
      ensures found.Some? <==> !Closed() && old(Queue(p).Contents()) != multiset{}
      ensures found.Some? ==> First(found.value, old(Queue(p).Contents()))
      ensures Contents() == if found.Some? then old(Contents()) - multiset{found.value} else old(Contents())
      ensures found.None? ==> critical.Contents() == old(critical.Contents()) && high.Contents() == old(high.Contents())
      ensures found.None? ==> normal.Contents() == old(normal.Contents())
    {
      hide PriorityQueue.Valid, PriorityQueue.Contents, OfPriority, Union, First;
      ghost var c, h, n := critical.Contents(), high.Contents(), normal.Contents();
      ghost var part := Queue(p).Contents();
      found := Queue(p).TryDequeue();
      if found.Some? {
        FirstIsHeld(found.value, part);
        UnionChanges(c, h, n, found.value);
        StillOfPriority(part, found.value, p);
      }
    }

    lemma ContentsEmpty()
      requires Valid()
      ensures Contents() == multiset{} <==>
        critical.Contents() == multiset{} && high.Contents() == multiset{} && normal.Contents() == multiset{}
    {
      UnionEmpty(critical.Contents(), high.Contents(), normal.Contents());
    }

    lemma AllFirst(p: int)
      requires Valid() && 0 <= p < 3
      ensures (p > 0 ==> critical.Contents() == multiset{}) && (p > 1 ==> high.Contents() == multiset{}) ==>
        forall r :: First(r, Queue(p).Contents()) ==> First(r, Contents())
    {
      var c, h, n := critical.Contents(), high.Contents(), normal.Contents();
      if (p > 0 ==> c == multiset{}) && (p > 1 ==> h == multiset{}) {
        forall r | First(r, Queue(p).Contents()) ensures First(r, Contents()) {
          FirstOfAll(c, h, n, p, r);
        }
      }
    }

    method Close()
      requires Valid()
      modifies Parts()
      ensures Valid() && Closed() && Contents() == old(Contents())
    {
      hide PriorityQueue.Valid, OfPriority;
      critical.Close();
      high.Close();
      normal.Close();
    }
  }
}
