/** The binary heap of requests: Go's container/heap over the slice of a priority queue. */
module RequestHeap {
  datatype Request = Request(id: nat, priority: int, createdAt: int)

  /** Less: the smaller priority value first, and the earlier request first within one priority. */
  predicate Precedes(a: Request, b: Request) {
    a.priority < b.priority || (a.priority == b.priority && a.createdAt < b.createdAt)
  }

  function Parent(i: int): int
    requires i > 0
  {
    (i - 1) / 2
  }

  /** No node of the first n precedes its parent. */
  ghost predicate Heap(s: seq<Request>, n: nat) {
    forall i :: 0 < i < n <= |s| ==> !Precedes(s[i], s[Parent(i)])
  }

  /** A heap but for node j against its parent. */
  ghost predicate HeapButUp(s: seq<Request>, j: nat) {
    && (forall i :: 0 < i < |s| && i != j ==> !Precedes(s[i], s[Parent(i)]))
    && (forall i :: 0 < i < |s| && Parent(i) == j && 0 < j < |s| ==> !Precedes(s[i], s[Parent(j)]))
  }

  /** The first n are a heap but for node j against its children. */
  ghost predicate HeapButDown(s: seq<Request>, j: nat, n: nat) {
    && (forall i :: 0 < i < n <= |s| && Parent(i) != j ==> !Precedes(s[i], s[Parent(i)]))
    && (forall i :: 0 < i < n <= |s| && Parent(i) == j && 0 < j < n ==> !Precedes(s[i], s[Parent(j)]))
  }

  ghost predicate First(r: Request, all: multiset<Request>) {
    r in all && forall x :: x in all ==> !Precedes(x, r)
  }

  ghost predicate Sorted(s: seq<Request>) {
    forall i, j :: 0 <= i < j < |s| ==> !Precedes(s[j], s[i])
  }

  lemma {:induction false} RootIsFirst(s: seq<Request>, i: nat)
    requires Heap(s, |s|) && i < |s|
    ensures !Precedes(s[i], s[0])
  {
    if i > 0 {
      RootIsFirst(s, Parent(i));
    }
  }

  /** No two of these requests tie. */
  ghost predicate Decided(all: multiset<Request>) {
    forall a, b :: a in all && b in all ==> a == b || Precedes(a, b) || Precedes(b, a)
  }

  lemma RestOf(s: seq<Request>)
    requires s != []
    ensures multiset(s[1..]) == multiset(s) - multiset{s[0]}
    ensures Decided(multiset(s)) ==> Decided(multiset(s[1..]))
  {
    assert s == [s[0]] + s[1..];
    assert forall x :: x in multiset(s[1..]) ==> x in multiset(s);
  }

  lemma SortedTail(s: seq<Request>)
    requires Sorted(s) && s != []
    ensures Sorted(s[1..])
  {
  }

  /** Without ties a multiset has one sorted arrangement: the shape of the heap cannot be observed. */
  lemma {:induction false} SortedIsUnique(s: seq<Request>, t: seq<Request>)
    requires Sorted(s) && Sorted(t) && multiset(s) == multiset(t) && Decided(multiset(s))
    ensures s == t
  {
    if s == [] {
      assert |t| == |multiset(t)| == 0;
    } else {
      assert |s| == |multiset(s)| == |multiset(t)| == |t|;
      assert |s| > 0;
      HeadsAgree(s, t);
      assert s == [s[0]] + s[1..] && t == [t[0]] + t[1..];
      RestOf(s);
      RestOf(t);
      SortedTail(s);
      SortedTail(t);
      hide Sorted;
      SortedIsUnique(s[1..], t[1..]);
    }
  }

  lemma HeadsAgree(s: seq<Request>, t: seq<Request>)
    requires Sorted(s) && Sorted(t) && multiset(s) == multiset(t) && Decided(multiset(s)) && s != [] && t != []
    ensures s[0] == t[0]
  {
    assert s[0] in multiset(t) && t[0] in multiset(s);
    var i :| 0 <= i < |t| && t[i] == s[0];
    var j :| 0 <= j < |s| && s[j] == t[0];
  }

  lemma SwapKeepsMultiset(s: seq<Request>, i: nat, j: nat)
    requires i < |s| && j < |s|
    ensures multiset(s[i := s[j]][j := s[i]]) == multiset(s)
  {
  }

  lemma UpStep(s: seq<Request>, j: nat)
    requires 0 < j < |s| && HeapButUp(s, j) && Precedes(s[j], s[Parent(j)])
    ensures HeapButUp(s[Parent(j) := s[j]][j := s[Parent(j)]], Parent(j))
  {
  }

  lemma UpEnds(s: seq<Request>, j: nat)
    requires j < |s| && HeapButUp(s, j) && (j > 0 ==> !Precedes(s[j], s[Parent(j)]))
    ensures Heap(s, |s|)
  {
  }

  lemma NoChildren(s: seq<Request>, i: nat, n: nat)
    requires HeapButDown(s, i, n) && 2 * i + 1 >= n
    ensures Heap(s, n)
  {
  }

  /** j is a child of i that the other child does not precede. */
  ghost predicate Smaller(s: seq<Request>, i: nat, j: nat, n: nat)
    requires 0 < j < |s|
  {
    Parent(j) == i && forall k :: 0 < k < n <= |s| && Parent(k) == i ==> !Precedes(s[k], s[j])
  }

  lemma SmallerChild(s: seq<Request>, i: nat, j: nat, n: nat)
    requires 2 * i + 1 < n <= |s|
    requires j == if 2 * i + 2 < n && Precedes(s[2 * i + 2], s[2 * i + 1]) then 2 * i + 2 else 2 * i + 1
    ensures i < j < n && Smaller(s, i, j, n)
  {
  }

  lemma DownEnds(s: seq<Request>, i: nat, j: nat, n: nat)
    requires i < j < n <= |s| && Smaller(s, i, j, n) && HeapButDown(s, i, n) && !Precedes(s[j], s[i])
    ensures Heap(s, n)
  {
  }

  lemma DownStep(s: seq<Request>, i: nat, j: nat, n: nat)
    requires i < j < n <= |s| && Smaller(s, i, j, n) && HeapButDown(s, i, n) && Precedes(s[j], s[i])
    ensures HeapButDown(s[i := s[j]][j := s[i]], j, n)
  {
  }

  class RequestHeap {
    var items: seq<Request>

    constructor ()
      ensures items == []
    {
      items := [];
    }

    ghost predicate Valid()
      reads this
    {
      Heap(items, |items|)
    }

    predicate Less(i: nat, j: nat)
      requires i < |items| && j < |items|
      reads this
    {
      Precedes(items[i], items[j])
    }

    method Swap(i: nat, j: nat)
      requires i < |items| && j < |items|
      modifies this
      ensures items == old(items[i := items[j]][j := items[i]]) && multiset(items) == old(multiset(items))
    {
      SwapKeepsMultiset(items, i, j);
      items := items[i := items[j]][j := items[i]];
    }

    /** up: sifts the last node towards the root. */
    method Up(last: nat)
      requires last < |items| && HeapButUp(items, last)
      modifies this
      ensures Valid() && |items| == old(|items|) && multiset(items) == old(multiset(items))
    {
      hide HeapButUp, Heap, Precedes;
      var j: nat := last;
      while true
        invariant j < |items| == old(|items|) && HeapButUp(items, j) && multiset(items) == old(multiset(items))
        decreases j
      {
        var i := if j == 0 then 0 else (j - 1) / 2;
        if i == j || !Less(j, i) {
          UpEnds(items, j);
          break;
        }
        UpStep(items, j);
        Swap(i, j);
        j := i;
      }
    }

    /** down: sifts the root into the first n nodes. */
    method Down(n: nat)
      requires n <= |items| && HeapButDown(items, 0, n)
      modifies this
      ensures |items| == old(|items|) && multiset(items) == old(multiset(items))
      ensures Heap(items, n) && items[n..] == old(items[n..])
    {
      hide HeapButDown, Heap, Smaller, Precedes;
      var i := 0;
      while true
        invariant n <= |items| == old(|items|) && (i < n || i == 0)
        invariant HeapButDown(items, i, n) && multiset(items) == old(multiset(items))
        invariant items[n..] == old(items[n..])
        decreases n - i
      {
        var left := 2 * i + 1;
        if left >= n {
          NoChildren(items, i, n);
          break;
        }
        var j := left;
        if left + 1 < n && Less(left + 1, left) {
          j := left + 1;
        }
        SmallerChild(items, i, j, n);
        if !Less(j, i) {
          DownEnds(items, i, j, n);
          break;
        }
        DownStep(items, i, j, n);
        ghost var before := items;
        Swap(i, j);
        assert items[n..] == before[n..];
        i := j;
      }
    }

    method Push(r: Request)
      requires Valid()
      modifies this
      ensures Valid() && |items| == old(|items|) + 1 && multiset(items) == old(multiset(items)) + multiset{r}
    {
      items := items + [r];
      Up(|items| - 1);
    }

    /** Pop: a request that no other precedes. */
    method Pop() returns (r: Request)
      requires Valid() && |items| > 0
      modifies this
      ensures Valid() && |items| == old(|items|) - 1
      ensures multiset(items) == old(multiset(items)) - multiset{r} && First(r, old(multiset(items)))
    {
      var n := |items| - 1;
      HeadIsFirst(items);
      SwappedHeap(items);
      hide Heap, HeapButDown, First, Precedes;
      Swap(0, n);
      Down(n);
      r := items[n];
      assert items[n..][0] == r;
      Shorter(items);
      items := items[..n];
    }
  }

  lemma HeadIsFirst(s: seq<Request>)
    requires Heap(s, |s|) && s != []
    ensures First(s[0], multiset(s))
  {
    forall i | 0 <= i < |s| ensures !Precedes(s[i], s[0]) {
      RootIsFirst(s, i);
    }
  }

  /** With its ends exchanged, all but the last of a heap are a heap but for the root. */
  lemma SwappedHeap(s: seq<Request>)
    requires Heap(s, |s|) && s != []
    ensures HeapButDown(s[0 := s[|s| - 1]][|s| - 1 := s[0]], 0, |s| - 1)
    ensures s[0 := s[|s| - 1]][|s| - 1 := s[0]][|s| - 1] == s[0]
  {
  }

  /** Without its last element the first n of a heap are all of it. */
  lemma Shorter(s: seq<Request>)
    requires s != []
    ensures multiset(s[..|s| - 1]) == multiset(s) - multiset{s[|s| - 1]}
    ensures Heap(s, |s| - 1) ==> Heap(s[..|s| - 1], |s| - 1)
  {
    assert s == s[..|s| - 1] + [s[|s| - 1]];
  }
}
