/** The doubly linked list with a sentinel (Go's container/list) that the cache keeps in order of use. */
module RecencyList {
  import opened Common

  type Key = nat

  class Element {
    var next: Element?
    var prev: Element?
    const key: Key

    constructor (key: Key)
      ensures this.key == key
    {
      this.key := key;
      next, prev := null, null;
    }
  }

  /** Consecutive nodes point at each other. */
  ghost predicate Linked(nodes: seq<Element>)
    reads nodes
  {
    forall i :: 0 <= i < |nodes| - 1 ==> nodes[i].next == nodes[i + 1] && nodes[i + 1].prev == nodes[i]
  }

  /** The sentinel closes the ring at both ends; the other nodes differ from it and from each other. */
  lemma RingNodes(elems: seq<Element>, root: Element)
    requires Distinct(elems) && root !in elems
    ensures var ring := [root] + elems + [root];
            && (forall a, b :: 0 <= a < b < |ring| - 1 ==> ring[a] != ring[b])
            && (forall a, b :: 0 < a < b < |ring| ==> ring[a] != ring[b])
  {
  }

  class RecencyList {
    const root: Element
    var len: nat
    ghost var elems: seq<Element>   // front to back
    ghost var repr: set<object>     // this list and every node it has had

    ghost function Ring(): seq<Element>
      reads this
    {
      [root] + elems + [root]
    }

    ghost predicate Valid()
      reads this, repr
    {
      && this in repr && root in repr && (forall e :: e in elems ==> e in repr)
      && len == |elems|
      && Distinct(elems) && root !in elems
      && Linked(Ring())
    }

    constructor ()
      ensures Valid() && elems == [] && fresh(repr)
    {
      var r := new Element(0);
      r.next, r.prev := r, r;
      root, len, elems := r, 0, [];
      repr := {this, r};
    }

    method PushFront(key: Key) returns (e: Element)
      requires Valid()
      modifies repr
      ensures Valid() && fresh(e) && e.key == key && elems == [e] + old(elems) && repr == old(repr) + {e}
    {
      e := new Element(key);
      InsertFront(e);
    }

    /** insert(e, &root) */
    method InsertFront(e: Element)
      requires Valid() && e != root && e !in elems
      modifies repr, e
      ensures Valid() && elems == [e] + old(elems) && repr == old(repr) + {e}
    {
      ghost var was := Ring();
      assert was[0] == root && was[1] == root.next;
      e.prev := root;
      e.next := root.next;
      root.next.prev := e;
      root.next := e;
      elems := [e] + elems;
      repr := repr + {e};
      len := len + 1;
      assert Ring() == [root, e] + was[1..];
    }

    /** remove(e) */
    method Remove(e: Element, ghost i: nat)
      requires Valid() && i < |elems| && elems[i] == e
      modifies repr
      ensures Valid() && elems == Drop(old(elems), i) && repr == old(repr)
    {
      ghost var was := Ring();
      RingNodes(elems, root);
      assert was[i + 1] == e && was[i].next == was[i + 1] && was[i + 1].next == was[i + 2];
      e.prev.next := e.next;
      e.next.prev := e.prev;
      assert forall a :: 0 <= a < |was| - 1 && a != i ==> was[a].next == old(was[a].next);
      assert forall a :: 0 < a < |was| && a != i + 2 ==> was[a].prev == old(was[a].prev);
      elems := Drop(elems, i);
      len := len - 1;
      ghost var ring := Ring();
      forall j | 0 <= j < |ring| - 1 ensures ring[j].next == ring[j + 1] && ring[j + 1].prev == ring[j] {
        assert ring[j] == was[if j <= i then j else j + 1];
        assert ring[j + 1] == was[if j < i then j + 1 else j + 2];
      }
    }

    method MoveToFront(e: Element, ghost i: nat)
      requires Valid() && i < |elems| && elems[i] == e
      modifies repr
      ensures Valid() && elems == [e] + Drop(old(elems), i) && repr == old(repr)
    {
      if root.next == e {
        ghost var ring := Ring();
        assert ring[0].next == ring[1];
        assert elems[0] == e;
        assert elems == [e] + elems[1..];
        return;
      }
      Remove(e, i);
      InsertFront(e);
    }

    /** Init empties the list. */
    method Init()
      requires Valid()
      modifies repr
      ensures Valid() && elems == [] && repr == old(repr)
    {
      root.next, root.prev := root, root;
      len, elems := 0, [];
    }

    method Back() returns (e: Element?)
      requires Valid()
      ensures e == if elems == [] then null else elems[|elems| - 1]
    {
      ghost var ring := Ring();
      assert ring[|elems| + 1].prev == ring[|elems|];
      if len == 0 {
        return null;
      }
      return root.prev;
    }
  }
}
