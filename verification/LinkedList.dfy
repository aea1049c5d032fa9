/**
 * The doubly linked list under the cache: a ring through a sentinel, as in Go's container/list.
 * The ghost field `nodes` is the list the ring spells out, front first.
 */
module LinkedList {
  import opened Records

  class Element {
    var prev: Element?
    var next: Element?
    const value: IP

    constructor (value: IP)
      ensures this.value == value
    {
      this.value := value;
      prev, next := null, null;
    }
  }

  class List {
    const root: Element
    ghost var nodes: seq<Element>
    ghost var Repr: set<object>

    ghost function Ring(): seq<Element>
      reads this
    {
      [root] + nodes + [root]
    }

    ghost predicate Valid()
      reads this, Repr
      ensures Valid() ==> this in Repr
    {
      && this in Repr && root in Repr
      && (forall n :: n in nodes ==> n in Repr)
      && root !in nodes
      && (forall i, j :: 0 <= i < j < |nodes| ==> nodes[i] != nodes[j])
      && (forall i {:trigger Ring()[i].next} :: 0 <= i <= |nodes| ==> Ring()[i].next == Ring()[i + 1])
      && (forall i {:trigger Ring()[i].prev} :: 1 <= i <= |nodes| + 1 ==> Ring()[i].prev == Ring()[i - 1])
    }

    constructor ()
      ensures Valid() && nodes == [] && fresh(Repr)
    {
      root := new Element("");
      nodes := [];
      new;
      Repr := {this, root};
      root.prev, root.next := root, root;
    }

    /** Takes `e` out of the ring. */
    method Remove(e: Element, ghost k: nat)
      requires Valid() && k < |nodes| && nodes[k] == e
      modifies Repr
      ensures Valid() && Repr == old(Repr) && nodes == old(nodes)[..k] + old(nodes)[k + 1..]
    {
      assert e == Ring()[k + 1];
      assert Ring()[k + 1].next == Ring()[k + 2] && Ring()[k + 1].prev == Ring()[k];
      e.prev.next := e.next;
      e.next.prev := e.prev;
      e.prev, e.next := null, null;
      ghost var ring := Ring();
      nodes := nodes[..k] + nodes[k + 1..];
      assert Ring() == ring[..k + 1] + ring[k + 2..];
      forall i | 0 <= i <= |nodes|
        ensures Ring()[i].next == Ring()[i + 1] && Ring()[i + 1].prev == Ring()[i]
      {
        var j := if i <= k then i else i + 1;
        assert old(ring[j].next) == ring[j + 1] && old(ring[j + 1].prev) == ring[j];
      }
    }

    /** Puts a node that is outside the ring at its front. */
    method InsertFront(e: Element)
      requires Valid() && e != root && e !in nodes
      modifies Repr, e
      ensures Valid() && Repr == old(Repr) + {e} && nodes == [e] + old(nodes)
    {
      assert Ring()[0].next == Ring()[1];
      e.prev, e.next := root, root.next;
      e.prev.next := e;
      e.next.prev := e;
      ghost var ring := Ring();
      nodes := [e] + nodes;
      Repr := Repr + {e};
      assert Ring() == [root, e] + ring[1..];
      forall i | 0 <= i <= |nodes|
        ensures Ring()[i].next == Ring()[i + 1] && Ring()[i + 1].prev == Ring()[i]
      {
        if i > 0 {
          assert old(ring[i - 1].next) == ring[i] && old(ring[i].prev) == ring[i - 1];
        }
      }
    }

    method PushFront(value: IP) returns (e: Element)
      requires Valid()
      modifies Repr
      ensures Valid() && fresh(e) && Repr == old(Repr) + {e} && e.value == value && nodes == [e] + old(nodes)
    {
      e := new Element(value);
      InsertFront(e);
    }

    method MoveToFront(e: Element, ghost k: nat)
      requires Valid() && k < |nodes| && nodes[k] == e
      modifies Repr
      ensures Valid() && Repr == old(Repr) && nodes == [e] + old(nodes)[..k] + old(nodes)[k + 1..]
    {
      assert Ring()[0].next == Ring()[1];
      if root.next == e {
        return;
      }
      Remove(e, k);
      InsertFront(e);
    }

    /** The last node, or null when the ring is only its sentinel. */
    method Back() returns (e: Element?)
      requires Valid()
      ensures nodes == [] ==> e == null
      ensures nodes != [] ==> e == nodes[|nodes| - 1]
    {
      assert Ring()[|nodes| + 1].prev == Ring()[|nodes|];
      e := root.prev;
      if e == root {
        e := null;
      }
    }
  }
}
