/** A first-in first-out list with a head and a tail pointer, as the write queue of an
    IPC channel and the callback lists of a Redis connection keep it. */
module Queues {

  class Link<T> {
    const value: T
    var next: Link?<T>

    constructor (value: T)
      ensures this.value == value && next == null
    {
      this.value, next := value, null;
    }
  }

  class Queue<T> {
    var head: Link?<T>
    var tail: Link?<T>
    ghost var links: seq<Link<T>>
    ghost var nodes: set<Link<T>>   // those in the list, and perhaps others that were

    /** head and tail are the ends of the chain of links, or both null. */
    ghost predicate Valid()
      reads this, nodes
    {
      && (forall l :: l in links ==> l in nodes)
      && (forall i, j :: 0 <= i < j < |links| ==> links[i] != links[j])
      && head == (if links == [] then null else links[0])
      && tail == (if links == [] then null else links[|links| - 1])
      && forall i :: 0 <= i < |links| ==> links[i].next == Next(links, i)
    }

    static ghost function Next(links: seq<Link<T>>, i: nat): Link?<T>
      requires i < |links|
    {
      if i + 1 < |links| then links[i + 1] else null
    }

    ghost function Contents(): (s: seq<T>)
      reads this
      ensures |s| == |links|
    {
      seq(|links|, i requires 0 <= i < |links| reads this => links[i].value)
    }

    constructor ()
      ensures Valid() && Contents() == [] && nodes == {}
    {
      head, tail, links, nodes := null, null, [], {};
    }

    method Push(v: T)
      requires Valid()
      modifies this, nodes
      ensures Valid() && Contents() == old(Contents()) + [v]
      ensures fresh(nodes - old(nodes))
    {
      var l := new Link(v);
      if head == null {
        head := l;
      }
      if tail != null {
        tail.next := l;
      }
      tail := l;
      links, nodes := links + [l], nodes + {l};
    }

    /** The first value, if there is one, and the list without it. */
    method Shift() returns (found: bool, l: Link?<T>)
      requires Valid()
      modifies this
      ensures Valid() && found == (old(Contents()) != [])
      ensures found ==> l != null && l.value == old(Contents())[0] && Contents() == old(Contents())[1..]
      ensures !found ==> Contents() == []
      ensures nodes == old(nodes)
    {
      l := head;
      if l == null {
        return false, l;
      }
      head := l.next;
      if l == tail {
        tail := null;
      }
      links := links[1..];
      assert forall i :: 0 <= i < |links| ==> links[i] == old(links)[i + 1];
      found := true;
    }
  }
}
