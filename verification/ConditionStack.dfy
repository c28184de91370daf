/** The saved stack of a suspended condition: a singly linked list with a tail pointer. */
module ConditionStack {

  class Element {
    var pd: int
    var next: Element?

    constructor (pd: int, next: Element?)
      ensures this.pd == pd && this.next == next
    {
      this.pd, this.next := pd, next;
    }
  }

  class Stack {
    var head: Element?
    var tail: Element?
    ghost var els: seq<Element>
    ghost var pds: seq<int>      // what they hold

    /** head and tail are the ends of the chain els; the tail is the element pushed first. */
    ghost predicate Valid()
      reads this, els
    {
      && (forall i, j :: 0 <= i < j < |els| ==> els[i] != els[j])
      && head == (if els == [] then null else els[0])
      && tail == (if els == [] then null else els[|els| - 1])
      && |pds| == |els|
      && forall i :: 0 <= i < |els| ==> els[i].next == After(els, i) && els[i].pd == pds[i]
    }

    static ghost function After(els: seq<Element>, i: nat): Element?
      requires i < |els|
    {
      if i + 1 < |els| then els[i + 1] else null
    }

    /** What is on the stack, top first. */
    ghost function Contents(): (s: seq<int>)
      reads this
    {
      pds
    }

    constructor ()
      ensures Valid() && Contents() == [] && els == []
    {
      head, tail, els, pds := null, null, [], [];
    }

    method Empty() returns (b: bool)
      requires Valid()
      ensures b <==> Contents() == []
    {
      b := head == null;
    }

    method Push(d: int)
      requires Valid()
      modifies this
      ensures Valid() && Contents() == [d] + old(Contents())
      ensures forall e :: e in els ==> e in old(els) || fresh(e)
    {
      var el := new Element(d, head);
      if tail == null {
        tail := el;
      }
      head := el;
      els, pds := [el] + els, [d] + pds;
    }

    method Pop() returns (d: int)
      requires Valid() && Contents() != []
      modifies this
      ensures Valid() && d == old(Contents())[0] && Contents() == old(Contents())[1..]
      ensures forall e :: e in els ==> e in old(els)
    {
      var el := head;
      d := el.pd;
      head := el.next;
      if tail == el {
        tail := null;
      }
      els, pds := els[1..], pds[1..];
    }

    method Clear()
      requires Valid()
      modifies this
      ensures Valid() && Contents() == []
    {
      head, tail, els, pds := null, null, [], [];
    }

    /** condition_stack_set_tail_data: the answer a leaf waits for is left in the element
        that the leaf pushed, the first one. */
    method SetTail(d: int)
      requires Valid() && Contents() != []
      modifies this`pds, els
      ensures Valid() && els == old(els) && Contents() == old(Contents())[|old(Contents())| - 1 := d]
    {
      tail.pd := d;
      pds := pds[|pds| - 1 := d];
    }
  }
}
