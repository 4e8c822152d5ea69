/** The singly linked queue of events between the worker and poll. */
module EventQueue {
  import opened Bytes
  import opened Events

  class EventNode {
    const ev: Event
    var next: EventNode?

    constructor (ev: Event)
      ensures this.ev == ev && next == null
    {
      this.ev, next := ev, null;
    }
  }

  class EventQueue {
    var head: EventNode?
    var tail: EventNode?
    ghost var nodes: seq<EventNode>
    ghost var Contents: seq<Event>
    ghost var Repr: set<object>

    /** head, tail and next pointers form one list, the nodes in order, carrying Contents. */
    ghost predicate Valid()
      reads this, Repr
    {
      && this in Repr && (forall n :: n in nodes ==> n in Repr)
      && (forall i, j :: 0 <= i < j < |nodes| ==> nodes[i] != nodes[j])
      && (forall i {:trigger nodes[i].next} :: 0 <= i < |nodes| - 1 ==> nodes[i].next == nodes[i + 1])
      && (|nodes| > 0 ==> nodes[|nodes| - 1].next == null)
      && head == (if |nodes| > 0 then nodes[0] else null)
      && tail == (if |nodes| > 0 then nodes[|nodes| - 1] else null)
      && |Contents| == |nodes| && (forall i :: 0 <= i < |nodes| ==> Contents[i] == nodes[i].ev)
    }

    constructor ()
      ensures Valid() && fresh(Repr) && Contents == []
    {
      head, tail, nodes, Contents, Repr := null, null, [], [], {this};
    }

    method Enqueue(e: Event)
      requires Valid()
      modifies Repr
      ensures Valid() && fresh(Repr - old(Repr)) && Contents == old(Contents) + [e]
    {
      var ev := new EventNode(e);
      if tail == null {
        head, tail := ev, ev;
      } else {
        tail.next := ev;
        tail := ev;
      }
      nodes, Contents, Repr := nodes + [ev], Contents + [e], Repr + {ev};
    }

    method Dequeue() returns (e: Option<Event>)
      requires Valid()
      modifies this
      ensures Valid() && Repr == old(Repr)
      ensures if old(Contents) == [] then e == None && Contents == []
              else e == Some(old(Contents)[0]) && Contents == old(Contents)[1..]
    {
      var ev := head;
      if ev == null { return None; }
      ghost var before := nodes;
      head := ev.next;
      if head == null { tail := null; }
      nodes, Contents := nodes[1..], Contents[1..];
      assert forall i :: 0 <= i < |nodes| ==> nodes[i] == before[i + 1];
      return Some(ev.ev);
    }

    method Clear()
      requires Valid()
      modifies this
      ensures Valid() && Repr == old(Repr) && Contents == []
    {
      head, tail, nodes, Contents := null, null, [], [];
    }
  }
}
