/** The intrusive list of pending events (fdevent_plist_* in minadbd/fdevent.c): a cycle through the list
    head and the events, linked both ways. */
module PendingList {

  /** The event bits, FDE_EVENTMASK. */
  datatype Flag = Read | Write | Error | Timeout | DontClose

  /** A descriptor's event; state is kept as the bits FDE_ACTIVE and FDE_PENDING and the events wanted. */
  class FdEvent {
    var next: FdEvent?
    var prev: FdEvent?
    var fd: int
    var active: bool
    var pending: bool
    var wanted: set<Flag>
    var events: set<Flag>

    constructor ()
      ensures next == null && prev == null && !active && !pending
    {
      next, prev, fd, active, pending, wanted, events := null, null, 0, false, false, {}, {};
    }
  }

  /** The list head, the events in order, and the head again. */
  ghost function Ring(list: FdEvent, nodes: seq<FdEvent>): seq<FdEvent> {
    [list] + nodes + [list]
  }

  ghost predicate Linked(list: FdEvent, nodes: seq<FdEvent>)
    reads list`next, list`prev, nodes`next, nodes`prev
  {
    var ring := Ring(list, nodes);
    forall k :: 0 <= k < |ring| - 1 ==> ring[k].next == ring[k + 1] && ring[k + 1].prev == ring[k]
  }

  ghost predicate Distinct(list: FdEvent, nodes: seq<FdEvent>) {
    list !in nodes && forall i, j :: 0 <= i < j < |nodes| ==> nodes[i] != nodes[j]
  }

  /** fdevent_plist_enqueue. */
  method Enqueue(list: FdEvent, node: FdEvent, ghost nodes: seq<FdEvent>)
    requires Linked(list, nodes) && Distinct(list, nodes) && node != list && node !in nodes
    modifies list`next, list`prev, node`next, node`prev, nodes`next
    ensures Linked(list, nodes + [node]) && Distinct(list, nodes + [node])
  {
    ghost var ring := Ring(list, nodes);
    assert ring[|nodes| + 1] == list && list.prev == ring[|nodes|];
    node.next := list;
    node.prev := list.prev;
    node.prev.next := node;
    list.prev := node;
    ghost var now := Ring(list, nodes + [node]);
    forall k | 0 <= k < |now| - 1
      ensures now[k].next == now[k + 1] && now[k + 1].prev == now[k]
    {
      if k < |nodes| {
        assert now[k] == ring[k] && now[k + 1] == ring[k + 1];
      }
    }
  }

  /** fdevent_plist_remove. */
  method Remove(list: FdEvent, node: FdEvent, ghost nodes: seq<FdEvent>, ghost i: nat)
    requires Linked(list, nodes) && Distinct(list, nodes) && i < |nodes| && nodes[i] == node
    modifies list`next, list`prev, nodes`next, nodes`prev
    ensures Linked(list, nodes[..i] + nodes[i + 1..]) && Distinct(list, nodes[..i] + nodes[i + 1..])
    ensures node.next == null && node.prev == null
  {
    ghost var ring := Ring(list, nodes);
    assert ring[i + 1] == node && node.prev == ring[i] && node.next == ring[i + 2];
    node.prev.next := node.next;
    node.next.prev := node.prev;
    node.next := null;
    node.prev := null;
    ghost var now := Ring(list, nodes[..i] + nodes[i + 1..]);
    forall k | 0 <= k < |now| - 1
      ensures now[k].next == now[k + 1] && now[k + 1].prev == now[k]
    {
      if k < i {
        assert now[k] == ring[k] && now[k + 1] == ring[k + 1];
      } else if k > i {
        assert now[k] == ring[k + 1] && now[k + 1] == ring[k + 2];
      } else {
        assert now[k] == ring[i] && now[k + 1] == ring[i + 2];
      }
    }
  }

  /** fdevent_plist_dequeue. */
  method Dequeue(list: FdEvent, ghost nodes: seq<FdEvent>) returns (node: FdEvent?)
    requires Linked(list, nodes) && Distinct(list, nodes)
    modifies list`next, nodes`next, nodes`prev, list`prev
    ensures node == null <==> nodes == []
    ensures nodes == [] ==> Linked(list, nodes)
    ensures nodes != [] ==> node == nodes[0] && Linked(list, nodes[1..]) && Distinct(list, nodes[1..])
    ensures node != null ==> node.next == null && node.prev == null
  {
    ghost var ring := Ring(list, nodes);
    assert ring[0] == list && list.next == ring[1];
    node := list.next;
    if node == list {
      assert nodes == [];
      return null;
    }
    assert node == nodes[0] && node.next == ring[2];
    list.next := node.next;
    list.next.prev := list;
    node.next := null;
    node.prev := null;
    ghost var now := Ring(list, nodes[1..]);
    forall k | 0 <= k < |now| - 1
      ensures now[k].next == now[k + 1] && now[k + 1].prev == now[k]
    {
      if k > 0 {
        assert now[k] == ring[k + 1] && now[k + 1] == ring[k + 2];
      }
    }
  }
}
