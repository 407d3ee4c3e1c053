/** The event loop of the adb daemon, in its select() form (minadbd/fdevent.c). */
module Fdevent {
  import opened PendingList

  /** What select() reports: the ready descriptors of each kind, a bad descriptor, or another failure. */
  datatype Select = Ready(r: set<int>, w: set<int>, e: set<int>) | BadFd | Failed

  /** The events that reach descriptor i. When select() names none, a read is faked for the bad ones. */
  function Got(s: Select, bad: set<int>, i: int): set<Flag> {
    if s.Failed? then {}
    else if s.Ready? && s.r + s.w + s.e != {} then Flags(s.r, s.w, s.e, i)
    else if i in bad then {Read} else {}
  }

  function Flags(r: set<int>, w: set<int>, e: set<int>, i: int): set<Flag> {
    (if i in r then {Read} else {}) + (if i in w then {Write} else {}) + (if i in e then {Error} else {})
  }

  /** The part of a descriptor set from i on. */
  function From(s: set<int>, i: int): set<int> {
    set j | j in s && j >= i
  }

  lemma FromStep(s: set<int>, i: int)
    ensures i in s ==> From(s, i + 1) == From(s, i) - {i} && |From(s, i + 1)| == |From(s, i)| - 1
    ensures i !in s ==> From(s, i + 1) == From(s, i)
  {
    if i in s {
      assert From(s, i) == From(s, i + 1) + {i};
    } else {
      assert From(s, i) == From(s, i + 1);
    }
  }

  lemma FromNothing(r: set<int>, w: set<int>, e: set<int>, i: int)
    requires |From(r, i)| + |From(w, i)| + |From(e, i)| <= 0
    ensures forall j :: j >= i ==> Flags(r, w, e, j) == {}
  {
    assert From(r, i) == {} && From(w, i) == {} && From(e, i) == {};
    forall j | j >= i
      ensures Flags(r, w, e, j) == {}
    {
      assert j in r ==> j in From(r, i);
      assert j in w ==> j in From(w, i);
      assert j in e ==> j in From(e, i);
    }
  }

  lemma FromAll(s: set<int>)
    requires forall j :: j in s ==> j >= 0
    ensures From(s, 0) == s
  {}

  /** The event registered for a descriptor. */
  function At(table: seq<FdEvent?>, i: int): FdEvent? {
    if 0 <= i < |table| then table[i] else null
  }

  lemma Replaced(t: seq<FdEvent?>, fd: int, x: FdEvent?)
    requires 0 <= fd < |t|
    ensures forall i :: At(t[fd := x], i) == if i == fd then x else At(t, i)
  {
    forall i
      ensures At(t[fd := x], i) == if i == fd then x else At(t, i)
    {
      assert 0 <= i < |t| ==> t[fd := x][i] == if i == fd then x else t[i];
    }
  }

  lemma Without(list: FdEvent, q: seq<FdEvent>, i: nat)
    requires Distinct(list, q) && i < |q|
    ensures forall n :: n in q[..i] + q[i + 1..] <==> n in q && n != q[i]
  {
    var r := q[..i] + q[i + 1..];
    forall n | n in q && n != q[i]
      ensures n in r
    {
      var k :| 0 <= k < |q| && q[k] == n;
      assert if k < i then r[k] == n else r[k - 1] == n;
    }
  }

  /** What fdevent_set leaves of the notifications of an event whose subscription changes to mask. */
  function Left(wanted: set<Flag>, events: set<Flag>, mask: set<Flag>): set<Flag> {
    if wanted == mask then events else events - mask
  }

  lemma LeftIs(wanted: set<Flag>, events: set<Flag>, mask: set<Flag>)
    ensures wanted == mask ==> Left(wanted, events, mask) == events
    ensures wanted != mask ==> Left(wanted, events, mask) == events - mask
    ensures events == {} ==> Left(wanted, events, mask) == {}
  {}

  /** The comment in fdevent_set asks that nothing unwanted is signalled. Where the subscription changes,
      that holds exactly when nothing unwanted was to be signalled before, and what is wanted is kept only
      when nothing was to be signalled at all. */
  lemma UnwantedExactly(wanted: set<Flag>, events: set<Flag>, mask: set<Flag>)
    requires wanted != mask
    ensures Left(wanted, events, mask) <= mask <==> events <= mask
    ensures Left(wanted, events, mask) == events * mask <==> events == {}
  {
    var left := Left(wanted, events, mask);
    if left <= mask {
      forall f | f in events ensures f in mask {
        assert f in mask || f in left;
      }
    }
    assert forall f :: f in left <==> f in events && f !in mask;
    assert forall f :: f in events * mask <==> f in events && f in mask;
  }

  class EventLoop {
    const list: FdEvent
    var table: seq<FdEvent?>
    var readFds: set<int>
    var writeFds: set<int>
    var errorFds: set<int>
    var selectN: int
    ghost var queue: seq<FdEvent>

    /** Registered events know their descriptor, are active, and are below select_n. */
    ghost predicate Registered()
      reads this`table, this`selectN, table`fd, table`active
    {
      0 <= selectN <= |table| && (forall i :: At(table, i) != list) &&
      forall i :: At(table, i) != null ==> At(table, i).fd == i && At(table, i).active && i < selectN
    }

    /** The select set has exactly the descriptors subscribed to its event. */
    ghost predicate Selects(table: seq<FdEvent?>, fds: set<int>, f: Flag)
      reads table`wanted
    {
      forall i :: i in fds <==> At(table, i) != null && f in At(table, i).wanted
    }

    /** The list is a proper cycle of registered events, exactly those marked pending. */
    ghost predicate Listed(table: seq<FdEvent?>)
      reads this`queue, table`pending, list`next, list`prev, queue`next, queue`prev, queue`fd
    {
      Linked(list, queue) && Distinct(list, queue) &&
      (forall k :: 0 <= k < |queue| ==> At(table, queue[k].fd) == queue[k]) &&
      forall i :: At(table, i) != null ==> (At(table, i).pending <==> At(table, i) in queue)
    }

    /** The events marked pending are those with something to signal. */
    ghost predicate Marked(table: seq<FdEvent?>)
      reads table`pending, table`events
    {
      forall i :: At(table, i) != null ==> (At(table, i).pending <==> At(table, i).events != {})
    }

    ghost predicate Selected()
      reads this`table, this`readFds, this`writeFds, this`errorFds, table`wanted
    {
      Selects(table, readFds, Read) && Selects(table, writeFds, Write) && Selects(table, errorFds, Error)
    }

    ghost predicate Valid()
      reads this, list, table, queue
    {
      Registered() && Listed(table) && Marked(table) && Selected()
    }

    constructor ()
      ensures Valid() && table == [] && queue == [] && fresh(list)
    {
      list := new FdEvent();
      table, readFds, writeFds, errorFds, selectN, queue := [], {}, {}, {}, 0, [];
      new;
      list.next, list.prev := list, list;
    }

    lemma ValidMeans(fde: FdEvent)
      requires Valid()
      ensures Registered() && Listed(table) && Marked(table) && Selected()
      ensures At(table, fde.fd) == fde ==>
                fde.active && fde != list && (fde.pending <==> fde in queue) && (fde.pending <==> fde.events != {})
    {}

    /** With one event registered, there is no other in the table or on the list. */
    lemma Alone(fde: FdEvent)
      requires Valid() && forall i :: At(table, i) == null || At(table, i) == fde
      ensures forall i :: 0 <= i < |table| ==> table[i] == null || table[i] == fde
      ensures forall i :: 0 <= i < |queue| ==> queue[i] == fde
    {
      assert forall i :: 0 <= i < |table| ==> At(table, i) == table[i];
    }

    lemma Subscribed(fde: FdEvent)
      requires Valid() && At(table, fde.fd) == fde
      ensures (Read in fde.wanted <==> fde.fd in readFds) && (Write in fde.wanted <==> fde.fd in writeFds)
    {}

    lemma ValidWhen()
      requires Registered() && Listed(table) && Marked(table) && Selected()
      ensures Valid()
    {}

    /** fdevent_update. */
    method Update(fde: FdEvent, events: set<Flag>)
      requires Registered() && At(table, fde.fd) == fde
      requires Selected()
      modifies this`readFds, this`writeFds, this`errorFds, fde`wanted
      ensures Selected() && fde.wanted == events
    {
      readFds := if Read in events then readFds + {fde.fd} else readFds - {fde.fd};
      writeFds := if Write in events then writeFds + {fde.fd} else writeFds - {fde.fd};
      errorFds := if Error in events then errorFds + {fde.fd} else errorFds - {fde.fd};
      fde.wanted := events;
    }

    /** Drops an event from the list and its pending mark. */
    method Unqueue(fde: FdEvent)
      requires Registered() && Listed(table) && At(table, fde.fd) == fde && fde.pending
      modifies this`queue, fde`pending, list`next, list`prev, queue`next, queue`prev
      ensures Listed(table) && !fde.pending
      ensures forall n :: n in queue <==> n in old(queue) && n != fde
    {
      hide Linked, Distinct, Ring;
      ghost var i :| 0 <= i < |queue| && queue[i] == fde;
      Without(list, queue, i);
      Remove(list, fde, queue, i);
      fde.pending := false;
      queue := queue[..i] + queue[i + 1..];
    }

    /** fdevent_set. A pending event loses the notifications that are wanted now, and leaves the list when
        none is left. */
    method Set(fde: FdEvent, mask: set<Flag>)
      requires Valid() && At(table, fde.fd) == fde
      modifies this`readFds, this`writeFds, this`errorFds, this`queue
      modifies fde`wanted, fde`events, fde`pending, list`next, list`prev, queue`next, queue`prev
      ensures Valid() && fde.wanted == mask && fde.events == Left(old(fde.wanted), old(fde.events), mask)
      ensures forall n :: n in queue <==> n in old(queue) && (n == fde ==> fde.events != {})
    {
      hide *;
      ValidMeans(fde);
      LeftIs(fde.wanted, fde.events, mask);
      if fde.wanted == mask {
        return;
      }
      if fde.active {
        Update(fde, mask);
      }
      fde.wanted := mask;
      if fde.pending {
        Curtail(fde, mask);
      }
      ValidWhen();
      ValidMeans(fde);
    }

    /** The last part of fdevent_set. */
    method Curtail(fde: FdEvent, mask: set<Flag>)
      requires Registered() && Listed(table) && Marked(table) && At(table, fde.fd) == fde && fde.pending
      modifies this`queue, fde`events, fde`pending, list`next, list`prev, queue`next, queue`prev
      ensures Listed(table) && Marked(table) && fde.events == old(fde.events) - mask
      ensures forall n :: n in queue <==> n in old(queue) && (n == fde ==> fde.events != {})
    {
      hide Registered, Listed, Linked, Distinct;
      fde.events := fde.events - mask;
      if fde.events == {} {
        Unqueue(fde);
      }
    }

    /** fdevent_add. */
    method Add(fde: FdEvent, events: set<Flag>)
      requires Valid() && At(table, fde.fd) == fde
      modifies this`readFds, this`writeFds, this`errorFds, this`queue
      modifies fde`wanted, fde`events, fde`pending, list`next, list`prev, queue`next, queue`prev
      ensures Valid() && fde.wanted == old(fde.wanted) + events
      ensures fde.events == Left(old(fde.wanted), old(fde.events), fde.wanted)
      ensures forall n :: n in queue <==> n in old(queue) && (n == fde ==> fde.events != {})
    {
      Set(fde, fde.wanted + events);
    }

    /** fdevent_del. */
    method Del(fde: FdEvent, events: set<Flag>)
      requires Valid() && At(table, fde.fd) == fde
      modifies this`readFds, this`writeFds, this`errorFds, this`queue
      modifies fde`wanted, fde`events, fde`pending, list`next, list`prev, queue`next, queue`prev
      ensures Valid() && fde.wanted == old(fde.wanted) - events
      ensures fde.events == Left(old(fde.wanted), old(fde.events), fde.wanted)
      ensures forall n :: n in queue <==> n in old(queue) && (n == fde ==> fde.events != {})
    {
      Set(fde, fde.wanted - events);
    }

    // ----- registration -----

    /** The table enlarged until it has a slot for fd. */
    method Grow(fd: int)
      modifies this`table
      ensures |table| > fd && |table| >= |old(table)|
      ensures forall i :: At(table, i) == At(old(table), i)
    {
      if fd >= |table| {
        var max := if |table| == 0 then 256 else |table|;
        while max <= fd
          invariant max >= |table| && max > 0
        {
          max := max * 2;
        }
        table := table + seq(max - |table|, _ => null);
      }
    }

    /** An event put into the table's free slot for its descriptor. */
    method Register(fde: FdEvent)
      requires Registered() && fde != list && fde.fd >= 0 && fde.active && At(table, fde.fd) == null
      modifies this`table, this`selectN
      ensures Registered() && At(table, fde.fd) == fde
      ensures forall i :: i != fde.fd ==> At(table, i) == At(old(table), i)
      ensures selectN == if fde.fd < old(selectN) then old(selectN) else fde.fd + 1
    {
      Grow(fde.fd);
      ghost var grown := table;
      Replaced(table, fde.fd, fde);
      table := table[fde.fd := fde];
      assert forall i :: At(table, i) == if i == fde.fd then fde else At(grown, i);
      if fde.fd >= selectN {
        selectN := fde.fd + 1;
      }
    }

    lemma ListedStays(t: seq<FdEvent?>, fde: FdEvent)
      requires Registered() && At(table, fde.fd) == fde && !fde.pending && fde !in queue && Listed(t)
      requires At(t, fde.fd) == null && forall i :: i != fde.fd ==> At(table, i) == At(t, i)
      ensures Listed(table)
    {}

    lemma SelectsStays(t: seq<FdEvent?>, fde: FdEvent, fds: set<int>, f: Flag)
      requires At(table, fde.fd) == fde && f !in fde.wanted && Selects(t, fds, f)
      requires At(t, fde.fd) == null && forall i :: i != fde.fd ==> At(table, i) == At(t, i)
      ensures Selects(table, fds, f)
    {}

    lemma Outside(fde: FdEvent)
      requires Valid() && forall i :: At(table, i) != fde
      ensures fde !in table && fde !in queue
    {
      assert forall i :: 0 <= i < |table| ==> At(table, i) == table[i];
    }

    method Reset(fde: FdEvent, fd: int)
      requires Valid() && fde !in table && fde !in queue && fde != list
      modifies fde
      ensures Valid()
      ensures fde.fd == fd && fde.active && !fde.pending && fde.wanted == {} && fde.events == {}
    {
      hide *;
      fde.next, fde.prev, fde.fd, fde.active, fde.pending := null, null, fd, true, false;
      fde.wanted, fde.events := {}, {};
    }

    /** fdevent_install with fdevent_register and fdevent_connect; false where the source aborts. */
    method Install(fde: FdEvent, fd: int) returns (ok: bool)
      requires Valid() && (forall i :: At(table, i) != fde) && fde != list && At(table, fd) == null
      modifies this`table, this`selectN, fde
      ensures ok <==> 0 <= fd && (fd < |old(table)| || fd <= 32000)
      ensures !ok ==> Valid() && table == old(table)
      ensures ok ==> Valid() && At(table, fd) == fde && fde.fd == fd && fde.wanted == fde.events == {} && !fde.pending
      ensures ok ==> forall i :: i != fd ==> At(table, i) == At(old(table), i)
      ensures ok ==> selectN == if fd < old(selectN) then old(selectN) else fd + 1
    {
      ok := 0 <= fd && (fd < |table| || fd <= 32000);
      if !ok { return; }
      hide *;
      Outside(fde);
      Reset(fde, fd);
      ghost var t := table;
      ValidMeans(fde);
      Register(fde);
      ListedStays(t, fde);
      SelectsStays(t, fde, readFds, Read);
      SelectsStays(t, fde, writeFds, Write);
      SelectsStays(t, fde, errorFds, Error);
      ValidWhen();
    }

    /** fdevent_disconnect: out of the select sets, and select_n recomputed. */
    method Disconnect(fde: FdEvent)
      requires Registered() && At(table, fde.fd) == fde
      modifies this`readFds, this`writeFds, this`errorFds, this`selectN
      ensures Registered()
      ensures readFds == old(readFds) - {fde.fd} && writeFds == old(writeFds) - {fde.fd}
      ensures errorFds == old(errorFds) - {fde.fd}
      ensures selectN == 1 || At(table, selectN - 1) != null
    {
      readFds, writeFds, errorFds := readFds - {fde.fd}, writeFds - {fde.fd}, errorFds - {fde.fd};
      var n := 0;
      for i := 0 to selectN
        invariant 0 <= n <= i && n < |table| && (n == 0 || At(table, n) != null)
        invariant forall k :: n < k < i ==> At(table, k) == null
      {
        if table[i] != null {
          n := i;
        }
      }
      selectN := n + 1;
    }

    lemma SelectsWithout(t: seq<FdEvent?>, fd: int, fds: set<int>, f: Flag)
      requires 0 <= fd < |t| && Selects(t, fds, f)
      ensures Selects(t[fd := null], fds - {fd}, f)
    {
      Replaced(t, fd, null);
    }

    /** fdevent_unregister, after the event has left the list and the select sets. */
    method Unregister(fde: FdEvent) returns (closed: bool)
      requires Registered() && Listed(table) && At(table, fde.fd) == fde && fde !in queue
      modifies this`table
      ensures Registered() && Listed(table) && table == old(table)[fde.fd := null] && At(table, fde.fd) == null
      ensures forall i :: At(table, i) != fde
      ensures forall i :: i != fde.fd ==> At(table, i) == At(old(table), i)
      ensures closed == (DontClose !in fde.wanted)
    {
      Replaced(table, fde.fd, null);
      table := table[fde.fd := null];
      assert forall i :: At(table, i) == if i == fde.fd then null else At(old(table), i);
      closed := DontClose !in fde.wanted;
    }

    method Clear(fde: FdEvent)
      requires Valid() && fde !in table && fde !in queue && fde != list
      modifies fde`active, fde`pending, fde`wanted, fde`events
      ensures Valid() && !fde.active && !fde.pending && fde.wanted == {} && fde.events == {}
    {
      hide *;
      fde.active, fde.pending, fde.wanted, fde.events := false, false, {}, {};
    }

    /** The marks are right but for those of fde. */
    ghost predicate MarkedBut(table: seq<FdEvent?>, fde: FdEvent)
      reads table`pending, table`events
    {
      forall i :: At(table, i) != null && At(table, i) != fde ==>
        (At(table, i).pending <==> At(table, i).events != {})
    }

    lemma MarkedWithout(t: seq<FdEvent?>, fde: FdEvent)
      requires MarkedBut(t, fde) && forall i :: At(table, i) == null || (At(table, i) == At(t, i) && At(t, i) != fde)
      ensures Marked(table)
    {}

    /** Off the list, if on it. */
    method Leave(fde: FdEvent)
      requires Registered() && Listed(table) && Marked(table) && At(table, fde.fd) == fde
      modifies this`queue, fde`pending, list`next, list`prev, queue`next, queue`prev
      ensures Listed(table) && MarkedBut(table, fde) && fde !in queue
      ensures forall n :: n in queue <==> n in old(queue) && n != fde
    {
      hide Registered, Linked, Distinct;
      if fde.pending {
        Unqueue(fde);
      }
    }

    /** fdevent_remove: off the list, out of the sets and the table, and the descriptor closed unless asked
        not to. */
    method Withdraw(fde: FdEvent) returns (closed: bool)
      requires Valid() && At(table, fde.fd) == fde
      modifies this`table, this`readFds, this`writeFds, this`errorFds, this`selectN, this`queue
      modifies fde`active, fde`pending, fde`wanted, fde`events, list`next, list`prev, queue`next, queue`prev
      ensures Valid() && At(table, fde.fd) == null && !fde.active && !fde.pending
      ensures forall i :: i != fde.fd ==> At(table, i) == At(old(table), i)
      ensures forall n :: n in queue <==> n in old(queue) && n != fde
      ensures closed == (DontClose !in old(fde.wanted))
    {
      hide *;
      ValidMeans(fde);
      Leave(fde);
      ghost var t := table;
      AtInRange(table, fde.fd);
      SelectsWithout(t, fde.fd, readFds, Read);
      SelectsWithout(t, fde.fd, writeFds, Write);
      SelectsWithout(t, fde.fd, errorFds, Error);
      Disconnect(fde);
      closed := Unregister(fde);
      MarkedWithout(t, fde);
      ValidWhen();
      Outside(fde);
      Clear(fde);
    }

    // ----- waiting for events -----

    /** What fdevent_process does for one descriptor with events. */
    method Deliver(fde: FdEvent, events: set<Flag>)
      requires Valid() && At(table, fde.fd) == fde && events != {}
      modifies this`queue, fde`events, fde`pending, list`next, list`prev, fde`next, fde`prev, queue`next
      ensures Valid() && fde.events == old(fde.events) + events && fde.pending
      ensures queue == if old(fde.pending) then old(queue) else old(queue) + [fde]
    {
      hide Valid, Registered, Listed, Selected;
      ValidMeans(fde);
      fde.events := fde.events + events;
      if !fde.pending {
        Mark(fde);
      }
      ValidWhen();
    }

    method Mark(fde: FdEvent)
      requires Registered() && Listed(table) && At(table, fde.fd) == fde && !fde.pending && fde != list
      modifies this`queue, fde`pending, list`next, list`prev, fde`next, fde`prev, queue`next
      ensures Listed(table) && fde.pending && queue == old(queue) + [fde]
    {
      assert fde !in queue;
      Enqueue(list, fde, queue);
      fde.pending := true;
      queue := queue + [fde];
    }

    lemma QueueInTable()
      requires Listed(table)
      ensures forall n :: n in queue ==> n in table
    {
      forall n | n in queue
        ensures n in table
      {
        var k :| 0 <= k < |queue| && queue[k] == n;
        assert At(table, queue[k].fd) == queue[k];
      }
    }

    lemma InTable(i: int)
      requires Registered() && At(table, i) != null
      ensures At(table, i) in table && At(table, i).fd == i && 0 <= i < selectN
    {}

    /** The descriptors of a set are registered. */
    ghost predicate Known(fds: set<int>)
      reads this`table
    {
      forall i :: i in fds ==> At(table, i) != null
    }

    /** Every descriptor before i has its bits added to the events it had, and is marked if it has any. */
    ghost predicate Progress(was: map<int, set<Flag>>, marked: set<int>, r: set<int>, w: set<int>, e: set<int>, i: int)
      reads this`table, table`events, table`pending
    {
      forall j :: At(table, j) != null ==>
        var got := if j < i then Flags(r, w, e, j) else {};
        j in was && At(table, j).events == was[j] + got && (At(table, j).pending <==> j in marked || got != {})
    }

    /** One descriptor's turn. */
    method Turn(i: int, r: set<int>, w: set<int>, e: set<int>, ghost was: map<int, set<Flag>>, ghost marked: set<int>)
        returns (bits: int)
      requires Valid() && Known(r) && Known(w) && Known(e) && Progress(was, marked, r, w, e, i)
      modifies this`queue, list`next, list`prev, table`events, table`pending, table`next, table`prev, queue`next
      ensures Valid() && old(queue) <= queue && Progress(was, marked, r, w, e, i + 1)
      ensures bits == (if i in r then 1 else 0) + (if i in w then 1 else 0) + (if i in e then 1 else 0)
    {
      hide Valid, Registered, Listed;
      var events := {};
      bits := 0;
      if i in r { events, bits := events + {Read}, bits + 1; }
      if i in w { events, bits := events + {Write}, bits + 1; }
      if i in e { events, bits := events + {Error}, bits + 1; }
      assert events == Flags(r, w, e, i);
      if events != {} {
        ValidMeans(list);
        QueueInTable();
        var fde := At(table, i);
        assert fde != null;
        InTable(i);
        hide Flags;
        SlotsDiffer(i);
        Deliver(fde, events);
      }
    }

    lemma SlotsDiffer(i: int)
      requires Registered() && At(table, i) != null
      ensures forall j :: j != i ==> At(table, j) != At(table, i)
    {}

    /** The last loop of fdevent_process, with count the number of bits set: every bit is delivered although
        the loop stops once that many have been seen. */
    method DispatchLoop(r: set<int>, w: set<int>, e: set<int>, count: int, ghost was: map<int, set<Flag>>,
                        ghost marked: set<int>)
      requires Valid() && Known(r) && Known(w) && Known(e) && count == |r| + |w| + |e|
      requires Progress(was, marked, r, w, e, 0)
      modifies this`queue, list`next, list`prev, table`events, table`pending, table`next, table`prev, queue`next
      ensures Valid() && old(queue) <= queue
      ensures forall j :: At(table, j) != null ==>
                j in was && At(table, j).events == was[j] + Flags(r, w, e, j) &&
                (At(table, j).pending <==> j in marked || Flags(r, w, e, j) != {})
    {
      hide *;
      KnownFrom(r);
      KnownFrom(w);
      KnownFrom(e);
      var n, i := count, 0;
      while i < selectN && n > 0
        invariant Valid() && old(queue) <= queue && 0 <= i && Progress(was, marked, r, w, e, i)
        invariant n == |From(r, i)| + |From(w, i)| + |From(e, i)|
      {
        ValidMeans(list);
        QueueInTable();
        FromStep(r, i);
        FromStep(w, i);
        FromStep(e, i);
        var bits := Turn(i, r, w, e, was, marked);
        n, i := n - bits, i + 1;
      }
      ValidMeans(list);
      NothingAfter(r, w, e, i, n);
      AllDelivered(was, marked, r, w, e, i);
    }

    /** Every ready descriptor is registered, so none lacks its event, and gets its bits. */
    method Dispatch(r: set<int>, w: set<int>, e: set<int>, count: int)
      requires Valid() && Known(r) && Known(w) && Known(e) && count == |r| + |w| + |e|
      modifies this`queue, list`next, list`prev, table`events, table`pending, table`next, table`prev, queue`next
      ensures Valid() && old(queue) <= queue
      ensures forall i :: At(table, i) != null ==>
                At(table, i).events == old(At(table, i).events) + Flags(r, w, e, i) &&
                At(table, i).pending == (old(At(table, i).pending) || Flags(r, w, e, i) != {})
    {
      ghost var was := map j | 0 <= j < |table| && table[j] != null :: table[j].events;
      ghost var marked := set j | 0 <= j < |table| && table[j] != null && table[j].pending;
      hide Valid, Flags, From, Registered, Listed;
      ValidMeans(list);
      NoNegative();
      assert forall j :: At(table, j) != null ==>
               j in was && was[j] == At(table, j).events && (j in marked <==> At(table, j).pending);
      assert Progress(was, marked, r, w, e, 0);
      hide Progress, Known;
      DispatchLoop(r, w, e, count, was, marked);
    }

    lemma NoNegative()
      requires Registered()
      ensures forall j :: At(table, j) != null ==> j >= 0
    {}

    lemma AllDelivered(was: map<int, set<Flag>>, marked: set<int>, r: set<int>, w: set<int>, e: set<int>, i: int)
      requires Progress(was, marked, r, w, e, i) && forall j :: j >= i ==> Flags(r, w, e, j) == {}
      ensures forall j :: At(table, j) != null ==>
                j in was && At(table, j).events == was[j] + Flags(r, w, e, j) &&
                (At(table, j).pending <==> j in marked || Flags(r, w, e, j) != {})
    {
      hide Flags;
    }

    lemma NothingAfter(r: set<int>, w: set<int>, e: set<int>, i: int, n: int)
      requires Registered() && Known(r) && Known(w) && Known(e)
      requires n == |From(r, i)| + |From(w, i)| + |From(e, i)| && (i >= selectN || n <= 0)
      ensures forall j :: j >= i ==> Flags(r, w, e, j) == {}
    {
      if n <= 0 {
        FromNothing(r, w, e, i);
      } else {
        forall j | j >= i
          ensures Flags(r, w, e, j) == {}
        {
          assert At(table, j) == null;
        }
      }
    }

    lemma KnownFrom(fds: set<int>)
      requires Known(fds)
      ensures From(fds, 0) == fds
    {
      forall j | j in fds
        ensures j >= 0
      {
        assert At(table, j) != null;
      }
      FromAll(fds);
    }

    /** fdevent_fd_check: the registered descriptors that fcntl rejects, and how many. */
    method FdCheck(bad: set<int>) returns (fds: set<int>, n: nat)
      requires Registered()
      ensures forall i :: i in fds <==> At(table, i) != null && i in bad
      ensures n == |fds|
    {
      fds, n := {}, 0;
      for i := 0 to selectN
        invariant forall j :: j in fds <==> j < i && At(table, j) != null && j in bad
        invariant n == |fds|
      {
        if table[i] != null && i in bad {
          fds, n := fds + {i}, n + 1;
        }
      }
    }

    /** fdevent_process: each registered descriptor is marked pending, and gets the events that select()
        reported for it, or the faked read. */
    method Process(s: Select, bad: set<int>)
      requires Valid()
      requires s.Ready? ==> s.r <= readFds && s.w <= writeFds && s.e <= errorFds
      modifies this`queue, list`next, list`prev, table`events, table`pending, table`next, table`prev, queue`next
      ensures Valid() && old(queue) <= queue
      ensures forall i :: At(table, i) != null ==>
                At(table, i).events == old(At(table, i).events) + Got(s, bad, i) &&
                At(table, i).pending == (old(At(table, i).pending) || Got(s, bad, i) != {})
    {
      if s.Failed? {
        return;
      }
      var r, w, e, n := {}, {}, {}, 0;
      if s.Ready? {
        r, w, e, n := s.r, s.w, s.e, |s.r| + |s.w| + |s.e|;
      }
      ValidMeans(list);
      SelectedIsKnown(s);
      if n <= 0 {
        r, n := FdCheck(bad);
        w, e := {}, {};
      }
      GotIs(s, bad, r, w, e);
      hide *;
      Dispatch(r, w, e, n);
    }

    lemma SelectedIsKnown(s: Select)
      requires Valid() && (s.Ready? ==> s.r <= readFds && s.w <= writeFds && s.e <= errorFds)
      ensures s.Ready? ==> Known(s.r) && Known(s.w) && Known(s.e)
    {}

    lemma GotIs(s: Select, bad: set<int>, r: set<int>, w: set<int>, e: set<int>)
      requires !s.Failed?
      requires if s.Ready? && |s.r| + |s.w| + |s.e| > 0 then r == s.r && w == s.w && e == s.e
               else w == e == {} && forall i :: i in r <==> At(table, i) != null && i in bad
      ensures forall i :: At(table, i) != null ==> Got(s, bad, i) == Flags(r, w, e, i)
    {
      if s.Ready? && |s.r| + |s.w| + |s.e| > 0 {
        assert s.r + s.w + s.e >= s.r && s.r + s.w + s.e >= s.w && s.r + s.w + s.e >= s.e;
      }
    }

    lemma FirstApart(list: FdEvent, q: seq<FdEvent>)
      requires Distinct(list, q)
      ensures q != [] ==> q[0] != list && q[0] !in q[1..] && forall f :: f in q <==> f == q[0] || f in q[1..]
    {
      if q != [] {
        assert q == [q[0]] + q[1..];
      }
    }

    /** Takes the first event off the list, unmarks it and collects what it has to report. */
    method TakeFirst() returns (fde: FdEvent?, events: set<Flag>)
      requires Registered() && Listed(table)
      modifies this`queue, First(queue)`pending, First(queue)`events, list`next, list`prev, queue`next, queue`prev
      ensures Listed(table)
      ensures fde == null ==> old(queue) == queue == []
      ensures fde != null ==>
                old(queue) != [] && fde == old(queue)[0] && queue == old(queue)[1..] && At(table, fde.fd) == fde &&
                events == old(queue[0].events) && !fde.pending && fde.events == {}
    {
      FirstApart(list, queue);
      assert queue != [] ==> First(queue)[0] == queue[0];
      hide Linked, Distinct;
      fde := Dequeue(list, queue);
      events := {};
      if fde != null {
        queue := queue[1..];
        events := fde.events;
        fde.pending, fde.events := false, {};
      }
    }

    /** The event whose callback is next, if any. */
    method Peek() returns (fde: FdEvent?)
      requires Valid()
      ensures fde == if queue == [] then null else queue[0]
    {
      assert Ring(list, queue)[0].next == Ring(list, queue)[1];
      fde := list.next;
      if fde == list {
        fde := null;
      }
    }

    /** What select() and the check for bad descriptors report of an event is subscribed, but for the faked
        read of a bad descriptor. */
    lemma GotIsWanted(fde: FdEvent, s: Select, bad: set<int>)
      requires Valid() && At(table, fde.fd) == fde
      requires s.Ready? ==> s.r <= readFds && s.w <= writeFds && s.e <= errorFds
      ensures Read in Got(s, bad, fde.fd) ==> Read in fde.wanted || fde.fd in bad
      ensures Write in Got(s, bad, fde.fd) ==> Write in fde.wanted
    {
      Subscribed(fde);
    }

    /** The loop's next callback: the first pending event, taken off the list, with the events to report. */
    method NextCallback() returns (fde: FdEvent?, events: set<Flag>)
      requires Valid()
      modifies this`queue, First(queue)`events, First(queue)`pending, list`next, list`prev, queue`next, queue`prev
      ensures Valid()
      ensures fde == null <==> old(queue) == []
      ensures fde != null ==> fde == old(queue)[0] && queue == old(queue)[1..] && At(table, fde.fd) == fde
      ensures fde != null ==> events == old(queue[0].events) && !fde.pending && fde.events == {}
    {
      hide Valid, Registered, Listed, Selected;
      ValidMeans(list);
      fde, events := TakeFirst();
      ValidWhen();
    }
  }

  /** The first event of a list, if there is one. */
  function First(q: seq<FdEvent>): seq<FdEvent> {
    if q == [] then [] else [q[0]]
  }

  lemma FirstIs(q: seq<FdEvent>)
    ensures First(q) == if q == [] then [] else [q[0]]
  {}

  /** A new loop with one event, subscribed to reading. */
  method Listening(fd: int) returns (loop: EventLoop, fde: FdEvent)
    requires 0 <= fd <= 32000
    ensures fresh(loop) && fresh(loop.list) && fresh(fde) && loop.Valid() && fde.fd == fd && At(loop.table, fd) == fde
    ensures (forall i :: i != fd ==> At(loop.table, i) == null) && fde.wanted == {Read} && fde.events == {}
  {
    hide *;
    loop := new EventLoop();
    fde := new FdEvent();
    NothingAt();
    var ok := loop.Install(fde, fd);
    loop.Alone(fde);
    loop.Add(fde, {Read});
    LeftIs({}, {}, {Read});
  }

  /** A run in which something unwanted is signalled: a descriptor becomes readable, reading is switched
      off, and the next callback reports a read all the same. */
  method UnwantedIsSignalled(fd: int) returns (fde: FdEvent, events: set<Flag>)
    requires 0 <= fd <= 32000
    ensures Read in events && Read !in fde.wanted
  {
    hide *;
    var loop;
    loop, fde := Listening(fd);
    loop.Alone(fde);
    loop.Subscribed(fde);
    loop.Process(Ready({fd}, {}, {}), {});
    GotRead(fd);
    assert loop.Valid() && At(loop.table, fd) == fde && fde.events == {Read};
    loop.Alone(fde);
    loop.ValidMeans(fde);
    loop.Del(fde, {Read});
    LeftIs({Read}, {Read}, {});
    loop.Alone(fde);
    assert fde in loop.queue;
    FirstIs(loop.queue);
    var first, reported := loop.NextCallback();
    events := reported;
  }

  lemma NothingAt()
    ensures forall i :: At([], i) == null
  {}

  lemma GotRead(i: int)
    ensures Got(Ready({i}, {}, {}), {}, i) == {Read}
  {
    assert {i} + {} + {} != {} by { assert i in {i} + {} + {}; }
  }

  lemma AtInRange(t: seq<FdEvent?>, i: int)
    ensures At(t, i) != null ==> 0 <= i < |t|
  {}
}
