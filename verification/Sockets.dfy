/** The sockets of the adb daemon: what packets from the host and events on descriptors do to them
    (minadbd/sockets.c, and handle_packet of minadbd/adb.c). */
module Sockets {
  import opened Bytes
  import opened PendingList
  import opened Fdevent
  import opened LocalSocket
  import opened SocketLists

  /** The objects of the lists belong to the daemon. */
  ghost predicate Owned(repr: set<object>, ss: seq<Local>, rs: seq<Remote>, cs: seq<Local>, fs: seq<FdEvent>,
                        ds: seq<FdEvent>, table: seq<FdEvent?>)
  {
    (forall i :: 0 <= i < |ss| ==> ss[i] in repr) && (forall i :: 0 <= i < |rs| ==> rs[i] in repr) &&
    (forall i :: 0 <= i < |cs| ==> cs[i] in repr) && (forall i :: 0 <= i < |fs| ==> fs[i] in repr) &&
    (forall i :: 0 <= i < |ds| ==> ds[i] in repr) && forall i :: At(table, i) != null ==> At(table, i) in repr
  }

  lemma OwnedTable(repr: set<object>, ss: seq<Local>, rs: seq<Remote>, cs: seq<Local>, fs: seq<FdEvent>,
                   ds: seq<FdEvent>, table: seq<FdEvent?>)
    requires Owned(repr, ss, rs, cs, fs, ds, table)
    ensures forall i :: 0 <= i < |table| ==> table[i] == null || table[i] in repr
  {
    assert forall i :: 0 <= i < |table| ==> At(table, i) == table[i];
  }

  /** The i-th socket leaves its list, for the closing list or for good. */
  lemma OwnedLess(repr: set<object>, ss: seq<Local>, rs: seq<Remote>, cs: seq<Local>, fs: seq<FdEvent>,
                  ds: seq<FdEvent>, t: seq<FdEvent?>, now: seq<FdEvent?>, i: nat)
    requires Owned(repr, ss, rs, cs, fs, ds, t) && i < |ss| == |rs| == |fs|
    requires forall k :: At(now, k) == null || At(now, k) == At(t, k)
    ensures Owned(repr, Drop(ss, i), Drop(rs, i), cs, Drop(fs, i), ds, now)
    ensures Owned(repr, Drop(ss, i), Drop(rs, i), cs + [ss[i]], Drop(fs, i), ds + [fs[i]], now)
  {}

  class Daemon {
    const loop: EventLoop
    var sockets: seq<Local>      // the local socket list
    var remotes: seq<Remote>     // the transport's disconnect list
    var closing: seq<Local>      // the list of closing sockets
    var nextId: nat
    var bad: set<int>            // descriptors that fcntl has found bad
    var sent: seq<Packet>        // what was sent to the host
    ghost var okays: seq<nat>    // the ids named by the OKAY packets received
    ghost var arrivals: seq<Arrival>  // the WRTE packets received
    ghost var ends: map<nat, seq<byte>>  // what destroyed sockets had written
    ghost var fdes: seq<FdEvent>    // the events of the sockets
    ghost var drains: seq<FdEvent>  // the events of the closing sockets
    ghost var repr: set<object>

    constructor ()
      ensures Valid() && fresh(repr) && sockets == [] && closing == [] && sent == [] && okays == []
      ensures loop.table == [] && arrivals == []
    {
      hide *;
      loop := new EventLoop();
      sockets, remotes, closing, sent, nextId, bad := [], [], [], [], 1, {};
      okays, arrivals, ends, fdes, drains := [], [], map[], [], [];
      new;
      repr := {this, loop, loop.list};
      StartsFit();
      ValidWhen();
    }

    lemma StartsFit()
      requires this in repr && loop in repr && loop.list in repr && loop.Valid() && loop.table == []
      requires nextId == 1 && sent == [] && okays == [] && arrivals == [] && ends == map[]
      ensures Fit([], [], [], [], [])
    {
      hide EventLoop.Valid, InOrder, Log.Kept, AllKnown, Paired, Numbered;
      NothingYet(bad);
    }

    /** These lists are well-formed and the daemon's own, their sockets are in order with their events
        registered, and the packets so far keep to the flow control. */
    ghost predicate Fit(ss: seq<Local>, rs: seq<Remote>, cs: seq<Local>, fs: seq<FdEvent>, ds: seq<FdEvent>)
      reads `nextId, `bad, `sent, `okays, `arrivals, `ends, `repr
      reads loop, loop.list, loop.table, loop.queue, ss, rs, cs, fs, ds
    {
      Shaped(ss, rs, cs, fs, ds) && loop.Valid() && AllKnown(fs, ds, loop.table) &&
      InOrder(ss, fs, cs, ds, bad, Log(sent, okays, arrivals, ends)) &&
      Log(sent, okays, arrivals, ends).Kept(ss, cs, nextId)
    }

    ghost predicate Shaped(ss: seq<Local>, rs: seq<Remote>, cs: seq<Local>, fs: seq<FdEvent>, ds: seq<FdEvent>)
      reads `nextId, `repr, loop`table, ss`peer, ss`id, rs`peer
    {
      this in repr && loop in repr && loop.list in repr && Owned(repr, ss, rs, cs, fs, ds, loop.table) &&
      Paired(ss, rs) && Numbered(ss, nextId) && Separate(ss, cs) && Separate(fs, ds)
    }

    ghost predicate Valid()
      reads this, loop, loop.list, loop.table, loop.queue, sockets, remotes, closing, fdes, drains
    {
      Fit(sockets, remotes, closing, fdes, drains)
    }

    lemma FitMeans(ss: seq<Local>, rs: seq<Remote>, cs: seq<Local>, fs: seq<FdEvent>, ds: seq<FdEvent>)
      requires Fit(ss, rs, cs, fs, ds)
      ensures Shaped(ss, rs, cs, fs, ds) && loop.Valid() && AllKnown(fs, ds, loop.table)
      ensures InOrder(ss, fs, cs, ds, bad, Log(sent, okays, arrivals, ends))
      ensures Log(sent, okays, arrivals, ends).Kept(ss, cs, nextId)
    {}

    lemma FitWhen(ss: seq<Local>, rs: seq<Remote>, cs: seq<Local>, fs: seq<FdEvent>, ds: seq<FdEvent>)
      requires Shaped(ss, rs, cs, fs, ds) && loop.Valid() && AllKnown(fs, ds, loop.table)
      requires InOrder(ss, fs, cs, ds, bad, Log(sent, okays, arrivals, ends))
      requires Log(sent, okays, arrivals, ends).Kept(ss, cs, nextId)
      ensures Fit(ss, rs, cs, fs, ds)
    {}

    lemma ShapedMeans(ss: seq<Local>, rs: seq<Remote>, cs: seq<Local>, fs: seq<FdEvent>, ds: seq<FdEvent>)
      requires Shaped(ss, rs, cs, fs, ds)
      ensures this in repr && loop in repr && loop.list in repr && Owned(repr, ss, rs, cs, fs, ds, loop.table)
      ensures Paired(ss, rs) && Numbered(ss, nextId) && Separate(ss, cs) && Separate(fs, ds)
    {}

    lemma ShapedWhen(ss: seq<Local>, rs: seq<Remote>, cs: seq<Local>, fs: seq<FdEvent>, ds: seq<FdEvent>)
      requires this in repr && loop in repr && loop.list in repr && Owned(repr, ss, rs, cs, fs, ds, loop.table)
      requires Paired(ss, rs) && Numbered(ss, nextId) && Separate(ss, cs) && Separate(fs, ds)
      ensures Shaped(ss, rs, cs, fs, ds)
    {}

    lemma ValidMeans()
      requires Valid()
      ensures Fit(sockets, remotes, closing, fdes, drains)
    {}

    lemma ValidWhen()
      requires Fit(sockets, remotes, closing, fdes, drains)
      ensures Valid()
    {}

    /** What holds apart from the i-th socket, where os and fs are the other sockets and their events. */
    ghost predicate Around(i: nat, os: seq<Local>, fs: seq<FdEvent>)
      reads this, loop, loop.list, loop.table, loop.queue, sockets, remotes, closing, drains, os, fs, fdes`fd
    {
      Shaped(sockets, remotes, closing, fdes, drains) && loop.Valid() && AllKnown(fdes, drains, loop.table) &&
      i < |sockets| == |fdes| && sockets[i].fde == fdes[i] && os == Drop(sockets, i) && fs == Drop(fdes, i) &&
      InOrder(os, fs, closing, drains, bad, Log(sent, okays, arrivals, ends)) &&
      Log(sent, okays, arrivals, ends).Kept(sockets, closing, nextId)
    }

    lemma AroundWhen(i: nat, os: seq<Local>, fs: seq<FdEvent>)
      requires Shaped(sockets, remotes, closing, fdes, drains) && loop.Valid() && AllKnown(fdes, drains, loop.table)
      requires i < |sockets| == |fdes| && sockets[i].fde == fdes[i] && os == Drop(sockets, i) && fs == Drop(fdes, i)
      requires InOrder(os, fs, closing, drains, bad, Log(sent, okays, arrivals, ends))
      requires Log(sent, okays, arrivals, ends).Kept(sockets, closing, nextId)
      ensures Around(i, os, fs)
    {}

    /** The i-th socket apart from the others. */
    lemma Isolate(i: nat, os: seq<Local>, fs: seq<FdEvent>)
      requires Around(i, os, fs)
      ensures Shaped(sockets, remotes, closing, fdes, drains) && loop.Valid() && AllKnown(fdes, drains, loop.table)
      ensures i < |sockets| == |fdes| == |remotes| && sockets[i].fde == fdes[i] && os == Drop(sockets, i)
      ensures fs == Drop(fdes, i)
      ensures InOrder(os, fs, closing, drains, bad, Log(sent, okays, arrivals, ends))
      ensures Log(sent, okays, arrivals, ends).Kept(sockets, closing, nextId)
      ensures sockets[i] !in os && sockets[i] !in closing && fdes[i] !in fs && fdes[i] !in drains
      ensures 0 < sockets[i].born == sockets[i].id < nextId
      ensures forall k :: 0 <= k < |os| ==> os[k].id == os[k].born != sockets[i].born
      ensures At(loop.table, fdes[i].fd) == fdes[i] && sockets[i].peer == remotes[i]
      ensures this in repr && loop in repr && loop.list in repr && sockets[i] in repr && fdes[i] in repr
      ensures remotes[i] in repr
      ensures forall k :: 0 <= k < |loop.queue| ==> loop.queue[k] in repr
    {
      hide Drop, InOrder, Paired, EventLoop.Valid, Log.Kept;
      SeparateDrop(sockets, closing, i);
      SeparateDrop(fdes, drains, i);
      NumberedDrop(sockets, nextId, i);
      PairedDrop(sockets, remotes, i);
      QueueOwned();
    }

    lemma QueueOwned()
      requires loop.Valid() && Owned(repr, sockets, remotes, closing, fdes, drains, loop.table)
      ensures forall k :: 0 <= k < |loop.queue| ==> loop.queue[k] in repr
    {
      hide Linked, Distinct;
      forall k | 0 <= k < |loop.queue| ensures loop.queue[k] in repr {
        assert At(loop.table, loop.queue[k].fd) == loop.queue[k];
      }
    }

    lemma Enter(i: nat) returns (os: seq<Local>, fs: seq<FdEvent>)
      requires Valid() && i < |sockets|
      ensures Around(i, os, fs) && sockets[i].IsOpen(bad) && Tally(sockets[i], Log(sent, okays, arrivals, ends))
    {
      hide Drop, Shaped, EventLoop.Valid, InOrder, AllKnown, Log.Kept, Local.IsOpen, Tally;
      InOrderDrop(sockets, fdes, closing, drains, bad, Log(sent, okays, arrivals, ends), i);
      os, fs := Drop(sockets, i), Drop(fdes, i);
    }

    lemma Leave(i: nat, os: seq<Local>, fs: seq<FdEvent>)
      requires Around(i, os, fs) && sockets[i].IsOpen(bad) && Tally(sockets[i], Log(sent, okays, arrivals, ends))
      ensures Valid()
    {
      hide Drop, Shaped, EventLoop.Valid, InOrder, AllKnown, Log.Kept, Local.IsOpen, Tally;
      InOrderBack(sockets, fdes, closing, drains, bad, Log(sent, okays, arrivals, ends), i);
    }

    /** find_local_socket. */
    method Find(id: nat) returns (i: nat)
      ensures i <= |sockets| && (i < |sockets| ==> sockets[i].id == id)
      ensures i == |sockets| ==> forall k :: 0 <= k < |sockets| ==> sockets[k].id != id
    {
      i := 0;
      while i < |sockets|
        invariant i <= |sockets| && forall k :: 0 <= k < i ==> sockets[k].id != id
      {
        if sockets[i].id == id { return; }
        i := i + 1;
      }
    }

    lemma Only(id: nat, i: nat)
      requires Valid() && i < |sockets| && sockets[i].id == id
      ensures forall k :: 0 <= k < |sockets| && sockets[k].id == id ==> k == i
    {
      hide InOrder, AllKnown, EventLoop.Valid, Log.Kept;
      NumberedDrop(sockets, nextId, i);
    }

    // ----- closing -----

    /** What is left of the lists without the i-th socket. */
    lemma SplitOff(i: nat, os: seq<Local>, fs: seq<FdEvent>) returns (rs: seq<Remote>)
      requires Shaped(sockets, remotes, closing, fdes, drains)
      requires i < |sockets| == |fdes| && os == Drop(sockets, i) && fs == Drop(fdes, i)
      ensures |remotes| == |sockets| && rs == Drop(remotes, i) && remotes[i] !in rs
      ensures Paired(os, rs) && Numbered(os, nextId)
      ensures Separate(os, closing) && Separate(os, closing + [sockets[i]])
      ensures Separate(fs, drains) && Separate(fs, drains + [fdes[i]])
      ensures Owned(repr, sockets, remotes, closing, fdes, drains, loop.table)
    {
      hide Drop, Paired, Numbered, Separate;
      SeparateDrop(sockets, closing, i);
      SeparateDrop(fdes, drains, i);
      NumberedDrop(sockets, nextId, i);
      PairedDrop(sockets, remotes, i);
      rs := Drop(remotes, i);
    }

    /** What the i-th socket has written is noted, before it goes for good. */
    ghost method NoteEnd(i: nat, os: seq<Local>, fs: seq<FdEvent>)
      requires Around(i, os, fs) && Heard(sockets[i], arrivals) && sockets[i].written <= sockets[i].accepted
      modifies this`ends
      ensures Around(i, os, fs) && Log(sent, okays, arrivals, ends).Kept(os, closing, nextId)
      ensures ends == old(ends)[sockets[i].born := sockets[i].written]
    {
      hide *;
      Isolate(i, os, fs);
      ghost var log := Log(sent, okays, arrivals, ends);
      HeardMeans(sockets[i], arrivals);
      KeptLess(log, sockets, closing, nextId, i, sockets[i].written);
      ends := ends[sockets[i].born := sockets[i].written];
      InOrderEnds(os, fs, closing, drains, bad, log, Log(sent, okays, arrivals, ends));
      AroundWhen(i, os, fs);
    }

    /** local_socket_destroy for the i-th socket. */
    method ShutEmpty(i: nat, ghost os: seq<Local>, ghost fs: seq<FdEvent>)
      requires Around(i, os, fs) && Log(sent, okays, arrivals, ends).Kept(os, closing, nextId)
      modifies sockets[i], sockets[i].fde, loop, loop.list, loop.queue`next, loop.queue`prev
      ensures |remotes| == |sockets| && Fit(os, Drop(remotes, i), closing, fs, drains)
      ensures var s := sockets[i];
              s.peer == null && s.destroyed && s.written == old(s.written) && s.accepted == old(s.accepted) &&
              s.queue == old(s.queue)
    {
      hide *;
      Isolate(i, os, fs);
      ghost var rs := SplitOff(i, os, fs);
      ghost var t := loop.table;
      sockets[i].Destroy(loop);
      OwnedLess(repr, sockets, remotes, closing, fdes, drains, t, loop.table, i);
      KnownMoved(fdes, drains, t, loop.table, i);
      ShapedWhen(os, rs, closing, fs, drains);
      FitWhen(os, rs, closing, fs, drains);
    }

    /** The i-th socket's part of going to the closing list. */
    method ShutBacklog(i: nat, ghost os: seq<Local>, ghost fs: seq<FdEvent>)
      requires Around(i, os, fs) && sockets[i].IsOpen(bad) && sockets[i].queue != [] && Heard(sockets[i], arrivals)
      modifies sockets[i], sockets[i].fde, loop, loop.list, loop.queue`next, loop.queue`prev
      ensures |remotes| == |sockets| && Fit(os, Drop(remotes, i), closing + [sockets[i]], fs, drains + [fdes[i]])
      ensures var s := sockets[i];
              s.peer == null && !s.destroyed && s.written == old(s.written) && s.accepted == old(s.accepted) &&
              s.queue == old(s.queue) && s.late == (Read in s.fde.events)
    {
      hide *;
      Isolate(i, os, fs);
      ghost var rs := SplitOff(i, os, fs);
      sockets[i].OpenMeans(bad);
      HeardMeans(sockets[i], arrivals);
      KeptMoved(Log(sent, okays, arrivals, ends), sockets, closing, nextId, i);
      sockets[i].Detach(loop, bad);
      OwnedLess(repr, sockets, remotes, closing, fdes, drains, loop.table, loop.table, i);
      KnownMoved(fdes, drains, loop.table, loop.table, i);
      InOrderMoved(os, fs, closing, drains, bad, Log(sent, okays, arrivals, ends), sockets[i], fdes[i]);
      ShapedWhen(os, rs, closing + [sockets[i]], fs, drains + [fdes[i]]);
      FitWhen(os, rs, closing + [sockets[i]], fs, drains + [fdes[i]]);
    }

    method Relist(ss: seq<Local>, rs: seq<Remote>, cs: seq<Local>, ghost fs: seq<FdEvent>, ghost ds: seq<FdEvent>)
      requires Fit(ss, rs, cs, fs, ds)
      modifies this`sockets, this`remotes, this`closing, this`fdes, this`drains
      ensures Valid() && sockets == ss && remotes == rs && closing == cs
    {
      hide *;
      sockets, remotes, closing := ss, rs, cs;
      fdes, drains := fs, ds;
      ValidWhen();
    }

    /** local_socket_close for a listed socket whose peer is gone: the socket goes away, or to the closing list
        if it has packets to write. */
    method Retire(i: nat, ghost os: seq<Local>, ghost fs: seq<FdEvent>)
      requires Around(i, os, fs) && (sockets[i].queue == [] || sockets[i].IsOpen(bad))
      requires Heard(sockets[i], arrivals) && sockets[i].written <= sockets[i].accepted
      modifies this`sockets, this`remotes, this`closing, this`fdes, this`drains, this`ends
      modifies sockets[i], sockets[i].fde, loop, loop.list, loop.queue`next, loop.queue`prev
      ensures Valid()
      ensures |old(remotes)| == |old(sockets)| && sockets == Drop(old(sockets), i) && remotes == Drop(old(remotes), i)
      ensures var s := old(sockets)[i];
              s.peer == null && s.written == old(s.written) && s.accepted == old(s.accepted) &&
              s.queue == old(s.queue) && s.destroyed == (s.queue == []) &&
              closing == (if s.queue == [] then old(closing) else old(closing) + [s]) &&
              ends == if s.destroyed then old(ends)[s.born := s.written] else old(ends)
    {
      hide *;
      Isolate(i, os, fs);
      var s := sockets[i];
      if s.queue == [] {
        NoteEnd(i, os, fs);
        ShutEmpty(i, os, fs);
        Relist(Drop(sockets, i), Drop(remotes, i), closing, fs, drains);
      } else {
        ghost var ds := drains + [fdes[i]];
        ShutBacklog(i, os, fs);
        Relist(Drop(sockets, i), Drop(remotes, i), closing + [s], fs, ds);
      }
    }

    // ----- packets -----

    /** OKAY: the socket it names may read again. */
    method OkayPacket(id: nat)
      requires Valid()
      modifies repr
      ensures Valid() && repr == old(repr) && sockets == old(sockets) && closing == old(closing)
      ensures sent == old(sent) && okays == old(okays) + [id] && arrivals == old(arrivals)
      ensures forall i :: 0 <= i < |sockets| && old(sockets[i].id) == id ==>
                Read in sockets[i].fde.wanted && sockets[i].okays == old(sockets[i].okays) + 1
      ensures forall i :: 0 <= i < |sockets| ==>
                sockets[i].written == old(sockets[i].written) && sockets[i].queue == old(sockets[i].queue)
      ensures forall j :: 0 <= j < |closing| ==>
                closing[j].written == old(closing[j].written) && closing[j].queue == old(closing[j].queue)
    {
      hide *;
      var i := Find(id);
      if i < |sockets| {
        Only(id, i);
        ghost var os, fs := Enter(i);
        Isolate(i, os, fs);
        Acknowledge(i);
      } else {
        ValidMeans();
        FitMeans(sockets, remotes, closing, fdes, drains);
        ShapedMeans(sockets, remotes, closing, fdes, drains);
        InOrderOkay(sockets, fdes, closing, drains, bad, Log(sent, okays, arrivals, ends), id);
        KeptOkay(Log(sent, okays, arrivals, ends), id, sockets, closing, nextId);
        okays := okays + [id];
        FitWhen(sockets, remotes, closing, fdes, drains);
        ValidWhen();
      }
    }

    method Acknowledge(i: nat)
      requires Valid() && i < |sockets|
      modifies this`okays, sockets[i], sockets[i].fde, loop, loop.list, loop.queue`next, loop.queue`prev
      ensures Valid() && okays == old(okays) + [old(sockets[i].id)]
      ensures Read in sockets[i].fde.wanted && sockets[i].okays == old(sockets[i].okays) + 1
      ensures sockets[i].written == old(sockets[i].written) && sockets[i].queue == old(sockets[i].queue)
    {
      hide *;
      ghost var log, s := Log(sent, okays, arrivals, ends), sockets[i];
      ghost var os, fs := Enter(i);
      Isolate(i, os, fs);
      TallyMeans(s, log);
      InOrderOkay(os, fs, closing, drains, bad, log, s.id);
      KeptOkay(log, s.id, sockets, closing, nextId);
      sockets[i].Acknowledged(loop, bad);
      TallyOkay(s, log);
      okays := okays + [s.id];
      AroundWhen(i, os, fs);
      Leave(i, os, fs);
    }

    /** A packet goes out that is nobody's but the i-th socket's. */
    method Send(p: Packet, i: nat, ghost os: seq<Local>, ghost fs: seq<FdEvent>)
      requires Around(i, os, fs)
      requires p.Clse? ||
               (p.arg0 == sockets[i].id && Tally(sockets[i], Log(sent + [p], okays, arrivals, ends)) &&
                sockets[i].wrtes <= sockets[i].okays + 1 && sockets[i].grants <= sockets[i].taken + 1)
      modifies this`sent
      ensures Around(i, os, fs) && sent == old(sent) + [p]
    {
      hide *;
      Isolate(i, os, fs);
      InOrderSend(os, fs, closing, drains, bad, Log(sent, okays, arrivals, ends), p);
      KeptSend(Log(sent, okays, arrivals, ends), p, sockets[i], sockets, closing, nextId);
      sent := sent + [p];
      AroundWhen(i, os, fs);
    }

    /** local_socket_close for a listed socket: the peer tells the host and is freed. */
    method CloseAt(i: nat, ghost os: seq<Local>, ghost fs: seq<FdEvent>)
      requires Around(i, os, fs) && (sockets[i].queue == [] || sockets[i].IsOpen(bad))
      requires Heard(sockets[i], arrivals) && sockets[i].written <= sockets[i].accepted
      modifies this`sockets, this`remotes, this`closing, this`fdes, this`drains, this`sent, this`ends
      modifies sockets[i], sockets[i].fde, loop, loop.list, loop.queue`next, loop.queue`prev
      ensures Valid()
      ensures |old(remotes)| == |old(sockets)| && sockets == Drop(old(sockets), i) && remotes == Drop(old(remotes), i)
      ensures sent == old(sent) + [Clse(0, old(remotes)[i].id)]
      ensures var s := old(sockets)[i];
              s.peer == null && s.written == old(s.written) && s.accepted == old(s.accepted) &&
              s.queue == old(s.queue) && s.destroyed == (s.queue == []) &&
              closing == (if s.queue == [] then old(closing) else old(closing) + [s]) &&
              ends == if s.destroyed then old(ends)[s.born := s.written] else old(ends)
    {
      hide *;
      Isolate(i, os, fs);
      Send(Clse(0, remotes[i].id), i, os, fs);
      Retire(i, os, fs);
    }

    /** What closing asks of a socket that is open. */
    lemma Closable(i: nat)
      requires i < |sockets| && sockets[i].IsOpen(bad) && Tally(sockets[i], Log(sent, okays, arrivals, ends))
      ensures Heard(sockets[i], arrivals) && sockets[i].written <= sockets[i].accepted
    {
      hide *;
      sockets[i].OpenMeans(bad);
      TallyMeans(sockets[i], Log(sent, okays, arrivals, ends));
    }

    /** CLSE: the socket it names is closed. */
    method ClosePacket(id: nat)
      requires Valid()
      modifies repr
      ensures Valid() && repr == old(repr) && okays == old(okays) && arrivals == old(arrivals)
      ensures forall i :: 0 <= i < |old(sockets)| && old(sockets[i].id) == id ==>
                |old(remotes)| == |old(sockets)| && sockets == Drop(old(sockets), i) &&
                old(sockets)[i].destroyed == (old(sockets[i].queue) == []) &&
                ends == (if old(sockets)[i].destroyed then old(ends)[old(sockets)[i].born := old(sockets[i].written)]
                         else old(ends)) &&
                closing == (if old(sockets)[i].destroyed then old(closing) else old(closing) + [old(sockets)[i]]) &&
                sent == old(sent) + [Clse(0, old(remotes)[i].id)]
      ensures (forall i :: 0 <= i < |old(sockets)| ==> old(sockets[i].id) != id) ==>
                sockets == old(sockets) && closing == old(closing) && sent == old(sent) && ends == old(ends)
      ensures forall i :: 0 <= i < |old(sockets)| ==>
                old(sockets)[i].written == old(sockets[i].written) && old(sockets)[i].queue == old(sockets[i].queue)
      ensures forall j :: 0 <= j < |old(closing)| ==>
                old(closing)[j].written == old(closing[j].written) && old(closing)[j].queue == old(closing[j].queue)
    {
      hide *;
      var i := Find(id);
      if i < |sockets| {
        Only(id, i);
        ghost var os, fs := Enter(i);
        Isolate(i, os, fs);
        Closable(i);
        CloseAt(i, os, fs);
      }
    }

    /** The i-th socket takes data; if it takes all at once the host is told to go on. When the descriptor
        fails the socket is closed. */
    method Deliver(i: nat, remoteId: nat, data: seq<byte>, io: seq<Io>) returns (v: Verdict)
      requires Valid() && i < |sockets|
      modifies repr
      ensures Valid() && repr == old(repr) && okays == old(okays)
      ensures arrivals == old(arrivals) + [Arrival(old(sockets[i].id), data, true)]
      ensures v.Broken? ==> closing == old(closing) && sockets == Drop(old(sockets), i)
      ensures v.Drained? ==> sockets == old(sockets) && sent == old(sent) + [Okay(old(sockets[i].id), remoteId)]
      ensures v.Backlog? ==> sockets == old(sockets) && sent == old(sent)
      ensures var s := old(sockets)[i];
              s.accepted == old(sockets[i].accepted) + data && s.written <= s.accepted &&
              v == Taken(old(sockets[i].queue) == [], |data|, io) &&
              s.written == old(sockets[i].written) +
                           (if old(sockets[i].queue) == [] then Front(data, Room(io, false)) else []) &&
              (s.destroyed <==> v.Broken?) && ends == if s.destroyed then old(ends)[s.born := s.written] else old(ends)
    {
      hide *;
      ghost var os, fs := Enter(i);
      Isolate(i, os, fs);
      NoteWrte(i, data, os, fs);
      v := TakeData(i, data, io, os, fs);
      if v.Broken? {
        Isolate(i, os, fs);
        TallyMeans(sockets[i], Log(sent, okays, arrivals, ends));
        CloseAt(i, os, fs);
      } else {
        if v.Drained? {
          Send(Okay(sockets[i].id, remoteId), i, os, fs);
        }
        Leave(i, os, fs);
      }
    }

    /** A WRTE packet has been received for the i-th socket. */
    ghost method NoteWrte(i: nat, data: seq<byte>, os: seq<Local>, fs: seq<FdEvent>)
      requires Around(i, os, fs) && sockets[i].IsOpen(bad) && Tally(sockets[i], Log(sent, okays, arrivals, ends))
      modifies this`arrivals
      ensures Around(i, os, fs) && sockets[i].IsOpen(bad)
      ensures arrivals == old(arrivals) + [Arrival(sockets[i].id, data, true)]
      ensures Due(sockets[i], Log(sent, okays, arrivals, ends), Arrival(sockets[i].id, data, true))
    {
      hide *;
      Isolate(i, os, fs);
      ghost var log, a := Log(sent, okays, arrivals, ends), Arrival(sockets[i].id, data, true);
      KeptApart(log, sockets, closing, nextId, i);
      InOrderArrival(os, fs, closing, drains, bad, log, a);
      KeptArrival(log, a, sockets, closing, nextId);
      TallyDue(sockets[i], log, a);
      arrivals := arrivals + [a];
      AroundWhen(i, os, fs);
    }

    /** local_socket_enqueue for the i-th socket. */
    method TakeData(i: nat, data: seq<byte>, io: seq<Io>, ghost os: seq<Local>, ghost fs: seq<FdEvent>)
        returns (v: Verdict)
      requires Around(i, os, fs) && sockets[i].IsOpen(bad)
      requires Due(sockets[i], Log(sent, okays, arrivals, ends), Arrival(sockets[i].id, data, true))
      modifies sockets[i], sockets[i].fde, loop, loop.list, loop.queue`next, loop.queue`prev
      ensures Around(i, os, fs)
      ensures var s := sockets[i];
              s.id == old(s.id) && s.accepted == old(s.accepted) + data && s.written <= s.accepted && !s.destroyed &&
              v == Taken(old(s.queue) == [], |data|, io) &&
              s.written == old(s.written) + (if old(s.queue) == [] then Front(data, Room(io, false)) else []) &&
              (v.Broken? ==> s.queue == []) && (!v.Broken? ==> s.IsOpen(bad)) &&
              (!v.Drained? ==> Tally(s, Log(sent, okays, arrivals, ends)))
      ensures v.Drained? ==> sockets[i].wrtes <= sockets[i].okays + 1 && sockets[i].grants <= sockets[i].taken + 1
      ensures v.Drained? ==> forall r :: Tally(sockets[i], Log(sent + [Okay(sockets[i].id, r)], okays, arrivals, ends))
    {
      hide *;
      Isolate(i, os, fs);
      var s := sockets[i];
      ghost var a := Arrival(s.id, data, true);
      DueMeans(s, Log(sent, okays, arrivals, ends), a);
      s.OpenMeans(bad);
      v := s.Enqueue(loop, data, io, bad);
      if !v.Broken? {
        s.OpenMeans(bad);
      }
      HeardMore(s, arrivals[..|arrivals| - 1], a, old(sockets[i].accepted));
      TallyTaken(s, Log(sent, okays, arrivals, ends), v);
      AroundWhen(i, os, fs);
    }

    /** WRTE: the socket it names takes the data. */
    method WritePacket(id: nat, remoteId: nat, data: seq<byte>, io: seq<Io>) returns (v: Option<Verdict>)
      requires Valid()
      modifies repr
      ensures Valid() && repr == old(repr) && okays == old(okays)
      ensures arrivals == old(arrivals) + [Arrival(id, data, v.Some?)]
      ensures v == None <==> forall i :: 0 <= i < |old(sockets)| ==> old(sockets[i].id) != id
      ensures v == None || v == Some(Backlog) ==> sent == old(sent) && sockets == old(sockets) && ends == old(ends)
      ensures v == Some(Drained) ==> sockets == old(sockets) && sent == old(sent) + [Okay(id, remoteId)]
      ensures forall i :: 0 <= i < |old(sockets)| && old(sockets[i].id) == id ==>
                var s := old(sockets)[i];
                s.accepted == old(sockets[i].accepted) + data && s.written <= s.accepted &&
                v == Some(Taken(old(sockets[i].queue) == [], |data|, io)) &&
                s.written == old(sockets[i].written) +
                             (if old(sockets[i].queue) == [] then Front(data, Room(io, false)) else []) &&
                (s.destroyed <==> v == Some(Broken)) &&
                ends == if s.destroyed then old(ends)[s.born := s.written] else old(ends)
    {
      hide *;
      var i := Find(id);
      if i < |sockets| {
        Only(id, i);
        var w := Deliver(i, remoteId, data, io);
        v := Some(w);
      } else {
        ValidMeans();
        FitMeans(sockets, remotes, closing, fdes, drains);
        ShapedMeans(sockets, remotes, closing, fdes, drains);
        NumberedIs(sockets, nextId);
        InOrderArrival(sockets, fdes, closing, drains, bad, Log(sent, okays, arrivals, ends), Arrival(id, data, false));
        KeptArrival(Log(sent, okays, arrivals, ends), Arrival(id, data, false), sockets, closing, nextId);
        arrivals := arrivals + [Arrival(id, data, false)];
        FitWhen(sockets, remotes, closing, fdes, drains);
        ValidWhen();
        v := None;
      }
    }

    /** OPEN: a service descriptor, if there is one, gets a local socket with a remote peer, unless the source
        aborts because of the descriptor. */
    method Open(remoteId: nat, service: Option<int>) returns (ok: bool)
      requires Valid() && (service.Some? ==> At(loop.table, service.value) == null)
      modifies repr
      ensures Valid() && fresh(repr - old(repr)) && closing == old(closing) && okays == old(okays)
      ensures arrivals == old(arrivals) && ends == old(ends)
      ensures ok <==> service == None || 0 <= service.value < |old(loop.table)| || 0 <= service.value <= 32000
      ensures service == None ==> sockets == old(sockets) && sent == old(sent) + [Clse(0, remoteId)]
      ensures !ok ==> sockets == old(sockets) && sent == old(sent)
      ensures service.Some? && ok ==>
                |sockets| == |old(sockets)| + 1 && sockets[..|old(sockets)|] == old(sockets) &&
                var s := sockets[|old(sockets)|];
                fresh(s) && s.peer != null && s.peer.id == remoteId && s.fde.fd == service.value &&
                s.fde.wanted == {Read} && s.accepted == s.written == [] && s.since == |old(arrivals)| &&
                s.id == s.born == old(nextId) && sent == old(sent) + [Okay(s.id, remoteId)]
    {
      hide *;
      ValidMeans();
      FitMeans(sockets, remotes, closing, fdes, drains);
      ShapedMeans(sockets, remotes, closing, fdes, drains);
      if service == None {
        Refuse(remoteId);
        return true;
      }
      QueueOwned();
      ghost var t := loop.table;
      var fde;
      ok, fde := Hook(service.value);
      if ok {
        Join(fde, remoteId, t);
      }
    }

    /** There is no such service. */
    method Refuse(remoteId: nat)
      requires Valid()
      modifies this`sent
      ensures Valid() && sent == old(sent) + [Clse(0, remoteId)]
    {
      hide *;
      ValidMeans();
      FitMeans(sockets, remotes, closing, fdes, drains);
      InOrderSend(sockets, fdes, closing, drains, bad, Log(sent, okays, arrivals, ends), Clse(0, remoteId));
      KeptClose(Log(sent, okays, arrivals, ends), Clse(0, remoteId), sockets, closing, nextId);
      sent := sent + [Clse(0, remoteId)];
      FitWhen(sockets, remotes, closing, fdes, drains);
      ValidWhen();
    }

    /** A new event is installed for a descriptor. */
    method Hook(fd: int) returns (ok: bool, fde: FdEvent)
      requires Valid() && At(loop.table, fd) == null
      modifies loop`table, loop`selectN
      ensures fresh(fde) && (ok <==> 0 <= fd < |old(loop.table)| || 0 <= fd <= 32000)
      ensures !ok ==> Valid()
      ensures ok ==> loop.Valid() && At(loop.table, fd) == fde && fde.fd == fd && fde.wanted == fde.events == {}
      ensures ok ==> forall i :: i != fd ==> At(loop.table, i) == At(old(loop.table), i)
    {
      hide *;
      ValidMeans();
      FitMeans(sockets, remotes, closing, fdes, drains);
      ShapedMeans(sockets, remotes, closing, fdes, drains);
      fde := new FdEvent();
      NotYet(fde);
      ok := loop.Install(fde, fd);
      if !ok {
        ShapedWhen(sockets, remotes, closing, fdes, drains);
        FitWhen(sockets, remotes, closing, fdes, drains);
        ValidWhen();
      }
    }

    lemma NotYet(fde: FdEvent)
      requires Owned(repr, sockets, remotes, closing, fdes, drains, loop.table) && fde !in repr && loop.list in repr
      ensures (forall i :: At(loop.table, i) != fde) && fde != loop.list
    {}

    /** A local socket for the new event, with a remote peer, both in their lists, and ready to read. */
    method Join(fde: FdEvent, remoteId: nat, ghost t: seq<FdEvent?>)
      requires loop.Valid() && At(loop.table, fde.fd) == fde && fde.wanted == fde.events == {} && fde !in repr
      requires At(t, fde.fd) == null && forall i :: i != fde.fd ==> At(loop.table, i) == At(t, i)
      requires this in repr && loop in repr && loop.list in repr
      requires Owned(repr, sockets, remotes, closing, fdes, drains, t)
      requires Paired(sockets, remotes) && Numbered(sockets, nextId) && Separate(sockets, closing)
      requires Separate(fdes, drains)
      requires AllKnown(fdes, drains, t) && Log(sent, okays, arrivals, ends).Kept(sockets, closing, nextId)
      requires InOrder(sockets, fdes, closing, drains, bad, Log(sent, okays, arrivals, ends))
      modifies this, loop, loop.list, fde, loop.queue`next, loop.queue`prev
      ensures Valid() && fresh(repr - old(repr) - {fde}) && closing == old(closing) && okays == old(okays)
      ensures arrivals == old(arrivals) && ends == old(ends)
      ensures |sockets| == |old(sockets)| + 1 && sockets[..|old(sockets)|] == old(sockets)
      ensures var s := sockets[|old(sockets)|];
              fresh(s) && s.peer != null && s.peer.id == remoteId && s.fde == fde && fde.fd == old(fde.fd) &&
              fde.wanted == {Read} && s.accepted == s.written == [] && s.since == |old(arrivals)| &&
              s.id == s.born == old(nextId) && sent == old(sent) + [Okay(s.id, remoteId)]
    {
      hide *;
      ghost var log := Log(sent, okays, arrivals, ends);
      KnownNew(fdes, drains, t, loop.table, fde);
      InOrderReopened(sockets, fdes, closing, drains, bad, log, fde.fd);
      NewApart(repr, sockets, remotes, closing, fdes, drains, t, fde);
      var r := new Remote(remoteId);
      var s := new Local(nextId, fde, |arrivals|);
      s.peer, r.peer := r, s;
      s.StartsEven();
      bad := bad - {fde.fd};
      s.Listen(loop, bad);
      Admit(s, r, t);
    }

    /** The new pair goes to the lists, and the host is told. */
    method Admit(s: Local, r: Remote, ghost t: seq<FdEvent?>)
      requires loop.Valid() && AllKnown(fdes + [s.fde], drains, loop.table) && s.IsOpen(bad)
      requires s.id == s.born == nextId && s.since == |arrivals| && s.accepted == []
      requires s.peer == r && r.peer == s && s !in sockets && s !in closing && s.fde !in fdes && s.fde !in drains
      requires s.wrtes == s.okays == s.taken == 0 && s.grants == 1
      requires this in repr && loop in repr && loop.list in repr
      requires Owned(repr, sockets, remotes, closing, fdes, drains, t)
      requires At(loop.table, s.fde.fd) == s.fde && forall i :: i != s.fde.fd ==> At(loop.table, i) == At(t, i)
      requires Paired(sockets, remotes) && Numbered(sockets, nextId) && Separate(sockets, closing)
      requires Separate(fdes, drains)
      requires Log(sent, okays, arrivals, ends).Kept(sockets, closing, nextId)
      requires InOrder(sockets, fdes, closing, drains, bad, Log(sent, okays, arrivals, ends))
      modifies this
      ensures Valid() && repr == old(repr) + {s, r, s.fde} && closing == old(closing) && okays == old(okays)
      ensures arrivals == old(arrivals) && ends == old(ends)
      ensures sockets == old(sockets) + [s] && sent == old(sent) + [Okay(s.id, r.id)]
    {
      hide *;
      ghost var log, f, p := Log(sent, okays, arrivals, ends), s.fde, Okay(s.id, r.id);
      PairedAdd(sockets, remotes, s, r);
      NumberedAdd(sockets, nextId, s);
      SeparateAdd(sockets, closing, s);
      SeparateAdd(fdes, drains, f);
      InOrderSend(sockets, fdes, closing, drains, bad, log, p);
      KeptNew(log, p, sockets, closing, nextId, s);
      InOrderAdd(sockets, fdes, closing, drains, bad, log.(sent := log.sent + [p]), s, f);
      OwnedMore(repr, sockets, remotes, closing, fdes, drains, t, loop.table, s, r, f);
      sent := sent + [Okay(s.id, r.id)];
      sockets, remotes, nextId := sockets + [s], remotes + [r], nextId + 1;
      fdes, repr := fdes + [f], repr + {s, r, f};
      ShapedWhen(sockets, remotes, closing, fdes, drains);
      FitWhen(sockets, remotes, closing, fdes, drains);
      ValidWhen();
    }

    // ----- the transport goes away -----

    /** remote_socket_disconnect for the first remote: its socket loses the peer and is closed, and the host
        is not told. */
    method Disconnect()
      requires Valid() && sockets != []
      modifies this`sockets, this`remotes, this`closing, this`fdes, this`drains, this`ends
      modifies sockets[0], sockets[0].fde, loop, loop.list, loop.queue`next, loop.queue`prev
      ensures Valid() && |old(remotes)| > 0 && sockets == old(sockets)[1..] && remotes == old(remotes)[1..]
      ensures old(sockets)[0].destroyed == (old(sockets[0].queue) == []) && old(closing) <= closing
      ensures Gone(old(sockets)[0], old(sockets[0].written))
      ensures forall id :: id in old(ends) && id != old(sockets)[0].born ==> id in ends && ends[id] == old(ends)[id]
    {
      hide *;
      ghost var os, fs := Enter(0);
      Isolate(0, os, fs);
      DropFirst(sockets);
      DropFirst(remotes);
      Closable(0);
      Retire(0, os, fs);
      GoneIs(old(sockets)[0], old(sockets[0].written));
    }

    /** handle_offline: every remote is disconnected. */
    method Offline()
      requires Valid()
      modifies repr
      ensures Valid() && repr == old(repr) && okays == old(okays) && arrivals == old(arrivals)
      ensures sockets == [] && remotes == [] && sent == old(sent) && old(closing) <= closing
      ensures forall i :: 0 <= i < |old(sockets)| ==> Gone(old(sockets)[i], old(sockets[i].written))
    {
      hide *;
      ghost var all := sockets;
      ghost var ws := Writtens();
      AllDiffer();
      while remotes != []
        invariant Valid() && repr == old(repr) && okays == old(okays) && arrivals == old(arrivals) && sent == old(sent)
        invariant |sockets| == |remotes| && old(closing) <= closing && |sockets| <= |all|
        invariant sockets == all[|all| - |sockets|..] && nextId == old(nextId)
        invariant forall k :: 0 <= k < |all| - |sockets| ==> Gone(all[k], ws[k])
        invariant forall k :: |all| - |sockets| <= k < |all| ==> all[k].written == ws[k]
        decreases |remotes|
      {
        ghost var os, fs := Enter(0);
        Isolate(0, os, fs);
        assert sockets[0] == all[|all| - |sockets|];
        AllGone(all, ws);
        Disconnect();
        AllGone(all, ws);
      }
    }

    /** The socket has lost its peer; it is destroyed with this written, or is closing. */
    ghost predicate Gone(s: Local, written: seq<byte>)
      reads `closing, `ends, s
    {
      s.peer == null && s.written == written &&
      if s.destroyed then s.born in ends && ends[s.born] == written else s in closing
    }

    lemma AllGone(ss: seq<Local>, ws: seq<seq<byte>>)
      requires |ss| == |ws|
      ensures forall k :: 0 <= k < |ss| ==>
                (Gone(ss[k], ws[k]) <==>
                 ss[k].peer == null && ss[k].written == ws[k] &&
                 if ss[k].destroyed then ss[k].born in ends && ends[ss[k].born] == ws[k] else ss[k] in closing)
    {}

    lemma GoneIs(s: Local, written: seq<byte>)
      ensures Gone(s, written) <==>
                s.peer == null && s.written == written &&
                if s.destroyed then s.born in ends && ends[s.born] == written else s in closing
    {}

    ghost function Writtens(): (ws: seq<seq<byte>>)
      reads this, sockets
      ensures |ws| == |sockets| && forall i :: 0 <= i < |sockets| ==> ws[i] == sockets[i].written
    {
      seq(|sockets|, i requires 0 <= i < |sockets| reads this, sockets => sockets[i].written)
    }

    lemma AllDiffer()
      requires Valid()
      ensures |sockets| == |remotes|
      ensures forall i, k :: 0 <= i < k < |sockets| ==> sockets[i] != sockets[k] && sockets[i].born != sockets[k].born
    {
      hide EventLoop.Valid, Log.Kept, AllKnown, InOrder;
    }

    /** The first socket is closed. */
    method CloseFirst()
      requires Valid() && sockets != []
      modifies this`sockets, this`remotes, this`closing, this`fdes, this`drains, this`sent, this`ends
      modifies sockets[0], sockets[0].fde, loop, loop.list, loop.queue`next, loop.queue`prev
      ensures Valid() && |old(remotes)| > 0 && sockets == old(sockets)[1..] && remotes == old(remotes)[1..]
      ensures sent == old(sent) + [Clse(0, old(remotes)[0].id)] && old(closing) <= closing
      ensures Gone(old(sockets)[0], old(sockets[0].written))
      ensures forall id :: id in old(ends) && id != old(sockets)[0].born ==> id in ends && ends[id] == old(ends)[id]
    {
      hide *;
      ghost var os, fs := Enter(0);
      Isolate(0, os, fs);
      DropFirst(sockets);
      DropFirst(remotes);
      Closable(0);
      CloseAt(0, os, fs);
      GoneIs(old(sockets)[0], old(sockets[0].written));
    }

    /** close_all_sockets, when there is no more input: every socket is closed, and its CLSE is sent. */
    method CloseAll()
      requires Valid()
      modifies repr
      ensures Valid() && repr == old(repr) && okays == old(okays) && arrivals == old(arrivals)
      ensures sockets == [] && remotes == [] && old(closing) <= closing && |old(remotes)| == |old(sockets)|
      ensures |sent| == |old(sent)| + |old(sockets)| && old(sent) <= sent
      ensures forall i :: 0 <= i < |old(sockets)| ==> sent[|old(sent)| + i] == Clse(0, old(remotes)[i].id)
      ensures forall i :: 0 <= i < |old(sockets)| ==> Gone(old(sockets)[i], old(sockets[i].written))
    {
      hide *;
      ghost var all, rs := sockets, remotes;
      ghost var ws := Writtens();
      AllDiffer();
      while sockets != []
        invariant Valid() && repr == old(repr) && okays == old(okays) && arrivals == old(arrivals)
        invariant |sockets| == |remotes| && old(closing) <= closing && |sockets| <= |all|
        invariant sockets == all[|all| - |sockets|..] && remotes == rs[|all| - |sockets|..]
        invariant |sent| == |old(sent)| + (|all| - |sockets|) && old(sent) <= sent
        invariant forall k :: 0 <= k < |all| - |sockets| ==> sent[|old(sent)| + k] == Clse(0, rs[k].id)
        invariant forall k :: 0 <= k < |all| - |sockets| ==> Gone(all[k], ws[k])
        invariant forall k :: |all| - |sockets| <= k < |all| ==> all[k].written == ws[k]
        decreases |sockets|
      {
        ghost var os, fs := Enter(0);
        Isolate(0, os, fs);
        assert sockets[0] == all[|all| - |sockets|];
        AllGone(all, ws);
        CloseFirst();
        AllGone(all, ws);
      }
    }

    // ----- events -----

    /** A writable descriptor of an open socket: the queue is drained; when it is empty the host is told to
        go on; when the descriptor fails the socket is closed. */
    method WriteEvent(i: nat, io: seq<Io>) returns (v: Verdict)
      requires Valid() && i < |sockets| && sockets[i].fde.events == {} && sockets[i].queue != []
      modifies repr
      ensures Valid() && repr == old(repr) && okays == old(okays) && arrivals == old(arrivals) && bad == old(bad)
      ensures |old(remotes)| == |old(sockets)| && old(sockets)[i].accepted == old(sockets[i].accepted)
      ensures ends == old(ends) && v == Moved(|Flat(old(sockets[i].queue))|, io)
      ensures old(sockets)[i].written ==
              old(sockets[i].written) + Front(Flat(old(sockets[i].queue)), Room(io, true))
      ensures v.Drained? ==> sockets == old(sockets) && remotes == old(remotes) && sockets[i].fde.events == {} &&
                             sockets[i].id == old(sockets[i].id) && sockets[i].written == sockets[i].accepted &&
                             (Read in sockets[i].fde.wanted <==> Read in old(sockets[i].fde.wanted)) &&
                             sent == old(sent) + [Okay(sockets[i].id, remotes[i].id)]
      ensures v.Backlog? ==> sockets == old(sockets) && sent == old(sent) && !old(sockets)[i].destroyed
      ensures v.Broken? ==> !old(sockets)[i].destroyed && closing == old(closing) + [old(sockets)[i]] &&
                            sent == old(sent) + [Clse(0, old(remotes)[i].id)]
    {
      hide *;
      ghost var os, fs := Enter(i);
      Isolate(i, os, fs);
      v := Flush(i, io, os, fs);
      if v.Broken? {
        Isolate(i, os, fs);
        Closable(i);
        CloseAt(i, os, fs);
      } else {
        if v.Drained? {
          Send(Okay(sockets[i].id, remotes[i].id), i, os, fs);
        }
        Leave(i, os, fs);
      }
    }

    /** The i-th socket's part of it. */
    method Flush(i: nat, io: seq<Io>, ghost os: seq<Local>, ghost fs: seq<FdEvent>) returns (v: Verdict)
      requires Around(i, os, fs) && sockets[i].IsOpen(bad) && Tally(sockets[i], Log(sent, okays, arrivals, ends))
      requires sockets[i].fde.events == {} && sockets[i].queue != []
      modifies sockets[i], sockets[i].fde, loop, loop.list, loop.queue`next, loop.queue`prev
      ensures Around(i, os, fs) && sockets[i].IsOpen(bad) && sockets[i].accepted == old(sockets[i].accepted)
      ensures sockets[i].id == old(sockets[i].id) && (v.Drained? <==> sockets[i].queue == []) && !sockets[i].destroyed
      ensures v == Moved(|Flat(old(sockets[i].queue))|, io)
      ensures sockets[i].written == old(sockets[i].written) + Front(Flat(old(sockets[i].queue)), Room(io, true))
      ensures !v.Drained? ==> Tally(sockets[i], Log(sent, okays, arrivals, ends))
      ensures v.Drained? ==> sockets[i].fde.events == {} && sockets[i].written == sockets[i].accepted &&
                             (Read in sockets[i].fde.wanted <==> Read in old(sockets[i].fde.wanted))
      ensures v.Drained? ==> sockets[i].wrtes <= sockets[i].okays + 1 && sockets[i].grants <= sockets[i].taken + 1
      ensures v.Drained? ==> forall r :: Tally(sockets[i], Log(sent + [Okay(sockets[i].id, r)], okays, arrivals, ends))
    {
      hide *;
      Isolate(i, os, fs);
      var s := sockets[i];
      TallyMeans(s, Log(sent, okays, arrivals, ends));
      v := s.DrainOpen(loop, io, bad);
      s.OpenMeans(bad);
      TallyTaken(s, Log(sent, okays, arrivals, ends), v);
      s.Unwritten();
      AroundWhen(i, os, fs);
    }

    /** A readable descriptor of an open socket: what was read goes to the host in one packet, and reading
        stops until it is acknowledged; at the end of the input the socket is closed. */
    method ReadEvent(i: nat, data: seq<byte>, eof: bool)
      requires Valid() && i < |sockets| && sockets[i].fde.events == {}
      requires data != [] ==> Read in sockets[i].fde.wanted
      modifies repr
      ensures Valid() && repr == old(repr) && okays == old(okays) && arrivals == old(arrivals)
      ensures |old(remotes)| == |old(sockets)|
      ensures var s, r := old(sockets)[i], old(remotes)[i];
              sent == old(sent) + (if data == [] then [] else [Wrte(old(sockets[i].id), r.id, data)]) +
                      (if eof then [Clse(0, r.id)] else []) &&
              s.accepted == old(sockets[i].accepted) && s.written == old(sockets[i].written) &&
              sockets == (if eof then Drop(old(sockets), i) else old(sockets)) &&
              (s.destroyed ==> s.written == s.accepted) &&
              ends == if s.destroyed then old(ends)[s.born := s.written] else old(ends)
    {
      hide *;
      ghost var os, fs := Enter(i);
      Isolate(i, os, fs);
      sockets[i].OpenMeans(bad);
      sockets[i].Unwritten();
      if data != [] {
        Emit(i, data, os, fs);
      }
      if eof {
        Isolate(i, os, fs);
        Closable(i);
        CloseAt(i, os, fs);
      } else {
        Leave(i, os, fs);
      }
    }

    /** remote_socket_enqueue, and reading switched off. */
    method Emit(i: nat, data: seq<byte>, ghost os: seq<Local>, ghost fs: seq<FdEvent>)
      requires Around(i, os, fs) && sockets[i].IsOpen(bad) && Tally(sockets[i], Log(sent, okays, arrivals, ends))
      requires sockets[i].fde.events == {} && Read in sockets[i].fde.wanted && i < |remotes|
      modifies sockets[i], sockets[i].fde, loop, loop.list, loop.queue`next, loop.queue`prev, this`sent
      ensures Around(i, os, fs) && sockets[i].IsOpen(bad) && Tally(sockets[i], Log(sent, okays, arrivals, ends))
      ensures sent == old(sent) + [Wrte(old(sockets[i].id), remotes[i].id, data)]
      ensures var s := sockets[i];
              s.accepted == old(s.accepted) && s.written == old(s.written) && s.queue == old(s.queue) && !s.destroyed
    {
      hide *;
      Isolate(i, os, fs);
      var s := sockets[i];
      TallyMeans(s, Log(sent, okays, arrivals, ends));
      s.OpenMeans(bad);
      s.Emitted(loop, bad);
      s.OpenMeans(bad);
      AroundWhen(i, os, fs);
      TallySend(s, Log(sent, okays, arrivals, ends), Wrte(s.id, remotes[i].id, data));
      Send(Wrte(s.id, remotes[i].id, data), i, os, fs);
    }

    /** local_socket_event_func for an open socket: writing first, then, if the queue is empty, reading. */
    method Event(i: nat, ev: set<Flag>, io: seq<Io>, data: seq<byte>, eof: bool) returns (v: Verdict)
      requires Valid() && i < |sockets| && sockets[i].fde.events == {} && (Write in ev ==> sockets[i].queue != [])
      requires Read in ev && data != [] ==> Read in sockets[i].fde.wanted
      modifies repr
      ensures Valid() && repr == old(repr) && okays == old(okays) && arrivals == old(arrivals)
      ensures |old(remotes)| == |old(sockets)|
      ensures v == if Write in ev then Moved(|Flat(old(sockets[i].queue))|, io) else Drained
      ensures old(sockets)[i].written ==
              old(sockets[i].written) +
              (if Write in ev then Front(Flat(old(sockets[i].queue)), Room(io, true)) else [])
      ensures v.Backlog? ==> sockets == old(sockets) && sent == old(sent)
      ensures v.Broken? ==>
                closing == old(closing) + [old(sockets)[i]] && sent == old(sent) + [Clse(0, old(remotes)[i].id)]
      ensures v.Drained? ==>
                var id, r := old(sockets[i].id), old(remotes)[i].id;
                sockets == (if Read in ev && eof then Drop(old(sockets), i) else old(sockets)) &&
                sent == old(sent) + (if Write in ev then [Okay(id, r)] else []) +
                        (if Read in ev && data != [] then [Wrte(id, r, data)] else []) +
                        (if Read in ev && eof then [Clse(0, r)] else [])
      ensures var s := old(sockets)[i];
              s.accepted == old(sockets[i].accepted) && (s.destroyed ==> s.written == s.accepted) &&
              ends == if s.destroyed then old(ends)[s.born := s.written] else old(ends)
    {
      hide *;
      ghost var os, fs := Enter(i);
      Isolate(i, os, fs);
      sockets[i].OpenMeans(bad);
      v := Drained;
      if Write in ev {
        v := WriteEvent(i, io);
        if !v.Drained? {
          return;
        }
      }
      if Read in ev {
        ReadEvent(i, data, eof);
      } else {
        StillOpen(i);
      }
    }

    lemma StillOpen(i: nat)
      requires Valid() && i < |sockets|
      ensures !sockets[i].destroyed
    {
      hide EventLoop.Valid, Log.Kept, AllKnown, Shaped, Tallied, Draining, Local.Sound;
    }

    // ----- closing sockets -----

    /** What holds apart from the j-th closing socket. */
    ghost predicate Beside(j: nat, oc: seq<Local>, ods: seq<FdEvent>)
      reads this, loop, loop.list, loop.table, loop.queue, sockets, remotes, closing, fdes, oc, ods, drains`fd
    {
      Shaped(sockets, remotes, closing, fdes, drains) && loop.Valid() && AllKnown(fdes, drains, loop.table) &&
      j < |closing| == |drains| && closing[j].fde == drains[j] && oc == Drop(closing, j) && ods == Drop(drains, j) &&
      InOrder(sockets, fdes, oc, ods, bad, Log(sent, okays, arrivals, ends)) &&
      Log(sent, okays, arrivals, ends).Kept(sockets, closing, nextId)
    }

    lemma EnterClosing(j: nat) returns (oc: seq<Local>, ods: seq<FdEvent>)
      requires Valid() && j < |closing|
      ensures Beside(j, oc, ods) && closing[j].IsDraining(bad)
      ensures closing[j].accepted == Payloads(arrivals, closing[j].born)
    {
      hide Drop, Shaped, EventLoop.Valid, InOrder, AllKnown, Log.Kept, Local.IsDraining;
      InOrderDropClosing(sockets, fdes, closing, drains, bad, Log(sent, okays, arrivals, ends), j);
      oc, ods := Drop(closing, j), Drop(drains, j);
    }

    lemma LeaveClosing(j: nat, oc: seq<Local>, ods: seq<FdEvent>)
      requires Beside(j, oc, ods) && closing[j].IsDraining(bad)
      requires closing[j].accepted == Payloads(arrivals, closing[j].born)
      ensures Valid()
    {
      hide Drop, Shaped, EventLoop.Valid, InOrder, AllKnown, Log.Kept, Local.IsDraining;
      InOrderBackClosing(sockets, fdes, closing, drains, bad, Log(sent, okays, arrivals, ends), j);
    }

    lemma BesideWhen(j: nat, oc: seq<Local>, ods: seq<FdEvent>)
      requires Shaped(sockets, remotes, closing, fdes, drains) && loop.Valid() && AllKnown(fdes, drains, loop.table)
      requires j < |closing| == |drains| && closing[j].fde == drains[j] && oc == Drop(closing, j)
      requires ods == Drop(drains, j)
      requires InOrder(sockets, fdes, oc, ods, bad, Log(sent, okays, arrivals, ends))
      requires Log(sent, okays, arrivals, ends).Kept(sockets, closing, nextId)
      ensures Beside(j, oc, ods)
    {}

    lemma IsolateClosing(j: nat, oc: seq<Local>, ods: seq<FdEvent>)
      requires Beside(j, oc, ods)
      ensures Shaped(sockets, remotes, closing, fdes, drains) && loop.Valid() && AllKnown(fdes, drains, loop.table)
      ensures j < |closing| == |drains| && closing[j].fde == drains[j] && oc == Drop(closing, j)
      ensures ods == Drop(drains, j)
      ensures InOrder(sockets, fdes, oc, ods, bad, Log(sent, okays, arrivals, ends))
      ensures Log(sent, okays, arrivals, ends).Kept(sockets, closing, nextId)
      ensures closing[j] !in sockets && closing[j] !in oc && drains[j] !in fdes && drains[j] !in ods
      ensures Separate(sockets, oc) && Separate(fdes, ods) && Paired(sockets, remotes) && Numbered(sockets, nextId)
      ensures Owned(repr, sockets, remotes, oc, fdes, ods, loop.table)
      ensures At(loop.table, drains[j].fd) == drains[j]
      ensures this in repr && loop in repr && loop.list in repr && closing[j] in repr && drains[j] in repr
      ensures forall k :: 0 <= k < |loop.queue| ==> loop.queue[k] in repr
    {
      hide Drop, InOrder, Paired, Numbered, EventLoop.Valid, Log.Kept;
      SeparateDropRight(sockets, closing, j);
      SeparateDropRight(fdes, drains, j);
      DropOwned(repr, sockets, remotes, closing, fdes, drains, loop.table, j);
      QueueOwned();
    }

    /** local_socket_event_func for a closing socket. */
    method ClosingEvent(j: nat, ev: set<Flag>, io: seq<Io>, eof: bool) returns (v: Verdict)
      requires Valid() && j < |closing| && closing[j].fde.events == {}
      modifies repr
      ensures Valid() && repr == old(repr) && okays == old(okays) && arrivals == old(arrivals) && sent == old(sent)
      ensures sockets == old(sockets)
      ensures var s := old(closing)[j];
              s.accepted == old(closing[j].accepted) && s.written <= s.accepted &&
              v == (if Write in ev then Moved(|Flat(old(closing[j].queue))|, io) else Backlog) &&
              s.written == old(closing[j].written) +
                           (if Write in ev then Front(Flat(old(closing[j].queue)), Room(io, true)) else []) &&
              closing == (if s.destroyed then Drop(old(closing), j) else old(closing)) &&
              (s.destroyed <==> if Write in ev then !v.Backlog? else Read in ev && eof) &&
              (s.destroyed && s.written != s.accepted <==> if Write in ev then v.Broken? else Read in ev && eof) &&
              ends == if s.destroyed then old(ends)[s.born := s.written] else old(ends)
    {
      hide *;
      ghost var oc, ods := EnterClosing(j);
      IsolateClosing(j, oc, ods);
      v := CloseStep(j, ev, io, eof, oc, ods);
      var s := closing[j];
      if s.destroyed {
        Relist(sockets, remotes, Drop(closing, j), fdes, ods);
      }
    }

    method CloseStep(j: nat, ev: set<Flag>, io: seq<Io>, eof: bool, ghost oc: seq<Local>, ghost ods: seq<FdEvent>)
        returns (v: Verdict)
      requires Beside(j, oc, ods) && closing[j].IsDraining(bad) && closing[j].fde.events == {}
      requires closing[j].accepted == Payloads(arrivals, closing[j].born)
      modifies closing[j], closing[j].fde, loop, loop.list, loop.queue`next, loop.queue`prev, this`ends
      ensures var s := closing[j];
              s.accepted == old(s.accepted) && s.written <= s.accepted &&
              v == (if Write in ev then Moved(|Flat(old(s.queue))|, io) else Backlog) &&
              s.written == old(s.written) + (if Write in ev then Front(Flat(old(s.queue)), Room(io, true)) else []) &&
              (s.destroyed <==> if Write in ev then !v.Backlog? else Read in ev && eof) &&
              (s.destroyed && s.written != s.accepted <==> if Write in ev then v.Broken? else Read in ev && eof) &&
              ends == if s.destroyed then old(ends)[s.born := s.written] else old(ends)
      ensures closing[j].destroyed ==> Fit(sockets, remotes, oc, fdes, ods)
      ensures !closing[j].destroyed ==> Valid()
    {
      hide *;
      IsolateClosing(j, oc, ods);
      var s := closing[j];
      s.DrainingMeans(bad);
      ghost var t, log := loop.table, Log(sent, okays, arrivals, ends);
      v := s.ClosingEvent(loop, ev, io, eof);
      s.Unwritten();
      if s.destroyed {
        KeptGone(log, sockets, closing, nextId, j, s.written);
        ends := ends[s.born := s.written];
        InOrderEnds(sockets, fdes, oc, ods, bad, log, Log(sent, okays, arrivals, ends));
        KnownGone(fdes, drains, t, loop.table, j);
        OwnedNow(repr, sockets, remotes, oc, fdes, ods, t, loop.table);
        ShapedWhen(sockets, remotes, oc, fdes, ods);
        FitWhen(sockets, remotes, oc, fdes, ods);
      } else {
        s.DrainingWhen(bad);
        BesideWhen(j, oc, ods);
        LeaveClosing(j, oc, ods);
      }
    }

    // ----- the event loop -----

    /** What a read of a descriptor gives: nothing and the end of the input, if it is bad. */
    function Input(fd: int, data: seq<byte>): seq<byte>
      reads `bad
    {
      if fd in bad then [] else data
    }

    lemma NoInput(fd: int, data: seq<byte>)
      ensures fd in bad ==> Input(fd, data) == []
    {}

    /** The loop's next callback, if it is for the i-th socket. A read is signalled only if it is subscribed or
        the descriptor is bad, so that data is sent to the host only while reading is subscribed. */
    method CallbackOpen(i: nat, io: seq<Io>, ins: seq<In>) returns (ev: set<Flag>, v: Verdict)
      requires Valid() && i < |sockets| && loop.queue != [] && loop.queue[0] == sockets[i].fde
      modifies repr
      ensures Valid() && repr == old(repr) && okays == old(okays) && arrivals == old(arrivals)
      ensures |old(remotes)| == |old(sockets)|
      ensures ev == old(sockets[i].fde.events) && (Write in ev ==> old(sockets[i].queue) != [])
      ensures Read in ev ==> Read in old(sockets[i].fde.wanted) || old(sockets[i].fde.fd in bad)
      ensures v == if Write in ev then Moved(|Flat(old(sockets[i].queue))|, io) else Drained
      ensures old(sockets)[i].written ==
              old(sockets[i].written) +
              (if Write in ev then Front(Flat(old(sockets[i].queue)), Room(io, true)) else [])
      ensures v.Backlog? ==> sockets == old(sockets) && sent == old(sent)
      ensures v.Broken? ==>
                closing == old(closing) + [old(sockets)[i]] && sent == old(sent) + [Clse(0, old(remotes)[i].id)]
      ensures v.Drained? ==>
                var id, r, d := old(sockets[i].id), old(remotes)[i].id, old(Input(sockets[i].fde.fd, Gained(ins)));
                var last := Ended(ins) || old(sockets[i].fde.fd in bad);
                sockets == (if Read in ev && last then Drop(old(sockets), i) else old(sockets)) &&
                sent == old(sent) + (if Write in ev then [Okay(id, r)] else []) +
                        (if Read in ev && d != [] then [Wrte(id, r, d)] else []) +
                        (if Read in ev && last then [Clse(0, r)] else [])
      ensures var s := old(sockets)[i];
              s.accepted == old(sockets[i].accepted) && (s.destroyed ==> s.written == s.accepted) &&
              ends == if s.destroyed then old(ends)[s.born := s.written] else old(ends)
    {
      hide *;
      var data, eof := ReadLoop(ins);
      var d, last := Input(sockets[i].fde.fd, data), eof || sockets[i].fde.fd in bad;
      NoInput(sockets[i].fde.fd, data);
      ghost var os, fs := Enter(i);
      Isolate(i, os, fs);
      ev := CallOpen(i);
      v := Event(i, ev, io, d, last);
    }

    /** The event of the i-th socket is taken off the list. */
    method CallOpen(i: nat) returns (ev: set<Flag>)
      requires Valid() && i < |sockets| && loop.queue != [] && loop.queue[0] == sockets[i].fde
      modifies loop`queue, sockets[i].fde, loop.list, loop.queue`next, loop.queue`prev
      ensures Valid() && ev == old(sockets[i].fde.events) && sockets[i].fde.events == {}
      ensures sockets[i].fde.wanted == old(sockets[i].fde.wanted) && sockets[i].fde.fd == old(sockets[i].fde.fd)
      ensures Read in ev ==> Read in sockets[i].fde.wanted || sockets[i].fde.fd in bad
      ensures Write in ev ==> sockets[i].queue != []
    {
      hide *;
      ghost var os, fs := Enter(i);
      Isolate(i, os, fs);
      sockets[i].OpenMeans(bad);
      FirstIs(loop.queue);
      var fde, events := loop.NextCallback();
      ev := events;
      sockets[i].OpenWhen(bad);
      AroundWhen(i, os, fs);
      Leave(i, os, fs);
    }

    /** The loop's next callback, if it is for the j-th closing socket. It is destroyed with bytes unwritten
        exactly when a write fails, or when no write is signalled but a read, which then finds the end of the
        input; and a read is signalled only if it was pending when the socket was closed, or if the descriptor
        is bad. */
    method CallbackClosing(j: nat, io: seq<Io>, ins: seq<In>) returns (ev: set<Flag>, v: Verdict)
      requires Valid() && j < |closing| && loop.queue != [] && loop.queue[0] == closing[j].fde
      modifies repr
      ensures Valid() && repr == old(repr) && okays == old(okays) && arrivals == old(arrivals) && sent == old(sent)
      ensures sockets == old(sockets) && ev == old(closing[j].fde.events)
      ensures (Read in ev ==> old(closing[j].late) || old(closing[j].fde.fd in bad))
      ensures (old(closing[j].late) ==> Read in ev)
      ensures var s, last := old(closing)[j], Ended(ins) || old(closing[j].fde.fd in bad);
              s.accepted == old(closing[j].accepted) && s.written <= s.accepted &&
              v == (if Write in ev then Moved(|Flat(old(closing[j].queue))|, io) else Backlog) &&
              s.written == old(closing[j].written) +
                           (if Write in ev then Front(Flat(old(closing[j].queue)), Room(io, true)) else []) &&
              closing == (if s.destroyed then Drop(old(closing), j) else old(closing)) &&
              (s.destroyed <==> if Write in ev then !v.Backlog? else Read in ev && last) &&
              (s.destroyed && s.written != s.accepted <==> if Write in ev then v.Broken? else Read in ev && last) &&
              ends == if s.destroyed then old(ends)[s.born := s.written] else old(ends)
    {
      hide *;
      var data, eof := ReadLoop(ins);
      var last := eof || closing[j].fde.fd in bad;
      ghost var oc, ods := EnterClosing(j);
      IsolateClosing(j, oc, ods);
      ev := CallClosing(j);
      v := ClosingEvent(j, ev, io, last);
    }

    method CallClosing(j: nat) returns (ev: set<Flag>)
      requires Valid() && j < |closing| && loop.queue != [] && loop.queue[0] == closing[j].fde
      modifies loop`queue, closing[j], closing[j].fde, loop.list, loop.queue`next, loop.queue`prev
      ensures Valid() && ev == old(closing[j].fde.events) && closing[j].fde.events == {}
      ensures closing[j].fde.fd == old(closing[j].fde.fd)
      ensures closing[j].written == old(closing[j].written) && closing[j].accepted == old(closing[j].accepted)
      ensures closing[j].queue == old(closing[j].queue)
      ensures (Read in ev ==> old(closing[j].late) || closing[j].fde.fd in bad) && (old(closing[j].late) ==> Read in ev)
    {
      hide *;
      ghost var oc, ods := EnterClosing(j);
      IsolateClosing(j, oc, ods);
      closing[j].DrainingMeans(bad);
      FirstIs(loop.queue);
      var fde, events := loop.NextCallback();
      ev := events;
      closing[j].late := false;
      closing[j].DrainingWhen(bad);
      BesideWhen(j, oc, ods);
      LeaveClosing(j, oc, ods);
    }

    /** Neither list has the event: it belongs to something else, whose packets come as such. */
    method CallbackOther()
      requires Valid() && loop.queue != [] && loop.queue[0] !in fdes && loop.queue[0] !in drains
      modifies repr
      ensures Valid() && repr == old(repr) && okays == old(okays) && arrivals == old(arrivals)
      ensures sent == old(sent) && sockets == old(sockets) && closing == old(closing)
    {
      hide *;
      ValidMeans();
      FitMeans(sockets, remotes, closing, fdes, drains);
      ShapedMeans(sockets, remotes, closing, fdes, drains);
      QueueOwned();
      FirstIs(loop.queue);
      var fde, events := loop.NextCallback();
      FitWhen(sockets, remotes, closing, fdes, drains);
      ValidWhen();
    }

    /** The socket of an event. */
    method Owner(fde: FdEvent, list: seq<Local>) returns (i: nat)
      ensures i <= |list| && (i < |list| ==> list[i].fde == fde)
      ensures i == |list| ==> forall k :: 0 <= k < |list| ==> list[k].fde != fde
    {
      i := 0;
      while i < |list|
        invariant i <= |list| && forall k :: 0 <= k < i ==> list[k].fde != fde
      {
        if list[i].fde == fde { return; }
        i := i + 1;
      }
    }

    /** One turn of the inner loop of fdevent_loop. */
    method Callback(io: seq<Io>, ins: seq<In>)
      requires Valid()
      modifies repr
      ensures Valid() && repr == old(repr) && okays == old(okays) && arrivals == old(arrivals)
    {
      hide *;
      ValidMeans();
      FitMeans(sockets, remotes, closing, fdes, drains);
      var fde := loop.Peek();
      if fde == null {
        return;
      }
      var i := Owner(fde, sockets);
      var j := Owner(fde, closing);
      if i < |sockets| {
        var ev, v := CallbackOpen(i, io, ins);
      } else if j < |closing| {
        var ev, v := CallbackClosing(j, io, ins);
      } else {
        Elsewhere(fde);
        CallbackOther();
      }
    }

    lemma Elsewhere(fde: FdEvent)
      requires Valid() && (forall k :: 0 <= k < |sockets| ==> sockets[k].fde != fde)
      requires forall k :: 0 <= k < |closing| ==> closing[k].fde != fde
      ensures fde !in fdes && fde !in drains
    {
      hide EventLoop.Valid, Log.Kept, AllKnown, Shaped, Tallied, Local.IsOpen, Local.IsDraining;
    }

    /** fdevent_process: found are the descriptors that the check finds bad. */
    method Poll(s: Select, found: set<int>)
      requires Valid() && (s.Ready? ==> s.r <= loop.readFds && s.w <= loop.writeFds && s.e <= loop.errorFds)
      modifies repr
      ensures Valid() && repr == old(repr) && okays == old(okays) && arrivals == old(arrivals)
      ensures sent == old(sent) && sockets == old(sockets) && closing == old(closing) && bad == old(bad) + found
      ensures forall i :: 0 <= i < |sockets| ==>
                sockets[i].fde.events == old(sockets[i].fde.events) + Got(s, bad, sockets[i].fde.fd)
      ensures forall i :: 0 <= i < |sockets| ==>
                sockets[i].written == old(sockets[i].written) && sockets[i].queue == old(sockets[i].queue)
      ensures forall j :: 0 <= j < |closing| ==>
                closing[j].written == old(closing[j].written) && closing[j].queue == old(closing[j].queue)
    {
      hide *;
      MoreBad(found);
      bad := bad + found;
      FitWhen(sockets, remotes, closing, fdes, drains);
      ValidWhen();
      ShapedMeans(sockets, remotes, closing, fdes, drains);
      OwnedTable(repr, sockets, remotes, closing, fdes, drains, loop.table);
      QueueOwned();
      Notify(s);
    }

    /** The events of the sockets get what there is for them. */
    method Dispatch(s: Select, ghost wf: seq<set<Flag>>, ghost wd: seq<set<Flag>>)
      requires loop.Valid() && (s.Ready? ==> s.r <= loop.readFds && s.w <= loop.writeFds && s.e <= loop.errorFds)
      requires |wf| == |fdes|
      requires forall i :: 0 <= i < |fdes| ==> At(loop.table, fdes[i].fd) == fdes[i] && wf[i] == fdes[i].events
      requires |wd| == |drains|
      requires forall i :: 0 <= i < |drains| ==> At(loop.table, drains[i].fd) == drains[i] && wd[i] == drains[i].events
      modifies loop`queue, loop.list`next, loop.list`prev, loop.table`events, loop.table`pending
      modifies loop.table`next, loop.table`prev, loop.queue`next
      ensures loop.Valid()
      ensures forall i :: 0 <= i < |fdes| ==> fdes[i].events == wf[i] + Got(s, bad, fdes[i].fd)
      ensures forall i :: 0 <= i < |drains| ==> drains[i].events == wd[i] + Got(s, bad, drains[i].fd)
    {
      hide *;
      loop.Process(s, bad);
    }

    method Notify(s: Select)
      requires Valid() && (s.Ready? ==> s.r <= loop.readFds && s.w <= loop.writeFds && s.e <= loop.errorFds)
      modifies loop`queue, loop.list`next, loop.list`prev, loop.table`events, loop.table`pending
      modifies loop.table`next, loop.table`prev, loop.queue`next
      ensures Valid()
      ensures forall i :: 0 <= i < |sockets| ==>
                sockets[i].fde.events == old(sockets[i].fde.events) + Got(s, bad, sockets[i].fde.fd)
    {
      hide *;
      AllWanted(s);
      ghost var log := Log(sent, okays, arrivals, ends);
      ValidMeans();
      FitMeans(sockets, remotes, closing, fdes, drains);
      InOrderIs(sockets, fdes, closing, drains, bad, log);
      AwaitedMeans(fdes, closing, drains, bad);
      ghost var wf := Signals(fdes);
      ghost var wd := Signals(drains);
      Dispatch(s, wf, wd);
      AwaitedWhen(fdes, closing, drains, bad, s, wf, wd);
      InOrderIs(sockets, fdes, closing, drains, bad, log);
      FitWhen(sockets, remotes, closing, fdes, drains);
      ValidWhen();
    }

    /** The events of the sockets are registered, and get nothing that is not subscribed but the faked read of
        a bad descriptor. */
    lemma AllWanted(s: Select)
      requires Valid() && (s.Ready? ==> s.r <= loop.readFds && s.w <= loop.writeFds && s.e <= loop.errorFds)
      ensures |sockets| == |fdes| && forall i :: 0 <= i < |sockets| ==> sockets[i].fde == fdes[i]
      ensures forall i :: 0 <= i < |fdes| ==> At(loop.table, fdes[i].fd) == fdes[i]
      ensures forall i :: 0 <= i < |drains| ==> At(loop.table, drains[i].fd) == drains[i]
      ensures |closing| == |drains| && forall i :: 0 <= i < |fdes| ==>
                (Read in Got(s, bad, fdes[i].fd) ==> Read in fdes[i].wanted || fdes[i].fd in bad) &&
                (Write in Got(s, bad, fdes[i].fd) ==> Write in fdes[i].wanted)
      ensures forall i :: 0 <= i < |drains| ==> (Read in Got(s, bad, drains[i].fd) ==> drains[i].fd in bad)
    {
      hide EventLoop.Valid, Log.Kept, Shaped, Tallied, Got, Local.Sound;
      forall i | 0 <= i < |fdes|
        ensures Read in Got(s, bad, fdes[i].fd) ==> Read in fdes[i].wanted || fdes[i].fd in bad
        ensures Write in Got(s, bad, fdes[i].fd) ==> Write in fdes[i].wanted
      {
        loop.GotIsWanted(fdes[i], s, bad);
      }
      forall i | 0 <= i < |drains| ensures Read in Got(s, bad, drains[i].fd) ==> drains[i].fd in bad {
        loop.GotIsWanted(drains[i], s, bad);
        assert closing[i].fde == drains[i] && closing[i].IsDraining(bad);
      }
    }

    lemma MoreBad(found: set<int>)
      requires Valid()
      ensures Shaped(sockets, remotes, closing, fdes, drains) && loop.Valid() && AllKnown(fdes, drains, loop.table)
      ensures InOrder(sockets, fdes, closing, drains, bad + found, Log(sent, okays, arrivals, ends))
      ensures Log(sent, okays, arrivals, ends).Kept(sockets, closing, nextId) && this in repr
    {
      hide EventLoop.Valid, Opened, Draining, Tallied, Paired, Numbered, Log.Kept, AllKnown;
      BadAlike(sockets, fdes, closing, drains, bad, bad + found);
    }
  }

  lemma DropOwned(repr: set<object>, ss: seq<Local>, rs: seq<Remote>, cs: seq<Local>, fs: seq<FdEvent>,
                  ds: seq<FdEvent>, t: seq<FdEvent?>, j: nat)
    requires Owned(repr, ss, rs, cs, fs, ds, t) && j < |cs| == |ds|
    ensures Owned(repr, ss, rs, Drop(cs, j), fs, Drop(ds, j), t)
  {}

  lemma OwnedNow(repr: set<object>, ss: seq<Local>, rs: seq<Remote>, cs: seq<Local>, fs: seq<FdEvent>,
                 ds: seq<FdEvent>, t: seq<FdEvent?>, now: seq<FdEvent?>)
    requires Owned(repr, ss, rs, cs, fs, ds, t) && forall k :: At(now, k) == null || At(now, k) == At(t, k)
    ensures Owned(repr, ss, rs, cs, fs, ds, now)
  {}

  lemma NewApart(repr: set<object>, ss: seq<Local>, rs: seq<Remote>, cs: seq<Local>, fs: seq<FdEvent>,
                 ds: seq<FdEvent>, t: seq<FdEvent?>, f: FdEvent)
    requires Owned(repr, ss, rs, cs, fs, ds, t) && f !in repr
    ensures f !in fs && f !in ds
  {}

  lemma OwnedMore(repr: set<object>, ss: seq<Local>, rs: seq<Remote>, cs: seq<Local>, fs: seq<FdEvent>,
                  ds: seq<FdEvent>, t: seq<FdEvent?>, now: seq<FdEvent?>, s: Local, r: Remote, f: FdEvent)
    requires Owned(repr, ss, rs, cs, fs, ds, t) && At(now, f.fd) == f
    requires forall k :: k != f.fd ==> At(now, k) == At(t, k)
    ensures Owned(repr + {s, r, f}, ss + [s], rs + [r], cs, fs + [f], ds, now)
  {}

  // ----- whole runs -----

  /** What can happen to the daemon: a packet from the host, a turn of select(), a callback, the end of the
      transport, or the end of its input. */
  datatype Op =
    | OpenOp(remoteId: nat, service: Option<int>)
    | OkayOp(id: nat)
    | CloseOp(id: nat)
    | WriteOp(id: nat, remoteId: nat, data: seq<byte>, io: seq<Io>)
    | PollOp(select: Select, found: set<int>)
    | CallbackOp(io: seq<Io>, ins: seq<In>)
    | OfflineOp
    | CloseAllOp

  function OkayIds(ops: seq<Op>): seq<nat> {
    if ops == [] then []
    else
      var p := ops[|ops| - 1];
      OkayIds(ops[..|ops| - 1]) + if p.OkayOp? then [p.id] else []
  }

  /** The WRTE packets among them. */
  function Writes(ops: seq<Op>): (r: seq<Op>)
    ensures forall i :: 0 <= i < |r| ==> r[i].WriteOp?
  {
    if ops == [] then []
    else
      var p := ops[|ops| - 1];
      Writes(ops[..|ops| - 1]) + if p.WriteOp? then [p] else []
  }

  function WriteIds(ops: seq<Op>): seq<nat> {
    seq(|Writes(ops)|, i requires 0 <= i < |Writes(ops)| => Writes(ops)[i].id)
  }

  /** These arrivals are what these packets brought, one by one. */
  ghost predicate Bring(ws: seq<Op>, h: seq<Arrival>)
    requires forall i :: 0 <= i < |ws| ==> ws[i].WriteOp?
  {
    |h| == |ws| && forall i :: 0 <= i < |h| ==> h[i].id == ws[i].id && h[i].data == ws[i].data
  }

  lemma OpsAppend(ops: seq<Op>, k: nat)
    requires k < |ops|
    ensures OkayIds(ops[..k + 1]) == OkayIds(ops[..k]) + if ops[k].OkayOp? then [ops[k].id] else []
    ensures Writes(ops[..k + 1]) == Writes(ops[..k]) + if ops[k].WriteOp? then [ops[k]] else []
  {
    assert ops[..k + 1][..k] == ops[..k];
  }

  /** The kernel reports only descriptors that it was asked for, and gives a new descriptor to a service. */
  predicate Possible(d: Daemon, op: Op)
    reads d.loop
  {
    match op
    case OpenOp(_, service) => service.Some? ==> At(d.loop.table, service.value) == null
    case PollOp(s, _) => s.Ready? ==> s.r <= d.loop.readFds && s.w <= d.loop.writeFds && s.e <= d.loop.errorFds
    case _ => true
  }

  /** The descriptor of the service cannot be registered: the source aborts. */
  predicate Aborts(op: Op) {
    op.OpenOp? && op.service.Some? && !(0 <= op.service.value <= 32000)
  }

  /** What the step adds to the arrivals. */
  ghost predicate Noted(was: seq<Arrival>, now: seq<Arrival>, op: Op) {
    if op.WriteOp? then exists listed :: now == was + [Arrival(op.id, op.data, listed)] else now == was
  }

  /** One step; it aborts if the descriptor of a service cannot be registered. */
  method Step(d: Daemon, op: Op) returns (alive: bool)
    requires d.Valid() && Possible(d, op)
    modifies d.repr
    ensures d.Valid() && fresh(d.repr - old(d.repr))
    ensures d.okays == old(d.okays) + (if op.OkayOp? then [op.id] else [])
    ensures Noted(old(d.arrivals), d.arrivals, op) && (!alive ==> Aborts(op))
  {
    hide Daemon.Valid;
    alive := true;
    match op {
      case OpenOp(remoteId, service) =>
        alive := d.Open(remoteId, service);
      case OkayOp(id) =>
        d.OkayPacket(id);
      case CloseOp(id) =>
        d.ClosePacket(id);
      case WriteOp(id, remoteId, data, io) =>
        var _ := d.WritePacket(id, remoteId, data, io);
      case PollOp(select, found) =>
        d.Poll(select, found);
      case CallbackOp(io, ins) =>
        d.Callback(io, ins);
      case OfflineOp =>
        d.Offline();
      case CloseAllOp =>
        d.CloseAll();
    }
  }

  /** Any run, through the first k operations: as far as they are possible and the source does not abort.
      Whatever the host sends and the descriptors do, for every id there is at most one WRTE packet more than
      OKAY packets for it, and at most one OKAY more than WRTE packets for it. Every listed socket has written,
      or has queued, the data of the WRTE packets for it since it was opened, in order; every closing socket
      that of the packets which came while it was listed, and every destroyed socket has written the front of
      it. There is no other id. */
  method Run(ops: seq<Op>) returns (d: Daemon, k: nat)
    ensures d.Valid() && k <= |ops| && d.okays == OkayIds(ops[..k]) && Bring(Writes(ops[..k]), d.arrivals)
    ensures k == |ops| || !Possible(d, ops[k]) || (k > 0 && Aborts(ops[k - 1]))
    ensures forall id ::
              Wrtes(d.sent, id) <= Count(OkayIds(ops[..k]), id) + 1 &&
              Okays(d.sent, id) <= Count(WriteIds(ops[..k]), id) + 1
    ensures forall i :: 0 <= i < |d.sockets| ==>
              var s := d.sockets[i];
              s.since <= |d.arrivals| && s.written + Flat(s.queue) == Data(d.arrivals[s.since..], s.id) &&
              s.written + Flat(s.queue) == Payloads(d.arrivals, s.id)
    ensures forall j :: 0 <= j < |d.closing| ==>
              d.closing[j].written + Flat(d.closing[j].queue) == Payloads(d.arrivals, d.closing[j].born)
    ensures forall id :: id in d.ends ==> d.ends[id] <= Payloads(d.arrivals, id)
    ensures forall id :: 0 < id < d.nextId ==>
              id in d.ends || (exists i :: 0 <= i < |d.sockets| && d.sockets[i].id == id) ||
              exists j :: 0 <= j < |d.closing| && d.closing[j].born == id
  {
    hide *;
    d := new Daemon();
    OpsStart(ops);
    var alive := true;
    k := 0;
    while k < |ops| && alive && Possible(d, ops[k])
      invariant k <= |ops| && d.Valid() && fresh(d.repr) && (alive || (k > 0 && Aborts(ops[k - 1])))
      invariant d.okays == OkayIds(ops[..k]) && Bring(Writes(ops[..k]), d.arrivals)
    {
      ghost var was := d.arrivals;
      OpsAppend(ops, k);
      alive := Step(d, ops[k]);
      BringMore(Writes(ops[..k]), was, d.arrivals, ops[k]);
      k := k + 1;
    }
    Balanced(d, ops[..k]);
    Delivered(d);
  }

  lemma OpsStart(ops: seq<Op>)
    ensures OkayIds(ops[..0]) == [] && Writes(ops[..0]) == [] && Bring(Writes(ops[..0]), [])
  {}

  lemma BringMore(ws: seq<Op>, was: seq<Arrival>, now: seq<Arrival>, op: Op)
    requires (forall i :: 0 <= i < |ws| ==> ws[i].WriteOp?) && Bring(ws, was) && Noted(was, now, op)
    ensures Bring(ws + if op.WriteOp? then [op] else [], now)
  {}

  lemma {:induction false} IdsAt(h: seq<Arrival>)
    ensures |Ids(h)| == |h| && forall i :: 0 <= i < |h| ==> Ids(h)[i] == h[i].id
  {
    if h != [] {
      IdsAt(h[..|h| - 1]);
    }
  }

  /** The flow control, in terms of the packets of the run. */
  lemma Balanced(d: Daemon, ops: seq<Op>)
    requires d.Valid() && d.okays == OkayIds(ops) && Bring(Writes(ops), d.arrivals)
    ensures forall id ::
              Wrtes(d.sent, id) <= Count(OkayIds(ops), id) + 1 && Okays(d.sent, id) <= Count(WriteIds(ops), id) + 1
  {
    hide EventLoop.Valid, Wrtes, Okays, Count, AllKnown, InOrder, Daemon.Shaped, Log.Accounts, Writes, OkayIds, Ids;
    IdsAt(d.arrivals);
    assert Ids(d.arrivals) == WriteIds(ops);
  }

  /** Where the data of the arrivals is. */
  lemma Delivered(d: Daemon)
    requires d.Valid()
    ensures forall i :: 0 <= i < |d.sockets| ==>
              var s := d.sockets[i];
              s.since <= |d.arrivals| && s.written + Flat(s.queue) == Data(d.arrivals[s.since..], s.id) &&
              s.written + Flat(s.queue) == Payloads(d.arrivals, s.id)
    ensures forall j :: 0 <= j < |d.closing| ==>
              d.closing[j].written + Flat(d.closing[j].queue) == Payloads(d.arrivals, d.closing[j].born)
    ensures forall id :: id in d.ends ==> d.ends[id] <= Payloads(d.arrivals, id)
    ensures forall id :: 0 < id < d.nextId ==>
              id in d.ends || (exists i :: 0 <= i < |d.sockets| && d.sockets[i].id == id) ||
              exists j :: 0 <= j < |d.closing| && d.closing[j].born == id
  {
    hide EventLoop.Valid, Wrtes, Okays, Count, AllKnown, Daemon.Shaped, Data, Payloads, Flat, Ids, Local.Metered;
    ghost var log := Log(d.sent, d.okays, d.arrivals, d.ends);
    d.ShapedMeans(d.sockets, d.remotes, d.closing, d.fdes, d.drains);
    NumberedIs(d.sockets, d.nextId);
    forall i | 0 <= i < |d.sockets|
      ensures var s := d.sockets[i];
              s.since <= |d.arrivals| && s.written + Flat(s.queue) == Data(d.arrivals[s.since..], s.id) &&
              s.written + Flat(s.queue) == Payloads(d.arrivals, s.id)
    {
      assert d.sockets[i].IsOpen(d.bad) && Tally(d.sockets[i], log);
    }
    forall j | 0 <= j < |d.closing|
      ensures d.closing[j].written + Flat(d.closing[j].queue) == Payloads(d.arrivals, d.closing[j].born)
    {
      assert d.closing[j].IsDraining(d.bad);
    }
    forall id | 0 < id < d.nextId
      ensures id in d.ends || (exists i :: 0 <= i < |d.sockets| && d.sockets[i].id == id) ||
              exists j :: 0 <= j < |d.closing| && d.closing[j].born == id
    {
      assert log.Accounted(d.sockets, d.closing, id);
    }
  }
}
