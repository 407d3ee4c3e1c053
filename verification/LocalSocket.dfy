/** A local socket of the adb daemon (minadbd/sockets.c): packets for its descriptor are written as far as
    the descriptor takes them and queued otherwise. */
module LocalSocket {
  import opened Bytes
  import opened PendingList
  import opened Fdevent

  /** The bytes still to be written, packet by packet. */
  function Flat(q: seq<seq<byte>>): seq<byte> {
    if q == [] then [] else q[0] + Flat(q[1..])
  }

  lemma {:induction false} FlatAppend(q: seq<seq<byte>>, p: seq<byte>)
    ensures Flat(q + [p]) == Flat(q) + p
  {
    if q == [] {
      assert (q + [p])[1..] == [];
    } else {
      assert (q + [p])[1..] == q[1..] + [p];
      FlatAppend(q[1..], p);
    }
  }

  lemma FrontTaken(head: seq<byte>, tail: seq<byte>, k: nat)
    requires k <= |head|
    ensures (head + tail)[..k] == head[..k] && (head + tail)[k..] == head[k..] + tail
  {}

  lemma FlatIs(q: seq<seq<byte>>)
    ensures Flat(q) == if q == [] then [] else q[0] + Flat(q[1..])
  {}

  lemma Further(w: seq<byte>, bytes: seq<byte>, n: nat, k: nat)
    requires n + k <= |bytes|
    ensures w + bytes[..n] + bytes[n..][..k] == w + bytes[..n + k] && bytes[n..][k..] == bytes[n + k..]
    ensures w + bytes[..n + k] + bytes[n + k..] == w + bytes
  {
    assert bytes[..n + k] == bytes[..n] + bytes[n..][..k];
    assert bytes == bytes[..n + k] + bytes[n + k..];
  }

  lemma Regroup(a: seq<byte>, b: seq<byte>, c: seq<byte>)
    ensures a + (b + c) == a + b + c
  {}

  /** What write() finds: room for n bytes, of which it takes as many as it is given, while the rest is left for
      the next call; or that it would block, was interrupted, or failed. To take 0 bytes is to fail. */
  datatype Io = Took(n: nat) | Again | Interrupted | Failed

  /** The answers after which a writing loop stops. */
  predicate Stops(a: Io, retry: bool) {
    a == Took(0) || a.Again? || a.Failed? || (a.Interrupted? && !retry)
  }

  /** The bytes that the descriptor takes before such an answer, if it is given enough. */
  function Room(io: seq<Io>, retry: bool): nat {
    if io == [] || Stops(io[0], retry) then 0 else (if io[0].Took? then io[0].n else 0) + Room(io[1..], retry)
  }

  /** The first such answer; without one the loop is taken to block. */
  function Stop(io: seq<Io>, retry: bool): Io {
    if io == [] then Again else if Stops(io[0], retry) then io[0] else Stop(io[1..], retry)
  }

  /** The answers left when k bytes have been taken of the room that the first one offers. */
  function Later(io: seq<Io>, k: nat): seq<Io>
    requires io != [] && io[0].Took? && k <= io[0].n
  {
    (if k < io[0].n then [Took(io[0].n - k)] else []) + io[1..]
  }

  lemma RoomLater(io: seq<Io>, k: nat, retry: bool)
    requires io != [] && io[0].Took? && 0 < k <= io[0].n
    ensures Room(Later(io, k), retry) == Room(io, retry) - k && Stop(Later(io, k), retry) == Stop(io, retry)
  {
    if k < io[0].n {
      assert Later(io, k)[1..] == io[1..];
    } else {
      assert Later(io, k) == io[1..];
    }
  }

  lemma RoomStops(io: seq<Io>, retry: bool)
    ensures io == [] ==> Room(io, retry) == 0 && Stop(io, retry) == Again
    ensures io != [] && Stops(io[0], retry) ==> Room(io, retry) == 0 && Stop(io, retry) == io[0]
    ensures io != [] && io[0].Interrupted? && retry ==>
              Room(io[1..], retry) == Room(io, retry) && Stop(io[1..], retry) == Stop(io, retry)
  {}

  /** Of n bytes some are left when the loop stops, and not because the descriptor would block. */
  predicate Fails(n: nat, io: seq<Io>, retry: bool) {
    n > Room(io, retry) && !Stop(io, retry).Again?
  }

  lemma NoRoom(data: seq<byte>)
    requires data != []
    ensures Front(data, Room([], false)) == [] && Taken(true, |data|, []) == Backlog
  {}

  function Least(a: nat, b: nat): nat {
    if a <= b then a else b
  }

  /** The first n of the bytes, or all if there are fewer. */
  function Front(bytes: seq<byte>, n: nat): seq<byte> {
    bytes[..Least(|bytes|, n)]
  }

  datatype Verdict = Drained | Backlog | Broken

  /** What becomes of n new bytes: they wait behind others, or go as far as there is room. */
  function Taken(first: bool, n: nat, io: seq<Io>): Verdict {
    if !first then Backlog
    else if n <= Room(io, false) then Drained
    else if Fails(n, io, false) then Broken
    else Backlog
  }

  /** What becomes of n queued bytes. */
  function Moved(n: nat, io: seq<Io>): Verdict {
    if n <= Room(io, true) then Drained else if Fails(n, io, true) then Broken else Backlog
  }

  const MAX_PAYLOAD := 4096

  /** What read() finds: bytes, of which it gives as many as it is asked for, while the rest is left for the
      next call; that it would block or was interrupted; or the end of the input, an error, or no bytes. */
  datatype In = Came(data: seq<byte>) | Blocks | Signal | Over

  /** The bytes that can be read until there are no more for now. */
  function Arriving(ins: seq<In>): seq<byte> {
    if ins == [] then []
    else match ins[0]
         case Came(data) => if data == [] then [] else data + Arriving(ins[1..])
         case Signal => Arriving(ins[1..])
         case _ => []
  }

  /** There will be no more after them. */
  predicate Ending(ins: seq<In>) {
    ins != [] &&
    match ins[0]
    case Came(data) => data == [] || Ending(ins[1..])
    case Signal => Ending(ins[1..])
    case Blocks => false
    case Over => true
  }

  /** What a socket gets to know: at most one packet of bytes, and the end only if it comes before that is
      full. */
  function Gained(ins: seq<In>): seq<byte> {
    Front(Arriving(ins), MAX_PAYLOAD)
  }

  predicate Ended(ins: seq<In>) {
    |Arriving(ins)| < MAX_PAYLOAD && Ending(ins)
  }

  /** The reading loop of local_socket_event_func. */
  method ReadLoop(ins: seq<In>) returns (data: seq<byte>, eof: bool)
    ensures data == Gained(ins) && eof == Ended(ins)
  {
    var left := ins;
    data, eof := [], false;
    assert data + Arriving(ins) == Arriving(ins);
    while |data| < MAX_PAYLOAD && left != []
      invariant |data| <= MAX_PAYLOAD && !eof && data + Arriving(left) == Arriving(ins) && Ending(left) == Ending(ins)
      decreases MAX_PAYLOAD - |data|, |left|
    {
      match left[0] {
        case Came(more) =>
          if more == [] {
            eof := true;
            break;
          }
          var k := Least(|more|, MAX_PAYLOAD - |data|);
          Regroup(data, more[..k], more[k..] + Arriving(left[1..]));
          assert more == more[..k] + more[k..];
          assert more + Arriving(left[1..]) == more[..k] + (more[k..] + Arriving(left[1..]));
          data := data + more[..k];
          if k < |more| {
            assert ([Came(more[k..])] + left[1..])[1..] == left[1..];
            left := [Came(more[k..])] + left[1..];
          } else {
            assert more[k..] + Arriving(left[1..]) == Arriving(left[1..]);
            left := left[1..];
          }
        case Blocks => break;
        case Signal => left := left[1..];
        case Over =>
          eof := true;
          break;
      }
    }
  }

  class Remote {
    const id: nat
    var peer: Local?

    constructor (id: nat)
      ensures this.id == id && peer == null
    {
      this.id, peer := id, null;
    }
  }

  /** A local socket. What the descriptor takes part in, besides, is counted: WRTE packets sent and OKAY
      packets received, WRTE packets received and OKAY packets sent. */
  class Local {
    const fde: FdEvent
    ghost const born: nat      // the id it was given
    ghost const since: nat     // how many WRTE packets had arrived by then
    var id: nat
    var closing: bool
    var destroyed: bool
    var peer: Remote?
    var queue: seq<seq<byte>>
    var written: seq<byte>     // what the descriptor has taken
    ghost var accepted: seq<byte>
    ghost var wrtes: nat
    ghost var okays: nat
    ghost var taken: nat
    ghost var grants: nat
    ghost var late: bool       // a read was pending when the socket was put on the closing list, and still is

    constructor (id: nat, fde: FdEvent, ghost since: nat)
      ensures this.id == born == id && this.since == since && this.fde == fde && !closing && !destroyed && peer == null
      ensures queue == [] && written == accepted == [] && wrtes == okays == taken == 0 && grants == 1
    {
      this.id, this.fde, closing, destroyed, peer, queue, written := id, fde, false, false, null, [], [];
      born, this.since := id, since;
      accepted, wrtes, okays, taken, grants, late := [], 0, 0, 0, 1, false;
    }

    /** No byte is lost, doubled or out of order. */
    ghost predicate Conserved()
      reads `queue, `written, `accepted
    {
      written + Flat(queue) == accepted && (queue != [] ==> queue[0] != [])
    }

    /** The packets sent to the host are at most one ahead of its acknowledgements, not ahead at all while
        reading is on; and the host is given leave for at most one packet that has not come, for none while
        there is a backlog. */
    ghost predicate Metered(reading: bool)
      reads `queue, `wrtes, `okays, `taken, `grants
    {
      wrtes <= okays + 1 && (reading ==> wrtes <= okays) && grants + (if queue == [] then 0 else 1) <= taken + 1
    }

    /** The socket waits for its descriptor to become writable exactly while it has a backlog. */
    ghost predicate Sound()
      reads `queue, `written, `accepted, `wrtes, `okays, `taken, `grants, fde`wanted
    {
      Conserved() && Metered(Read in fde.wanted) && (queue != [] <==> Write in fde.wanted)
    }

    /** An open socket: a read to be signalled is subscribed, or the descriptor is bad. */
    ghost predicate IsOpen(bad: set<int>)
      reads this, fde`wanted, fde`events, fde`fd
    {
      Sound() && !closing && !destroyed &&
      (Read in fde.events ==> Read in fde.wanted || fde.fd in bad) && (Write in fde.events ==> Write in fde.wanted)
    }

    /** A closing socket has no peer, does not read, and has something left to write; a read to be signalled
        was pending when it was closed, or the descriptor is bad. */
    ghost predicate IsDraining(bad: set<int>)
      reads this, fde`wanted, fde`events, fde`fd
    {
      Sound() && closing && !destroyed && peer == null && Read !in fde.wanted && queue != [] &&
      (Read in fde.events ==> late || fde.fd in bad) && (late ==> Read in fde.events)
    }

    lemma OpenMeans(bad: set<int>)
      requires IsOpen(bad)
      ensures Sound() && !closing && !destroyed
      ensures (queue != [] <==> Write in fde.wanted) && (Read in fde.wanted ==> wrtes <= okays) && wrtes <= okays + 1
      ensures grants <= taken + 1 && (queue != [] ==> grants <= taken) && Conserved() && written <= accepted
      ensures (Read in fde.events ==> Read in fde.wanted || fde.fd in bad)
      ensures (Write in fde.events ==> Write in fde.wanted)
    {
      Unwritten();
    }

    lemma OpenWhen(bad: set<int>)
      requires Sound() && !closing && !destroyed && (Write in fde.events ==> Write in fde.wanted)
      requires Read in fde.events ==> Read in fde.wanted || fde.fd in bad
      ensures IsOpen(bad)
    {}

    /** A new socket that listens is open. */
    lemma OpenNow(bad: set<int>)
      requires queue == [] && written == accepted && wrtes == okays == taken == 0 && grants == 1
      requires !closing && !destroyed && fde.wanted == {Read} && fde.events == {}
      ensures IsOpen(bad)
    {
      assert written + Flat(queue) == written;
    }

    lemma StartsEven()
      requires queue == [] && written == accepted && wrtes == okays == taken == 0 && grants == 1
      ensures Conserved() && Metered(true)
    {
      assert written + Flat(queue) == written;
    }

    lemma DrainingMeans(bad: set<int>)
      requires IsDraining(bad)
      ensures Sound() && closing && !destroyed && peer == null && queue != [] && fde.wanted !! {Read}
      ensures Write in fde.wanted
      ensures (Read in fde.events ==> late || fde.fd in bad) && (late ==> Read in fde.events)
    {}

    lemma DrainingWhen(bad: set<int>)
      requires Sound() && closing && !destroyed && peer == null && queue != [] && Read !in fde.wanted
      requires fde.events == {} && !late
      ensures IsDraining(bad)
    {}

    lemma Unwritten()
      requires Conserved()
      ensures written == accepted <==> queue == []
      ensures written <= accepted
    {
      if queue != [] {
        assert Flat(queue) == queue[0] + Flat(queue[1..]);
      } else {
        assert written + Flat(queue) == written;
      }
    }

    /** local_socket_ready, for a new socket. */
    method Listen(loop: EventLoop, ghost bad: set<int>)
      requires loop.Valid() && At(loop.table, fde.fd) == fde && !closing && !destroyed
      requires Conserved() && Metered(true) && queue == [] && fde.wanted == fde.events == {}
      modifies loop`readFds, loop`writeFds, loop`errorFds, loop`queue, fde`wanted, fde`events, fde`pending
      modifies loop.list`next, loop.list`prev, loop.queue`next, loop.queue`prev
      ensures loop.Valid() && IsOpen(bad) && fde.wanted == {Read} && fde.events == {}
    {
      LeftIs({}, {}, {Read});
      hide EventLoop.Valid;
      loop.Add(fde, {Read});
    }

    /** local_socket_ready, because an OKAY arrived. */
    method Acknowledged(loop: EventLoop, ghost bad: set<int>)
      requires loop.Valid() && At(loop.table, fde.fd) == fde && IsOpen(bad)
      modifies `okays
      modifies loop`readFds, loop`writeFds, loop`errorFds, loop`queue, fde`wanted, fde`events, fde`pending
      modifies loop.list`next, loop.list`prev, loop.queue`next, loop.queue`prev
      ensures loop.Valid() && IsOpen(bad) && fde.wanted == old(fde.wanted) + {Read} && okays == old(okays) + 1
    {
      hide EventLoop.Valid, Conserved;
      okays := okays + 1;
      loop.Add(fde, {Read});
    }

    /** A WRTE packet went out; reading stops until it is acknowledged. */
    method Emitted(loop: EventLoop, ghost bad: set<int>)
      requires loop.Valid() && At(loop.table, fde.fd) == fde && IsOpen(bad) && fde.events == {}
      modifies `wrtes
      modifies loop`readFds, loop`writeFds, loop`errorFds, loop`queue, fde`wanted, fde`events, fde`pending
      modifies loop.list`next, loop.list`prev, loop.queue`next, loop.queue`prev
      ensures loop.Valid() && fde.wanted == old(fde.wanted) - {Read} && fde.events == {} && wrtes == old(wrtes) + 1
      ensures old(wrtes) <= okays ==> IsOpen(bad)
    {
      hide EventLoop.Valid, Conserved;
      wrtes := wrtes + 1;
      LeftIs(fde.wanted, fde.events, fde.wanted - {Read});
      loop.Del(fde, {Read});
    }

    /** The socket's own part of going to the closing list. A read that is pending stays pending. */
    method Detach(loop: EventLoop, ghost bad: set<int>)
      requires loop.Valid() && At(loop.table, fde.fd) == fde && IsOpen(bad) && queue != []
      modifies `closing, `peer, `id, `late
      modifies loop`readFds, loop`writeFds, loop`errorFds, loop`queue, fde`wanted, fde`events, fde`pending
      modifies loop.list`next, loop.list`prev, loop.queue`next, loop.queue`prev
      ensures loop.Valid() && IsDraining(bad) && peer == null && id == 0 && late == (Read in fde.events)
      ensures fde.events == Left(old(fde.wanted), old(fde.events), fde.wanted)
    {
      hide EventLoop.Valid, Conserved;
      closing, peer, id := true, null, 0;
      loop.Del(fde, {Read});
      late := Read in fde.events;
    }

    /** local_socket_destroy: queued packets are dropped with it. */
    method Destroy(loop: EventLoop)
      requires loop.Valid() && At(loop.table, fde.fd) == fde
      modifies `destroyed, `peer, `id
      modifies loop`table, loop`readFds, loop`writeFds, loop`errorFds, loop`selectN, loop`queue
      modifies fde`active, fde`pending, fde`wanted, fde`events
      modifies loop.list`next, loop.list`prev, loop.queue`next, loop.queue`prev
      ensures loop.Valid() && destroyed && peer == null && id == 0 && At(loop.table, fde.fd) == null
      ensures forall i :: i != fde.fd ==> At(loop.table, i) == At(old(loop.table), i)
    {
      destroyed, peer, id := true, null, 0;
      var _ := loop.Withdraw(fde);
    }

    /** The write loop: the descriptor takes as many of the bytes as it has room for. An interrupted call counts
        as a failure unless it may be tried again. */
    method WriteLoop(p: seq<byte>, io: seq<Io>, retry: bool) returns (rest: seq<byte>, broken: bool, left: seq<Io>)
      modifies `written
      ensures var n := Least(|p|, Room(io, retry)); written == old(written) + p[..n] && rest == p[n..]
      ensures broken <==> Fails(|p|, io, retry)
      ensures rest == [] ==> Room(left, retry) == Room(io, retry) - |p| && Stop(left, retry) == Stop(io, retry)
    {
      hide Room, Stop, Later;
      rest, broken, left := p, false, io;
      ghost var n := 0;
      assert p[..0] == [] && old(written) + [] == old(written);
      while rest != [] && left != []
        invariant n <= |p| && written == old(written) + p[..n] && rest == p[n..]
        invariant Room(left, retry) == Room(io, retry) - n && Stop(left, retry) == Stop(io, retry)
        decreases |rest|, |left|
      {
        RoomStops(left, retry);
        match left[0] {
          case Took(m) =>
            if m == 0 {
              broken := true;
              return;
            }
            var k := Least(m, |rest|);
            assert p[..n + k] == p[..n] + rest[..k];
            written := written + rest[..k];
            n, rest := n + k, rest[k..];
            RoomLater(left, k, retry);
            left := Later(left, k);
          case Again => return;
          case Interrupted =>
            if !retry {
              broken := true;
              return;
            }
            left := left[1..];
          case Failed =>
            broken := true;
            return;
        }
      }
      RoomStops(left, retry);
    }

    /** The writing part of local_socket_enqueue: what is not written is queued. */
    method TakeIn(p: seq<byte>, io: seq<Io>) returns (v: Verdict)
      requires Conserved()
      modifies `queue, `written, `accepted
      ensures accepted == old(accepted) + p && old(written) <= written
      ensures v.Broken? ==> old(queue) == queue == [] && written <= accepted
      ensures !v.Broken? ==> Conserved() && (v.Drained? <==> queue == [])
      ensures old(queue) != [] ==> written == old(written) && queue == old(queue) + [p]
      ensures old(queue) == [] ==> written == old(written) + Front(p, Room(io, false))
      ensures v == Taken(old(queue) == [], |p|, io)
    {
      accepted := accepted + p;
      var rest := p;
      if queue == [] {
        var broken, left;
        rest, broken, left := WriteLoop(p, io, false);
        if broken {
          assert accepted == written + rest by {
            assert old(written) + Flat([]) == old(written);
          }
          return Broken;
        }
        if rest == [] {
          assert written + Flat(queue) == written;
          assert old(written) + Flat(queue) == old(written);
          return Drained;
        }
      }
      FlatAppend(queue, rest);
      Regroup(old(written), Flat(queue), p);
      Regroup(written, Flat(queue), rest);
      assert queue == [] ==> Flat(queue) == [] && written + [] == written && old(written) + [] == old(written);
      queue := queue + [rest];
      return Backlog;
    }

    /** local_socket_enqueue, and the OKAY that its caller sends when all was written. */
    method Enqueue(loop: EventLoop, p: seq<byte>, io: seq<Io>, ghost bad: set<int>) returns (v: Verdict)
      requires loop.Valid() && At(loop.table, fde.fd) == fde && IsOpen(bad)
      modifies `queue, `written, `accepted, `taken, `grants
      modifies loop`readFds, loop`writeFds, loop`errorFds, loop`queue, fde`wanted, fde`events, fde`pending
      modifies loop.list`next, loop.list`prev, loop.queue`next, loop.queue`prev
      ensures loop.Valid() && accepted == old(accepted) + p && taken == old(taken) + 1 && old(written) <= written
      ensures v.Broken? ==> old(queue) == queue == [] && written <= accepted && grants == old(grants)
      ensures !v.Broken? ==> IsOpen(bad) && (v.Drained? <==> queue == [])
      ensures grants == old(grants) + if v.Drained? then 1 else 0
      ensures old(queue) != [] ==> written == old(written) && queue == old(queue) + [p]
      ensures fde.wanted == if v.Backlog? then old(fde.wanted) + {Write} else old(fde.wanted)
      ensures fde.events == Left(old(fde.wanted), old(fde.events), fde.wanted)
      ensures old(queue) == [] ==> written == old(written) + Front(p, Room(io, false))
      ensures v == Taken(old(queue) == [], |p|, io)
    {
      hide EventLoop.Valid, Conserved, Room, Stop;
      taken := taken + 1;
      v := TakeIn(p, io);
      if v.Drained? {
        grants := grants + 1;
      }
      if v.Backlog? {
        loop.Add(fde, {Write});
      }
    }

    /** The first packet of the queue is written as far as there is room. */
    method WriteHead(io: seq<Io>) returns (rest: seq<byte>, broken: bool, left: seq<Io>)
      requires queue != []
      modifies `queue, `written
      ensures var bytes, k := Flat(old(queue)), Least(|old(queue)[0]|, Room(io, true));
              k <= |bytes| && written == old(written) + bytes[..k] && Flat(queue) == bytes[k..] &&
              rest == old(queue)[0][k..] && queue == (if rest == [] then [] else [rest]) + old(queue)[1..]
      ensures broken ==> rest != []
      ensures rest == [] ==>
                Room(left, true) == Room(io, true) - |old(queue)[0]| && Stop(left, true) == Stop(io, true)
      ensures rest != [] ==> |old(queue)[0]| > Room(io, true) && (broken <==> !Stop(io, true).Again?)
    {
      hide Room, Stop, Flat;
      ghost var tail := Flat(queue[1..]);
      FlatIs(queue);
      rest, broken, left := WriteLoop(queue[0], io, true);
      FrontTaken(queue[0], tail, |queue[0]| - |rest|);
      if rest == [] {
        assert rest + tail == tail;
        queue := queue[1..];
      } else {
        assert ([rest] + queue[1..])[1..] == queue[1..];
        queue := [rest] + queue[1..];
        FlatIs(queue);
      }
    }

    /** The part of local_socket_event_func that drains the queue: the descriptor takes as many of its bytes as
        it has room for. */
    method Drain(io: seq<Io>) returns (v: Verdict)
      requires Conserved()
      modifies `queue, `written
      ensures Conserved() && (v.Drained? <==> queue == [])
      ensures var bytes := Flat(old(queue));
              written == old(written) + Front(bytes, Room(io, true)) && v == Moved(|bytes|, io)
    {
      hide Room, Stop, Flat;
      var left := io;
      ghost var bytes, n: nat := Flat(queue), 0;
      assert bytes[..0] == [] && old(written) + [] == old(written) && bytes[0..] == bytes;
      while queue != []
        invariant n <= |bytes| && Flat(queue) == bytes[n..] && written == old(written) + bytes[..n]
        invariant Room(left, true) == Room(io, true) - n && Stop(left, true) == Stop(io, true)
        decreases |queue|
      {
        ghost var k := Least(|queue[0]|, Room(left, true));
        var rest, broken, more := WriteHead(left);
        Further(old(written), bytes, n, k);
        n := n + k;
        if rest != [] {
          FlatIs(queue);
          return if broken then Broken else Backlog;
        }
        left := more;
      }
      FlatIs(queue);
      Further(old(written), bytes, n, 0);
      return Drained;
    }

    /** The queue is empty: writable events are ignored again, and the host gets leave to go on. */
    method Resume(loop: EventLoop, ghost bad: set<int>)
      requires loop.Valid() && At(loop.table, fde.fd) == fde && !closing && !destroyed && fde.events == {}
      requires Conserved() && queue == [] && wrtes <= okays + 1 && (Read in fde.wanted ==> wrtes <= okays)
      requires grants <= taken
      modifies `grants
      modifies loop`readFds, loop`writeFds, loop`errorFds, loop`queue, fde`wanted, fde`events, fde`pending
      modifies loop.list`next, loop.list`prev, loop.queue`next, loop.queue`prev
      ensures loop.Valid() && IsOpen(bad) && fde.wanted == old(fde.wanted) - {Write} && fde.events == {}
      ensures grants == old(grants) + 1
    {
      hide EventLoop.Valid, Conserved;
      grants := grants + 1;
      LeftIs(fde.wanted, fde.events, fde.wanted - {Write});
      loop.Del(fde, {Write});
    }

    /** The writing part of local_socket_event_func for an open socket. */
    method DrainOpen(loop: EventLoop, io: seq<Io>, ghost bad: set<int>) returns (v: Verdict)
      requires loop.Valid() && At(loop.table, fde.fd) == fde && IsOpen(bad) && fde.events == {} && queue != []
      modifies `queue, `written, `grants
      modifies loop`readFds, loop`writeFds, loop`errorFds, loop`queue, fde`wanted, fde`events, fde`pending
      modifies loop.list`next, loop.list`prev, loop.queue`next, loop.queue`prev
      ensures loop.Valid() && IsOpen(bad) && fde.events == {} && (v.Drained? <==> queue == [])
      ensures fde.wanted == if v.Drained? then old(fde.wanted) - {Write} else old(fde.wanted)
      ensures grants == old(grants) + (if v.Drained? then 1 else 0)
      ensures var bytes := Flat(old(queue));
              written == old(written) + Front(bytes, Room(io, true)) && v == Moved(|bytes|, io)
    {
      hide EventLoop.Valid, Conserved, Flat, Moved;
      v := Drain(io);
      if v.Drained? {
        Resume(loop, bad);
      }
    }

    /** local_socket_event_func for a closing socket. It is destroyed with bytes unwritten exactly when the
        descriptor fails on writing, or when a read is signalled without a write and finds the end of the
        input. */
    method ClosingEvent(loop: EventLoop, ev: set<Flag>, io: seq<Io>, eof: bool) returns (v: Verdict)
      requires loop.Valid() && At(loop.table, fde.fd) == fde && Sound() && closing && !destroyed && queue != []
      modifies `queue, `written, `destroyed, `peer, `id
      modifies loop`table, loop`readFds, loop`writeFds, loop`errorFds, loop`selectN, loop`queue
      modifies fde`active, fde`pending, fde`wanted, fde`events
      modifies loop.list`next, loop.list`prev, loop.queue`next, loop.queue`prev
      ensures loop.Valid() && Conserved() && (Write !in ev ==> written == old(written) && v.Backlog?)
      ensures Write in ev ==>
                var bytes := Flat(old(queue));
                written == old(written) + Front(bytes, Room(io, true)) && v == Moved(|bytes|, io)
      ensures destroyed <==> if Write in ev then !v.Backlog? else Read in ev && eof
      ensures destroyed && written != accepted <==> if Write in ev then v.Broken? else Read in ev && eof
      ensures !destroyed ==> Sound() && queue != [] && peer == old(peer) && loop.table == old(loop.table) &&
                             fde.wanted == old(fde.wanted) && fde.events == old(fde.events)
      ensures destroyed ==>
                At(loop.table, fde.fd) == null &&
                forall i :: i != fde.fd ==> At(loop.table, i) == At(old(loop.table), i)
    {
      hide EventLoop.Valid, Conserved, Flat, Moved;
      v := Backlog;
      if Write in ev {
        v := Drain(io);
        if !v.Backlog? {
          Destroy(loop);
        }
      } else if Read in ev && eof {
        Destroy(loop);
      }
      Unwritten();
    }
  }

  /** A socket with data waiting to be written, whose descriptor has become readable. */
  method Overtaken(data: seq<byte>) returns (s: Local, loop: EventLoop)
    requires data != []
    ensures fresh(s) && fresh(s.fde) && fresh(loop) && fresh(loop.list) && loop.Valid()
    ensures At(loop.table, s.fde.fd) == s.fde
    ensures forall i :: i != s.fde.fd ==> At(loop.table, i) == null
    ensures s.IsOpen({}) && s.queue != [] && s.accepted == data && s.written == []
    ensures s.fde.wanted == {Read, Write} && s.fde.events == {Read}
  {
    hide *;
    var fde;
    loop, fde := Listening(5);
    s := new Local(1, fde, 0);
    s.OpenNow({});
    loop.Alone(fde);
    var v := s.Enqueue(loop, data, [], {});
    NoRoom(data);
    LeftIs({Read}, {}, fde.wanted);
    s.OpenMeans({});
    loop.Alone(fde);
    loop.Subscribed(fde);
    loop.Process(Ready({5}, {}, {}), {});
    GotRead(5);
    assert fde.events == {Read};
    s.OpenWhen({});
  }

  /** A run that loses bytes: data waits to be written, the descriptor becomes readable, the socket is closed
      and goes to the closing list; the pending read is signalled there, finds the end of the input, and the
      socket is destroyed with nothing written. */
  method LostOnClose(data: seq<byte>) returns (s: Local)
    requires data != []
    ensures s.destroyed && s.accepted == data && s.written == []
  {
    hide *;
    var loop;
    s, loop := Overtaken(data);
    loop.Alone(s.fde);
    s.Detach(loop, {});
    s.DrainingMeans({});
    LeftIs({Read, Write}, {Read}, s.fde.wanted);
    loop.Alone(s.fde);
    loop.ValidMeans(s.fde);
    FirstIs(loop.queue);
    assert s.fde in loop.queue;
    var first, ev := loop.NextCallback();
    loop.Alone(s.fde);
    var v := s.ClosingEvent(loop, ev, [], true);
  }
}
