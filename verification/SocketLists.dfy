/** The lists of the adb daemon's sockets and its packet log, and what holds of all sockets in a list. */
module SocketLists {
  import opened Bytes
  import opened PendingList
  import opened Fdevent
  import opened LocalSocket

  datatype Packet =
    | Okay(arg0: nat, arg1: nat)
    | Clse(arg0: nat, arg1: nat)
    | Wrte(arg0: nat, arg1: nat, data: seq<byte>)

  /** The sequence without its i-th element. */
  function Drop<T>(s: seq<T>, i: nat): (r: seq<T>)
    requires i < |s|
    ensures |r| == |s| - 1
    ensures forall k :: 0 <= k < |r| ==> r[k] == if k < i then s[k] else s[k + 1]
  {
    s[..i] + s[i + 1..]
  }

  lemma DropFirst<T>(s: seq<T>)
    requires s != []
    ensures Drop(s, 0) == s[1..]
  {}

  // ----- membership -----

  /** All elements of the two lists are different. */
  ghost predicate Separate<T>(a: seq<T>, b: seq<T>) {
    (forall i, k :: 0 <= i < k < |a| ==> a[i] != a[k]) && (forall i, k :: 0 <= i < k < |b| ==> b[i] != b[k]) &&
    forall i, k :: 0 <= i < |a| && 0 <= k < |b| ==> a[i] != b[k]
  }

  lemma SeparateDrop<T>(a: seq<T>, b: seq<T>, i: nat)
    requires Separate(a, b) && i < |a|
    ensures a[i] !in Drop(a, i) && a[i] !in b && Separate(Drop(a, i), b) && Separate(Drop(a, i), b + [a[i]])
  {}

  lemma SeparateDropRight<T>(a: seq<T>, b: seq<T>, j: nat)
    requires Separate(a, b) && j < |b|
    ensures b[j] !in a && b[j] !in Drop(b, j) && Separate(a, Drop(b, j))
  {}

  lemma SeparateAdd<T>(a: seq<T>, b: seq<T>, x: T)
    requires Separate(a, b) && x !in a && x !in b
    ensures Separate(a + [x], b)
  {}

  // ----- what holds of the sockets -----

  /** Peers point at each other: the i-th socket and the i-th remote. */
  ghost predicate Paired(ss: seq<Local>, rs: seq<Remote>)
    reads ss`peer, rs`peer
  {
    |ss| == |rs| && forall i :: 0 <= i < |ss| ==> ss[i].peer == rs[i] && rs[i].peer == ss[i]
  }

  lemma PairedAdd(ss: seq<Local>, rs: seq<Remote>, s: Local, r: Remote)
    requires Paired(ss, rs) && s.peer == r && r.peer == s
    ensures Paired(ss + [s], rs + [r])
  {}

  lemma PairedDrop(ss: seq<Local>, rs: seq<Remote>, i: nat)
    requires Paired(ss, rs) && i < |ss| && ss[i] !in Drop(ss, i)
    ensures |ss| == |rs| && ss[i].peer == rs[i] && rs[i].peer == ss[i]
    ensures Paired(Drop(ss, i), Drop(rs, i)) && rs[i] !in Drop(rs, i)
  {
    var d := Drop(rs, i);
    forall k | 0 <= k < |d| ensures d[k] != rs[i] {
      assert d[k].peer == Drop(ss, i)[k];
    }
  }

  /** The ids of the list ascend from 1, so they are distinct. */
  ghost predicate Numbered(ss: seq<Local>, next: nat)
    reads ss`id
  {
    next > 0 &&
    (forall i :: 0 <= i < |ss| ==> 0 < ss[i].born == ss[i].id < next) &&
    forall i, j :: 0 <= i < j < |ss| ==> ss[i].id < ss[j].id
  }

  lemma NumberedIs(ss: seq<Local>, next: nat)
    requires Numbered(ss, next)
    ensures forall i :: 0 <= i < |ss| ==> ss[i].born == ss[i].id
  {}

  lemma NumberedAdd(ss: seq<Local>, next: nat, s: Local)
    requires Numbered(ss, next) && s.born == s.id == next
    ensures Numbered(ss + [s], next + 1) && forall k :: 0 <= k < |ss| ==> ss[k].id != s.id
  {}

  lemma NumberedDrop(ss: seq<Local>, next: nat, i: nat)
    requires Numbered(ss, next) && i < |ss|
    ensures Numbered(Drop(ss, i), next) && 0 < ss[i].born == ss[i].id < next
    ensures forall k :: 0 <= k < |ss| - 1 ==> Drop(ss, i)[k].id == Drop(ss, i)[k].born != ss[i].born
    ensures forall k :: 0 <= k < |ss| && ss[k].id == ss[i].id ==> k == i
  {}

  ghost predicate Opened(ss: seq<Local>, fs: seq<FdEvent>, bad: set<int>)
    reads ss, fs`wanted, fs`events, fs`fd
  {
    |ss| == |fs| && forall i :: 0 <= i < |ss| ==> ss[i].fde == fs[i] && ss[i].IsOpen(bad)
  }

  ghost predicate Draining(cs: seq<Local>, ds: seq<FdEvent>, bad: set<int>)
    reads cs, ds`wanted, ds`events, ds`fd
  {
    |cs| == |ds| && forall i :: 0 <= i < |cs| ==> cs[i].fde == ds[i] && cs[i].IsDraining(bad)
  }

  lemma OpenedAdd(ss: seq<Local>, fs: seq<FdEvent>, bad: set<int>, s: Local, f: FdEvent)
    requires Opened(ss, fs, bad) && s.fde == f && s.IsOpen(bad)
    ensures Opened(ss + [s], fs + [f], bad)
  {
    hide Local.IsOpen;
  }

  lemma OpenedDrop(ss: seq<Local>, fs: seq<FdEvent>, bad: set<int>, i: nat)
    requires Opened(ss, fs, bad) && i < |ss|
    ensures |ss| == |fs| && Opened(Drop(ss, i), Drop(fs, i), bad) && ss[i].fde == fs[i] && ss[i].IsOpen(bad)
  {
    hide Local.IsOpen;
  }

  lemma OpenedBack(ss: seq<Local>, fs: seq<FdEvent>, bad: set<int>, i: nat)
    requires i < |ss| == |fs| && Opened(Drop(ss, i), Drop(fs, i), bad) && ss[i].fde == fs[i] && ss[i].IsOpen(bad)
    ensures Opened(ss, fs, bad)
  {
    hide Local.IsOpen;
    forall k | 0 <= k < |ss| ensures ss[k].fde == fs[k] && ss[k].IsOpen(bad) {
      if k < i {
        assert Drop(ss, i)[k] == ss[k];
      } else if k > i {
        assert Drop(ss, i)[k - 1] == ss[k];
      }
    }
  }

  lemma DrainingAdd(cs: seq<Local>, ds: seq<FdEvent>, bad: set<int>, s: Local, f: FdEvent)
    requires Draining(cs, ds, bad) && s.fde == f && s.IsDraining(bad)
    ensures Draining(cs + [s], ds + [f], bad)
  {
    hide Local.IsDraining;
  }

  lemma DrainingDrop(cs: seq<Local>, ds: seq<FdEvent>, bad: set<int>, i: nat)
    requires Draining(cs, ds, bad) && i < |cs|
    ensures |cs| == |ds| && Draining(Drop(cs, i), Drop(ds, i), bad) && cs[i].fde == ds[i] && cs[i].IsDraining(bad)
  {
    hide Local.IsDraining;
  }

  lemma DrainingBack(cs: seq<Local>, ds: seq<FdEvent>, bad: set<int>, i: nat)
    requires i < |cs| == |ds| && Draining(Drop(cs, i), Drop(ds, i), bad) && cs[i].fde == ds[i] && cs[i].IsDraining(bad)
    ensures Draining(cs, ds, bad)
  {
    hide Local.IsDraining;
    forall k | 0 <= k < |cs| ensures cs[k].fde == ds[k] && cs[k].IsDraining(bad) {
      if k < i {
        assert Drop(cs, i)[k] == cs[k];
      } else if k > i {
        assert Drop(cs, i)[k - 1] == cs[k];
      }
    }
  }

  /** Where no descriptor is among the difference, the two sets of bad ones serve alike. */
  lemma BadAlike(ss: seq<Local>, fs: seq<FdEvent>, cs: seq<Local>, ds: seq<FdEvent>, bad: set<int>, now: set<int>)
    requires Opened(ss, fs, bad) && Draining(cs, ds, bad)
    requires forall i :: 0 <= i < |fs| ==> (fs[i].fd in bad ==> fs[i].fd in now)
    requires forall i :: 0 <= i < |ds| ==> (ds[i].fd in bad ==> ds[i].fd in now)
    ensures Opened(ss, fs, now) && Draining(cs, ds, now)
  {
    hide Local.Sound;
  }

  // ----- the table of the event loop -----

  /** The events are registered. */
  ghost predicate Known(fs: seq<FdEvent>, table: seq<FdEvent?>)
    reads fs`fd
  {
    forall i :: 0 <= i < |fs| ==> At(table, fs[i].fd) == fs[i]
  }

  lemma KnownAdd(fs: seq<FdEvent>, t: seq<FdEvent?>, f: FdEvent)
    requires Known(fs, t) && At(t, f.fd) == f
    ensures Known(fs + [f], t)
  {}

  lemma KnownDrop(fs: seq<FdEvent>, t: seq<FdEvent?>, i: nat)
    requires Known(fs, t) && i < |fs|
    ensures Known(Drop(fs, i), t) && At(t, fs[i].fd) == fs[i]
  {}

  /** A change of one slot leaves the other events registered. */
  lemma KnownElsewhere(fs: seq<FdEvent>, t: seq<FdEvent?>, now: seq<FdEvent?>, fd: int)
    requires Known(fs, t) && forall k :: k != fd ==> At(now, k) == At(t, k)
    requires At(t, fd) == null || At(t, fd) !in fs
    ensures Known(fs, now) && forall i :: 0 <= i < |fs| ==> fs[i].fd != fd
  {}

  // ----- the packet log -----

  function Count(ids: seq<nat>, id: nat): nat {
    if ids == [] then 0
    else Count(ids[..|ids| - 1], id) + if ids[|ids| - 1] == id then 1 else 0
  }

  lemma CountAppend(ids: seq<nat>, x: nat, id: nat)
    ensures Count(ids + [x], id) == Count(ids, id) + if x == id then 1 else 0
  {
    assert (ids + [x])[..|ids|] == ids;
  }

  /** The WRTE packets in a log that come from the socket with this id. */
  function Wrtes(sent: seq<Packet>, id: nat): nat {
    if sent == [] then 0
    else
      var p := sent[|sent| - 1];
      Wrtes(sent[..|sent| - 1], id) + (if p.Wrte? && p.arg0 == id then 1 else 0)
  }

  /** The OKAY packets in a log that come from the socket with this id. */
  function Okays(sent: seq<Packet>, id: nat): nat {
    if sent == [] then 0
    else
      var p := sent[|sent| - 1];
      Okays(sent[..|sent| - 1], id) + (if p.Okay? && p.arg0 == id then 1 else 0)
  }

  lemma SentAppend(sent: seq<Packet>, p: Packet, id: nat)
    ensures Wrtes(sent + [p], id) == Wrtes(sent, id) + (if p.Wrte? && p.arg0 == id then 1 else 0)
    ensures Okays(sent + [p], id) == Okays(sent, id) + (if p.Okay? && p.arg0 == id then 1 else 0)
  {
    assert (sent + [p])[..|sent|] == sent;
  }

  /** A WRTE packet that has arrived, and whether a listed socket had its id. */
  datatype Arrival = Arrival(id: nat, data: seq<byte>, listed: bool)

  function Ids(h: seq<Arrival>): seq<nat> {
    if h == [] then [] else Ids(h[..|h| - 1]) + [h[|h| - 1].id]
  }

  /** The data that arrived for an id, one packet after the other. */
  function Data(h: seq<Arrival>, id: nat): seq<byte> {
    if h == [] then []
    else
      var a := h[|h| - 1];
      Data(h[..|h| - 1], id) + if a.id == id then a.data else []
  }

  /** The part of it that arrived while a socket of that id was listed. */
  function Payloads(h: seq<Arrival>, id: nat): seq<byte> {
    if h == [] then []
    else
      var a := h[|h| - 1];
      Payloads(h[..|h| - 1], id) + if a.listed && a.id == id then a.data else []
  }

  lemma ArrivalAppend(h: seq<Arrival>, a: Arrival, id: nat)
    ensures Ids(h + [a]) == Ids(h) + [a.id]
    ensures Data(h + [a], id) == if a.id == id then Data(h, id) + a.data else Data(h, id)
    ensures Payloads(h + [a], id) == if a.listed && a.id == id then Payloads(h, id) + a.data else Payloads(h, id)
  {
    assert (h + [a])[..|h|] == h;
    assert Data(h, id) + [] == Data(h, id) && Payloads(h, id) + [] == Payloads(h, id);
  }

  /** The packets of both directions so far: what was sent, the ids of the OKAY packets received and the WRTE
      packets received; and for the ids whose socket is destroyed, what had been written. */
  datatype Log = Log(sent: seq<Packet>, okays: seq<nat>, arrivals: seq<Arrival>, ends: map<nat, seq<byte>>)
  {
    /** Flow control in both directions, for every id: at most one WRTE is sent beyond the OKAYs received,
        and at most one OKAY beyond the WRTEs received. */
    ghost predicate Flow() {
      forall id ::
        Wrtes(sent, id) <= Count(okays, id) + 1 && Okays(sent, id) <= Count(Ids(arrivals), id) + 1
    }

    /** Besides, no packet has an id that is still to be given. */
    ghost predicate Paced(next: nat) {
      Flow() &&
      forall id :: id >= next ==> Wrtes(sent, id) == 0 && Okays(sent, id) == 0 && Payloads(arrivals, id) == []
    }

    /** Every id that was given is that of a listed socket, of a closing one, or of one that is destroyed and
        has written the front of its payloads; no closing socket has the id of a listed one. */
    ghost predicate Accounts(ss: seq<Local>, cs: seq<Local>, next: nat) {
      (forall i, j :: 0 <= i < |ss| && 0 <= j < |cs| ==> ss[i].born != cs[j].born) &&
      (forall j :: 0 <= j < |cs| ==> 0 < cs[j].born < next) &&
      (forall id :: id in ends ==> 0 < id < next && ends[id] <= Payloads(arrivals, id)) &&
      forall id :: 0 < id < next ==> Accounted(ss, cs, id)
    }

    ghost predicate Kept(ss: seq<Local>, cs: seq<Local>, next: nat) {
      Paced(next) && Accounts(ss, cs, next)
    }

    ghost predicate Accounted(ss: seq<Local>, cs: seq<Local>, id: nat) {
      id in ends || (exists i :: 0 <= i < |ss| && ss[i].born == id) || exists j :: 0 <= j < |cs| && cs[j].born == id
    }
  }

  /** What the socket has accepted is all that has arrived for its id since it was opened. */
  ghost predicate Heard(s: Local, h: seq<Arrival>)
    reads s`accepted
  {
    s.since <= |h| && s.accepted == Payloads(h, s.born) && s.accepted == Data(h[s.since..], s.born)
  }

  /** What closing sockets have accepted is what arrived while they were listed. */
  ghost predicate AllTold(cs: seq<Local>, h: seq<Arrival>)
    reads cs`accepted
  {
    forall j :: 0 <= j < |cs| ==> cs[j].accepted == Payloads(h, cs[j].born)
  }

  /** The socket counts its packets rightly and has accepted what it should. */
  ghost predicate Tally(s: Local, log: Log)
    reads s`id, s`wrtes, s`okays, s`grants, s`taken, s`accepted
  {
    s.wrtes == Wrtes(log.sent, s.id) && s.grants == Okays(log.sent, s.id) &&
    s.okays <= Count(log.okays, s.id) && s.taken <= Count(Ids(log.arrivals), s.id) && Heard(s, log.arrivals)
  }

  ghost predicate Tallied(ss: seq<Local>, log: Log)
    reads ss`id, ss`wrtes, ss`okays, ss`grants, ss`taken, ss`accepted
  {
    forall i :: 0 <= i < |ss| ==> Tally(ss[i], log)
  }

  /** An arrival for another id changes nothing for a socket. */
  lemma HeardStill(s: Local, h: seq<Arrival>, a: Arrival)
    requires Heard(s, h) && s.born != a.id
    ensures Heard(s, h + [a])
  {
    hide Payloads, Data;
    ArrivalAppend(h, a, s.born);
    ArrivalAppend(h[s.since..], a, s.born);
    assert (h + [a])[s.since..] == h[s.since..] + [a];
  }

  /** What has been written is the front of the payloads. */
  lemma HeardMeans(s: Local, h: seq<Arrival>)
    requires Heard(s, h)
    ensures s.accepted == Payloads(h, s.born) && (s.written <= s.accepted ==> s.written <= Payloads(h, s.born))
  {
    hide Payloads, Data;
  }

  lemma HeardMore(s: Local, h: seq<Arrival>, a: Arrival, was: seq<byte>)
    requires s.since <= |h| && was == Payloads(h, s.born) && was == Data(h[s.since..], s.born)
    requires s.accepted == was + a.data && a.id == s.born && a.listed
    ensures Heard(s, h + [a])
  {
    hide Payloads, Data;
    ArrivalAppend(h, a, s.born);
    ArrivalAppend(h[s.since..], a, s.born);
    assert (h + [a])[s.since..] == h[s.since..] + [a];
  }

  lemma ToldStill(cs: seq<Local>, h: seq<Arrival>, a: Arrival)
    requires AllTold(cs, h) && (a.listed ==> forall j :: 0 <= j < |cs| ==> cs[j].born != a.id)
    ensures AllTold(cs, h + [a])
  {
    hide Payloads;
    forall j | 0 <= j < |cs| ensures cs[j].accepted == Payloads(h + [a], cs[j].born) {
      ArrivalAppend(h, a, cs[j].born);
    }
  }

  lemma TalliedAdd(ss: seq<Local>, log: Log, s: Local)
    requires Tallied(ss, log) && Tally(s, log)
    ensures Tallied(ss + [s], log)
  {
    hide Tally;
  }

  lemma TalliedDrop(ss: seq<Local>, log: Log, i: nat)
    requires Tallied(ss, log) && i < |ss|
    ensures Tallied(Drop(ss, i), log) && Tally(ss[i], log)
  {
    hide Tally;
  }

  lemma TalliedBack(ss: seq<Local>, log: Log, i: nat)
    requires i < |ss| && Tallied(Drop(ss, i), log) && Tally(ss[i], log)
    ensures Tallied(ss, log)
  {
    hide Tally;
    forall k | 0 <= k < |ss| ensures Tally(ss[k], log) {
      if k < i {
        assert Drop(ss, i)[k] == ss[k];
      } else if k > i {
        assert Drop(ss, i)[k - 1] == ss[k];
      }
    }
  }

  /** A packet from another socket, or one that closes, is in nobody's count. */
  lemma TalliedSend(ss: seq<Local>, log: Log, p: Packet)
    requires Tallied(ss, log) && (p.Clse? || forall k :: 0 <= k < |ss| ==> ss[k].id != p.arg0)
    ensures Tallied(ss, log.(sent := log.sent + [p]))
  {
    hide Wrtes, Okays, Count, Ids, Payloads;
    forall k | 0 <= k < |ss| ensures Tally(ss[k], log.(sent := log.sent + [p])) {
      assert Tally(ss[k], log);
      SentAppend(log.sent, p, ss[k].id);
    }
  }

  lemma TalliedOkay(ss: seq<Local>, log: Log, id: nat)
    requires Tallied(ss, log)
    ensures Tallied(ss, log.(okays := log.okays + [id]))
  {
    hide Wrtes, Okays, Count, Ids, Heard;
    forall k | 0 <= k < |ss| ensures Tally(ss[k], log.(okays := log.okays + [id])) {
      assert Tally(ss[k], log);
      CountAppend(log.okays, id, ss[k].id);
    }
  }

  lemma TalliedArrival(ss: seq<Local>, log: Log, a: Arrival)
    requires Tallied(ss, log) && forall k :: 0 <= k < |ss| ==> ss[k].born != a.id
    ensures Tallied(ss, log.(arrivals := log.arrivals + [a]))
  {
    hide Wrtes, Okays, Count, Ids, Heard;
    forall k | 0 <= k < |ss| ensures Tally(ss[k], log.(arrivals := log.arrivals + [a])) {
      assert Tally(ss[k], log);
      ArrivalAppend(log.arrivals, a, 0);
      CountAppend(Ids(log.arrivals), a.id, ss[k].id);
      HeardStill(ss[k], log.arrivals, a);
    }
  }

  lemma KeptOkay(log: Log, id: nat, ss: seq<Local>, cs: seq<Local>, next: nat)
    requires log.Kept(ss, cs, next)
    ensures log.(okays := log.okays + [id]).Kept(ss, cs, next)
  {
    AccountsOther(log, log.(okays := log.okays + [id]), ss, cs, next);
    hide Wrtes, Okays, Count, Ids, Payloads, Log.Accounts;
    forall i: nat ensures Count(log.okays + [id], i) >= Count(log.okays, i) {
      CountAppend(log.okays, id, i);
    }
  }

  lemma KeptArrival(log: Log, a: Arrival, ss: seq<Local>, cs: seq<Local>, next: nat)
    requires log.Kept(ss, cs, next) && (a.listed ==> a.id < next)
    ensures log.(arrivals := log.arrivals + [a]).Kept(ss, cs, next)
  {
    AccountsArrival(log, a, ss, cs, next);
    hide Wrtes, Okays, Count, Ids, Payloads, Log.Accounts;
    ArrivalAppend(log.arrivals, a, 0);
    forall i: nat
      ensures Count(Ids(log.arrivals) + [a.id], i) >= Count(Ids(log.arrivals), i)
      ensures i >= next ==> Payloads(log.arrivals + [a], i) == Payloads(log.arrivals, i)
    {
      CountAppend(Ids(log.arrivals), a.id, i);
      ArrivalAppend(log.arrivals, a, i);
    }
  }

  /** What has been written remains the front of what has arrived. */
  lemma AccountsArrival(log: Log, a: Arrival, ss: seq<Local>, cs: seq<Local>, next: nat)
    requires log.Accounts(ss, cs, next)
    ensures log.(arrivals := log.arrivals + [a]).Accounts(ss, cs, next)
  {
    hide Payloads;
    var now := log.(arrivals := log.arrivals + [a]);
    forall id | id in now.ends ensures now.ends[id] <= Payloads(now.arrivals, id) {
      ArrivalAppend(log.arrivals, a, id);
    }
    forall id | 0 < id < next ensures now.Accounted(ss, cs, id) {
      assert log.Accounted(ss, cs, id);
    }
  }

  /** The accounts do not depend on what else is in the log. */
  lemma AccountsOther(log: Log, now: Log, ss: seq<Local>, cs: seq<Local>, next: nat)
    requires log.Accounts(ss, cs, next) && now.arrivals == log.arrivals && now.ends == log.ends
    ensures now.Accounts(ss, cs, next)
  {
    hide Payloads;
    forall id | 0 < id < next ensures now.Accounted(ss, cs, id) {
      assert log.Accounted(ss, cs, id);
    }
  }

  lemma AccountsMoved(log: Log, ss: seq<Local>, cs: seq<Local>, next: nat, i: nat)
    requires log.Accounts(ss, cs, next) && i < |ss| && 0 < ss[i].born < next
    requires forall k :: 0 <= k < |ss| - 1 ==> Drop(ss, i)[k].born != ss[i].born
    ensures log.Accounts(Drop(ss, i), cs + [ss[i]], next)
  {
    hide Payloads;
    forall id | 0 < id < next ensures log.Accounted(Drop(ss, i), cs + [ss[i]], id) {
      assert log.Accounted(ss, cs, id);
      if id == ss[i].born {
        assert (cs + [ss[i]])[|cs|].born == id;
      } else if id !in log.ends {
        if k :| 0 <= k < |ss| && ss[k].born == id {
          assert Drop(ss, i)[if k < i then k else k - 1].born == id;
        } else {
          var j :| 0 <= j < |cs| && cs[j].born == id;
          assert (cs + [ss[i]])[j].born == id;
        }
      }
    }
  }

  lemma AccountsLess(log: Log, ss: seq<Local>, cs: seq<Local>, next: nat, i: nat, written: seq<byte>)
    requires log.Accounts(ss, cs, next) && i < |ss| && 0 < ss[i].born < next
    requires written <= Payloads(log.arrivals, ss[i].born)
    ensures var now := log.(ends := log.ends[ss[i].born := written]);
            now.Accounts(ss, cs, next) && now.Accounts(Drop(ss, i), cs, next)
  {
    hide Payloads;
    var gone := log.(ends := log.ends[ss[i].born := written]);
    forall id | 0 < id < next ensures gone.Accounted(ss, cs, id) && gone.Accounted(Drop(ss, i), cs, id) {
      assert log.Accounted(ss, cs, id);
      if id !in gone.ends && !exists j :: 0 <= j < |cs| && cs[j].born == id {
        var k :| 0 <= k < |ss| && ss[k].born == id;
        assert Drop(ss, i)[if k < i then k else k - 1].born == id;
      }
    }
  }

  lemma AccountsGone(log: Log, ss: seq<Local>, cs: seq<Local>, next: nat, j: nat, written: seq<byte>)
    requires log.Accounts(ss, cs, next) && j < |cs| && written <= Payloads(log.arrivals, cs[j].born)
    ensures log.(ends := log.ends[cs[j].born := written]).Accounts(ss, Drop(cs, j), next)
  {
    hide Payloads;
    var gone := log.(ends := log.ends[cs[j].born := written]);
    forall id | 0 < id < next ensures gone.Accounted(ss, Drop(cs, j), id) {
      assert log.Accounted(ss, cs, id);
      if id !in log.ends && id != cs[j].born && !exists i :: 0 <= i < |ss| && ss[i].born == id {
        var k :| 0 <= k < |cs| && cs[k].born == id;
        assert Drop(cs, j)[if k < j then k else k - 1].born == id;
      }
    }
  }

  lemma AccountsNew(log: Log, ss: seq<Local>, cs: seq<Local>, next: nat, s: Local)
    requires log.Accounts(ss, cs, next) && s.born == next
    ensures log.Accounts(ss + [s], cs, next + 1)
  {
    hide Payloads;
    forall id | 0 < id < next + 1 ensures log.Accounted(ss + [s], cs, id) {
      if id < next {
        assert log.Accounted(ss, cs, id);
        if i :| 0 <= i < |ss| && ss[i].born == id {
          assert (ss + [s])[i].born == id;
        }
      } else {
        assert (ss + [s])[|ss|].born == id;
      }
    }
  }

  /** No closing socket has the id of a listed one. */
  lemma KeptApart(log: Log, ss: seq<Local>, cs: seq<Local>, next: nat, i: nat)
    requires log.Kept(ss, cs, next) && i < |ss|
    ensures forall j :: 0 <= j < |cs| ==> cs[j].born != ss[i].born
  {
    hide Log.Paced;
  }

  /** The i-th socket leaves the list for the closing list. */
  lemma KeptMoved(log: Log, ss: seq<Local>, cs: seq<Local>, next: nat, i: nat)
    requires log.Kept(ss, cs, next) && i < |ss| && 0 < ss[i].born < next
    requires forall k :: 0 <= k < |ss| - 1 ==> Drop(ss, i)[k].born != ss[i].born
    ensures log.Kept(Drop(ss, i), cs + [ss[i]], next)
  {
    hide Log.Paced, Payloads;
    AccountsMoved(log, ss, cs, next, i);
  }

  /** The i-th socket leaves the list for good. */
  lemma KeptLess(log: Log, ss: seq<Local>, cs: seq<Local>, next: nat, i: nat, written: seq<byte>)
    requires log.Kept(ss, cs, next) && i < |ss| && 0 < ss[i].born < next
    requires written <= Payloads(log.arrivals, ss[i].born)
    ensures var now := log.(ends := log.ends[ss[i].born := written]);
            now.Kept(ss, cs, next) && now.Kept(Drop(ss, i), cs, next)
  {
    AccountsLess(log, ss, cs, next, i, written);
    hide Drop, Wrtes, Okays, Count, Ids, Payloads, Log.Accounts;
  }

  /** The j-th closing socket goes. */
  lemma KeptGone(log: Log, ss: seq<Local>, cs: seq<Local>, next: nat, j: nat, written: seq<byte>)
    requires log.Kept(ss, cs, next) && j < |cs| && written <= Payloads(log.arrivals, cs[j].born)
    ensures log.(ends := log.ends[cs[j].born := written]).Kept(ss, Drop(cs, j), next)
  {
    AccountsGone(log, ss, cs, next, j, written);
    hide Drop, Wrtes, Okays, Count, Ids, Payloads, Log.Accounts;
  }

  /** A packet from a socket that keeps its bounds keeps the bounds of the log. */
  lemma KeptSend(log: Log, p: Packet, s: Local, ss: seq<Local>, cs: seq<Local>, next: nat)
    requires log.Kept(ss, cs, next)
    requires p.Clse? || (p.arg0 == s.id < next && Tally(s, log.(sent := log.sent + [p])) &&
                         s.wrtes <= s.okays + 1 && s.grants <= s.taken + 1)
    ensures log.(sent := log.sent + [p]).Kept(ss, cs, next)
  {
    AccountsOther(log, log.(sent := log.sent + [p]), ss, cs, next);
    hide Wrtes, Okays, Count, Ids, Payloads, Log.Accounts;
    forall id: nat
      ensures Wrtes(log.sent + [p], id) == Wrtes(log.sent, id) + (if p.Wrte? && p.arg0 == id then 1 else 0)
      ensures Okays(log.sent + [p], id) == Okays(log.sent, id) + (if p.Okay? && p.arg0 == id then 1 else 0)
    {
      SentAppend(log.sent, p, id);
    }
  }

  lemma TallyMeans(s: Local, log: Log)
    requires Tally(s, log)
    ensures s.wrtes == Wrtes(log.sent, s.id) && s.grants == Okays(log.sent, s.id)
    ensures s.okays <= Count(log.okays, s.id) && s.taken <= Count(Ids(log.arrivals), s.id) && Heard(s, log.arrivals)
  {}

  /** The count after an OKAY packet has been received for the socket. */
  lemma TallyOkay(s: Local, log: Log)
    requires s.wrtes == Wrtes(log.sent, s.id) && s.grants == Okays(log.sent, s.id) && Heard(s, log.arrivals)
    requires s.okays <= Count(log.okays, s.id) + 1 && s.taken <= Count(Ids(log.arrivals), s.id)
    ensures Tally(s, log.(okays := log.okays + [s.id]))
  {
    hide Wrtes, Okays, Count, Ids, Heard;
    CountAppend(log.okays, s.id, s.id);
  }

  /** The count after the socket has sent a packet. */
  lemma TallySend(s: Local, log: Log, p: Packet)
    requires p.arg0 == s.id && s.okays <= Count(log.okays, s.id) && s.taken <= Count(Ids(log.arrivals), s.id)
    requires Heard(s, log.arrivals)
    requires s.wrtes == Wrtes(log.sent, s.id) + (if p.Wrte? then 1 else 0)
    requires s.grants == Okays(log.sent, s.id) + (if p.Okay? then 1 else 0)
    ensures Tally(s, log.(sent := log.sent + [p]))
  {
    hide Wrtes, Okays, Count, Ids, Payloads;
    SentAppend(log.sent, p, s.id);
  }

  /** Sockets that are open, sockets that are closing, and the counts of the former. */
  ghost predicate InOrder(ss: seq<Local>, fs: seq<FdEvent>, cs: seq<Local>, ds: seq<FdEvent>, bad: set<int>, log: Log)
    reads ss, fs`wanted, fs`events, fs`fd, cs, ds`wanted, ds`events, ds`fd
  {
    Opened(ss, fs, bad) && Draining(cs, ds, bad) && Tallied(ss, log) && AllTold(cs, log.arrivals)
  }

  lemma InOrderDrop(ss: seq<Local>, fs: seq<FdEvent>, cs: seq<Local>, ds: seq<FdEvent>, bad: set<int>, log: Log, i: nat)
    requires InOrder(ss, fs, cs, ds, bad, log) && i < |ss|
    ensures |ss| == |fs| && InOrder(Drop(ss, i), Drop(fs, i), cs, ds, bad, log)
    ensures ss[i].fde == fs[i] && ss[i].IsOpen(bad) && Tally(ss[i], log)
  {
    hide Drop, Opened, Draining, Tallied, Tally, Local.IsOpen;
    OpenedDrop(ss, fs, bad, i);
    TalliedDrop(ss, log, i);
  }

  lemma InOrderBack(ss: seq<Local>, fs: seq<FdEvent>, cs: seq<Local>, ds: seq<FdEvent>, bad: set<int>, log: Log, i: nat)
    requires i < |ss| == |fs| && InOrder(Drop(ss, i), Drop(fs, i), cs, ds, bad, log)
    requires ss[i].fde == fs[i] && ss[i].IsOpen(bad) && Tally(ss[i], log)
    ensures InOrder(ss, fs, cs, ds, bad, log)
  {
    hide Drop, Opened, Draining, Tallied, Tally, Local.IsOpen;
    OpenedBack(ss, fs, bad, i);
    TalliedBack(ss, log, i);
  }

  /** The others are in order after an OKAY, after an arrival for none of them, and after a packet from another
      socket. */
  lemma InOrderOkay(ss: seq<Local>, fs: seq<FdEvent>, cs: seq<Local>, ds: seq<FdEvent>, bad: set<int>, log: Log,
                    id: nat)
    requires InOrder(ss, fs, cs, ds, bad, log)
    ensures InOrder(ss, fs, cs, ds, bad, log.(okays := log.okays + [id]))
  {
    hide Opened, Draining, Tallied, AllTold;
    TalliedOkay(ss, log, id);
  }

  lemma InOrderArrival(ss: seq<Local>, fs: seq<FdEvent>, cs: seq<Local>, ds: seq<FdEvent>, bad: set<int>, log: Log,
                       a: Arrival)
    requires InOrder(ss, fs, cs, ds, bad, log) && forall k :: 0 <= k < |ss| ==> ss[k].born != a.id
    requires a.listed ==> forall j :: 0 <= j < |cs| ==> cs[j].born != a.id
    ensures InOrder(ss, fs, cs, ds, bad, log.(arrivals := log.arrivals + [a]))
  {
    hide Opened, Draining, Tallied, AllTold;
    TalliedArrival(ss, log, a);
    ToldStill(cs, log.arrivals, a);
  }

  lemma InOrderEnds(ss: seq<Local>, fs: seq<FdEvent>, cs: seq<Local>, ds: seq<FdEvent>, bad: set<int>, log: Log,
                    now: Log)
    requires InOrder(ss, fs, cs, ds, bad, log) && now.(ends := log.ends) == log
    ensures InOrder(ss, fs, cs, ds, bad, now)
  {
    hide Opened, Draining, AllTold, Heard;
  }

  lemma InOrderSend(ss: seq<Local>, fs: seq<FdEvent>, cs: seq<Local>, ds: seq<FdEvent>, bad: set<int>, log: Log,
                    p: Packet)
    requires InOrder(ss, fs, cs, ds, bad, log) && (p.Clse? || forall k :: 0 <= k < |ss| ==> ss[k].id != p.arg0)
    ensures InOrder(ss, fs, cs, ds, bad, log.(sent := log.sent + [p]))
  {
    hide Opened, Draining, Tallied;
    TalliedSend(ss, log, p);
  }

  /** All events are registered. */
  ghost predicate AllKnown(fs: seq<FdEvent>, ds: seq<FdEvent>, table: seq<FdEvent?>)
    reads fs`fd, ds`fd
  {
    Known(fs, table) && Known(ds, table)
  }

  /** The events left after the i-th has gone to the other list, or away with its slot. */
  lemma KnownMoved(fs: seq<FdEvent>, ds: seq<FdEvent>, t: seq<FdEvent?>, now: seq<FdEvent?>, i: nat)
    requires AllKnown(fs, ds, t) && i < |fs| && fs[i] !in Drop(fs, i) && fs[i] !in ds
    ensures now == t ==> AllKnown(Drop(fs, i), ds + [fs[i]], now)
    ensures (forall k :: k != fs[i].fd ==> At(now, k) == At(t, k)) ==> AllKnown(Drop(fs, i), ds, now)
  {
    KnownDrop(fs, t, i);
    KnownAdd(ds, t, fs[i]);
    if forall k :: k != fs[i].fd ==> At(now, k) == At(t, k) {
      KnownElsewhere(Drop(fs, i), t, now, fs[i].fd);
      KnownElsewhere(ds, t, now, fs[i].fd);
    }
  }

  lemma KnownGone(fs: seq<FdEvent>, ds: seq<FdEvent>, t: seq<FdEvent?>, now: seq<FdEvent?>, j: nat)
    requires AllKnown(fs, ds, t) && j < |ds| && ds[j] !in Drop(ds, j) && ds[j] !in fs
    requires forall k :: k != ds[j].fd ==> At(now, k) == At(t, k)
    ensures AllKnown(fs, Drop(ds, j), now)
  {
    KnownDrop(ds, t, j);
    KnownElsewhere(Drop(ds, j), t, now, ds[j].fd);
    KnownElsewhere(fs, t, now, ds[j].fd);
  }

  /** No socket and no packet yet. */
  lemma NothingYet(bad: set<int>)
    ensures InOrder([], [], [], [], bad, Log([], [], [], map[])) && AllKnown([], [], [])
    ensures Log([], [], [], map[]).Kept([], [], 1)
    ensures Paired([], []) && Numbered([], 1)
  {}

  /** A closing socket more. */
  lemma InOrderMoved(ss: seq<Local>, fs: seq<FdEvent>, cs: seq<Local>, ds: seq<FdEvent>, bad: set<int>, log: Log,
                     s: Local, f: FdEvent)
    requires InOrder(ss, fs, cs, ds, bad, log) && s.fde == f && s.IsDraining(bad)
    requires s.accepted == Payloads(log.arrivals, s.born)
    ensures InOrder(ss, fs, cs + [s], ds + [f], bad, log)
  {
    hide Opened, Draining, Tallied, Local.IsDraining, Payloads;
    DrainingAdd(cs, ds, bad, s, f);
  }

  /** An open socket more. */
  lemma InOrderAdd(ss: seq<Local>, fs: seq<FdEvent>, cs: seq<Local>, ds: seq<FdEvent>, bad: set<int>, log: Log,
                   s: Local, f: FdEvent)
    requires InOrder(ss, fs, cs, ds, bad, log) && s.fde == f && s.IsOpen(bad) && Tally(s, log)
    ensures InOrder(ss + [s], fs + [f], cs, ds, bad, log)
  {
    hide Opened, Draining, Tallied, Local.IsOpen, Tally;
    OpenedAdd(ss, fs, bad, s, f);
    TalliedAdd(ss, log, s);
  }

  lemma ToldDrop(cs: seq<Local>, h: seq<Arrival>, j: nat)
    requires AllTold(cs, h) && j < |cs|
    ensures AllTold(Drop(cs, j), h) && cs[j].accepted == Payloads(h, cs[j].born)
  {
    hide Payloads;
  }

  lemma ToldBack(cs: seq<Local>, h: seq<Arrival>, j: nat)
    requires j < |cs| && AllTold(Drop(cs, j), h) && cs[j].accepted == Payloads(h, cs[j].born)
    ensures AllTold(cs, h)
  {
    hide Payloads;
    forall k | 0 <= k < |cs| ensures cs[k].accepted == Payloads(h, cs[k].born) {
      if k < j {
        assert Drop(cs, j)[k] == cs[k];
      } else if k > j {
        assert Drop(cs, j)[k - 1] == cs[k];
      }
    }
  }

  lemma InOrderDropClosing(ss: seq<Local>, fs: seq<FdEvent>, cs: seq<Local>, ds: seq<FdEvent>, bad: set<int>,
                           log: Log, j: nat)
    requires InOrder(ss, fs, cs, ds, bad, log) && j < |cs|
    ensures |cs| == |ds| && InOrder(ss, fs, Drop(cs, j), Drop(ds, j), bad, log)
    ensures cs[j].fde == ds[j] && cs[j].IsDraining(bad) && cs[j].accepted == Payloads(log.arrivals, cs[j].born)
  {
    ToldDrop(cs, log.arrivals, j);
    hide AllTold, Drop, Opened, Draining, Tallied, Local.IsDraining;
    DrainingDrop(cs, ds, bad, j);
  }

  lemma InOrderBackClosing(ss: seq<Local>, fs: seq<FdEvent>, cs: seq<Local>, ds: seq<FdEvent>, bad: set<int>,
                           log: Log, j: nat)
    requires j < |cs| == |ds| && InOrder(ss, fs, Drop(cs, j), Drop(ds, j), bad, log)
    requires cs[j].fde == ds[j] && cs[j].IsDraining(bad) && cs[j].accepted == Payloads(log.arrivals, cs[j].born)
    ensures InOrder(ss, fs, cs, ds, bad, log)
  {
    ToldBack(cs, log.arrivals, j);
    hide AllTold, Drop, Opened, Draining, Tallied, Local.IsDraining;
    DrainingBack(cs, ds, bad, j);
  }

  /** The count after a WRTE packet has been taken in, and after the OKAY that answers it at once. */
  lemma TallyTaken(s: Local, log: Log, v: Verdict)
    requires s.wrtes == Wrtes(log.sent, s.id) && s.grants == Okays(log.sent, s.id) + (if v.Drained? then 1 else 0)
    requires s.okays <= Count(log.okays, s.id) && s.taken <= Count(Ids(log.arrivals), s.id) && Heard(s, log.arrivals)
    ensures !v.Drained? ==> Tally(s, log)
    ensures v.Drained? ==> forall r :: Tally(s, log.(sent := log.sent + [Okay(s.id, r)]))
  {
    hide Wrtes, Okays, Count, Ids, Heard;
    if v.Drained? {
      forall r: nat ensures Tally(s, log.(sent := log.sent + [Okay(s.id, r)])) {
        SentAppend(log.sent, Okay(s.id, r), s.id);
      }
    }
  }

  /** The last arrival is for this socket, which is still to count it and to take it in. */
  ghost predicate Due(s: Local, log: Log, a: Arrival)
    reads s`id, s`wrtes, s`okays, s`grants, s`taken, s`accepted
  {
    s.wrtes == Wrtes(log.sent, s.id) && s.grants == Okays(log.sent, s.id) && s.okays <= Count(log.okays, s.id) &&
    log.arrivals != [] && log.arrivals[|log.arrivals| - 1] == a && a.listed && a.id == s.born == s.id &&
    s.taken + 1 <= Count(Ids(log.arrivals), s.id) && Heard(s, log.arrivals[..|log.arrivals| - 1])
  }

  lemma TallyDue(s: Local, log: Log, a: Arrival)
    requires Tally(s, log) && a.listed && a.id == s.born == s.id
    ensures Due(s, log.(arrivals := log.arrivals + [a]), a)
  {
    hide Wrtes, Okays, Count, Ids, Heard;
    assert (log.arrivals + [a])[..|log.arrivals|] == log.arrivals;
    ArrivalAppend(log.arrivals, a, 0);
    CountAppend(Ids(log.arrivals), s.id, s.id);
  }

  lemma DueMeans(s: Local, log: Log, a: Arrival)
    requires Due(s, log, a)
    ensures s.wrtes == Wrtes(log.sent, s.id) && s.grants == Okays(log.sent, s.id) && s.okays <= Count(log.okays, s.id)
    ensures s.taken + 1 <= Count(Ids(log.arrivals), s.id) && log.arrivals != [] && a.listed && a.id == s.born == s.id
    ensures var h := log.arrivals[..|log.arrivals| - 1];
            log.arrivals == h + [a] && s.since <= |h| && s.accepted == Payloads(h, s.born) == Data(h[s.since..], s.born)
  {
    hide Payloads, Data;
  }

  // ----- waiting for events -----

  /** The part of being open, or closing, that does not depend on the notifications. */
  ghost predicate Standing(ss: seq<Local>, fs: seq<FdEvent>, cs: seq<Local>, ds: seq<FdEvent>)
    reads ss`queue, ss`written, ss`accepted, ss`wrtes, ss`okays, ss`taken, ss`grants, ss`closing, ss`destroyed
    reads cs`queue, cs`written, cs`accepted, cs`wrtes, cs`okays, cs`taken, cs`grants, cs`closing, cs`destroyed
    reads cs`peer, fs`wanted, ds`wanted
  {
    |ss| == |fs| && |cs| == |ds| &&
    (forall i :: 0 <= i < |ss| ==> ss[i].fde == fs[i] && ss[i].Sound() && !ss[i].closing && !ss[i].destroyed) &&
    forall i :: 0 <= i < |cs| ==>
      cs[i].fde == ds[i] && cs[i].Sound() && cs[i].closing && !cs[i].destroyed && cs[i].peer == null &&
      Read !in ds[i].wanted && cs[i].queue != []
  }

  /** The part that does. */
  ghost predicate Awaited(fs: seq<FdEvent>, cs: seq<Local>, ds: seq<FdEvent>, bad: set<int>)
    reads fs`wanted, fs`events, fs`fd, cs`late, ds`events, ds`fd
  {
    |cs| == |ds| &&
    (forall i :: 0 <= i < |fs| ==>
      (Read in fs[i].events ==> Read in fs[i].wanted || fs[i].fd in bad) &&
      (Write in fs[i].events ==> Write in fs[i].wanted)) &&
    forall i :: 0 <= i < |ds| ==>
      (Read in ds[i].events ==> cs[i].late || ds[i].fd in bad) && (cs[i].late ==> Read in ds[i].events)
  }

  lemma InOrderIs(ss: seq<Local>, fs: seq<FdEvent>, cs: seq<Local>, ds: seq<FdEvent>, bad: set<int>, log: Log)
    ensures InOrder(ss, fs, cs, ds, bad, log) <==>
              Standing(ss, fs, cs, ds) && Awaited(fs, cs, ds, bad) && Tallied(ss, log) && AllTold(cs, log.arrivals)
  {
    hide Local.Sound, Tallied, AllTold;
    if Standing(ss, fs, cs, ds) && Awaited(fs, cs, ds, bad) {
      forall i | 0 <= i < |ss| ensures ss[i].fde == fs[i] && ss[i].IsOpen(bad) {}
      forall i | 0 <= i < |cs| ensures cs[i].fde == ds[i] && cs[i].IsDraining(bad) {}
    }
    if Opened(ss, fs, bad) && Draining(cs, ds, bad) {
      forall i | 0 <= i < |ss|
        ensures ss[i].Sound() && !ss[i].closing && !ss[i].destroyed
        ensures (Read in fs[i].events ==> Read in fs[i].wanted || fs[i].fd in bad)
        ensures (Write in fs[i].events ==> Write in fs[i].wanted)
      {
        assert ss[i].IsOpen(bad);
      }
      forall i | 0 <= i < |cs|
        ensures cs[i].Sound() && cs[i].closing && !cs[i].destroyed && cs[i].peer == null && cs[i].queue != []
        ensures Read !in ds[i].wanted && (Read in ds[i].events ==> cs[i].late || ds[i].fd in bad)
        ensures cs[i].late ==> Read in ds[i].events
      {
        assert cs[i].IsDraining(bad);
      }
    }
  }

  /** What the events have to signal. */
  lemma Signals(fs: seq<FdEvent>) returns (was: seq<set<Flag>>)
    ensures |was| == |fs| && forall i :: 0 <= i < |fs| ==> was[i] == fs[i].events
  {
    was := [];
    for n := 0 to |fs|
      invariant |was| == n && forall i :: 0 <= i < n ==> was[i] == fs[i].events
    {
      was := was + [fs[n].events];
    }
  }

  /** The bounds on what is signalled, before and after something is added that keeps them. */
  lemma AwaitedMeans(fs: seq<FdEvent>, cs: seq<Local>, ds: seq<FdEvent>, bad: set<int>)
    requires Awaited(fs, cs, ds, bad)
    ensures |cs| == |ds|
    ensures forall i :: 0 <= i < |fs| ==>
              (Read in fs[i].events ==> Read in fs[i].wanted || fs[i].fd in bad) &&
              (Write in fs[i].events ==> Write in fs[i].wanted)
    ensures forall i :: 0 <= i < |ds| ==>
              (Read in ds[i].events ==> cs[i].late || ds[i].fd in bad) && (cs[i].late ==> Read in ds[i].events)
  {}

  lemma AwaitedWhen(fs: seq<FdEvent>, cs: seq<Local>, ds: seq<FdEvent>, bad: set<int>, s: Select,
                    wf: seq<set<Flag>>, wd: seq<set<Flag>>)
    requires |wf| == |fs| && |wd| == |ds| == |cs|
    requires forall i :: 0 <= i < |fs| ==>
               fs[i].events == wf[i] + Got(s, bad, fs[i].fd) &&
               (Read in wf[i] ==> Read in fs[i].wanted || fs[i].fd in bad) &&
               (Write in wf[i] ==> Write in fs[i].wanted)
    requires forall i :: 0 <= i < |ds| ==>
               ds[i].events == wd[i] + Got(s, bad, ds[i].fd) && (Read in wd[i] ==> cs[i].late || ds[i].fd in bad) &&
               (cs[i].late ==> Read in wd[i])
    requires forall i :: 0 <= i < |fs| ==>
               (Read in Got(s, bad, fs[i].fd) ==> Read in fs[i].wanted || fs[i].fd in bad) &&
               (Write in Got(s, bad, fs[i].fd) ==> Write in fs[i].wanted)
    requires forall i :: 0 <= i < |ds| ==> (Read in Got(s, bad, ds[i].fd) ==> ds[i].fd in bad)
    ensures Awaited(fs, cs, ds, bad)
  {
    hide Got;
  }

  // ----- a new socket -----

  lemma KeptClose(log: Log, p: Packet, ss: seq<Local>, cs: seq<Local>, next: nat)
    requires log.Kept(ss, cs, next) && p.Clse?
    ensures log.(sent := log.sent + [p]).Kept(ss, cs, next)
  {
    AccountsOther(log, log.(sent := log.sent + [p]), ss, cs, next);
    hide Wrtes, Okays, Count, Ids, Payloads, Log.Accounts;
    forall id: nat
      ensures Wrtes(log.sent + [p], id) == Wrtes(log.sent, id) && Okays(log.sent + [p], id) == Okays(log.sent, id)
    {
      SentAppend(log.sent, p, id);
    }
  }

  /** The OKAY for a new id. */
  lemma KeptNew(log: Log, p: Packet, ss: seq<Local>, cs: seq<Local>, next: nat, s: Local)
    requires log.Kept(ss, cs, next) && p.Okay? && p.arg0 == next == s.id == s.born && s.since == |log.arrivals|
    requires s.wrtes == s.okays == s.taken == 0 && s.grants == 1 && s.accepted == []
    ensures log.(sent := log.sent + [p]).Kept(ss + [s], cs, next + 1) && Tally(s, log.(sent := log.sent + [p]))
  {
    AccountsNew(log, ss, cs, next, s);
    AccountsOther(log, log.(sent := log.sent + [p]), ss + [s], cs, next + 1);
    hide Wrtes, Okays, Count, Ids, Payloads, Log.Accounts;
    forall id: nat
      ensures Wrtes(log.sent + [p], id) == Wrtes(log.sent, id)
      ensures Okays(log.sent + [p], id) == Okays(log.sent, id) + if id == next then 1 else 0
    {
      SentAppend(log.sent, p, id);
    }
  }

  lemma KnownNew(fs: seq<FdEvent>, ds: seq<FdEvent>, t: seq<FdEvent?>, now: seq<FdEvent?>, f: FdEvent)
    requires AllKnown(fs, ds, t) && At(t, f.fd) == null && At(now, f.fd) == f
    requires forall k :: k != f.fd ==> At(now, k) == At(t, k)
    ensures AllKnown(fs + [f], ds, now)
    ensures (forall i :: 0 <= i < |fs| ==> fs[i].fd != f.fd) && forall i :: 0 <= i < |ds| ==> ds[i].fd != f.fd
  {
    KnownElsewhere(fs, t, now, f.fd);
    KnownElsewhere(ds, t, now, f.fd);
    KnownAdd(fs, now, f);
  }

  /** A descriptor that none of the sockets has is no longer bad. */
  lemma InOrderReopened(ss: seq<Local>, fs: seq<FdEvent>, cs: seq<Local>, ds: seq<FdEvent>, bad: set<int>, log: Log,
                        fd: int)
    requires InOrder(ss, fs, cs, ds, bad, log)
    requires (forall i :: 0 <= i < |fs| ==> fs[i].fd != fd) && forall i :: 0 <= i < |ds| ==> ds[i].fd != fd
    ensures InOrder(ss, fs, cs, ds, bad - {fd}, log)
  {
    hide Opened, Draining, Tallied;
    BadAlike(ss, fs, cs, ds, bad, bad - {fd});
  }
}
