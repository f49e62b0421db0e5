/**
 * The send queues of the select loop and the descriptor sets that follow them (src/socket_manager.c).
 * What the kernel takes of a write is an arbitrary answer to each call.
 */
module SocketManager {
  import opened Bytes

  /** The caller's own value for a send, handed back when it is complete. */
  type Handle = int

  /** A blocked send: the part of the data that was not written at once, written up to `head`. */
  datatype Entry = Entry(value: Handle, recvFd: int, data: seq<byte>, head: nat)

  datatype Request = Request(value: Handle, data: seq<byte>)

  /** What happened on one descriptor: a record for the proofs. */
  datatype Log = Log(accepted: seq<byte>, written: seq<byte>, requests: seq<Request>,
                        completed: seq<Request>, failed: bool)

  type Queues = map<int, seq<Entry>>

  function QueueOf(queues: Queues, fd: int): seq<Entry> {
    if fd in queues then queues[fd] else []
  }

  function LogOf(logs: map<int, Log>, fd: int): Log {
    if fd in logs then logs[fd] else Log([], [], [], [], false)
  }

  // ----- conservation -----

  predicate Suffix(s: seq<byte>, t: seq<byte>) {
    |s| <= |t| && t[|t| - |s|..] == s
  }

  /** The bytes still queued, in order. */
  function Queued(q: seq<Entry>): seq<byte> {
    if q == [] then []
    else (if q[0].head <= |q[0].data| then q[0].data[q[0].head..] else []) + Queued(q[1..])
  }

  predicate HeadsFit(q: seq<Entry>) {
    forall i :: 0 <= i < |q| ==> q[i].head <= |q[i].data|
  }

  /** Completed sends and then queued ones are the sends asked for, one for one and in order. */
  predicate InOrder(q: seq<Entry>, log: Log) {
    && |log.requests| == |log.completed| + |q|
    && (forall i :: 0 <= i < |log.completed| ==>
          log.completed[i].value == log.requests[i].value && Suffix(log.completed[i].data, log.requests[i].data))
    && (forall i :: 0 <= i < |q| ==>
          var r := log.requests[|log.completed| + i];
          q[i].value == r.value && Suffix(q[i].data, r.data))
  }

  /** Until a write fails, what was written and what is queued is what was accepted. */
  predicate Balanced(q: seq<Entry>, log: Log) {
    && HeadsFit(q)
    && (!log.failed ==> log.written + Queued(q) == log.accepted && InOrder(q, log))
  }

  /** A drained queue: everything accepted was written and every send was reported once, in order. */
  lemma Drained(q: seq<Entry>, log: Log)
    requires Balanced(q, log) && !log.failed && q == []
    ensures log.written == log.accepted && |log.completed| == |log.requests|
    ensures forall i :: 0 <= i < |log.requests| ==> log.completed[i].value == log.requests[i].value
  {
  }

  lemma QueuedStep(q: seq<Entry>)
    requires q != [] && q[0].head <= |q[0].data|
    ensures Queued(q) == q[0].data[q[0].head..] + Queued(q[1..])
  {
  }

  lemma {:induction false} QueuedAppend(q: seq<Entry>, e: Entry)
    requires HeadsFit(q) && e.head <= |e.data|
    ensures Queued(q + [e]) == Queued(q) + e.data[e.head..]
  {
    hide Queued;
    QueuedStep(q + [e]);
    if q == [] {
      assert q + [e] == [e];
      NothingQueued();
      assert [e][1..] == [];
      assert e.data[e.head..] + [] == [] + e.data[e.head..];
    } else {
      QueuedStep(q);
      QueuedAppend(q[1..], e);
      assert (q + [e])[1..] == q[1..] + [e];
      assert q[0].data[q[0].head..] + (Queued(q[1..]) + e.data[e.head..]) == Queued(q) + e.data[e.head..];
    }
  }

  lemma NothingQueued()
    ensures Queued([]) == []
  {
  }

  /** More was written. */
  function Wrote(log: Log, data: seq<byte>): Log {
    log.(written := log.written + data)
  }

  lemma WroteNothing(log: Log, data: seq<byte>, head: nat)
    requires head <= |data|
    ensures Wrote(log, data[head..head]) == log
  {
  }

  lemma WroteNext(log: Log, data: seq<byte>, head: nat, head': nat, n: nat)
    requires head <= head' && head' + n <= |data|
    ensures Wrote(Wrote(log, data[head..head']), data[head'..][..n]) == Wrote(log, data[head..head' + n])
  {
  }

  /** A send was asked for. */
  function Asked(log: Log, r: Request): Log {
    log.(accepted := log.accepted + r.data, requests := log.requests + [r])
  }

  /** A send was reported. */
  function Reported(log: Log, r: Request): Log {
    log.(completed := log.completed + [r])
  }

  /** A send that found an empty queue: `head` bytes were written, and all of them if it is done. */
  function Sent(log: Log, r: Request, head: nat, done: bool, fatal: bool): Log
    requires head <= |r.data|
  {
    Log(log.accepted + r.data, log.written + r.data[..head], log.requests + [r],
        if done then log.completed + [r] else log.completed, log.failed || fatal)
  }

  lemma SentIs(log: Log, r: Request, head: nat, done: bool, fatal: bool)
    requires head <= |r.data|
    ensures var log' := Sent(log, r, head, done, fatal);
            && log'.accepted == log.accepted + r.data && log'.requests == log.requests + [r]
            && log'.written == log.written + r.data[..head]
            && log'.completed == log.completed + (if done then [r] else [])
  {
  }

  /** A send that is queued whole was only asked for. */
  lemma AskedOnly(log: Log, r: Request)
    ensures Sent(log, r, 0, false, false) == Asked(log, r)
  {
    assert log.written + r.data[..0] == log.written;
  }

  lemma SentBalanced(log: Log, r: Request, fatal: bool)
    requires Balanced([], log)
    ensures Balanced([], Sent(log, r, |r.data|, true, fatal))
  {
  }

  lemma QueuedBalanced(q: seq<Entry>, log: Log, r: Request, head: nat, recvFd: int)
    requires Balanced(q, log) && head <= |r.data| && (q != [] ==> head == 0)
    ensures Balanced(q + [Entry(r.value, recvFd, r.data[head..], 0)], Sent(log, r, head, false, false))
  {
    hide Queued, Suffix;
    var e := Entry(r.value, recvFd, r.data[head..], 0);
    assert Suffix(e.data, r.data) by { TailIsSuffix(r.data, head); }
    if !log.failed {
      QueuedBytes(q, log.written, r.data, head, e);
    }
  }

  lemma TailIsSuffix(t: seq<byte>, head: nat)
    requires head <= |t|
    ensures Suffix(t[head..], t)
  {
  }

  lemma QueuedBytes(q: seq<Entry>, written: seq<byte>, data: seq<byte>, head: nat, e: Entry)
    requires HeadsFit(q)
    requires head <= |data| && (q != [] ==> head == 0) && e.head == 0 && e.data == data[head..]
    ensures written + data[..head] + Queued(q + [e]) == written + Queued(q) + data
  {
    QueuedAppend(q, e);
    assert e.data[0..] == e.data;
    assert data[..head] + e.data == data;
    if q == [] {
      assert Queued(q) == [];
      assert written + data[..head] + ([] + e.data) == written + [] + data;
    } else {
      assert data[..head] == [];
      assert written + [] + (Queued(q) + data) == written + Queued(q) + data;
    }
  }

  /** The first entry was written from its head up to `head`. */
  function Written(log: Log, e: Entry, head: nat): Log
    requires e.head <= head <= |e.data|
  {
    log.(written := log.written + e.data[e.head..head])
  }

  /** The queue with its first entry written up to `head`. */
  function Advanced(q: seq<Entry>, head: nat): (r: seq<Entry>)
    requires q != []
  {
    [q[0].(head := head)] + q[1..]
  }

  lemma WrittenBalanced(q: seq<Entry>, log: Log, head: nat)
    requires Balanced(q, log) && q != [] && q[0].head <= head <= |q[0].data|
    ensures Balanced(Advanced(q, head), Written(log, q[0], head))
  {
    hide Queued, Suffix;
    WrittenBytes(q, log.written, head);
  }

  lemma WrittenBytes(q: seq<Entry>, written: seq<byte>, head: nat)
    requires q != [] && q[0].head <= head <= |q[0].data|
    ensures written + q[0].data[q[0].head..head] + Queued(Advanced(q, head)) == written + Queued(q)
  {
    hide Queued;
    var e := q[0];
    var q' := Advanced(q, head);
    assert q'[1..] == q[1..];
    QueuedStep(q);
    QueuedStep(q');
    assert e.data[e.head..] == e.data[e.head..head] + e.data[head..];
    assert written + (e.data[e.head..head] + e.data[head..] + Queued(q[1..]))
        == written + e.data[e.head..head] + (e.data[head..] + Queued(q[1..]));
  }

  /** The first entry is done: it is reported and leaves the queue. */
  function Completed(log: Log, e: Entry): Log {
    log.(completed := log.completed + [Request(e.value, e.data)])
  }

  lemma CompletedBalanced(q: seq<Entry>, log: Log)
    requires Balanced(q, log) && q != [] && q[0].head == |q[0].data|
    ensures Balanced(q[1..], Completed(log, q[0]))
  {
    hide Queued, Suffix;
    QueuedStep(q);
    assert [] + Queued(q[1..]) == Queued(q[1..]);
    assert forall i :: 0 <= i < |q[1..]| ==> q[1..][i] == q[i + 1];
  }

  ghost predicate AllBalanced(queues: Queues, logs: map<int, Log>) {
    forall fd :: Balanced(QueueOf(queues, fd), LogOf(logs, fd))
  }

  // ----- readiness -----

  /** A queued send of any descriptor was caused by `r`. */
  predicate Names(q: seq<Entry>, r: int) {
    exists i :: 0 <= i < |q| && q[i].recvFd == r
  }

  predicate Named(queues: Queues, r: int) {
    exists fd :: fd in queues && Names(queues[fd], r)
  }

  datatype Sets = Sets(all: set<int>, server: set<int>, send: set<int>, recv: set<int>,
                       tmpSend: set<int>, tmpRecv: set<int>, tmpFail: set<int>)

  ghost predicate Subsets(s: Sets) {
    s.server <= s.all && s.send <= s.all && s.recv <= s.all
    && s.tmpSend <= s.all && s.tmpRecv <= s.all && s.tmpFail <= s.all
  }

  /** The descriptors to send on are the registered ones with a queue. */
  ghost predicate SendReady(s: Sets, queues: Queues) {
    && (forall fd :: fd in s.send <==> fd in s.all && fd in queues)
    && (forall fd :: fd in queues ==> queues[fd] != [])
  }

  /** A registered descriptor may receive unless a queued send was caused by it. */
  ghost predicate RecvReady(s: Sets, queues: Queues) {
    forall fd :: fd in s.all ==> (fd in s.recv <==> fd == 0 || !Named(queues, fd))
  }

  /** The largest descriptor, or -1. */
  ghost predicate IsMax(all: set<int>, m: int) {
    && (forall fd :: fd in all ==> 0 <= fd <= m)
    && (m == -1 || m in all)
  }

  ghost predicate Invariant(s: Sets, m: int, queues: Queues, logs: map<int, Log>) {
    Subsets(s) && SendReady(s, queues) && RecvReady(s, queues) && IsMax(s.all, m) && AllBalanced(queues, logs)
  }

  /** Only the queue of one descriptor may differ. */
  ghost predicate SameBut(queues: Queues, queues': Queues, fd: int) {
    forall k :: k != fd ==> (k in queues <==> k in queues') && (k in queues ==> queues'[k] == queues[k])
  }

  lemma NamedIs(queues: Queues, r: int)
    ensures Named(queues, r) <==> exists k, i :: k in queues && 0 <= i < |queues[k]| && queues[k][i].recvFd == r
  {
    if k, i :| k in queues && 0 <= i < |queues[k]| && queues[k][i].recvFd == r {
      assert Names(queues[k], r);
    }
  }

  lemma NamedAfterChange(queues: Queues, queues': Queues, fd: int, r: int)
    requires SameBut(queues, queues', fd)
    requires Names(QueueOf(queues, fd), r) <==> Names(QueueOf(queues', fd), r)
    ensures Named(queues, r) <==> Named(queues', r)
  {
  }

  lemma NamesAppend(q: seq<Entry>, e: Entry, r: int)
    ensures Names(q + [e], r) <==> Names(q, r) || e.recvFd == r
  {
    if Names(q, r) {
      var i :| 0 <= i < |q| && q[i].recvFd == r;
      assert (q + [e])[i].recvFd == r;
    }
    if e.recvFd == r {
      assert (q + [e])[|q|].recvFd == r;
    }
  }

  lemma NamesStep(q: seq<Entry>, r: int)
    requires q != []
    ensures Names(q, r) <==> q[0].recvFd == r || Names(q[1..], r)
  {
  }

  lemma BalancedAfterChange(queues: Queues, logs: map<int, Log>, queues': Queues, fd: int, log: Log)
    requires AllBalanced(queues, logs) && SameBut(queues, queues', fd)
    requires Balanced(QueueOf(queues', fd), log)
    ensures AllBalanced(queues', logs[fd := log])
  {
    hide Balanced;
    forall k ensures Balanced(QueueOf(queues', k), LogOf(logs[fd := log], k)) {
      assert Balanced(QueueOf(queues, k), LogOf(logs, k));
    }
  }

  // ----- what each operation does to the sets -----

  /** A send was queued for `fd`, caused by `r`: `r` is not read until the queue moves. */
  function Blocked(s: Sets, fd: int, isFirst: bool, r: int): Sets {
    var s1 := if isFirst then s.(send := s.send + {fd}) else s;
    if r != 0 && r in s1.recv then s1.(recv := s1.recv - {r}, tmpRecv := s1.tmpRecv - {r}) else s1
  }

  /** This keeps the invariants unless the first send of a descriptor that is not registered has to wait. */
  lemma BlockedKeeps(s: Sets, m: int, queues: Queues, logs: map<int, Log>, fd: int, e: Entry, log: Log)
    requires Invariant(s, m, queues, logs)
    requires Balanced(QueueOf(queues, fd) + [e], log)
    ensures Invariant(Blocked(s, fd, fd !in queues, e.recvFd), m, queues[fd := QueueOf(queues, fd) + [e]], logs[fd := log])
            <==> fd in s.all || fd in queues
  {
    hide Balanced, Names, Named, AllBalanced;
    var queues' := queues[fd := QueueOf(queues, fd) + [e]];
    BalancedAfterChange(queues, logs, queues', fd, log);
    forall r ensures Named(queues', r) <==> Named(queues, r) || e.recvFd == r {
      NamedAfterAppend(queues, fd, e, r);
    }
  }

  lemma NamedAfterAppend(queues: Queues, fd: int, e: Entry, r: int)
    ensures Named(queues[fd := QueueOf(queues, fd) + [e]], r) <==> Named(queues, r) || e.recvFd == r
  {
    var queues' := queues[fd := QueueOf(queues, fd) + [e]];
    NamesAppend(QueueOf(queues, fd), e, r);
    if e.recvFd == r {
      assert Names(queues'[fd], r);
    } else {
      NamedAfterChange(queues, queues', fd, r);
    }
  }

  /** The queue of `fd` without its first entry. */
  function Popped(queues: Queues, fd: int): (r: Queues)
    requires fd in queues && queues[fd] != []
  {
    if |queues[fd]| > 1 then queues[fd := queues[fd][1..]] else queues - {fd}
  }

  /** The first send of `fd`, caused by `r`, is complete. */
  function Released(s: Sets, fd: int, drained: bool, r: int, named: bool): Sets {
    var s1 := if drained then s.(send := s.send - {fd}) else s;
    if r != 0 && r in s1.all && !named then s1.(recv := s1.recv + {r}) else s1
  }

  lemma ReleasedKeeps(s: Sets, m: int, queues: Queues, logs: map<int, Log>, fd: int, log: Log)
    requires Invariant(s, m, queues, logs) && fd in queues && queues[fd] != []
    requires Balanced(queues[fd][1..], log)
    ensures var q, queues' := queues[fd], Popped(queues, fd);
            Invariant(Released(s, fd, |q| == 1, q[0].recvFd, Named(queues', q[0].recvFd)), m, queues', logs[fd := log])
  {
    hide Balanced, Names, Named, AllBalanced;
    var queues' := Popped(queues, fd);
    var r := queues[fd][0].recvFd;
    assert QueueOf(queues', fd) == queues[fd][1..];
    BalancedAfterChange(queues, logs, queues', fd, log);
    forall k ensures Named(queues, k) <==> Named(queues', k) || k == r {
      NamedAfterPop(queues, fd, k);
    }
  }

  lemma NamedAfterPop(queues: Queues, fd: int, k: int)
    requires fd in queues && queues[fd] != []
    ensures Named(queues, k) <==> Named(Popped(queues, fd), k) || k == queues[fd][0].recvFd
  {
    var queues' := Popped(queues, fd);
    assert QueueOf(queues', fd) == queues[fd][1..];
    NamesStep(queues[fd], k);
    if k == queues[fd][0].recvFd {
      assert Names(queues[fd], k);
    } else {
      NamedAfterChange(queues, queues', fd, k);
    }
  }

  /** The queue of `fd` with its first entry written up to `head`: nothing else changes. */
  lemma AdvancedKeeps(s: Sets, m: int, queues: Queues, logs: map<int, Log>, fd: int, head: nat, log: Log)
    requires Invariant(s, m, queues, logs) && fd in queues && queues[fd] != []
    requires Balanced(Advanced(queues[fd], head), log)
    ensures Invariant(s, m, queues[fd := Advanced(queues[fd], head)], logs[fd := log])
  {
    hide Balanced, Names, Named, AllBalanced;
    var queues' := queues[fd := Advanced(queues[fd], head)];
    BalancedAfterChange(queues, logs, queues', fd, log);
    forall r ensures Named(queues, r) <==> Named(queues', r) {
      NamesStep(queues[fd], r);
      NamesStep(queues'[fd], r);
      assert queues'[fd][1..] == queues[fd][1..];
      NamedAfterChange(queues, queues', fd, r);
    }
  }

  function ClearNames(q: seq<Entry>, fd: int): (r: seq<Entry>)
    ensures |r| == |q|
  {
    seq(|q|, i requires 0 <= i < |q| => if q[i].recvFd == fd then q[i].(recvFd := 0) else q[i])
  }

  /** No queued send names `fd` as its cause any more. */
  function ClearAll(queues: Queues, fd: int): (r: Queues)
    ensures r.Keys == queues.Keys
  {
    map k | k in queues :: ClearNames(queues[k], fd)
  }

  lemma ClearedOthers(q: Queues, q': Queues, q'': Queues, fd: int)
    requires SameBut(q, q', fd) && q'' == ClearAll(q', fd)
    ensures forall k :: k != fd ==> (k in q'' <==> k in q) && (k in q'' ==> q''[k] == ClearNames(q[k], fd))
  {
  }

  lemma {:induction false} QueuedCleared(q: seq<Entry>, fd: int)
    ensures Queued(ClearNames(q, fd)) == Queued(q)
  {
    if q != [] {
      QueuedCleared(q[1..], fd);
      assert ClearNames(q, fd)[1..] == ClearNames(q[1..], fd);
    }
  }

  lemma ClearedBalanced(q: seq<Entry>, log: Log, fd: int)
    requires Balanced(q, log)
    ensures Balanced(ClearNames(q, fd), log)
  {
    hide Queued, Suffix;
    QueuedCleared(q, fd);
  }

  lemma NamedCleared(queues: Queues, fd: int, r: int)
    requires r != fd && r != 0
    ensures Named(ClearAll(queues, fd), r) <==> Named(queues, r)
  {
    var queues': Queues := ClearAll(queues, fd);
    if Named(queues, r) {
      var k :| k in queues && Names(queues[k], r);
      var i :| 0 <= i < |queues[k]| && queues[k][i].recvFd == r;
      assert queues'[k][i].recvFd == r;
      assert Names(queues'[k], r);
    }
    if Named(queues', r) {
      var k :| k in queues' && Names(queues'[k], r);
      var i :| 0 <= i < |queues'[k]| && queues'[k][i].recvFd == r;
      assert queues[k][i].recvFd == r;
      assert Names(queues[k], r);
    }
  }

  function Removed(s: Sets, fd: int): Sets {
    Sets(s.all - {fd}, s.server - {fd}, s.send - {fd}, s.recv - {fd},
         s.tmpSend - {fd}, s.tmpRecv - {fd}, s.tmpFail - {fd})
  }

  /** Removing a descriptor leaves its queue and keeps every invariant. */
  lemma RemovedKeeps(s: Sets, m: int, m': int, queues: Queues, logs: map<int, Log>, fd: int)
    requires Invariant(s, m, queues, logs) && IsMax(s.all - {fd}, m')
    ensures Invariant(Removed(s, fd), m', ClearAll(queues, fd), logs)
  {
    hide Balanced, Named, ClearNames;
    var queues' := ClearAll(queues, fd);
    forall k ensures Balanced(QueueOf(queues', k), LogOf(logs, k)) {
      ClearedBalanced(QueueOf(queues, k), LogOf(logs, k), fd);
      if k !in queues {
        assert QueueOf(queues', k) == QueueOf(queues, k);
      }
    }
    forall r | r != fd && r != 0 ensures Named(queues', r) <==> Named(queues, r) {
      NamedCleared(queues, fd, r);
    }
  }

  function Added(s: Sets, fd: int, isServer: bool): Sets {
    Sets(s.all + {fd}, if isServer then s.server + {fd} else s.server, s.send - {fd}, s.recv + {fd},
         s.tmpSend - {fd}, s.tmpRecv - {fd}, s.tmpFail - {fd})
  }

  /**
   * Adding a descriptor keeps the invariants exactly when its number has no queue left from an
   * earlier life and no queued send names it.
   */
  lemma AddedKeeps(s: Sets, m: int, queues: Queues, logs: map<int, Log>, fd: int, isServer: bool)
    requires Invariant(s, m, queues, logs) && fd >= 0 && fd !in s.all
    ensures Invariant(Added(s, fd, isServer), if fd > m then fd else m, queues, logs)
        <==> fd !in queues && (fd == 0 || !Named(queues, fd))
  {
    hide Named, AllBalanced;
    var s' := Added(s, fd, isServer);
    assert fd in s'.all && fd in s'.recv && fd !in s'.send;
  }

  /** A number that is added again over the queue of its earlier life: nothing waits to send it. */
  lemma ReuseLosesTheQueue(e: Entry, log: Log)
    requires Balanced([e], log) && e.recvFd == 0
    ensures var s := Sets({}, {}, {}, {}, {}, {}, {});
            && Invariant(s, -1, map[5 := [e]], map[5 := log])
            && !Invariant(Added(s, 5, false), 5, map[5 := [e]], map[5 := log])
  {
    hide Balanced, Named;
    var queues, logs := map[5 := [e]], map[5 := log];
    var s := Sets({}, {}, {}, {}, {}, {}, {});
    forall k ensures Balanced(QueueOf(queues, k), LogOf(logs, k)) {
      if k != 5 {
        NothingBalanced();
      }
    }
    AddedKeeps(s, -1, queues, logs, 5, false);
  }

  lemma NothingBalanced()
    ensures Balanced([], Log([], [], [], [], false))
  {
  }

  // ----- the manager -----

  datatype Outcome = Done | Waiting | Fatal

  // ----- what reading causes -----

  /** A send that a handler asks for. */
  datatype Put = Put(fd: int, data: seq<byte>, value: Handle)

  /** What one read of a descriptor yields: nothing yet, an error, the end, or data for the handler. */
  datatype Arrival = WouldBlock | Failed | Ended | Data(sends: seq<Put>, refused: bool)

  /** The reads end with the removal of the descriptor. */
  predicate Drops(arrivals: seq<Arrival>) {
    arrivals != [] && !arrivals[0].WouldBlock? && (!arrivals[0].Data? || arrivals[0].refused || Drops(arrivals[1..]))
  }

  /** What is sent to `k`, in order. */
  function DataTo(sends: seq<Put>, k: int): seq<byte> {
    if sends == [] then []
    else DataTo(sends[..|sends| - 1], k) + if sends[|sends| - 1].fd == k then sends[|sends| - 1].data else []
  }

  function RequestsTo(sends: seq<Put>, k: int): seq<Request> {
    if sends == [] then []
    else RequestsTo(sends[..|sends| - 1], k) +
         if sends[|sends| - 1].fd == k then [Request(sends[|sends| - 1].value, sends[|sends| - 1].data)] else []
  }

  /** Every send is in what is sent to its descriptor, between those before it and those after it. */
  lemma InItsPlace(a: seq<Put>, p: Put, b: seq<Put>)
    ensures DataTo(a + [p] + b, p.fd) == DataTo(a, p.fd) + p.data + DataTo(b, p.fd)
    ensures RequestsTo(a + [p] + b, p.fd) == RequestsTo(a, p.fd) + [Request(p.value, p.data)] + RequestsTo(b, p.fd)
  {
    hide DataTo, RequestsTo;
    SentAfter(a + [p], b, p.fd);
    SentAfter(a, [p], p.fd);
    OneSend(p);
  }

  lemma OneSend(p: Put)
    ensures DataTo([p], p.fd) == p.data && RequestsTo([p], p.fd) == [Request(p.value, p.data)]
  {
  }

  lemma {:induction false} NotAddressed(sends: seq<Put>, k: int)
    requires forall i :: 0 <= i < |sends| ==> sends[i].fd != k
    ensures DataTo(sends, k) == [] && RequestsTo(sends, k) == []
  {
    if sends != [] {
      NotAddressed(sends[..|sends| - 1], k);
    }
  }

  lemma {:induction false} SentAfter(a: seq<Put>, b: seq<Put>, k: int)
    ensures DataTo(a + b, k) == DataTo(a, k) + DataTo(b, k)
    ensures RequestsTo(a + b, k) == RequestsTo(a, k) + RequestsTo(b, k)
    decreases |b|
  {
    hide DataTo, RequestsTo;
    if b == [] {
      assert a + b == a;
      NoSends(k);
    } else {
      var n := |b| - 1;
      SentAfter(a, b[..n], k);
      assert (a + b)[..|a + b| - 1] == a + b[..n] && (a + b)[|a + b| - 1] == b[n];
      LastSend(a + b, k);
      LastSend(b, k);
    }
  }

  lemma NoSends(k: int)
    ensures DataTo([], k) == [] && RequestsTo([], k) == []
  {
  }

  lemma LastSend(sends: seq<Put>, k: int)
    requires sends != []
    ensures var n := |sends| - 1;
            && DataTo(sends, k) == DataTo(sends[..n], k) + (if sends[n].fd == k then sends[n].data else [])
            && RequestsTo(sends, k) ==
               RequestsTo(sends[..n], k) + (if sends[n].fd == k then [Request(sends[n].value, sends[n].data)] else [])
  {
  }

  /** All the sends asked for, up to and including the read that ends the reading. */
  function Caused(arrivals: seq<Arrival>): seq<Put> {
    if arrivals == [] || !arrivals[0].Data? then []
    else arrivals[0].sends + if arrivals[0].refused then [] else Caused(arrivals[1..])
  }

  /** Data that is refused ends the reading, its sends being made; any other data is followed by the rest. */
  lemma {:induction false} CausedBy(arrivals: seq<Arrival>, n: nat)
    requires n < |arrivals| && arrivals[n].Data?
    requires forall i :: 0 <= i < n ==> arrivals[i].Data? && !arrivals[i].refused
    ensures Caused(arrivals) ==
            Caused(arrivals[..n]) + arrivals[n].sends + if arrivals[n].refused then [] else Caused(arrivals[n + 1..])
    decreases n
  {
    if n > 0 {
      CausedBy(arrivals[1..], n - 1);
      CausedFirst(arrivals);
      CausedFirst(arrivals[..n]);
      hide Caused;
      assert arrivals[1..][..n - 1] == arrivals[..n][1..];
      var last := if arrivals[n].refused then [] else Caused(arrivals[n + 1..]);
      InFront(arrivals[0].sends, Caused(arrivals[..n][1..]), arrivals[n].sends, last);
    } else {
      assert arrivals[..0] == [];
    }
  }

  /** What one read adds. */
  lemma ReadNext(arrivals: seq<Arrival>, i: nat)
    requires i < |arrivals| && !arrivals[i].WouldBlock?
    ensures Drops(arrivals[i..]) <==> !arrivals[i].Data? || arrivals[i].refused || Drops(arrivals[i + 1..])
    ensures arrivals[i].Data? ==>
              Caused(arrivals[i..]) == arrivals[i].sends + if arrivals[i].refused then [] else Caused(arrivals[i + 1..])
    ensures !arrivals[i].Data? ==> Caused(arrivals[i..]) == []
  {
    assert arrivals[i..][1..] == arrivals[i + 1..];
  }

  lemma NothingRead(arrivals: seq<Arrival>)
    requires arrivals == [] || arrivals[0].WouldBlock?
    ensures !Drops(arrivals) && Caused(arrivals) == []
  {
  }

  lemma AddedInFront(a: seq<Put>, b: seq<Put>, c: seq<Put>)
    ensures a + (b + c) == (a + b) + c
  {
  }

  lemma CausedFirst(arrivals: seq<Arrival>)
    requires arrivals != [] && arrivals[0].Data? && !arrivals[0].refused
    ensures Caused(arrivals) == arrivals[0].sends + Caused(arrivals[1..])
  {
  }

  lemma InFront(a: seq<Put>, b: seq<Put>, c: seq<Put>, d: seq<Put>)
    ensures a + (b + c + d) == (a + b) + c + d
  {
  }

  /** The log of every descriptor grew by what was sent to it; nothing written or completed is taken back. */
  ghost predicate Grown(logs: map<int, Log>, logs': map<int, Log>, sends: seq<Put>) {
    forall k :: GrownBy(LogOf(logs, k), LogOf(logs', k), sends, k)
  }

  predicate GrownBy(log: Log, log': Log, sends: seq<Put>, k: int) {
    && log'.accepted == log.accepted + DataTo(sends, k)
    && log'.requests == log.requests + RequestsTo(sends, k)
    && log.written <= log'.written && log.completed <= log'.completed && (log.failed ==> log'.failed)
  }

  lemma GrownNone(logs: map<int, Log>)
    ensures Grown(logs, logs, [])
  {
  }

  lemma GrownOne(logs: map<int, Log>, logs1: map<int, Log>, logs2: map<int, Log>, sends: seq<Put>, i: nat,
                 head: nat, done: bool, fatal: bool)
    requires i < |sends| && head <= |sends[i].data| && Grown(logs, logs1, sends[..i])
    requires var p := sends[i];
             logs2 == logs1[p.fd := Sent(LogOf(logs1, p.fd), Request(p.value, p.data), head, done, fatal)]
    ensures Grown(logs, logs2, sends[..i + 1])
  {
    hide Sent, DataTo, RequestsTo, GrownBy;
    forall k ensures GrownBy(LogOf(logs, k), LogOf(logs2, k), sends[..i + 1], k) {
      assert GrownBy(LogOf(logs, k), LogOf(logs1, k), sends[..i], k);
      if k == sends[i].fd {
        SentGrows(LogOf(logs, k), LogOf(logs1, k), sends, i, head, done, fatal);
      } else {
        OthersGrow(LogOf(logs, k), LogOf(logs1, k), sends, i, k);
      }
    }
  }

  lemma SentGrows(log: Log, log1: Log, sends: seq<Put>, i: nat, head: nat, done: bool, fatal: bool)
    requires i < |sends| && head <= |sends[i].data| && GrownBy(log, log1, sends[..i], sends[i].fd)
    ensures GrownBy(log, Sent(log1, Request(sends[i].value, sends[i].data), head, done, fatal), sends[..i + 1], sends[i].fd)
  {
    var now := sends[..i + 1];
    assert now[..i] == sends[..i];
  }

  lemma OthersGrow(log: Log, log1: Log, sends: seq<Put>, i: nat, k: int)
    requires i < |sends| && sends[i].fd != k && GrownBy(log, log1, sends[..i], k)
    ensures GrownBy(log, log1, sends[..i + 1], k)
  {
    var now := sends[..i + 1];
    assert now[..i] == sends[..i];
  }

  lemma GrownTwice(logs: map<int, Log>, logs1: map<int, Log>, logs2: map<int, Log>, a: seq<Put>, b: seq<Put>)
    requires Grown(logs, logs1, a) && Grown(logs1, logs2, b)
    ensures Grown(logs, logs2, a + b)
  {
    hide GrownBy, LogOf;
    forall k ensures GrownBy(LogOf(logs, k), LogOf(logs2, k), a + b, k) {
      assert GrownBy(LogOf(logs, k), LogOf(logs1, k), a, k) && GrownBy(LogOf(logs1, k), LogOf(logs2, k), b, k);
      GrownByBoth(LogOf(logs, k), LogOf(logs1, k), LogOf(logs2, k), a, b, k);
    }
  }

  lemma GrownByBoth(log: Log, log1: Log, log2: Log, a: seq<Put>, b: seq<Put>, k: int)
    requires GrownBy(log, log1, a, k) && GrownBy(log1, log2, b, k)
    ensures GrownBy(log, log2, a + b, k)
  {
    hide DataTo, RequestsTo;
    SentAfter(a, b, k);
  }

  predicate LongerBy(q: seq<Entry>, q': seq<Entry>, r: int) {
    q <= q' && forall i :: |q| <= i < |q'| ==> q'[i].recvFd == r
  }

  /** The queues only grew, by sends that name `r`. */
  ghost predicate Appended(queues: Queues, queues': Queues, r: int) {
    forall k :: LongerBy(QueueOf(queues, k), QueueOf(queues', k), r)
  }

  lemma AppendedNone(queues: Queues, r: int)
    ensures Appended(queues, queues, r)
  {
  }

  lemma AppendedTwice(q: Queues, q': Queues, q'': Queues, r: int)
    requires Appended(q, q', r) && Appended(q', q'', r)
    ensures Appended(q, q'', r)
  {
    forall k ensures LongerBy(QueueOf(q, k), QueueOf(q'', k), r) {
      assert LongerBy(QueueOf(q, k), QueueOf(q', k), r) && LongerBy(QueueOf(q', k), QueueOf(q'', k), r);
    }
  }

  lemma AppendedOne(q: Queues, q': Queues, fd: int, e: Entry)
    requires Appended(q, q', e.recvFd)
    ensures Appended(q, q'[fd := QueueOf(q', fd) + [e]], e.recvFd)
  {
    var q'' := q'[fd := QueueOf(q', fd) + [e]];
    forall k ensures LongerBy(QueueOf(q', k), QueueOf(q'', k), e.recvFd) {
    }
    AppendedTwice(q, q', q'', e.recvFd);
  }

  lemma NoEmptyQueue(s: Sets, m: int, queues: Queues, logs: map<int, Log>)
    requires Invariant(s, m, queues, logs)
    ensures forall k :: k in queues ==> queues[k] != []
  {
  }

  /** A descriptor that caused a send that waits is not read. */
  lemma PausedWhenAppended(s: Sets, m: int, was: Queues, queues: Queues, logs: map<int, Log>, r: int)
    requires Invariant(s, m, queues, logs) && Appended(was, queues, r) && r != 0 && queues != was
    requires forall k :: k in was ==> was[k] != []
    ensures r !in s.recv
  {
    hide AllBalanced, LongerBy;
    if forall k :: QueueOf(queues, k) == QueueOf(was, k) {
      SameQueues(was, queues);
    } else {
      var k :| QueueOf(queues, k) != QueueOf(was, k);
      assert LongerBy(QueueOf(was, k), QueueOf(queues, k), r);
      Grew(QueueOf(was, k), QueueOf(queues, k), r);
      assert k in queues && Names(queues[k], r);
    }
  }

  lemma SameQueues(was: Queues, queues: Queues)
    requires forall k :: k in was ==> was[k] != []
    requires forall k :: k in queues ==> queues[k] != []
    requires forall k :: QueueOf(queues, k) == QueueOf(was, k)
    ensures queues == was
  {
    forall k ensures k in was <==> k in queues {
      assert QueueOf(queues, k) == QueueOf(was, k);
    }
    forall k | k in was ensures was[k] == queues[k] {
      assert QueueOf(queues, k) == QueueOf(was, k);
    }
  }

  lemma Grew(q: seq<Entry>, q': seq<Entry>, r: int)
    requires LongerBy(q, q', r) && q' != q
    ensures Names(q', r)
  {
    assert q'[|q|].recvFd == r;
  }

  lemma NotNamedAfter(queues: Queues, fd: int)
    requires fd != 0
    ensures !Named(ClearAll(queues, fd), fd)
  {
    var queues' := ClearAll(queues, fd);
    forall k | k in queues' ensures !Names(queues'[k], fd) {
    }
  }

  class Manager {
    /** What the kernel answers to each write: an error, or how much it takes at most. */
    const kernel: nat -> int
    var calls: nat

    var allFds: set<int>
    var maxFd: int
    var serverFds: set<int>
    var sendFds: set<int>
    var recvFds: set<int>
    var queues: Queues
    var tmpSendFds: set<int>
    var tmpRecvFds: set<int>
    var tmpFailFds: set<int>
    var currRecvFd: int
    ghost var logs: map<int, Log>

    function View(): Sets
      reads this
    {
      Sets(allFds, serverFds, sendFds, recvFds, tmpSendFds, tmpRecvFds, tmpFailFds)
    }

    ghost predicate Valid()
      reads this
    {
      Invariant(View(), maxFd, queues, logs)
    }

    constructor (kernel: nat -> int)
      ensures Valid() && this.kernel == kernel && calls == 0
      ensures View() == Sets({}, {}, {}, {}, {}, {}, {}) && maxFd == -1 && queues == map[] && logs == map[]
      ensures currRecvFd == 0
    {
      this.kernel, calls := kernel, 0;
      allFds, serverFds, sendFds, recvFds := {}, {}, {}, {};
      tmpSendFds, tmpRecvFds, tmpFailFds := {}, {}, {};
      maxFd, currRecvFd, queues, logs := -1, 0, map[], map[];
      NothingBalanced();
    }

    method AddFd(fd: int, isServer: bool) returns (ok: bool)
      requires Valid() && fd >= 0
      modifies `allFds, `serverFds, `sendFds, `recvFds, `tmpSendFds, `tmpRecvFds, `tmpFailFds, `maxFd
      ensures ok <==> fd !in old(allFds)
      ensures !ok ==> View() == old(View()) && maxFd == old(maxFd)
      ensures ok ==> View() == Added(old(View()), fd, isServer) && maxFd == if fd > old(maxFd) then fd else old(maxFd)
      ensures ok ==> allFds == old(allFds) + {fd} && recvFds == old(recvFds) + {fd} && sendFds == old(sendFds) - {fd}
      ensures ok ==> serverFds == if isServer then old(serverFds) + {fd} else old(serverFds)
      ensures ok ==> tmpSendFds == old(tmpSendFds) - {fd} && tmpRecvFds == old(tmpRecvFds) - {fd}
                     && tmpFailFds == old(tmpFailFds) - {fd}
      ensures Valid() <==> !ok || (fd !in queues && (fd == 0 || !Named(queues, fd)))
    {
      hide Invariant, Named;
      if fd in allFds {
        return false;
      }
      AddedKeeps(View(), maxFd, queues, logs, fd, isServer);
      allFds, sendFds, recvFds := allFds + {fd}, sendFds - {fd}, recvFds + {fd};
      tmpSendFds, tmpRecvFds, tmpFailFds := tmpSendFds - {fd}, tmpRecvFds - {fd}, tmpFailFds - {fd};
      if isServer {
        serverFds := serverFds + {fd};
      }
      if fd > maxFd {
        maxFd := fd;
      }
      return true;
    }

    /** One write: negative when it failed, 0 when it would block. */
    method Write(fd: int, data: seq<byte>) returns (n: int)
      modifies `calls, `logs
      ensures calls == old(calls) + 1
      ensures n == if kernel(old(calls)) > |data| then |data| else kernel(old(calls))
      ensures logs == old(logs)[fd := Wrote(LogOf(old(logs), fd), data[..if n > 0 then n else 0])]
    {
      n := kernel(calls);
      calls := calls + 1;
      if n > |data| {
        n := |data|;
      }
      logs := logs[fd := Wrote(LogOf(logs, fd), data[..if n > 0 then n else 0])];
    }

    /** The callback for a completed send. */
    method OnSent(fd: int, value: Handle, data: seq<byte>)
      modifies `logs
      ensures logs == old(logs)[fd := Reported(LogOf(old(logs), fd), Request(value, data))]
    {
      logs := logs[fd := Reported(LogOf(logs, fd), Request(value, data))];
    }

    /** Write from `head` until all is written or the kernel takes no more. */
    method WriteFrom(fd: int, data: seq<byte>, head: nat) returns (head': nat, outcome: Outcome)
      requires head <= |data| && fd in logs
      modifies `calls, `logs
      ensures head <= head' <= |data| && calls > old(calls)
      ensures outcome == Done ==> head < head' == |data|
      ensures outcome == Waiting ==> head == |data| || (head' < |data| && kernel(calls - 1) == 0)
      ensures outcome == Fatal <==> kernel(calls - 1) < 0
      ensures logs == old(logs)[fd := Wrote(LogOf(old(logs), fd), data[head..head'])]
    {
      hide Wrote;
      head' := head;
      ghost var log := LogOf(logs, fd);
      WroteNothing(log, data, head);
      while true
        invariant head <= head' <= |data| && calls >= old(calls)
        invariant head' == |data| ==> head == |data|
        invariant logs == old(logs)[fd := Wrote(log, data[head..head'])]
        decreases |data| - head'
      {
        var n := Write(fd, data[head'..]);
        WroteNext(log, data, head, head', if n > 0 then n else 0);
        if n <= 0 {
          return head', if n < 0 then Fatal else Waiting;
        }
        head' := head' + n;
        if head' >= |data| {
          return head', Done;
        }
      }
    }

    /**
     * Send data: at once as far as the kernel takes it, the rest from a queue. The descriptor
     * being read, if any, is not read again until the rest is sent.
     */
    method Send(fd: int, data: seq<byte>, value: Handle) returns (ok: bool, ghost outcome: Outcome, ghost head: nat)
      requires Valid()
      modifies `calls, `sendFds, `recvFds, `tmpRecvFds, `queues, `logs
      ensures Valid() <==> outcome != Waiting || fd in allFds || fd in old(queues)
      ensures head <= |data| && (ok <==> outcome != Fatal) && calls >= old(calls)
      ensures fd in old(queues) ==> outcome == Waiting && head == 0
      ensures outcome == Done ==> head == |data|
      ensures outcome == Waiting && fd !in old(queues) ==> data == [] || (calls > 0 && kernel(calls - 1) == 0)
      ensures logs == old(logs)[fd := Sent(LogOf(old(logs), fd), Request(value, data), head,
                                           outcome == Done, outcome == Fatal)]
      ensures var log, log' := LogOf(old(logs), fd), LogOf(logs, fd);
              && log'.accepted == log.accepted + data && log'.requests == log.requests + [Request(value, data)]
              && log'.written == log.written + data[..head]
              && log'.completed == log.completed + (if outcome == Done then [Request(value, data)] else [])
      ensures outcome != Waiting ==> View() == old(View()) && queues == old(queues)
      ensures outcome == Waiting ==> sendFds == (if fd in old(queues) then old(sendFds) else old(sendFds) + {fd})
      ensures outcome == Waiting ==> recvFds == (if currRecvFd == 0 then old(recvFds) else old(recvFds) - {currRecvFd})
      ensures outcome == Waiting ==>
                tmpRecvFds == (if currRecvFd == 0 || currRecvFd !in old(recvFds) then old(tmpRecvFds)
                               else old(tmpRecvFds) - {currRecvFd})
      ensures outcome == Waiting ==>
                && View() == Blocked(old(View()), fd, fd !in old(queues), currRecvFd)
                && queues == old(queues)[fd := QueueOf(old(queues), fd) + [Entry(value, currRecvFd, data[head..], 0)]]
    {
      hide Invariant, Balanced, Sent;
      var sendq := QueueOf(queues, fd);
      ghost var r, logs0 := Request(value, data), logs;
      BalancedAt(View(), maxFd, queues, logs, fd);
      logs := logs[fd := Asked(LogOf(logs, fd), r)];
      var i := 0;
      if sendq == [] {
        var done;
        i, done := SendAtOnce(fd, data, value, logs0);
        SentIs(LogOf(logs0, fd), r, i, done == Done, done == Fatal);
        if done != Waiting {
          return done == Done, done, i;
        }
      } else {
        AskedOnly(LogOf(logs0, fd), r);
        SentIs(LogOf(logs0, fd), r, 0, false, false);
      }
      QueuedBalanced(sendq, LogOf(logs0, fd), r, i, currRecvFd);
      Enqueue(fd, sendq, Entry(value, currRecvFd, data[i..], 0), logs0);
      return true, Waiting, i;
    }

    /** With nothing queued, write as much as the kernel takes; report the send if that is all. */
    method SendAtOnce(fd: int, data: seq<byte>, value: Handle, ghost logs0: map<int, Log>)
      returns (i: nat, outcome: Outcome)
      requires Invariant(View(), maxFd, queues, logs0) && fd !in queues
      requires logs == logs0[fd := Asked(LogOf(logs0, fd), Request(value, data))]
      modifies `calls, `logs
      ensures i <= |data| && calls > old(calls)
      ensures outcome == Done ==> i == |data|
      ensures outcome == Waiting ==> data == [] || kernel(calls - 1) == 0
      ensures outcome != Waiting ==> Valid()
      ensures logs == logs0[fd := Sent(LogOf(logs0, fd), Request(value, data), i, outcome == Done, outcome == Fatal)]
    {
      hide Invariant, Balanced;
      ghost var log, r := LogOf(logs0, fd), Request(value, data);
      i, outcome := WriteFrom(fd, data, 0);
      if outcome == Done {
        OnSent(fd, value, data);
        SentKeeps(View(), maxFd, queues, logs0, fd, r, i, Done);
        assert logs == logs0[fd := Sent(log, r, i, true, false)];
      } else if outcome == Fatal {
        logs := logs[fd := LogOf(logs, fd).(failed := true)];
        SentKeeps(View(), maxFd, queues, logs0, fd, r, i, Fatal);
        assert logs == logs0[fd := Sent(log, r, i, false, true)];
      }
    }

    /** Put an entry at the end of the queue of a descriptor. */
    method Enqueue(fd: int, sendq: seq<Entry>, newq: Entry, ghost logs0: map<int, Log>)
      requires Invariant(View(), maxFd, queues, logs0) && logs == logs0[fd := LogOf(logs, fd)]
      requires sendq == QueueOf(queues, fd) && newq.recvFd == currRecvFd
      requires Balanced(sendq + [newq], LogOf(logs, fd))
      modifies `sendFds, `recvFds, `tmpRecvFds, `queues
      ensures Valid() <==> fd in allFds || fd in old(queues)
      ensures View() == Blocked(old(View()), fd, fd !in old(queues), currRecvFd) && queues == old(queues)[fd := sendq + [newq]]
    {
      hide Invariant, Balanced, LogOf;
      BalancedAt(View(), maxFd, queues, logs0, fd);
      BlockedKeeps(View(), maxFd, queues, logs0, fd, newq, LogOf(logs, fd));
      if sendq == [] {
        sendFds := sendFds + {fd};
      }
      queues := queues[fd := sendq + [newq]];
      if currRecvFd != 0 && currRecvFd in recvFds {
        recvFds, tmpRecvFds := recvFds - {currRecvFd}, tmpRecvFds - {currRecvFd};
      }
      assert View() == Blocked(old(View()), fd, fd !in old(queues), currRecvFd);
    }

    /** Forget a descriptor; what it still has queued stays. Its close callback has run before. */
    method RemoveFd(fd: int) returns (ok: bool)
      requires Valid()
      modifies `allFds, `serverFds, `sendFds, `recvFds, `tmpSendFds, `tmpRecvFds, `tmpFailFds, `maxFd, `queues
      ensures Valid()
      ensures ok <==> fd in old(allFds)
      ensures !ok ==> View() == old(View()) && queues == old(queues)
      ensures ok ==> View() == Removed(old(View()), fd) && queues == ClearAll(old(queues), fd)
      ensures ok ==> allFds == old(allFds) - {fd} && serverFds == old(serverFds) - {fd} && sendFds == old(sendFds) - {fd}
                     && recvFds == old(recvFds) - {fd} && tmpSendFds == old(tmpSendFds) - {fd}
                     && tmpRecvFds == old(tmpRecvFds) - {fd} && tmpFailFds == old(tmpFailFds) - {fd}
      ensures ok ==> queues.Keys == old(queues).Keys
      ensures ok ==> forall k, i :: k in queues && 0 <= i < |queues[k]| ==>
                |queues[k]| == |old(queues)[k]| &&
                queues[k][i] == (if old(queues)[k][i].recvFd == fd then old(queues)[k][i].(recvFd := 0) else old(queues)[k][i])
    {
      hide Invariant;
      if fd !in allFds {
        return false;
      }
      MaxAt(View(), maxFd, queues, logs);
      var max := MaxWithout(fd);
      RemovedKeeps(View(), maxFd, max, queues, logs, fd);
      var cleared := ClearCause(fd);
      DropFd(fd);
      maxFd, queues := max, cleared;
      return true;
    }

    /** Write the rest of a queued send. */
    method WriteRest(fd: int, data: seq<byte>, head: nat) returns (head': nat, fatal: bool)
      requires head <= |data| && fd in logs
      modifies `calls, `logs
      ensures head <= head' <= |data| && calls >= old(calls)
      ensures head' < |data| && !fatal ==> calls > 0 && kernel(calls - 1) == 0
      ensures fatal ==> calls > 0 && kernel(calls - 1) < 0
      ensures logs == old(logs)[fd := Wrote(LogOf(old(logs), fd), data[head..head'])]
    {
      hide Wrote;
      head' := head;
      ghost var log := LogOf(logs, fd);
      WroteNothing(log, data, head);
      while head' < |data|
        invariant head <= head' <= |data| && calls >= old(calls)
        invariant logs == old(logs)[fd := Wrote(log, data[head..head'])]
        decreases |data| - head'
      {
        var n := Write(fd, data[head'..]);
        WroteNext(log, data, head, head', if n > 0 then n else 0);
        if n <= 0 {
          return head', n < 0;
        }
        head' := head' + n;
      }
      fatal := false;
    }

    /**
     * The descriptor can take more: send what is queued for it until the kernel stops, reporting
     * each send as it completes and reading again from a descriptor whose sends are all through.
     */
    method Resend(fd: int) returns (ok: bool)
      requires Valid()
      modifies this
      ensures Valid()
      ensures forall k :: k != fd ==> LogOf(logs, k) == LogOf(old(logs), k)
      ensures Continues(LogOf(old(logs), fd), LogOf(logs, fd), !ok)
      ensures ok ==> fd !in queues || (calls > 0 && kernel(calls - 1) == 0)
      ensures ok ==> SameBut(old(queues), queues, fd) && allFds == old(allFds)
      ensures !ok ==> allFds == old(allFds) - {fd} && calls > 0 && kernel(calls - 1) < 0
      ensures !ok && fd in old(allFds) ==> forall k :: k != fd ==>
                (k in queues <==> k in old(queues)) && (k in queues ==> queues[k] == ClearNames(old(queues)[k], fd))
      ensures currRecvFd == old(currRecvFd)
    {
      hide Invariant, ClearAll, LogOf, QueueOf, Continues;
      ContinuesTwice(LogOf(logs, fd), LogOf(logs, fd), LogOf(logs, fd), false);
      while fd in queues
        invariant Valid() && allFds == old(allFds) && SameBut(old(queues), queues, fd)
        invariant forall k :: k != fd ==> LogOf(logs, k) == LogOf(old(logs), k)
        invariant Continues(LogOf(old(logs), fd), LogOf(logs, fd), false)
        invariant currRecvFd == old(currRecvFd)
        decreases |QueueOf(queues, fd)|
      {
        ghost var was := LogOf(logs, fd);
        var outcome := ResendFirst(fd);
        ContinuesTwice(LogOf(old(logs), fd), was, LogOf(logs, fd), outcome == Fatal);
        if outcome == Fatal {
          ghost var was := queues;
          var registered := RemoveFd(fd);
          if registered {
            ClearedOthers(old(queues), was, queues, fd);
          }
          return false;
        }
        if outcome == Waiting {
          return true;
        }
      }
      return true;
    }

    /** Go on with the first queued send of a descriptor. */
    method ResendFirst(fd: int) returns (outcome: Outcome)
      requires Valid() && fd in queues
      modifies `calls, `queues, `logs, `sendFds, `recvFds
      ensures Valid()
      ensures forall k :: k != fd ==> LogOf(logs, k) == LogOf(old(logs), k)
      ensures Continues(LogOf(old(logs), fd), LogOf(logs, fd), outcome == Fatal)
      ensures SameBut(old(queues), queues, fd)
      ensures outcome == Done ==> |QueueOf(queues, fd)| < |QueueOf(old(queues), fd)|
      ensures outcome == Waiting ==> calls > 0 && kernel(calls - 1) == 0
      ensures outcome == Fatal ==> calls > 0 && kernel(calls - 1) < 0
    {
      hide Invariant, Balanced, Named;
      BalancedAt(View(), maxFd, queues, logs, fd);
      var sendq := queues[fd][0];
      EntryFits(queues[fd], LogOf(logs, fd));
      LoggedIfQueued(queues, logs, fd);
      ghost var logs0 := logs;
      var head, fatal := WriteRest(fd, sendq.data, sendq.head);
      if fatal {
        Fail(fd, logs0);
        return Fatal;
      }
      Advance(fd, head, logs0);
      if head < |sendq.data| {
        return Waiting;
      }
      Complete(fd);
      return Done;
    }

    /** A queued send could not be written: what it wrote is lost. */
    ghost method Fail(fd: int, logs0: map<int, Log>)
      requires Invariant(View(), maxFd, queues, logs0) && logs == logs0[fd := LogOf(logs, fd)] && fd in queues
      modifies `logs
      ensures Valid()
      ensures logs == old(logs)[fd := LogOf(old(logs), fd).(failed := true)]
    {
      hide Invariant, Balanced;
      BalancedAt(View(), maxFd, queues, logs0, fd);
      var log := LogOf(logs, fd).(failed := true);
      EntryFits(queues[fd], LogOf(logs0, fd));
      FailedBalanced(queues[fd], log);
      LogKeeps(View(), maxFd, queues, logs0, fd, log);
      logs := logs[fd := log];
      assert logs == logs0[fd := log];
    }

    /** The first entry was written up to `head`. */
    method Advance(fd: int, head: nat, ghost logs0: map<int, Log>)
      requires Invariant(View(), maxFd, queues, logs0) && fd in queues && queues[fd] != []
      requires queues[fd][0].head <= head <= |queues[fd][0].data|
      requires logs == logs0[fd := Written(LogOf(logs0, fd), queues[fd][0], head)]
      modifies `queues
      ensures Valid()
      ensures queues == old(queues)[fd := Advanced(old(queues)[fd], head)]
    {
      hide Invariant, Balanced;
      BalancedAt(View(), maxFd, queues, logs0, fd);
      WrittenBalanced(queues[fd], LogOf(logs0, fd), head);
      AdvancedKeeps(View(), maxFd, queues, logs0, fd, head, Written(LogOf(logs0, fd), queues[fd][0], head));
      queues := queues[fd := Advanced(queues[fd], head)];
    }

    /** The first entry is through: report it, drop it, and read again from its cause if nothing else names it. */
    method Complete(fd: int)
      requires Valid() && fd in queues && queues[fd] != [] && queues[fd][0].head == |queues[fd][0].data|
      modifies `queues, `logs, `sendFds, `recvFds
      ensures Valid()
      ensures queues == Popped(old(queues), fd)
      ensures logs == old(logs)[fd := Completed(LogOf(old(logs), fd), old(queues)[fd][0])]
      ensures View() == Released(old(View()), fd, |old(queues)[fd]| == 1, old(queues)[fd][0].recvFd,
                                 Named(queues, old(queues)[fd][0].recvFd))
      ensures sendFds == if |old(queues)[fd]| == 1 then old(sendFds) - {fd} else old(sendFds)
      ensures var r := old(queues)[fd][0].recvFd;
              recvFds == if r != 0 && r in allFds && !Named(queues, r) then old(recvFds) + {r} else old(recvFds)
      ensures forall k :: k != fd ==> (k in queues <==> k in old(queues)) && (k in queues ==> queues[k] == old(queues)[k])
      ensures fd in queues <==> |old(queues)[fd]| > 1
      ensures fd in queues ==> queues[fd] == old(queues)[fd][1..]
      ensures LogOf(logs, fd).completed == LogOf(old(logs), fd).completed
                                           + [Request(old(queues)[fd][0].value, old(queues)[fd][0].data)]
    {
      hide Invariant, Balanced, Named;
      BalancedAt(View(), maxFd, queues, logs, fd);
      var sendq := queues[fd][0];
      CompletedBalanced(queues[fd], LogOf(logs, fd));
      ReleasedKeeps(View(), maxFd, queues, logs, fd, Completed(LogOf(logs, fd), sendq));
      OnSent(fd, sendq.value, sendq.data);
      var drained := |queues[fd]| == 1;
      queues := Popped(queues, fd);
      if drained {
        sendFds := sendFds - {fd};
      }
      if sendq.recvFd != 0 && sendq.recvFd in allFds {
        var found := FindCause(sendq.recvFd);
        if !found {
          recvFds := recvFds + {sendq.recvFd};
        }
      }
    }

    /** What a handler sends while `currRecvFd` is read: each send that has to wait names it. */
    method SendAll(sends: seq<Put>)
      requires Valid() && forall i :: 0 <= i < |sends| ==> sends[i].fd in allFds
      modifies `calls, `sendFds, `recvFds, `tmpRecvFds, `queues, `logs
      ensures Valid() && Appended(old(queues), queues, currRecvFd)
      ensures Grown(old(logs), logs, sends)
    {
      hide Invariant, Blocked, Appended, Grown, Sent;
      AppendedNone(queues, currRecvFd);
      GrownNone(logs);
      assert sends[..0] == [];
      for i := 0 to |sends|
        invariant Valid() && Appended(old(queues), queues, currRecvFd)
        invariant Grown(old(logs), logs, sends[..i])
      {
        ghost var was, wasLogs := queues, logs;
        var _, outcome, head := Send(sends[i].fd, sends[i].data, sends[i].value);
        GrownOne(old(logs), wasLogs, logs, sends, i, head, outcome == Done, outcome == Fatal);
        if outcome == Waiting {
          AppendedOne(old(queues), was, sends[i].fd, Entry(sends[i].value, currRecvFd, sends[i].data[head..], 0));
        }
      }
      assert sends[..|sends|] == sends;
    }

    /**
     * Read a descriptor until nothing more is there. Every send that its handlers cause and that
     * has to wait names it, and then it is not read again before these sends are done; it is
     * removed when the read fails, at the end of its stream and when a handler refuses the data.
     */
    method Recv(fd: int, arrivals: seq<Arrival>) returns (removed: bool)
      requires Valid() && fd in allFds
      requires forall i, j :: 0 <= i < |arrivals| && arrivals[i].Data? && 0 <= j < |arrivals[i].sends| ==>
                 arrivals[i].sends[j].fd in allFds
      modifies this
      ensures Valid() && currRecvFd == 0
      ensures removed <==> Drops(arrivals)
      ensures allFds == if removed then old(allFds) - {fd} else old(allFds)
      ensures Grown(old(logs), logs, Caused(arrivals))
      ensures removed ==> fd == 0 || !Named(queues, fd)
      ensures !removed ==> Appended(old(queues), queues, fd)
      ensures !removed && fd != 0 && queues != old(queues) ==> fd !in recvFds
    {
      hide Invariant, Named, Appended, Grown, Caused, Drops;
      NoEmptyQueue(View(), maxFd, queues, logs);
      currRecvFd := fd;
      removed := ReadAll(fd, arrivals);
      if removed {
        ghost var was := queues;
        var _ := RemoveFd(fd);
        if fd != 0 {
          NotNamedAfter(was, fd);
        }
      } else if fd != 0 && queues != old(queues) {
        PausedWhenAppended(View(), maxFd, old(queues), queues, logs, fd);
      }
      currRecvFd := 0;
    }

    /** The reads of one descriptor, up to the one that ends them. */
    method ReadAll(fd: int, arrivals: seq<Arrival>) returns (ends: bool)
      requires Valid() && currRecvFd == fd
      requires forall i, j :: 0 <= i < |arrivals| && arrivals[i].Data? && 0 <= j < |arrivals[i].sends| ==>
                 arrivals[i].sends[j].fd in allFds
      modifies `calls, `sendFds, `recvFds, `tmpRecvFds, `queues, `logs
      ensures Valid() && (ends <==> Drops(arrivals))
      ensures Appended(old(queues), queues, fd) && Grown(old(logs), logs, Caused(arrivals))
    {
      hide Invariant, Named, Appended, Grown, Drops, Caused;
      AppendedNone(queues, fd);
      GrownNone(logs);
      ends := false;
      var i := 0;
      ghost var made: seq<Put> := [];
      assert arrivals[0..] == arrivals;
      while i < |arrivals| && !ends && !arrivals[i].WouldBlock?
        invariant i <= |arrivals| && Valid() && Appended(old(queues), queues, fd)
        invariant Drops(arrivals) <==> ends || Drops(arrivals[i..])
        invariant Grown(old(logs), logs, made)
        invariant Caused(arrivals) == made + if ends then [] else Caused(arrivals[i..])
      {
        ReadNext(arrivals, i);
        if arrivals[i].Data? {
          ghost var was, wasLogs := queues, logs;
          SendAll(arrivals[i].sends);
          AppendedTwice(old(queues), was, queues, fd);
          GrownTwice(old(logs), wasLogs, logs, made, arrivals[i].sends);
          AddedInFront(made, arrivals[i].sends, if arrivals[i].refused then [] else Caused(arrivals[i + 1..]));
          made := made + arrivals[i].sends;
        }
        ends := !arrivals[i].Data? || arrivals[i].refused;
        i := i + 1;
      }
      if !ends {
        NothingRead(arrivals[i..]);
      }
      assert Caused(arrivals) == made;
    }

    /** Wait for descriptors: the kernel keeps some of the ones asked for. */
    method Select(ready: Sets)
      requires Valid()
      modifies `tmpSendFds, `tmpRecvFds, `tmpFailFds
      ensures Valid()
      ensures tmpSendFds == sendFds * ready.send && tmpRecvFds == recvFds * ready.recv && tmpFailFds == allFds * ready.all
    {
      tmpSendFds, tmpRecvFds, tmpFailFds := sendFds, recvFds, allFds;
      tmpSendFds, tmpRecvFds, tmpFailFds := tmpSendFds * ready.send, tmpRecvFds * ready.recv, tmpFailFds * ready.all;
    }

    method DropFd(fd: int)
      modifies `allFds, `serverFds, `sendFds, `recvFds, `tmpSendFds, `tmpRecvFds, `tmpFailFds
      ensures View() == Removed(old(View()), fd)
    {
      allFds := allFds - {fd};
      serverFds := serverFds - {fd};
      sendFds, recvFds := sendFds - {fd}, recvFds - {fd};
      tmpSendFds, tmpRecvFds, tmpFailFds := tmpSendFds - {fd}, tmpRecvFds - {fd}, tmpFailFds - {fd};
    }

    /** The largest descriptor once `fd` is gone. */
    method MaxWithout(fd: int) returns (max: int)
      requires IsMax(allFds, maxFd) && -1 <= maxFd && fd in allFds
      ensures IsMax(allFds - {fd}, max)
    {
      max := maxFd;
      if fd == maxFd {
        while max >= 0 && (max == fd || max !in allFds)
          invariant -1 <= max && forall k :: k in allFds - {fd} ==> 0 <= k <= max
        {
          max := max - 1;
        }
      }
    }

    /** Go through every queue and forget that `fd` caused a send. */
    method ClearCause(fd: int) returns (cleared: Queues)
      ensures cleared == ClearAll(queues, fd)
    {
      hide ClearNames;
      cleared := queues;
      var left: set<int> := queues.Keys;
      while left != {}
        invariant left <= queues.Keys == cleared.Keys
        invariant forall k :: k in queues ==> cleared[k] == if k in left then queues[k] else ClearNames(queues[k], fd)
        decreases |left|
      {
        SomeMember(left);
        var k :| k in left;
        var q := ClearQueue(queues[k], fd);
        cleared := cleared[k := q];
        left := left - {k};
      }
      forall k | k in queues ensures cleared[k] == ClearAll(queues, fd)[k] {
      }
    }

    /** Some descriptor's queue names `r`: look through them in any order. */
    method FindCause(r: int) returns (found: bool)
      ensures found <==> Named(queues, r)
    {
      found := false;
      var left: set<int> := queues.Keys;
      while left != {} && !found
        invariant left <= queues.Keys
        invariant !found ==> forall k :: k in queues && k !in left ==> !Names(queues[k], r)
        invariant found ==> Named(queues, r)
        decreases |left|
      {
        SomeMember(left);
        var k :| k in left;
        left := left - {k};
        found := FindInQueue(queues[k], r);
      }
    }
  }

  /** Resending accepts nothing new and takes nothing back. */
  ghost predicate Continues(was: Log, now: Log, failed: bool) {
    && now.accepted == was.accepted && now.requests == was.requests
    && was.written <= now.written && was.completed <= now.completed
    && now.failed == (was.failed || failed)
  }

  lemma ContinuesTwice(a: Log, b: Log, c: Log, failed: bool)
    ensures Continues(a, a, false)
    ensures Continues(a, b, false) && Continues(b, c, failed) ==> Continues(a, c, failed)
  {
  }

  /** What is queued was asked for, or the descriptor failed: either way it has a record. */
  lemma LoggedIfQueued(queues: Queues, logs: map<int, Log>, fd: int)
    requires fd in queues && queues[fd] != [] && Balanced(queues[fd], LogOf(logs, fd))
    ensures fd in logs
  {
  }

  lemma EntryFits(q: seq<Entry>, log: Log)
    requires Balanced(q, log) && q != []
    ensures q[0].head <= |q[0].data| && HeadsFit(q)
  {
  }

  lemma LogKeeps(s: Sets, m: int, queues: Queues, logs: map<int, Log>, fd: int, log: Log)
    requires Invariant(s, m, queues, logs) && Balanced(QueueOf(queues, fd), log)
    ensures Invariant(s, m, queues, logs[fd := log])
  {
  }

  method ClearQueue(q: seq<Entry>, fd: int) returns (r: seq<Entry>)
    ensures r == ClearNames(q, fd)
  {
    r := q;
    for i := 0 to |q|
      invariant |r| == |q|
      invariant forall j :: 0 <= j < |q| ==> r[j] == if j < i then ClearNames(q, fd)[j] else q[j]
    {
      if r[i].recvFd == fd {
        r := r[i := r[i].(recvFd := 0)];
      }
    }
  }

  method FindInQueue(q: seq<Entry>, r: int) returns (found: bool)
    ensures found <==> Names(q, r)
  {
    found := false;
    var i := 0;
    while i < |q| && !found
      invariant i <= |q|
      invariant found <==> exists j :: 0 <= j < i && q[j].recvFd == r
    {
      found := q[i].recvFd == r;
      i := i + 1;
    }
  }

  lemma MaxAt(s: Sets, m: int, queues: Queues, logs: map<int, Log>)
    requires Invariant(s, m, queues, logs)
    ensures IsMax(s.all, m)
  {
  }

  lemma BalancedAt(s: Sets, m: int, queues: Queues, logs: map<int, Log>, fd: int)
    requires Invariant(s, m, queues, logs)
    ensures Balanced(QueueOf(queues, fd), LogOf(logs, fd))
    ensures QueueOf(queues, fd) == [] <==> fd !in queues
    ensures fd in queues && fd in s.all ==> fd in s.send
  {
  }

  /** A send that never reached a queue changes no set. */
  lemma SentKeeps(s: Sets, m: int, queues: Queues, logs: map<int, Log>, fd: int, r: Request, head: nat, outcome: Outcome)
    requires Invariant(s, m, queues, logs) && fd !in queues && head <= |r.data|
    requires outcome != Waiting && (outcome == Done ==> head == |r.data|)
    ensures Invariant(s, m, queues, logs[fd := Sent(LogOf(logs, fd), r, head, outcome == Done, outcome == Fatal)])
  {
    hide Balanced, Named;
    var log := LogOf(logs, fd);
    assert Balanced([], log) by { BalancedAt(s, m, queues, logs, fd); }
    var log' := Sent(log, r, head, outcome == Done, outcome == Fatal);
    if outcome == Done {
      SentBalanced(log, r, false);
    } else {
      FailedBalanced([], log');
    }
    BalancedAfterChange(queues, logs, queues, fd, log');
  }

  lemma FailedBalanced(q: seq<Entry>, log: Log)
    requires log.failed && HeadsFit(q)
    ensures Balanced(q, log)
  {
  }
}
