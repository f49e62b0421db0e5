/**
 * Closing descriptors: `sm_remove_fd` of src/socket_manager.c calls the close handlers of
 * src/ios_webkit_debug_proxy.c, and these remove further descriptors before they return. The
 * records live in a heap of identities; freeing one takes its identity out of the heap.
 */
module CloseCascade {
  import opened Bytes
  import opened ProxyRecords

  // ----- one record at a time -----

  /** The value is taken off before the handler runs. */
  function Popped(s: State, fd: int): State {
    s.(fds := s.fds - {fd})
  }

  /** What the handler of a client does, step by step, is what `DropClients` says. */
  lemma ClientDropped(s: State, c: Id)
    requires Owned(s) && ClientPaired(s, c) && s.heap[c].fd !in s.fds
    ensures Unlinked(s, c).(heap := Unlinked(s, c).heap - {c}) == DropClients(s, s.heap[c].owner, {c})
  {
    hide Live, Owned;
    var p := s.heap[c].owner;
    var got, want := Unlinked(s, c), DropClients(s, p, {c});
    forall id | id in s.heap ensures GoneWith(s.heap, {c}, id) <==> id == c || Some(id) == s.heap[c].ifs {
    }
    forall fd | fd in s.fds ensures s.fds[fd] in s.heap && s.fds[fd] != c {
      OwnedAt(s, fd);
    }
    assert got.fds == want.fds;
    assert got.heap - {c} == want.heap;
  }

  /** The port has forgotten the client and its static request is closed. */
  function Unlinked(s: State, c: Id): State
    requires ClientLinked(s, c)
  {
    var p := s.heap[c].owner;
    var s1 := s.(heap := s.heap[p := s.heap[p].(clients := s.heap[p].clients - {c})]);
    match s.heap[c].ifs
    case None => s1
    case Some(f) => DropOne(s1, f)
  }

  /** Closing a static request first and closing its client first is the same, if the client knows of the request. */
  lemma FetchDropped(s: State, f: Id, c: Id)
    requires Owned(s) && f in s.heap && s.heap[f].Fetch? && s.heap[f].client == Some(c) && ClientLinked(s, c)
    ensures After(s, f) == After(s, c) <==> s.heap[c].ifs == Some(f)
  {
    hide Live, Owned;
    var got, want := After(s, f), After(s, c);
    if s.heap[c].ifs == Some(f) {
      var s1 := FetchGone(s, f, c);
      forall id | id in s.heap ensures GoneWith(s.heap, {c}, id) <==> id == c || id == f {
      }
      forall id | id in s1.heap ensures GoneWith(s1.heap, {c}, id) <==> id == c {
      }
      forall fd | fd in s.fds ensures s.fds[fd] in s.heap {
        OwnedAt(s, fd);
      }
      assert got.fds == want.fds;
      assert got.heap == want.heap;
    } else {
      assert f in want.heap && f !in got.heap;
    }
  }

  /** Clients are dropped one by one. */
  lemma DropTwice(s: State, p: Id, k: set<Id>, c: Id)
    requires Owned(s) && PortLinked(s, p) && k <= s.heap[p].clients && c in s.heap[p].clients && c !in k
    ensures DropClients(DropClients(s, p, k), p, {c}) == DropClients(s, p, k + {c})
  {
    hide Live, ClientPaired, PortLinked, Owned;
    var s1 := DropClients(s, p, k);
    PortIsNoClient(s, p, k + {c});
    forall id | id in s.heap
      ensures GoneWith(s.heap, k + {c}, id) <==> GoneWith(s.heap, k, id) || GoneWith(s1.heap, {c}, id)
    {
    }
    var got, want := DropClients(s1, p, {c}), DropClients(s, p, k + {c});
    assert s1.heap[p].clients - {c} == s.heap[p].clients - (k + {c});
    forall fd | fd in s.fds ensures s.fds[fd] in s.heap {
      OwnedAt(s, fd);
    }
    assert got.heap == want.heap;
    assert got.fds == want.fds;
  }

  lemma DropNobody(s: State, p: Id)
    ensures DropClients(s, p, {}) == s
  {
    var s1 := DropClients(s, p, {});
    forall id | id in s.heap ensures id in s1.heap && s1.heap[id] == s.heap[id] {
      if id == p && s.heap[p].Port? {
        assert s.heap[p].clients - {} == s.heap[p].clients;
      }
    }
    forall fd | fd in s.fds ensures fd in s1.fds {
    }
    assert s1.heap == s.heap;
    assert s1.fds == s.fds;
  }

  // ----- the trace of close callbacks -----

  predicate NoRepeats(t: seq<int>) {
    forall i, j :: 0 <= i < j < |t| ==> t[i] != t[j]
  }

  /** Between the two states `t` was closed: each descriptor whose value is gone, once. */
  ghost predicate Closes(t: seq<int>, fds: Fds, fds': Fds, all: set<int>, all': set<int>) {
    && NoRepeats(t)
    && fds'.Keys <= fds.Keys
    && (forall fd :: fd in t <==> fd in fds && fd !in fds')
    && all' == all - (fds.Keys - fds'.Keys)
  }

  lemma ClosesTwice(t: seq<int>, t': seq<int>, fds: Fds, fds1: Fds, fds2: Fds,
                    all: set<int>, all1: set<int>, all2: set<int>)
    requires Closes(t, fds, fds1, all, all1) && Closes(t', fds1, fds2, all1, all2)
    ensures Closes(t + t', fds, fds2, all, all2)
  {
    var s := t + t';
    forall i, j | 0 <= i < j < |s| ensures s[i] != s[j] {
      if i < |t| <= j {
        assert s[i] in t && s[j] in t';
      }
    }
    forall fd ensures fd in s <==> fd in fds && fd !in fds2 {
    }
  }

  lemma ClosesNothing(fds: Fds, all: set<int>)
    ensures Closes([], fds, fds, all, all)
  {
  }

  /** The callback of `fd` ran first, then those of what it removed; `fd` leaves the set last. */
  lemma ClosesOuter(fd: int, t: seq<int>, fds: Fds, fds1: Fds, all: set<int>, all1: set<int>)
    requires fd in fds && Closes(t, fds - {fd}, fds1, all, all1)
    ensures Closes([fd] + t, fds, fds1, all, all1 - {fd})
  {
  }

  // ----- a device that attaches -----

  predicate IsListening(s: State, device: Device) {
    device in s.devices && s.devices[device] in s.heap && s.heap[s.devices[device]].fd > 0
  }

  /** The port of a device: the kept one, or a new record. */
  function PortOf(s: State, id: Id, device: Device): Id {
    if device in s.devices then s.devices[device] else id
  }

  predicate IsKept(s: State, device: Device) {
    && device in s.devices && s.devices[device] in s.heap
    && s.heap[s.devices[device]].Port? && s.heap[s.devices[device]].sticky
  }

  predicate IsSticky(obj: Obj) {
    obj.Port? && obj.sticky
  }

  /** The port of the device listens on `fd`. */
  function Listening(s: State, fd: int, id: Id, device: Device): State {
    var p := PortOf(s, id, device);
    State(s.heap[p := Port(fd, IsKept(s, device), device, {}, None)], s.fds[fd := p], s.devices[device := p])
  }

  /** What is left of an attempt that failed. */
  function Refused(s: State, fd: int, id: Id, device: Device): (r: State)
    ensures r.fds == s.fds
  {
    var p := PortOf(s, id, device);
    if IsListening(s, device) then s
    else if fd <= 0 then
      if device in s.devices then s else Started(s, 0, id, Port(0, false, device, {}, None))
    else if IsKept(s, device) then s.(heap := s.heap[p := Port(-1, true, device, {}, None)])
    else State(s.heap - {p}, s.fds, s.devices - {device})
  }

  lemma ListeningAt(s: State, fd: int, id: Id, device: Device)
    ensures var s1, p := Listening(s, fd, id, device), PortOf(s, id, device);
            && device in s1.devices && s1.devices[device] == p && p in s1.heap
            && s1.heap[p] == Port(fd, IsKept(s, device), device, {}, None) && fd in s1.fds && s1.fds[fd] == p
            && s1.heap.Keys == s.heap.Keys + {p} && s1.fds.Keys == s.fds.Keys + {fd}
  {
  }

  lemma AttachedAt(s: State, fd: int, id: Id, p: Id, sticky: bool)
    requires p in s.heap && s.heap[p].Port? && fd > 0
    ensures Attached(s, fd, id, p, sticky) ==
            State(s.heap[p := WithInspector(s.heap[p], id, sticky)][id := Inspector(fd, Some(p))], s.fds[fd := id], s.devices)
  {
  }

  /** A port without clients is closed, its inspector with it. */
  lemma DropBare(s: State, p: Id)
    requires p in s.heap && s.heap[p].Port? && s.heap[p].clients == {}
    ensures var s1 := if s.heap[p].iwi.Some? then DropOne(s, s.heap[p].iwi.value) else s;
            After(s, p) ==
            if s.heap[p].sticky
            then State(s1.heap[p := Port(-1, true, s.heap[p].device, {}, None)], FdsOfOthers(s1.fds, p), s.devices)
            else State(s1.heap - {p}, FdsOfOthers(s1.fds, p), s.devices - {s.heap[p].device})
  {
    hide DropClients;
    DropNobody(s, p);
  }

  lemma NobodysFds(s: State, fd: int, id: Id)
    requires Owned(s) && fd !in s.fds && forall x :: x in s.fds ==> s.fds[x] != id
    ensures FdsOfOthers(s.fds[fd := id], id) == s.fds
  {
    var got := FdsOfOthers(s.fds[fd := id], id);
    forall x ensures x in got <==> x in s.fds {
      assert x in s.fds ==> s.fds[x] != id;
    }
    assert got == s.fds;
  }

  /** Without its inspector a failed attempt leaves what it found, but for a port that is not kept. */
  lemma RefusedAgain(s: State, fd: int, id: Id, device: Device)
    requires Paired(s) && fd > 0 && fd !in s.fds && id !in s.heap && !IsListening(s, device)
    ensures After(Listening(s, fd, id, device), PortOf(s, id, device)) == Refused(s, fd, id, device)
  {
    hide Paired, Live, After;
    var s1, p := Listening(s, fd, id, device), PortOf(s, id, device);
    DropBare(s1, p);
    NoFdsYet(s, fd, id, device);
    NobodysFds(s, fd, p);
    RefusedIs(s, fd, id, device);
  }

  lemma NoFdsYet(s: State, fd: int, id: Id, device: Device)
    requires Paired(s) && id !in s.heap && !IsListening(s, device)
    ensures var p := PortOf(s, id, device);
            && Owned(s) && (forall x :: x in s.fds ==> s.fds[x] != p)
            && (device in s.devices ==> p in s.heap && s.heap[p].Port? && s.devices[device] == p)
  {
    PairedOwned(s);
    if device in s.devices {
      DeviceAt(s, device);
    }
  }

  /** The failed attempt, seen from the state in which the port listens. */
  lemma RefusedIs(s: State, fd: int, id: Id, device: Device)
    requires fd > 0 && !IsListening(s, device)
    ensures var s1, p := Listening(s, fd, id, device), PortOf(s, id, device);
            Refused(s, fd, id, device) ==
            if IsKept(s, device) then State(s1.heap[p := Port(-1, true, device, {}, None)], s.fds, s1.devices)
            else State(s1.heap - {p}, s.fds, s1.devices - {device})
  {
    var s1, p := Listening(s, fd, id, device), PortOf(s, id, device);
    assert s1.heap - {p} == s.heap - {p};
    assert s1.devices - {device} == s.devices - {device};
    if IsKept(s, device) {
      assert s1.devices == s.devices;
    }
  }

  lemma RefusedOf(s: State, fd: int, id: Id, device: Device)
    requires fd > 0 && !IsListening(s, device)
    ensures var r, p := Refused(s, fd, id, device), if device in s.devices then s.devices[device] else id;
            if device in s.devices && p in s.heap && IsSticky(s.heap[p])
            then r == State(s.heap[p := Port(-1, true, device, {}, None)], s.fds, s.devices)
            else r == State(s.heap - {p}, s.fds, s.devices - {device})
  {
  }

  lemma NewFds(s: State, fd: int, id: Id, device: Device, wiFd: int, iwiId: Id)
    requires Owned(s) && wiFd !in s.fds && wiFd != fd && iwiId !in s.heap && iwiId != PortOf(s, id, device)
    ensures FdsOfOthers(Listening(s, fd, id, device).fds[wiFd := iwiId], iwiId) == Listening(s, fd, id, device).fds
    ensures Listening(s, fd, id, device).fds == s.fds[fd := PortOf(s, id, device)]
  {
    var fds := Listening(s, fd, id, device).fds;
    var got := FdsOfOthers(fds[wiFd := iwiId], iwiId);
    forall x ensures x in got <==> x in fds {
      assert x in s.fds ==> s.fds[x] in s.heap;
    }
    assert got == fds;
  }

  /** With its inspector, an attempt that fails leaves the same. */
  lemma RefusedLate(s: State, fd: int, id: Id, device: Device, wiFd: int, iwiId: Id)
    requires Paired(s) && fd > 0 && fd !in s.fds && id !in s.heap && !IsListening(s, device)
    requires wiFd > 0 && wiFd !in s.fds && wiFd != fd && iwiId !in s.heap && iwiId != id
    ensures var p := PortOf(s, id, device);
            After(Attached(Listening(s, fd, id, device), wiFd, iwiId, p, IsKept(s, device)), p) == Refused(s, fd, id, device)
  {
    hide Paired, Live, After, Owned, Refused, Listening, Attached;
    var s1, p := Listening(s, fd, id, device), PortOf(s, id, device);
    NoFdsYet(s, fd, id, device);
    ListeningAt(s, fd, id, device);
    var s2 := Attached(s1, wiFd, iwiId, p, IsKept(s, device));
    AttachedAt(s1, wiFd, iwiId, p, IsKept(s, device));
    DropBare(s2, p);
    RefusedIs(s, fd, id, device);
    assert s2.heap - {iwiId} - {p} == s1.heap - {p};
    assert (s2.heap - {iwiId})[p := Port(-1, true, device, {}, None)] == s1.heap[p := Port(-1, true, device, {}, None)];
    NewFds(s, fd, id, device, wiFd, iwiId);
    NobodysFds(s, fd, p);
  }

  // ----- the handlers -----

  class Proxy {
    var heap: Heap
    var fdToValue: Fds
    var devices: map<Device, Id>
    var allFds: set<int>
    /** The descriptors whose close callback has run, in order. */
    var closed: seq<int>

    function S(): State
      reads this
    {
      State(heap, fdToValue, devices)
    }

    /** What every registered descriptor and record keeps. */
    ghost predicate Valid()
      reads this
    {
      Paired(S()) && fdToValue.Keys == allFds
    }

    constructor ()
      ensures Valid() && S() == State(map[], map[], map[]) && allFds == {} && closed == []
    {
      heap, fdToValue, devices, allFds, closed := map[], map[], map[], {}, [];
    }

    /** Register the value of a new descriptor. */
    method AddFd(fd: int, id: Id)
      requires fd !in allFds && fdToValue.Keys == allFds
      modifies `fdToValue, `allFds
      ensures fdToValue == old(fdToValue)[fd := id] && allFds == old(allFds) + {fd} && fdToValue.Keys == allFds
    {
      fdToValue := fdToValue[fd := id];
      allFds := allFds + {fd};
    }

    /** Start listening for devices. */
    method Start(fd: int, id: Id)
      requires Valid() && fd > 0 && fd !in allFds && id !in heap
      modifies `heap, `fdToValue, `allFds
      ensures Valid()
      ensures S() == Started(old(S()), fd, id, Listener(fd)) && allFds == old(allFds) + {fd}
      ensures heap == old(heap)[id := Listener(fd)] && fdToValue == old(fdToValue)[fd := id]
      ensures AllRecorded(old(S())) ==> AllRecorded(S())
    {
      hide Paired, AllRecorded;
      StartKeeps(S(), fd, id, Listener(fd));
      StartRecorded(S(), fd, id, Listener(fd));
      heap := heap[id := Listener(fd)];
      AddFd(fd, id);
    }

    /**
     * Listen for the clients of a device, on its kept port if it has one. A port that cannot be
     * bound stays known to its device.
     */
    method Listen(fd: int, id: Id, device: Device) returns (ok: bool)
      requires Valid() && fd !in allFds && id !in heap
      modifies `heap, `fdToValue, `devices, `allFds
      ensures Valid()
      ensures ok <==> fd > 0 && !IsListening(old(S()), device)
      ensures ok ==> S() == Listening(old(S()), fd, id, device) && allFds == old(allFds) + {fd}
      ensures !ok ==> S() == Refused(old(S()), fd, id, device) && allFds == old(allFds)
      ensures ok ==>
                var p := if device in old(devices) then old(devices)[device] else id;
                && heap == old(heap)[p := Port(fd, p in old(heap) && IsSticky(old(heap)[p]), device, {}, None)]
                && fdToValue == old(fdToValue)[fd := p] && devices == old(devices)[device := p]
      ensures !ok ==>
                && fdToValue == old(fdToValue)
                && (device in old(devices) ==> heap == old(heap) && devices == old(devices))
                && (device !in old(devices) ==>
                      heap == old(heap)[id := Port(0, false, device, {}, None)] && devices == old(devices)[device := id])
      ensures AllRecorded(old(S())) ==> AllRecorded(S())
    {
      hide Paired, Live, AllRecorded;
      if device in devices {
        DeviceAt(S(), device);
        if heap[devices[device]].fd > 0 {
          return false;
        }
      } else {
        var port := Port(0, false, device, {}, None);
        StartKeeps(S(), 0, id, port);
        StartRecorded(S(), 0, id, port);
        heap := heap[id := port];
        devices := devices[device := id];
      }
      if fd <= 0 {
        return false;
      }
      DeviceAt(S(), device);
      var p := devices[device];
      var listening := Port(fd, heap[p].sticky, device, heap[p].clients, heap[p].iwi);
      StartKeeps(S(), fd, p, listening);
      StartRecorded(S(), fd, p, listening);
      assert devices[device := p] == devices;
      AddFd(fd, p);
      heap := heap[p := listening];
      return true;
    }

    /**
     * A device is there: listen for its clients, then connect to its inspector. When any of this
     * fails every descriptor opened for it is closed again; a port that was attached once before
     * stays known, and a port that was bound for the first time is forgotten.
     */
    method OnAttach(device: Device, sFd: int, portId: Id, wiFd: int, iwiId: Id, reported: bool) returns (ok: bool)
      requires Valid() && sFd !in allFds && portId !in heap
      requires wiFd !in allFds && wiFd != sFd && iwiId !in heap && iwiId != portId
      modifies this
      ensures Valid()
      ensures ok <==> sFd > 0 && wiFd > 0 && reported && !IsListening(old(S()), device)
      ensures ok ==> S() == Attached(Listening(old(S()), sFd, portId, device), wiFd, iwiId, PortOf(old(S()), portId, device), true)
      ensures ok ==> allFds == old(allFds) + {sFd, wiFd}
      ensures !ok ==> S() == Refused(old(S()), sFd, portId, device) && allFds == old(allFds)
      ensures var p := if device in old(devices) then old(devices)[device] else portId;
              && (ok ==>
                    && heap == old(heap)[p := Port(sFd, true, device, {}, Some(iwiId))][iwiId := Inspector(wiFd, Some(p))]
                    && fdToValue == old(fdToValue)[sFd := p][wiFd := iwiId] && devices == old(devices)[device := p])
              && (!ok ==> fdToValue == old(fdToValue))
              && (!ok && IsListening(old(S()), device) ==> heap == old(heap) && devices == old(devices))
              && (!ok && !IsListening(old(S()), device) && sFd > 0 ==>
                    if p in old(heap) && IsSticky(old(heap)[p])
                    then heap == old(heap)[p := Port(-1, true, device, {}, None)] && devices == old(devices)
                    else heap == old(heap) - {p} && devices == old(devices) - {device})
      ensures AllRecorded(old(S())) ==> AllRecorded(S())
    {
      hide Paired, Live, After, Closes, Attached, Listening, Refused, AllRecorded;
      ok := Listen(sFd, portId, device);
      if !ok {
        return false;
      }
      ghost var s, s1 := old(S()), S();
      ListeningAt(s, sFd, portId, device);
      NoFdsYet(s, sFd, portId, device);
      var p := devices[device];
      if wiFd <= 0 {
        RefusedAgain(s, sFd, portId, device);
        RefusedOf(s, sFd, portId, device);
        CloseAgain(sFd);
        return false;
      }
      var sticky := heap[p].sticky || reported;
      AttachKeeps(s1, wiFd, iwiId, p, sticky);
      AttachedAt(s1, wiFd, iwiId, p, sticky);
      AttachRecorded(s1, wiFd, iwiId, p, sticky);
      heap := heap[p := WithInspector(heap[p], iwiId, sticky)][iwiId := Inspector(wiFd, Some(p))];
      AddFd(wiFd, iwiId);
      if !reported {
        RefusedLate(s, sFd, portId, device, wiFd, iwiId);
        RefusedOf(s, sFd, portId, device);
        CloseAgain(sFd);
        return false;
      }
    }

    /** Close a port that has just been opened. */
    method CloseAgain(sFd: int)
      requires Valid() && sFd in fdToValue && fdToValue[sFd] in heap
      requires heap[fdToValue[sFd]].Port? && heap[fdToValue[sFd]].clients == {}
      modifies this
      ensures Valid() && S() == After(old(S()), old(fdToValue)[sFd])
      ensures AllRecorded(old(S())) ==> AllRecorded(S())
    {
      hide Paired, After, Closes, AllRecorded;
      var _, _ := Remove(sFd);
    }

    /** A device is gone. */
    method OnDetach(device: Device) returns (ghost t: seq<int>)
      requires Valid()
      modifies this
      ensures Valid() <==> !(IsListening(old(S()), device) && Leaves(old(S()), old(devices)[device]))
      ensures AllRecorded(old(S())) ==> AllRecorded(S())
      ensures closed == old(closed) + t && Closes(t, old(fdToValue), fdToValue, old(allFds), allFds)
      ensures device in old(devices) && old(devices)[device] in old(heap) && old(heap)[old(devices)[device]].fd > 0 ==>
                S() == After(old(S()), old(devices)[device])
    {
      hide Paired, After, Closes, AllRecorded, Leaves;
      t := [];
      ClosesNothing(fdToValue, allFds);
      if device in devices {
        DeviceAt(S(), device);
        if heap[devices[device]].fd > 0 {
          var ok;
          ok, t := Remove(heap[devices[device]].fd);
        }
      }
    }

    /** A client connects: only a port accepts. */
    method Accept(sFd: int, fd: int, id: Id) returns (ok: bool)
      requires Valid() && sFd in allFds && fd > 0 && fd !in allFds && id !in heap
      modifies `heap, `fdToValue, `allFds
      ensures Valid()
      ensures ok ==> old(fdToValue)[sFd] in old(heap) && old(heap)[old(fdToValue)[sFd]].Port?
                     && S() == Accepted(old(S()), fd, id, old(fdToValue)[sFd]) && allFds == old(allFds) + {fd}
      ensures ok ==>
                var p := old(fdToValue)[sFd];
                && heap == old(heap)[p := old(heap)[p].(clients := old(heap)[p].clients + {id})][id := Client(fd, p, None)]
                && fdToValue == old(fdToValue)[fd := id]
      ensures !ok ==> S() == old(S()) && allFds == old(allFds)
                      && sFd in fdToValue && fdToValue[sFd] in heap && !heap[fdToValue[sFd]].Port?
      ensures AllRecorded(old(S())) ==> AllRecorded(S())
    {
      hide Paired, AllRecorded;
      RegisteredAt(S(), sFd);
      var p := fdToValue[sFd];
      if !heap[p].Port? {
        return false;
      }
      AcceptKeeps(S(), fd, id, p);
      AcceptRecorded(S(), fd, id, p);
      heap := heap[p := heap[p].(clients := heap[p].clients + {id})][id := Client(fd, p, None)];
      AddFd(fd, id);
      return true;
    }

    /** A client asks for a static file; a second such request makes it forget the first. */
    method Request(c: Id, fd: int, id: Id)
      requires Valid() && fd !in allFds && id !in heap && c in heap && heap[c].Client?
      modifies `heap, `fdToValue, `allFds
      ensures Valid()
      ensures S() == if fd > 0 then Requested(old(S()), fd, id, c) else old(S())
      ensures fd > 0 ==>
                && heap == old(heap)[c := old(heap)[c].(ifs := Some(id))][id := Fetch(fd, Some(c))]
                && fdToValue == old(fdToValue)[fd := id]
      ensures AllRecorded(old(S())) ==> (AllRecorded(S()) <==> fd <= 0 || old(heap)[c].ifs.None?)
    {
      hide Paired, AllRecorded;
      if fd <= 0 {
        return;
      }
      RequestKeeps(S(), fd, id, c);
      if AllRecorded(S()) {
        RequestRecorded(S(), fd, id, c);
      }
      heap := heap[c := heap[c].(ifs := Some(id))][id := Fetch(fd, Some(c))];
      AddFd(fd, id);
    }

    /** Remove a descriptor: its value is taken off, its handler runs, then it leaves the set. */
    method RemoveFd(fd: int) returns (ok: bool, ghost t: seq<int>)
      requires Owned(S()) && fdToValue.Keys <= allFds
      requires fd in allFds ==> fd in fdToValue && Ready(S(), fdToValue[fd])
      modifies this
      ensures ok <==> fd in old(allFds)
      ensures !ok ==> S() == old(S())
      ensures ok ==> S() == After(old(S()), old(fdToValue[fd]))
      ensures closed == old(closed) + t && Closes(t, old(fdToValue), fdToValue, old(allFds), allFds)
      decreases |fdToValue|, 0
    {
      hide After, Ready, Owned;
      if fd !in allFds {
        ClosesNothing(fdToValue, allFds);
        return false, [];
      }
      var value := fdToValue[fd];
      PoppedReady(S(), fd);
      ghost var fds := fdToValue;
      fdToValue := fdToValue - {fd};
      assert |fds| == |fdToValue| + 1 by { FewerFds(fds, fd); }
      closed := closed + [fd];
      t := OnClose(value);
      ClosesOuter(fd, t, fds, fdToValue, old(allFds), allFds);
      allFds := allFds - {fd};
      ok := true;
      t := [fd] + t;
    }

    /**
     * Removing any descriptor from outside closes each descriptor once. All links are kept, and no
     * static request is left without its client, unless a freed client had one it did not know of.
     */
    method Remove(fd: int) returns (ok: bool, ghost t: seq<int>)
      requires Valid()
      modifies this
      ensures Valid() <==> !(fd in old(fdToValue) && Leaves(old(S()), old(fdToValue[fd])))
      ensures Dangles(S()) <==> !Valid()
      ensures AllRecorded(old(S())) ==> AllRecorded(S())
      ensures ok <==> fd in old(allFds)
      ensures ok && fd in old(fdToValue) ==> S() == After(old(S()), old(fdToValue[fd]))
      ensures closed == old(closed) + t && Closes(t, old(fdToValue), fdToValue, old(allFds), allFds)
    {
      hide Paired, After, Ready, Leaves, AllRecorded, Dangles;
      assert Owned(S()) by { PairedOwned(S()); }
      if fd in fdToValue {
        PairedReady(S(), fd);
        AfterKeeps(S(), fd);
        AfterDangles(S(), fd);
        if AllRecorded(S()) {
          AfterRecorded(S(), fd);
        }
      } else {
        PairedNeverDangles(S());
      }
      ok, t := RemoveFd(fd);
      FewerKeys(t, old(fdToValue), fdToValue, old(allFds), allFds);
    }

    /** The close callback, by the type of the value. */
    method OnClose(id: Id) returns (ghost t: seq<int>)
      requires Owned(S()) && fdToValue.Keys <= allFds
      requires Closing(S(), id)
      modifies this
      ensures S() == After(old(S()), id)
      ensures closed == old(closed) + t && Closes(t, old(fdToValue), fdToValue, old(allFds), allFds)
      decreases |fdToValue|, 2
    {
      assert id in heap;
      hide After, Closing, Owned;
      match heap[id]
      case Listener(_) =>
        ListenerCloses(S(), id);
        ClosesNothing(fdToValue, allFds);
        t := [];
      case Port(_, _, _, _, _) => t := ClosePort(id);
      case Inspector(_, _) => t := CloseInspector(id);
      case Client(_, _, _) => t := CloseClient(id);
      case Fetch(_, _) => t := CloseFetch(id);
    }

    /** A static request is over: close its client. */
    method CloseFetch(id: Id) returns (ghost t: seq<int>)
      requires Owned(S()) && fdToValue.Keys <= allFds
      requires Closing(S(), id) && heap[id].Fetch?
      modifies this
      ensures S() == After(old(S()), id)
      ensures closed == old(closed) + t && Closes(t, old(fdToValue), fdToValue, old(allFds), allFds)
      decreases |fdToValue|, 1
    {
      hide After, Owned, ClientLinked, ClientPaired;
      var client := heap[id].client;
      ghost var s := S();
      if client.Some? {
        FetchShape(s, id);
      }
      if client.Some? && heap[client.value].ifs == Some(id) {
        heap := heap[client.value := heap[client.value].(ifs := None)];
      }
      heap := heap - {id};
      t := [];
      match client
      case None =>
        OneCloses(s, id);
        ClosesNothing(fdToValue, allFds);
      case Some(c) =>
        FetchClosed(s, id, c);
        if heap[c].fd > 0 {
          var ok;
          ok, t := RemoveFd(heap[c].fd);
        }
    }

    /** A client is over: its port forgets it and its static request is closed. */
    method CloseClient(id: Id) returns (ghost t: seq<int>)
      requires Owned(S()) && fdToValue.Keys <= allFds
      requires Closing(S(), id) && heap[id].Client?
      modifies this
      ensures S() == After(old(S()), id)
      ensures closed == old(closed) + t && Closes(t, old(fdToValue), fdToValue, old(allFds), allFds)
      decreases |fdToValue|, 1
    {
      hide After, Owned, ClientLinked, ClientPaired, Ready, DropClients, Unlinked;
      ghost var s := S();
      ClientShape(s, id);
      ClientDropped(s, id);
      var p := heap[id].owner;
      if id in heap[p].clients {
        heap := heap[p := heap[p].(clients := heap[p].clients - {id})];
      }
      ClosesNothing(fdToValue, allFds);
      t := [];
      var ifs := heap[id].ifs;
      if ifs.Some? {
        var f := ifs.value;
        ClientStep(s, id);
        heap := heap[f := heap[f].(client := None)];
        if heap[f].fd > 0 {
          var ok;
          ok, t := RemoveFd(heap[f].fd);
        }
      } else {
        NoFetch(s, id);
      }
      heap := heap - {id};
    }

    /** An inspector is over: close its port, and so all its clients. */
    method CloseInspector(id: Id) returns (ghost t: seq<int>)
      requires Owned(S()) && fdToValue.Keys <= allFds
      requires Closing(S(), id) && heap[id].Inspector?
      modifies this
      ensures S() == After(old(S()), id)
      ensures closed == old(closed) + t && Closes(t, old(fdToValue), fdToValue, old(allFds), allFds)
      decreases |fdToValue|, 1
    {
      hide After, Owned, ClientLinked, ClientPaired, Ready, PortLinked, PortPaired;
      ghost var s := S();
      ClosesNothing(fdToValue, allFds);
      t := [];
      match heap[id].port
      case None =>
        OneCloses(s, id);
        heap := heap - {id};
      case Some(p) =>
        InspectorStep(s, id, p);
        if heap[p].iwi.Some? {
          heap := heap[p := heap[p].(iwi := None)];
        }
        heap := heap - {id};
        if heap[p].fd > 0 {
          var ok;
          ok, t := RemoveFd(heap[p].fd);
        }
    }

    /** A port is over: close its clients, then its inspector; a sticky port is kept for the device to return. */
    method ClosePort(id: Id) returns (ghost t: seq<int>)
      requires Owned(S()) && fdToValue.Keys <= allFds
      requires Closing(S(), id) && heap[id].Port?
      modifies this
      ensures S() == After(old(S()), id)
      ensures closed == old(closed) + t && Closes(t, old(fdToValue), fdToValue, old(allFds), allFds)
      decreases |fdToValue|, 1
    {
      assert id in heap && heap[id].fd !in fdToValue;
      hide After, Owned, Ready, PortLinked, PortPaired, DropClients, Live, Closing, Closes, DropPort, PortEmptied;
      ghost var s := S();
      PortShape(s, id);
      t := EmptyPort(id);
      PortLeaves(id, s);
    }

    /** Close the clients of a port and then its inspector. */
    method EmptyPort(id: Id) returns (ghost t: seq<int>)
      requires Owned(S()) && fdToValue.Keys <= allFds
      requires id in heap && heap[id].Port? && PortLinked(S(), id) && PortPaired(S(), id)
      modifies this
      ensures S() == PortEmptied(old(S()), id)
      ensures closed == old(closed) + t && Closes(t, old(fdToValue), fdToValue, old(allFds), allFds)
      decreases |fdToValue|, 1, 1
    {
      hide Owned, PortLinked, PortPaired, DropClients, Closes, PortEmptied;
      ghost var s := S();
      t := CloseClients(id);
      ghost var fds1, all1 := fdToValue, allFds;
      FewerKeys(t, s.fds, fds1, old(allFds), all1);
      ghost var t' := ClosePortInspector(id, s);
      ClosesTwice(t, t', s.fds, fds1, fdToValue, old(allFds), all1, allFds);
      t := t + t';
    }

    /** A port that is not kept is freed. */
    method PortLeaves(id: Id, ghost s: State)
      requires Owned(s) && id in s.heap && s.heap[id].Port? && PortPaired(s, id) && s.heap[id].fd !in s.fds
      requires S() == PortEmptied(s, id)
      modifies `heap, `devices
      ensures S() == DropPort(s, id)
    {
      hide Owned, PortPaired, DropPort, PortEmptied;
      PortEnd(s, id);
      if heap[id].sticky {
        heap := heap[id := Port(-1, true, heap[id].device, heap[id].clients, heap[id].iwi)];
      } else {
        devices := devices - {heap[id].device};
        heap := heap - {id};
      }
    }

    /** Close the inspector of a port whose clients are gone. */
    method ClosePortInspector(id: Id, ghost s: State) returns (ghost t: seq<int>)
      requires Owned(s) && id in s.heap && s.heap[id].Port? && PortPaired(s, id)
      requires S() == DropClients(s, id, s.heap[id].clients) && fdToValue.Keys <= allFds
      modifies this
      ensures S() == PortEmptied(s, id)
      ensures closed == old(closed) + t && Closes(t, old(fdToValue), fdToValue, old(allFds), allFds)
      decreases |fdToValue|, 1, 0
    {
      hide After, Owned, Ready, PortPaired, DropClients, Live;
      PortStep(s, id);
      ClosesNothing(fdToValue, allFds);
      t := [];
      var iwi := heap[id].iwi;
      if iwi.Some? {
        var w := iwi.value;
        heap := heap[w := heap[w].(port := None)][id := heap[id].(iwi := None)];
        if heap[w].fd > 0 {
          var ok;
          ok, t := RemoveFd(heap[w].fd);
        }
      }
    }

    /** Close every client of a port and forget them. */
    method CloseClients(id: Id) returns (ghost t: seq<int>)
      requires Owned(S()) && fdToValue.Keys <= allFds
      requires id in heap && heap[id].Port? && PortLinked(S(), id)
      modifies this
      ensures S() == DropClients(old(S()), id, old(heap[id].clients))
      ensures closed == old(closed) + t && Closes(t, old(fdToValue), fdToValue, old(allFds), allFds)
      decreases |fdToValue|, 1, 0
    {
      hide After, Owned, Ready, PortLinked, DropClients, Live, ClientPaired;
      ghost var s, k: set<Id> := S(), {};
      var left := heap[id].clients;
      DropNobody(s, id);
      ClosesNothing(fdToValue, allFds);
      t := [];
      while left != {}
        invariant k <= s.heap[id].clients && left == s.heap[id].clients - k
        invariant S() == DropClients(s, id, k)
        invariant closed == old(closed) + t && Closes(t, old(fdToValue), fdToValue, old(allFds), allFds)
        decreases |left|
      {
        SomeMember(left);
        var c :| c in left;
        left := left - {c};
        ClientOfRest(s, id, k, c);
        FewerKeys(t, old(fdToValue), fdToValue, old(allFds), allFds);
        if heap[c].fd > 0 {
          ghost var fds1, all1 := fdToValue, allFds;
          var ok;
          ghost var t';
          ok, t' := RemoveFd(heap[c].fd);
          ClosesTwice(t, t', old(fdToValue), fds1, fdToValue, old(allFds), all1, allFds);
          assert closed == old(closed) + (t + t');
          t := t + t';
        }
        k := k + {c};
      }
      assert k == s.heap[id].clients;
    }
  }

  lemma PortShape(s: State, p: Id)
    requires Closing(s, p) && s.heap[p].Port?
    ensures PortPaired(s, p) && PortLinked(s, p) && After(s, p) == DropPort(s, p)
    ensures s.heap[p].device in s.devices && s.devices[s.heap[p].device] == p
  {
  }

  /** A port without its clients and its inspector. */
  function PortEmptied(s: State, p: Id): State
    requires p in s.heap && s.heap[p].Port?
  {
    var s1 := DropClients(s, p, s.heap[p].clients);
    if s.heap[p].iwi.None? then s1
    else DropOne(s1.(heap := s1.heap[p := s.heap[p].(clients := {}, iwi := None)]), s.heap[p].iwi.value)
  }

  /** The clients are gone: the inspector is next. */
  lemma PortStep(s: State, p: Id)
    requires Owned(s) && p in s.heap && s.heap[p].Port? && PortPaired(s, p)
    ensures var s1 := DropClients(s, p, s.heap[p].clients);
            && Owned(s1) && p in s1.heap && s1.heap[p] == s.heap[p].(clients := {})
            && (s.heap[p].iwi.Some? ==>
                  var w := s.heap[p].iwi.value;
                  && w != p && w in s1.heap && s1.heap[w].Inspector?
                  && s1.heap[w].fd > 0 && s1.heap[w].fd in s1.fds && s1.fds[s1.heap[w].fd] == w
                  && var s2 := s1.(heap := s1.heap[w := s1.heap[w].(port := None)][p := s1.heap[p].(iwi := None)]);
                     Owned(s2) && Ready(s2, w) && After(s2, w) == PortEmptied(s, p))
  {
    hide PortPaired, Owned, DropClients, Ready, After;
    var s1 := DropClients(s, p, s.heap[p].clients);
    DropOwned(s, p, s.heap[p].clients);
    InspectorKept(s, p, s.heap[p].clients);
    assert s.heap[p].clients - s.heap[p].clients == {};
    if s.heap[p].iwi.Some? {
      InspectorFreed(s1, p, s.heap[p].iwi.value);
    }
  }

  lemma InspectorFreed(s1: State, p: Id, w: Id)
    requires Owned(s1) && p in s1.heap && s1.heap[p].Port? && Live(s1, w) && IsInspectorOf(s1, w, p)
    ensures w != p
    ensures var s2 := s1.(heap := s1.heap[w := s1.heap[w].(port := None)][p := s1.heap[p].(iwi := None)]);
            && Owned(s2) && Ready(s2, w)
            && After(s2, w) == DropOne(s1.(heap := s1.heap[p := s1.heap[p].(iwi := None)]), w)
  {
  }

  /** The last step of a port. */
  lemma PortEnd(s: State, p: Id)
    requires Owned(s) && p in s.heap && s.heap[p].Port? && PortPaired(s, p) && s.heap[p].fd !in s.fds
    ensures var s3 := PortEmptied(s, p);
            && p in s3.heap && s3.heap[p] == s.heap[p].(clients := {}, iwi := None)
            && DropPort(s, p) ==
                 if s.heap[p].sticky
                 then s3.(heap := s3.heap[p := Port(-1, true, s.heap[p].device, {}, None)])
                 else State(s3.heap - {p}, s3.fds, s3.devices - {s.heap[p].device})
  {
    hide PortPaired, Owned, DropClients;
    var k := s.heap[p].clients;
    var s1 := DropClients(s, p, k);
    PortStep(s, p);
    NoFdAfterDrop(s, p, k);
    var s2 := if s.heap[p].iwi.Some? then DropOne(s1, s.heap[p].iwi.value) else s1;
    var s3 := PortEmptied(s, p);
    forall fd | fd in s2.fds ensures s2.fds[fd] != p {
      assert s2.fds[fd] == s1.fds[fd];
    }
    assert FdsOfOthers(s2.fds, p) == s2.fds;
    assert s2.heap[p := Port(-1, true, s.heap[p].device, {}, None)] ==
           s3.heap[p := Port(-1, true, s.heap[p].device, {}, None)];
    assert s2.heap - {p} == s3.heap - {p};
  }

  lemma NoFdAfterDrop(s: State, p: Id, k: set<Id>)
    requires Owned(s) && p in s.heap && s.heap[p].fd !in s.fds
    ensures forall fd :: fd in DropClients(s, p, k).fds ==> DropClients(s, p, k).fds[fd] != p
  {
  }

  lemma FewerKeys(t: seq<int>, fds: Fds, fds': Fds, all: set<int>, all': set<int>)
    requires Closes(t, fds, fds', all, all')
    ensures |fds'| <= |fds|
    ensures fds.Keys <= all ==> fds'.Keys <= all'
  {
    var rest := fds.Keys - fds'.Keys;
    assert fds.Keys == fds'.Keys + rest;
    assert |fds.Keys| == |fds'.Keys| + |rest|;
  }

  lemma ClientAt(s: State, p: Id, c: Id)
    requires PortLinked(s, p) && c in s.heap[p].clients
    ensures OwnClient(s, p, c)
  {
  }

  /** The next client of a port can be closed, and then one more is dropped. */
  lemma ClientOfRest(s: State, p: Id, k: set<Id>, c: Id)
    requires Owned(s) && PortLinked(s, p) && k <= s.heap[p].clients && c in s.heap[p].clients && c !in k
    ensures var s1 := DropClients(s, p, k);
            && Owned(s1) && Live(s1, c) && c in s1.heap && s1.heap[c].fd > 0 && s1.heap[c].fd in s1.fds
            && s1.fds[s1.heap[c].fd] == c && Ready(s1, c)
            && After(s1, c) == DropClients(s, p, k + {c})
  {
    hide PortLinked, Owned, DropClients;
    DropOwned(s, p, k);
    assert OwnClient(s, p, c) by { ClientAt(s, p, c); }
    ClientKept(s, p, k, p, c);
    DropTwice(s, p, k, c);
  }

  lemma FetchShape(s: State, f: Id)
    requires Closing(s, f) && s.heap[f].Fetch? && s.heap[f].client.Some?
    ensures var c := s.heap[f].client.value;
            Live(s, c) && c in s.heap && s.heap[c].Client? && c != f && ClientLinked(s, c)
  {
  }

  lemma ClientShape(s: State, c: Id)
    requires Closing(s, c) && s.heap[c].Client?
    ensures ClientPaired(s, c) && ClientLinked(s, c) && HasClient(s, s.heap[c].owner, c) && s.heap[c].owner != c
    ensures After(s, c) == DropClients(s, s.heap[c].owner, {c})
  {
  }

  /** The state in which a client closes its static request. */
  function Orphaned(s: State, c: Id, f: Id): State
    requires ClientLinked(s, c) && s.heap[c].ifs == Some(f)
  {
    var p := s.heap[c].owner;
    s.(heap := s.heap[p := s.heap[p].(clients := s.heap[p].clients - {c})][f := s.heap[f].(client := None)])
  }

  lemma ClientStep(s: State, c: Id)
    requires Owned(s) && ClientPaired(s, c) && s.heap[c].ifs.Some?
    ensures var f := s.heap[c].ifs.value;
            && f in s.heap && s.heap[f].Fetch? && f != c && f != s.heap[c].owner
            && Live(s, f) && Owned(Orphaned(s, c, f)) && Ready(Orphaned(s, c, f), f)
            && After(Orphaned(s, c, f), f) == Unlinked(s, c)
  {
    var f := s.heap[c].ifs.value;
    var got, want := After(Orphaned(s, c, f), f), Unlinked(s, c);
    assert got.heap == want.heap;
  }

  lemma NoFetch(s: State, c: Id)
    requires ClientLinked(s, c) && s.heap[c].ifs.None?
    ensures Unlinked(s, c) ==
            s.(heap := s.heap[s.heap[c].owner := s.heap[s.heap[c].owner].(clients := s.heap[s.heap[c].owner].clients - {c})])
  {
  }

  /** The state in which an inspector closes its port. */
  function InspectorGone(s: State, w: Id, p: Id): State
    requires p in s.heap && s.heap[p].Port?
  {
    s.(heap := s.heap[p := s.heap[p].(iwi := None)] - {w})
  }

  lemma InspectorStep(s: State, w: Id, p: Id)
    requires Owned(s) && Closing(s, w) && s.heap[w].Inspector? && s.heap[w].port == Some(p)
    ensures p in s.heap && s.heap[p].Port? && p != w && s.heap[p].iwi == Some(w)
    ensures var s1 := InspectorGone(s, w, p);
            && Owned(s1)
            && (s.heap[p].fd > 0 ==> Live(s1, p) && Ready(s1, p) && After(s1, p) == After(s, w))
            && (s.heap[p].fd <= 0 ==> After(s, w) == s1)
  {
    hide After, ClientPaired, Ready, Owned;
    var s1 := InspectorGone(s, w, p);
    OwnedWithoutInspector(s, w, p);
    AfterInspector(s, w, p);
    if s.heap[p].fd > 0 {
      PortWithoutInspector(s, w, p);
      SamePortDrop(s, w, p);
    } else {
      NoFdOf(s, w);
      assert s.heap[p := s.heap[p].(iwi := None)] - {w} == s1.heap;
    }
  }

  lemma OwnedWithoutInspector(s: State, w: Id, p: Id)
    requires Owned(s) && w in s.heap && s.heap[w].fd !in s.fds && p in s.heap && s.heap[p].Port?
    ensures Owned(InspectorGone(s, w, p))
  {
  }

  lemma AfterInspector(s: State, w: Id, p: Id)
    requires w in s.heap && s.heap[w].Inspector? && s.heap[w].port == Some(p) && p in s.heap && s.heap[p].Port?
    ensures After(s, w) == if s.heap[p].fd > 0 then DropPort(s, p)
                           else DropOne(s.(heap := s.heap[p := s.heap[p].(iwi := None)]), w)
  {
  }

  lemma PortWithoutInspector(s: State, w: Id, p: Id)
    requires PortLinked(s, p) && s.heap[p].iwi == Some(w) && IsInspectorOf(s, w, p) && Live(s, p)
    ensures var s1 := InspectorGone(s, w, p); Live(s1, p) && Ready(s1, p) && After(s1, p) == DropPort(s1, p)
  {
  }

  lemma SamePortDrop(s: State, w: Id, p: Id)
    requires Owned(s) && PortLinked(s, p) && s.heap[p].iwi == Some(w) && IsInspectorOf(s, w, p)
    requires s.heap[w].fd !in s.fds
    ensures DropPort(InspectorGone(s, w, p), p) == DropPort(s, p)
  {
    hide Owned, Live, ClientPaired;
    var s1, k := InspectorGone(s, w, p), s.heap[p].clients;
    forall c | c in k ensures c != w {
      NotTheClient(s, p, c, w);
    }
    PortIsNoClient(s, p, k);
    forall fd | fd in s.fds ensures s.fds[fd] in s.heap && s.fds[fd] != w {
      OwnedAt(s, fd);
    }
    forall id | id in s1.heap ensures GoneWith(s1.heap, k, id) <==> GoneWith(s.heap, k, id) {
    }
    var got, want := DropPort(s1, p), DropPort(s, p);
    assert got.fds == want.fds;
    assert got.heap == want.heap;
  }

  lemma NoFdOf(s: State, id: Id)
    requires Owned(s) && id in s.heap && s.heap[id].fd !in s.fds
    ensures FdsOfOthers(s.fds, id) == s.fds
  {
    hide Owned;
    forall fd | fd in s.fds ensures s.fds[fd] != id {
      OwnedAt(s, fd);
    }
  }

  lemma ListenerCloses(s: State, id: Id)
    requires Closing(s, id) && s.heap[id].Listener? && Owned(s)
    ensures After(s, id) == s
  {
    NoFdOf(s, id);
  }

  lemma OneCloses(s: State, id: Id)
    requires Closing(s, id) && Owned(s)
    requires (s.heap[id].Fetch? && s.heap[id].client == None) || (s.heap[id].Inspector? && s.heap[id].port == None)
    ensures After(s, id) == s.(heap := s.heap - {id})
    ensures Owned(s.(heap := s.heap - {id}))
  {
    NoFdOf(s, id);
  }

  /** The client can be closed once its static request is freed. */
  lemma FetchClosed(s: State, f: Id, c: Id)
    requires Owned(s) && Closing(s, f) && s.heap[f].Fetch? && s.heap[f].client == Some(c)
    ensures var s1 := FetchGone(s, f, c);
            && Owned(s1) && Live(s1, c) && Ready(s1, c) && After(s1, c) == After(s, f) && s1.fds == s.fds
  {
    hide Owned;
    NoFdOf(s, f);
    FetchGoneOwned(s, f, c);
  }

  lemma FetchGoneOwned(s: State, f: Id, c: Id)
    requires Owned(s) && f in s.heap && s.heap[f].Fetch? && s.heap[f].fd !in s.fds && c in s.heap && s.heap[c].Client?
    ensures Owned(FetchGone(s, f, c))
  {
  }

  lemma FewerFds(fds: Fds, fd: int)
    requires fd in fds
    ensures |fds| == |fds - {fd}| + 1
  {
  }

  /** What the handler of a record relies on, its own descriptor being off already. */
  predicate Closing(s: State, id: Id) {
    id in s.heap && s.heap[id].fd !in s.fds &&
    match s.heap[id]
    case Fetch(_, None) => true
    case Fetch(_, Some(c)) => Live(s, c) && ClientLinked(s, c) && (s.heap[c].ifs == Some(id) || ClientPaired(s, c))
    case Client(_, _, _) => ClientPaired(s, id)
    case Inspector(_, None) => true
    case Inspector(_, Some(p)) => PortLinked(s, p) && s.heap[p].iwi == Some(id) && (s.heap[p].fd > 0 ==> Live(s, p))
    case Port(_, _, _, _, _) => PortPaired(s, id)
    case Listener(_) => true
  }

  lemma PoppedReady(s: State, fd: int)
    requires Owned(s) && fd in s.fds && Ready(s, s.fds[fd])
    ensures Owned(Popped(s, fd)) && Closing(Popped(s, fd), s.fds[fd])
    ensures After(Popped(s, fd), s.fds[fd]) == After(s, s.fds[fd])
  {
    hide Live, ClientPaired, PortPaired, PortLinked, After, Ready, Closing;
    OwnedAt(s, fd);
    PoppedAfter(s, fd);
    PoppedClosing(s, fd);
  }

  lemma PoppedClosing(s: State, fd: int)
    requires fd in s.fds && Ready(s, s.fds[fd]) && s.heap[s.fds[fd]].fd == fd
    ensures Closing(Popped(s, fd), s.fds[fd])
  {
  }

  /** Whether the descriptor's value is taken off first makes no difference in the end. */
  lemma PoppedAfter(s: State, fd: int)
    requires fd in s.fds && Ready(s, s.fds[fd])
    ensures After(Popped(s, fd), s.fds[fd]) == After(s, s.fds[fd])
  {
    hide Live, ClientPaired, PortPaired;
    var s', id := Popped(s, fd), s.fds[fd];
    assert FdsOfOthers(s'.fds, id) == FdsOfOthers(s.fds, id);
    match s.heap[id]
    case Fetch(_, Some(c)) =>
      ClientIsLinked(s, c);
      assert FetchGone(s', id, c) == FetchGone(s, id, c);
    case Client(_, _, _) =>
      PoppedFds(s, fd, {id});
    case Inspector(_, Some(p)) =>
      PortIsLinked(s, p);
      PoppedPort(s, fd, p);
    case Port(_, _, _, _, _) =>
      PoppedPort(s, fd, id);
    case _ =>
  }

  lemma PoppedFds(s: State, fd: int, k: set<Id>)
    requires fd in s.fds && GoneWith(s.heap, k, s.fds[fd])
    ensures FdsWithout(s.fds - {fd}, s.heap, k) == FdsWithout(s.fds, s.heap, k)
  {
  }

  lemma PoppedPort(s: State, fd: int, p: Id)
    requires fd in s.fds && p in s.heap && s.heap[p].Port? && (s.fds[fd] == p || Some(s.fds[fd]) == s.heap[p].iwi)
    ensures DropPort(Popped(s, fd), p) == DropPort(s, p)
  {
    var s' := Popped(s, fd);
    var k := s.heap[p].clients;
    if s.fds[fd] == p {
      var got, want := DropPort(s', p), DropPort(s, p);
      assert got.fds == want.fds;
    } else {
      var w := s.fds[fd];
      assert FdsOfOthers(FdsWithout(s'.fds, s.heap, k), w) == FdsOfOthers(FdsWithout(s.fds, s.heap, k), w);
    }
  }

  // ----- a client that makes two static requests -----

  const Twice: State :=
    State(map[1 := Port(3, false, 0, {2}, None), 2 := Client(4, 1, Some(4)), 3 := Fetch(5, Some(2)), 4 := Fetch(6, Some(2))],
          map[3 := 1, 4 := 2, 5 := 3, 6 := 4], map[0 := 1])
  const TwiceClosed: State :=
    State(map[1 := Port(3, false, 0, {}, None), 3 := Fetch(5, Some(2))], map[3 := 1, 5 := 3], map[0 := 1])

  lemma CloseTwice()
    ensures After(Twice, 2) == TwiceClosed
  {
    var h := Twice.heap;
    assert h[1].Port? && h[2] == Client(4, 1, Some(4)) && h[3] == Fetch(5, Some(2)) && h[4] == Fetch(6, Some(2));
    assert forall id :: id in h ==> (GoneWith(h, {2}, id) <==> id == 2 || id == 4);
    var s1 := DropClients(Twice, 1, {2});
    assert h[1].clients - {2} == {};
    assert s1.heap.Keys == {1, 3} && s1.fds.Keys == {3, 5};
    assert s1.heap == TwiceClosed.heap;
    assert s1.fds == TwiceClosed.fds;
  }

  const Accepting: State :=
    State(map[1 := Port(3, false, 0, {2}, None), 2 := Client(4, 1, None)], map[3 := 1, 4 := 2], map[0 := 1])

  lemma FirstSteps()
    ensures Accepted(Listening(State(map[], map[], map[]), 3, 1, 0), 4, 2, 1) == Accepting
    ensures Requested(Requested(Accepting, 5, 3, 2), 6, 4, 2) == Twice
  {
    var s := Listening(State(map[], map[], map[]), 3, 1, 0);
    assert s == State(map[1 := Port(3, false, 0, {}, None)], map[3 := 1], map[0 := 1]);
    var s1 := Accepted(s, 4, 2, 1);
    assert {} + {2} == {2};
    assert s1.heap == Accepting.heap;
    var s2 := Requested(Requested(Accepting, 5, 3, 2), 6, 4, 2);
    assert s2.heap == Twice.heap;
    assert s2.fds == Twice.fds;
  }

  lemma TwiceDangles()
    ensures IsDangling(TwiceClosed, 5) && Dangles(TwiceClosed)
  {
  }

  /**
   * From a new proxy: the port of a device listens, a client connects, makes two static requests
   * and closes. The first request stays registered and names the freed client.
   */
  method RequestTwiceThenClose() returns (p: Proxy)
    ensures fresh(p) && p.S() == TwiceClosed && IsDangling(p.S(), 5) && !p.Valid()
  {
    hide Paired, AllRecorded, Closes, Leaves, After, Listening, Accepted, Refused;
    FirstSteps();
    ListeningAt(State(map[], map[], map[]), 3, 1, 0);
    p := new Proxy();
    var ok := p.Listen(3, 1, 0);
    ok := p.Accept(3, 4, 2);
    p.Request(2, 5, 3);
    p.Request(2, 6, 4);
    assert p.S() == Twice;
    ghost var t;
    ok, t := p.Remove(4);
    CloseTwice();
    TwiceDangles();
  }
}
