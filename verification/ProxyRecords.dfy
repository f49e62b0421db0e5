/**
 * The records behind the descriptors of src/ios_webkit_debug_proxy.c, what closing one of them
 * amounts to, and the links that every close and every new record keeps.
 */
module ProxyRecords {
  import opened Bytes

  type Id = int
  type Device = int

  datatype Obj =
    | Port(fd: int, sticky: bool, device: Device, clients: set<Id>, iwi: Option<Id>)
    | Inspector(fd: int, port: Option<Id>)
    | Client(fd: int, owner: Id, ifs: Option<Id>)
    | Fetch(fd: int, client: Option<Id>)
    | Listener(fd: int)

  type Heap = map<Id, Obj>
  type Fds = map<int, Id>

  datatype State = State(heap: Heap, fds: Fds, devices: map<Device, Id>)

  // ----- what a close amounts to -----

  /** A static request that its client knows of: a later one of the same client hides it. */
  predicate IsRecorded(heap: Heap, f: Id) {
    && f in heap && heap[f].Fetch? && heap[f].client.Some? && heap[f].client.value in heap
    && heap[heap[f].client.value].Client? && heap[heap[f].client.value].ifs == Some(f)
  }

  /** A client of `k`, or the static request that one knows of. */
  predicate GoneWith(heap: Heap, k: set<Id>, id: Id) {
    id in k || (IsRecorded(heap, id) && heap[id].client.value in k)
  }

  function FdsWithout(fds: Fds, heap: Heap, k: set<Id>): Fds {
    map fd | fd in fds && !GoneWith(heap, k, fds[fd]) :: fds[fd]
  }

  /** Clients of one port and their static requests are gone, and the port has forgotten them. */
  function DropClients(s: State, p: Id, k: set<Id>): State {
    State(map id | id in s.heap && !GoneWith(s.heap, k, id) ::
            if id == p && s.heap[p].Port? then s.heap[p].(clients := s.heap[p].clients - k) else s.heap[id],
          FdsWithout(s.fds, s.heap, k), s.devices)
  }

  function FdsOfOthers(fds: Fds, id: Id): Fds {
    map fd | fd in fds && fds[fd] != id :: fds[fd]
  }

  /** One record is gone. */
  function DropOne(s: State, id: Id): State {
    State(s.heap - {id}, FdsOfOthers(s.fds, id), s.devices)
  }

  /** A port is closed with its clients, their static requests and its inspector. */
  function DropPort(s: State, p: Id): State
    requires p in s.heap && s.heap[p].Port?
  {
    var port := s.heap[p];
    var s1 := DropClients(s, p, port.clients);
    var s2 := if port.iwi.Some? then DropOne(s1, port.iwi.value) else s1;
    if port.sticky
    then State(s2.heap[p := port.(fd := -1, clients := {}, iwi := None)], FdsOfOthers(s2.fds, p), s2.devices)
    else State(s2.heap - {p}, FdsOfOthers(s2.fds, p), s2.devices - {port.device})
  }

  /** A static request that is gone before its client. */
  function FetchGone(s: State, f: Id, c: Id): State
    requires c in s.heap && s.heap[c].Client?
  {
    var heap := if s.heap[c].ifs == Some(f) then s.heap[c := s.heap[c].(ifs := None)] else s.heap;
    State(heap - {f}, FdsOfOthers(s.fds, f), s.devices)
  }

  /** The state once the record behind a descriptor is closed. */
  function After(s: State, id: Id): State {
    if id !in s.heap then s
    else match s.heap[id]
      case Fetch(_, None) => DropOne(s, id)
      case Fetch(_, Some(c)) =>
        if c in s.heap && s.heap[c].Client? then DropClients(FetchGone(s, id, c), s.heap[c].owner, {c}) else s
      case Client(_, p, _) => DropClients(s, p, {id})
      case Inspector(_, None) => DropOne(s, id)
      case Inspector(_, Some(p)) =>
        if p !in s.heap || !s.heap[p].Port? then s
        else if s.heap[p].fd > 0 then DropPort(s, p)
        else DropOne(s.(heap := s.heap[p := s.heap[p].(iwi := None)]), id)
      case Port(_, _, _, _, _) => DropPort(s, id)
      case Listener(_) => s.(fds := FdsOfOthers(s.fds, id))
  }

  // ----- the links between the records -----

  predicate Live(s: State, id: Id) {
    id in s.heap && s.heap[id].fd > 0 && s.heap[id].fd in s.fds && s.fds[s.heap[id].fd] == id
  }

  /** Every registered descriptor leads to a record with that descriptor. */
  predicate Owned(s: State) {
    forall fd :: fd in s.fds ==> fd > 0 && s.fds[fd] in s.heap && s.heap[s.fds[fd]].fd == fd
  }

  /** Every device of the table leads to its port. */
  predicate Known(s: State) {
    forall d :: d in s.devices ==>
      s.devices[d] in s.heap && s.heap[s.devices[d]].Port? && s.heap[s.devices[d]].device == d
  }

  predicate IsFetchOf(s: State, f: Id, c: Id) {
    f in s.heap && s.heap[f].Fetch? && s.heap[f].client == Some(c)
  }

  predicate HasClient(s: State, p: Id, c: Id) {
    p in s.heap && s.heap[p].Port? && c in s.heap[p].clients
  }

  /** A client, its port and its static request point at each other. */
  predicate ClientLinked(s: State, c: Id) {
    && c in s.heap && s.heap[c].Client? && HasClient(s, s.heap[c].owner, c)
    && (s.heap[c].ifs.Some? ==> IsFetchOf(s, s.heap[c].ifs.value, c))
  }

  /** And the static request is registered. */
  predicate ClientPaired(s: State, c: Id) {
    ClientLinked(s, c) && (s.heap[c].ifs.Some? ==> Live(s, s.heap[c].ifs.value))
  }

  predicate IsInspectorOf(s: State, w: Id, p: Id) {
    w in s.heap && s.heap[w].Inspector? && s.heap[w].port == Some(p)
  }

  /** A registered client of a port. */
  predicate OwnClient(s: State, p: Id, c: Id) {
    Live(s, c) && ClientPaired(s, c) && s.heap[c].owner == p
  }

  /** A port is known by its device; its clients and its inspector point back and are registered. */
  predicate PortLinked(s: State, p: Id) {
    && p in s.heap && s.heap[p].Port?
    && s.heap[p].device in s.devices && s.devices[s.heap[p].device] == p
    && (forall c :: c in s.heap[p].clients ==> OwnClient(s, p, c))
    && (s.heap[p].iwi.Some? ==> IsInspectorOf(s, s.heap[p].iwi.value, p))
  }

  predicate PortPaired(s: State, p: Id) {
    PortLinked(s, p) && (s.heap[p].iwi.Some? ==> Live(s, s.heap[p].iwi.value))
  }

  /** All links of all records. */
  predicate Paired(s: State) {
    && Owned(s) && Known(s)
    && (forall id :: id in s.heap ==> Linked(s, id))
  }

  predicate Linked(s: State, id: Id)
    requires id in s.heap
  {
    match s.heap[id]
    case Port(fd, _, _, clients, iwi) =>
      PortPaired(s, id) && (if fd > 0 then Live(s, id) else clients == {} && iwi.None?)
    case Inspector(_, port) => port.Some? ==>
      port.value in s.heap && s.heap[port.value].Port? && s.heap[port.value].iwi == Some(id)
    case Client(_, _, _) => ClientPaired(s, id)
    case Fetch(_, client) =>
      Live(s, id) && (client.Some? ==> client.value in s.heap && s.heap[client.value].Client?)
    case Listener(_) => true
  }

  /** What closing a record relies on. */
  predicate Ready(s: State, id: Id) {
    id in s.heap &&
    match s.heap[id]
    case Fetch(_, None) => true
    case Fetch(_, Some(c)) => Live(s, c) && ClientPaired(s, c)
    case Client(_, _, _) => ClientPaired(s, id)
    case Inspector(_, None) => true
    case Inspector(_, Some(p)) => PortPaired(s, p) && s.heap[p].iwi == Some(id) && (s.heap[p].fd > 0 ==> Live(s, p))
    case Port(_, _, _, _, _) => PortPaired(s, id)
    case Listener(_) => true
  }

  /** Whatever is registered can be closed. */
  lemma PairedReady(s: State, fd: int)
    requires Paired(s) && fd in s.fds
    ensures Ready(s, s.fds[fd])
  {
    hide ClientPaired, PortPaired, Live;
    var id := s.fds[fd];
    assert Linked(s, id);
    if s.heap[id].Fetch? && s.heap[id].client.Some? {
      var c := s.heap[id].client.value;
      assert Linked(s, c);
      assert Linked(s, s.heap[c].owner) by { OwnerLinked(s, c); }
      ClientLive(s, c);
    } else if s.heap[id].Inspector? && s.heap[id].port.Some? {
      assert Linked(s, s.heap[id].port.value);
    }
  }

  lemma OwnerLinked(s: State, c: Id)
    requires Paired(s) && ClientPaired(s, c)
    ensures HasClient(s, s.heap[c].owner, c) && Linked(s, s.heap[c].owner) && PortPaired(s, s.heap[c].owner)
  {
  }

  lemma ClientLive(s: State, c: Id)
    requires Paired(s) && ClientPaired(s, c)
    ensures Live(s, c)
  {
  }

  /** A port or its inspector is no client and no static request of one. */
  lemma NotTheClient(s: State, p: Id, c: Id, id: Id)
    requires PortLinked(s, p) && c in s.heap[p].clients && (id == p || Some(id) == s.heap[p].iwi)
    ensures c in s.heap && c != id && Some(id) != s.heap[c].ifs
  {
  }

  lemma OwnedAt(s: State, fd: int)
    requires Owned(s) && fd in s.fds
    ensures fd > 0 && s.fds[fd] in s.heap && s.heap[s.fds[fd]].fd == fd
  {
  }

  lemma PortIsNoClient(s: State, p: Id, k: set<Id>)
    requires PortLinked(s, p) && k <= s.heap[p].clients
    ensures p in s.heap && s.heap[p].Port? && !GoneWith(s.heap, k, p)
  {
  }

  /** A registered record that is not dropped stays registered. */
  lemma StaysLive(s: State, p: Id, k: set<Id>, id: Id)
    requires Live(s, id) && id != p && !GoneWith(s.heap, k, id)
    ensures Live(DropClients(s, p, k), id) && DropClients(s, p, k).heap[id] == s.heap[id]
  {
  }

  lemma DropOwned(s: State, p: Id, k: set<Id>)
    requires Owned(s)
    ensures Owned(DropClients(s, p, k))
  {
  }

  /** With its clients dropped a port still has its inspector. */
  lemma InspectorKept(s: State, p: Id, k: set<Id>)
    requires PortPaired(s, p) && k <= s.heap[p].clients
    ensures var s1 := DropClients(s, p, k);
            && p in s1.heap && s1.heap[p] == s.heap[p].(clients := s.heap[p].clients - k)
            && (s.heap[p].iwi.Some? ==> Live(s1, s.heap[p].iwi.value) && IsInspectorOf(s1, s.heap[p].iwi.value, p))
  {
  }

  lemma PortIsLinked(s: State, p: Id)
    requires PortPaired(s, p)
    ensures PortLinked(s, p) && s.heap[p].Port?
  {
  }

  lemma ClientIsLinked(s: State, c: Id)
    requires ClientPaired(s, c)
    ensures c in s.heap && s.heap[c].Client?
    ensures s.heap[c].ifs.Some? ==> IsFetchOf(s, s.heap[c].ifs.value, c)
  {
  }

  // ----- the links survive every close -----

  /** A client that is not dropped keeps its links and its registration. */
  lemma ClientKept(s: State, p: Id, k: set<Id>, q: Id, c: Id)
    requires Owned(s) && PortLinked(s, p) && k <= s.heap[p].clients
    requires OwnClient(s, q, c) && c !in k
    ensures OwnClient(DropClients(s, p, k), q, c)
  {
  }

  lemma QIsNoClient(s: State, p: Id, k: set<Id>, q: Id)
    requires PortLinked(s, p) && k <= s.heap[p].clients && q in s.heap && s.heap[q].Port?
    ensures !GoneWith(s.heap, k, q)
  {
  }

  lemma InspectorNotIn(s: State, p: Id, k: set<Id>, w: Id)
    requires PortLinked(s, p) && k <= s.heap[p].clients && w in s.heap && s.heap[w].Inspector?
    ensures !GoneWith(s.heap, k, w) && w != p
  {
  }

  lemma PairedOwned(s: State)
    requires Paired(s)
    ensures Owned(s)
  {
  }

  lemma LinkedAt(s: State, id: Id)
    requires Paired(s) && id in s.heap
    ensures Linked(s, id) && Owned(s)
  {
  }

  lemma PortKept(s: State, p: Id, k: set<Id>, q: Id)
    requires Owned(s) && PortLinked(s, p) && k <= s.heap[p].clients
    requires PortPaired(s, q) && (s.heap[q].fd > 0 ==> Live(s, q))
    ensures var s1 := DropClients(s, p, k);
            q in s1.heap && s1.heap[q].Port? && s1.heap[q].fd == s.heap[q].fd && PortPaired(s1, q)
            && (s.heap[q].fd > 0 ==> Live(s1, q))
  {
    hide Owned, ClientPaired;
    var s1 := DropClients(s, p, k);
    QIsNoClient(s, p, k, q);
    forall x | x in k ensures x in s.heap && s.heap[x].Client? && s.heap[x].owner == p {
      assert OwnClient(s, p, x);
      ClientIsLinked(s, x);
    }
    forall c | c in s1.heap[q].clients ensures OwnClient(s1, q, c) {
      assert OwnClient(s, q, c);
      ClientKept(s, p, k, q, c);
    }
    if s.heap[q].iwi.Some? {
      InspectorNotIn(s, p, k, s.heap[q].iwi.value);
      StaysLive(s, p, k, s.heap[q].iwi.value);
    }
  }

  lemma KnownOf(s: State)
    requires Paired(s)
    ensures Known(s)
  {
  }

  lemma DropKnown(s: State, p: Id, k: set<Id>)
    requires Known(s) && PortLinked(s, p) && k <= s.heap[p].clients
    ensures Known(DropClients(s, p, k))
  {
  }

  /** A static request of a client of `k` that this client does not know of. */
  predicate IsStray(heap: Heap, k: set<Id>, f: Id) {
    f in heap && heap[f].Fetch? && heap[f].client.Some? && heap[f].client.value in k && !IsRecorded(heap, f)
  }

  predicate HasStray(heap: Heap, k: set<Id>) {
    exists f :: f in heap && IsStray(heap, k, f)
  }

  /** Dropping clients keeps all links if and only if none of them has a request that it does not know of. */
  lemma DropClientsKeeps(s: State, p: Id, k: set<Id>)
    requires Paired(s) && p in s.heap && s.heap[p].Port? && k <= s.heap[p].clients
    ensures Paired(DropClients(s, p, k)) <==> !HasStray(s.heap, k)
  {
    hide Owned, ClientPaired, PortPaired, PortLinked, Live, DropClients, Paired;
    LinkedAt(s, p);
    PortIsLinked(s, p);
    if HasStray(s.heap, k) {
      var f :| f in s.heap && IsStray(s.heap, k, f);
      StrayStays(s, p, k, f);
      StrayUnpaired(DropClients(s, p, k), f);
    } else {
      DropOthersKeeps(s, p, k);
    }
  }

  lemma StrayStays(s: State, p: Id, k: set<Id>, f: Id)
    requires IsStray(s.heap, k, f) && PortLinked(s, p) && k <= s.heap[p].clients
    ensures var s1 := DropClients(s, p, k); f in s1.heap && s1.heap[f] == s.heap[f] && s1.heap[f].client.value !in s1.heap
  {
  }

  lemma StrayUnpaired(s: State, f: Id)
    requires f in s.heap && s.heap[f].Fetch? && s.heap[f].client.Some? && s.heap[f].client.value !in s.heap
    ensures !Paired(s)
  {
    hide Owned, Known;
    assert !Linked(s, f);
  }

  lemma DropOthersKeeps(s: State, p: Id, k: set<Id>)
    requires Paired(s) && p in s.heap && s.heap[p].Port? && k <= s.heap[p].clients && !HasStray(s.heap, k)
    ensures Paired(DropClients(s, p, k))
  {
    hide Owned, ClientPaired, PortPaired, PortLinked, Live, DropClients, Paired, HasStray;
    var s1 := DropClients(s, p, k);
    LinkedAt(s, p);
    KnownOf(s);
    PortIsLinked(s, p);
    DropOwned(s, p, k);
    DropKnown(s, p, k);
    forall id | id in s1.heap ensures Linked(s1, id) {
      LinkedAfterDrop(s, p, k, id);
    }
    assert Paired(s1) by { PairedFrom(s1); }
  }

  lemma PairedFrom(s: State)
    requires Owned(s) && Known(s) && forall id :: id in s.heap ==> Linked(s, id)
    ensures Paired(s)
  {
  }

  lemma LinkedAfterDrop(s: State, p: Id, k: set<Id>, id: Id)
    requires Paired(s) && PortLinked(s, p) && k <= s.heap[p].clients && id in DropClients(s, p, k).heap
    requires !HasStray(s.heap, k)
    ensures Linked(DropClients(s, p, k), id)
  {
    hide Owned, ClientPaired, PortPaired, Live, Paired;
    var s1 := DropClients(s, p, k);
    LinkedAt(s, id);
    match s.heap[id]
    case Port(_, _, _, _, _) =>
      PortKept(s, p, k, id);
    case Inspector(_, port) =>
      if port.Some? {
        QIsNoClient(s, p, k, port.value);
      }
    case Client(_, _, _) =>
      OwnerOf(s, id);
      ClientKept(s, p, k, s.heap[id].owner, id);
    case Fetch(_, client) =>
      StaysLive(s, p, k, id);
    case Listener(_) =>
  }

  lemma OwnerOf(s: State, c: Id)
    requires Paired(s) && ClientPaired(s, c)
    ensures c in s.heap && s.heap[c].Client? && OwnClient(s, s.heap[c].owner, c)
  {
  }

  /** A record that nothing points at any more. */
  predicate Alone(s: State, id: Id) {
    id in s.heap &&
    match s.heap[id]
    case Fetch(_, client) => client.None?
    case Inspector(_, port) => port.None?
    case _ => false
  }

  lemma DropOneKeeps(s: State, id: Id)
    requires Paired(s) && Alone(s, id)
    ensures Paired(DropOne(s, id))
  {
    hide Paired, Live, Owned, PortPaired, ClientPaired, DropOne;
    var s1 := DropOne(s, id);
    assert Owned(s) by { LinkedAt(s, id); }
    KnownOf(s);
    DropOneOwned(s, id);
    forall x | x in s1.heap ensures Linked(s1, x) {
      assert x in s.heap && x != id by { InDropOne(s, id, x); }
      LinkedAt(s, x);
      LinkedAfterOne(s, id, x);
    }
    PairedFrom(s1);
  }

  lemma InDropOne(s: State, id: Id, x: Id)
    ensures x in DropOne(s, id).heap <==> x in s.heap && x != id
  {
  }

  lemma DropOneOwned(s: State, id: Id)
    requires Owned(s) && Known(s) && Alone(s, id)
    ensures Owned(DropOne(s, id)) && Known(DropOne(s, id))
  {
  }

  lemma ClientAfterOne(s: State, id: Id, c: Id)
    requires Alone(s, id) && ClientPaired(s, c)
    ensures ClientPaired(DropOne(s, id), c)
  {
  }

  lemma LiveAfterOne(s: State, id: Id, x: Id)
    requires Live(s, x) && x != id
    ensures Live(DropOne(s, id), x)
  {
  }

  lemma PortAfterOne(s: State, id: Id, p: Id)
    requires Alone(s, id) && PortPaired(s, p)
    ensures PortPaired(DropOne(s, id), p)
  {
  }

  lemma SameInDropOne(s: State, id: Id, x: Id)
    requires x in s.heap && x != id
    ensures x in DropOne(s, id).heap && DropOne(s, id).heap[x] == s.heap[x]
    ensures DropOne(s, id).devices == s.devices
  {
  }

  lemma LinkedAfterOne(s: State, id: Id, x: Id)
    requires Alone(s, id) && x in s.heap && x != id && Linked(s, x)
    ensures x in DropOne(s, id).heap && Linked(DropOne(s, id), x)
  {
    hide Live, ClientPaired, PortPaired, DropOne;
    SameInDropOne(s, id, x);
    match s.heap[x]
    case Port(_, _, _, _, _) =>
      PortAfterOne(s, id, x);
      if s.heap[x].fd > 0 {
        LiveAfterOne(s, id, x);
      }
    case Inspector(_, port) =>
      if port.Some? {
        SameInDropOne(s, id, port.value);
      }
    case Client(_, _, _) =>
      ClientAfterOne(s, id, x);
    case Fetch(_, client) =>
      LiveAfterOne(s, id, x);
      if client.Some? {
        SameInDropOne(s, id, client.value);
      }
    case Listener(_) =>
  }

  // ----- a static request and its client -----

  /** The request has forgotten its client, and the client has forgotten the request if it knew of it. */
  function Released(s: State, f: Id, c: Id): State
    requires f in s.heap && s.heap[f].Fetch? && c in s.heap && s.heap[c].Client?
  {
    var heap := if s.heap[c].ifs == Some(f) then s.heap[c := s.heap[c].(ifs := None)] else s.heap;
    s.(heap := heap[f := Fetch(s.heap[f].fd, None)])
  }

  lemma FetchGoneKeeps(s: State, f: Id, c: Id)
    requires Paired(s) && IsFetchOf(s, f, c) && c in s.heap && s.heap[c].Client?
    ensures Paired(FetchGone(s, f, c))
  {
    hide Paired, Live, Owned, PortPaired, ClientPaired, DropOne, Released, FetchGone;
    ReleasedKeeps(s, f, c);
    DropOneKeeps(Released(s, f, c), f);
    GoneWhenReleased(s, f, c);
  }

  lemma GoneWhenReleased(s: State, f: Id, c: Id)
    requires f in s.heap && s.heap[f].Fetch? && c in s.heap && s.heap[c].Client?
    ensures FetchGone(s, f, c) == DropOne(Released(s, f, c), f)
  {
    assert FetchGone(s, f, c).heap == DropOne(Released(s, f, c), f).heap;
  }

  lemma ReleasedKeeps(s: State, f: Id, c: Id)
    requires Paired(s) && IsFetchOf(s, f, c) && c in s.heap && s.heap[c].Client?
    ensures Paired(Released(s, f, c)) && Alone(Released(s, f, c), f)
  {
    hide Paired, Live, Owned, PortPaired, ClientPaired;
    var s1 := Released(s, f, c);
    LinkedAt(s, f);
    KnownOf(s);
    ReleasedOwned(s, f, c);
    forall x | x in s1.heap ensures Linked(s1, x) {
      LinkedAt(s, x);
      LinkedAfterRelease(s, f, c, x);
    }
    PairedFrom(s1);
  }

  lemma ReleasedOwned(s: State, f: Id, c: Id)
    requires Owned(s) && Known(s) && IsFetchOf(s, f, c) && c in s.heap && s.heap[c].Client?
    ensures Owned(Released(s, f, c)) && Known(Released(s, f, c))
  {
  }

  lemma LiveAfterRelease(s: State, f: Id, c: Id, x: Id)
    requires IsFetchOf(s, f, c) && c in s.heap && s.heap[c].Client? && Live(s, x)
    ensures Live(Released(s, f, c), x)
  {
  }

  lemma ClientAfterRelease(s: State, f: Id, c: Id, d: Id)
    requires IsFetchOf(s, f, c) && c in s.heap && s.heap[c].Client? && ClientPaired(s, d)
    ensures ClientPaired(Released(s, f, c), d)
  {
  }

  lemma PortAfterRelease(s: State, f: Id, c: Id, p: Id)
    requires IsFetchOf(s, f, c) && c in s.heap && s.heap[c].Client? && PortPaired(s, p)
    ensures PortPaired(Released(s, f, c), p)
  {
    hide ClientPaired, Live;
    var s1 := Released(s, f, c);
    forall d | d in s.heap[p].clients ensures OwnClient(s1, p, d) {
      assert OwnClient(s, p, d);
      ClientIsLinked(s, d);
      LiveAfterRelease(s, f, c, d);
      ClientAfterRelease(s, f, c, d);
    }
    if s.heap[p].iwi.Some? {
      LiveAfterRelease(s, f, c, s.heap[p].iwi.value);
    }
  }

  lemma LinkedAfterRelease(s: State, f: Id, c: Id, x: Id)
    requires IsFetchOf(s, f, c) && c in s.heap && s.heap[c].Client? && x in s.heap && Linked(s, x)
    ensures Linked(Released(s, f, c), x)
  {
    hide ClientPaired, PortPaired, Live;
    match s.heap[x]
    case Port(_, _, _, _, _) =>
      PortAfterRelease(s, f, c, x);
      if s.heap[x].fd > 0 {
        LiveAfterRelease(s, f, c, x);
      }
    case Client(_, _, _) =>
      ClientAfterRelease(s, f, c, x);
    case Fetch(_, _) =>
      LiveAfterRelease(s, f, c, x);
    case _ =>
  }

  /** A port and its inspector have forgotten each other. */
  function Parted(s: State, w: Id, p: Id): State
    requires IsInspectorOf(s, w, p) && p in s.heap && s.heap[p].Port?
  {
    s.(heap := s.heap[w := s.heap[w].(port := None)][p := s.heap[p].(iwi := None)])
  }

  lemma PartedKeeps(s: State, w: Id, p: Id)
    requires Paired(s) && IsInspectorOf(s, w, p) && p in s.heap && s.heap[p].Port?
    ensures Paired(Parted(s, w, p)) && Alone(Parted(s, w, p), w)
  {
    hide Paired, Live, Owned, PortPaired, ClientPaired;
    var s1 := Parted(s, w, p);
    LinkedAt(s, w);
    KnownOf(s);
    PartedOwned(s, w, p);
    forall x | x in s1.heap ensures Linked(s1, x) {
      LinkedAt(s, x);
      LinkedAfterParting(s, w, p, x);
    }
    PairedFrom(s1);
  }

  lemma PartedOwned(s: State, w: Id, p: Id)
    requires Owned(s) && Known(s) && IsInspectorOf(s, w, p) && p in s.heap && s.heap[p].Port?
    ensures Owned(Parted(s, w, p)) && Known(Parted(s, w, p))
  {
  }

  lemma ClientAfterParting(s: State, w: Id, p: Id, c: Id)
    requires IsInspectorOf(s, w, p) && p in s.heap && s.heap[p].Port? && ClientPaired(s, c)
    ensures ClientPaired(Parted(s, w, p), c)
  {
  }

  lemma PortAfterParting(s: State, w: Id, p: Id, q: Id)
    requires IsInspectorOf(s, w, p) && p in s.heap && s.heap[p].Port? && PortPaired(s, q)
    ensures PortPaired(Parted(s, w, p), q)
  {
    hide ClientPaired;
    var s1 := Parted(s, w, p);
    forall c | c in s.heap[q].clients ensures OwnClient(s1, q, c) {
      assert OwnClient(s, q, c);
      ClientIsLinked(s, c);
      ClientAfterParting(s, w, p, c);
    }
  }

  lemma LinkedAfterParting(s: State, w: Id, p: Id, x: Id)
    requires IsInspectorOf(s, w, p) && p in s.heap && s.heap[p].Port? && x in s.heap && Linked(s, x) && Linked(s, w)
    ensures Linked(Parted(s, w, p), x)
  {
    hide ClientPaired, PortPaired;
    match s.heap[x]
    case Port(_, _, _, _, _) =>
      PortAfterParting(s, w, p, x);
    case Client(_, _, _) =>
      ClientAfterParting(s, w, p, x);
    case Inspector(_, _) =>
    case Fetch(_, _) =>
    case Listener(_) =>
  }

  /** A port that has nothing left is closed. */
  function PortShut(s: State, p: Id): State
    requires p in s.heap && s.heap[p].Port?
  {
    var port := s.heap[p];
    if port.sticky
    then State(s.heap[p := Port(-1, true, port.device, {}, None)], FdsOfOthers(s.fds, p), s.devices)
    else State(s.heap - {p}, FdsOfOthers(s.fds, p), s.devices - {port.device})
  }

  lemma PortShutKeeps(s: State, p: Id)
    requires Paired(s) && p in s.heap && s.heap[p].Port? && s.heap[p].clients == {} && s.heap[p].iwi.None?
    ensures Paired(PortShut(s, p))
  {
    hide Paired, Live, Owned, PortPaired, ClientPaired, PortShut;
    var s1 := PortShut(s, p);
    LinkedAt(s, p);
    KnownOf(s);
    PortShutOwned(s, p);
    forall x | x in s1.heap ensures Linked(s1, x) {
      InPortShut(s, p, x);
      LinkedAt(s, x);
      LinkedAfterShut(s, p, x);
    }
    PairedFrom(s1);
  }

  lemma InPortShut(s: State, p: Id, x: Id)
    requires p in s.heap && s.heap[p].Port? && x in PortShut(s, p).heap
    ensures x in s.heap
  {
  }

  lemma PortShutOwned(s: State, p: Id)
    requires Owned(s) && Known(s) && p in s.heap && s.heap[p].Port?
    ensures Owned(PortShut(s, p)) && Known(PortShut(s, p))
  {
  }

  lemma ClientAfterShut(s: State, p: Id, c: Id)
    requires p in s.heap && s.heap[p].Port? && s.heap[p].clients == {} && ClientPaired(s, c)
    ensures ClientPaired(PortShut(s, p), c)
  {
  }

  lemma PortAfterShut(s: State, p: Id, q: Id)
    requires p in s.heap && s.heap[p].Port? && s.heap[p].clients == {} && s.heap[p].iwi.None?
    requires PortPaired(s, p) && PortPaired(s, q) && q != p
    ensures PortPaired(PortShut(s, p), q)
  {
    hide ClientPaired;
    var s1 := PortShut(s, p);
    forall c | c in s.heap[q].clients ensures OwnClient(s1, q, c) {
      assert OwnClient(s, q, c);
      ClientIsLinked(s, c);
      ClientAfterShut(s, p, c);
    }
  }

  lemma LinkedAfterShut(s: State, p: Id, x: Id)
    requires p in s.heap && s.heap[p].Port? && s.heap[p].clients == {} && s.heap[p].iwi.None?
    requires PortPaired(s, p) && x in PortShut(s, p).heap && x in s.heap && Linked(s, x)
    ensures Linked(PortShut(s, p), x)
  {
    hide ClientPaired, PortPaired;
    var s1 := PortShut(s, p);
    match s.heap[x]
    case Port(_, _, _, _, _) =>
      if x == p {
        StickyPaired(s, p);
      } else {
        PortAfterShut(s, p, x);
      }
    case Client(_, _, _) =>
      ClientAfterShut(s, p, x);
    case Inspector(_, _) =>
    case Fetch(_, _) =>
    case Listener(_) =>
  }

  lemma StickyPaired(s: State, p: Id)
    requires p in s.heap && s.heap[p].Port? && s.heap[p].sticky && PortPaired(s, p)
    ensures PortPaired(PortShut(s, p), p)
  {
  }

  lemma DropPortKeeps(s: State, p: Id)
    requires Paired(s) && p in s.heap && s.heap[p].Port?
    ensures Paired(DropPort(s, p)) <==> !HasStray(s.heap, s.heap[p].clients)
  {
    hide Paired, Live, Owned, Linked, ClientPaired, PortPaired, DropPort, DropClients;
    var k := s.heap[p].clients;
    if HasStray(s.heap, k) {
      var f :| f in s.heap && IsStray(s.heap, k, f);
      LinkedAt(s, p);
      LinkedPort(s, p);
      StrayOutlivesPort(s, p, f);
      StrayUnpaired(DropPort(s, p), f);
    } else {
      DropWholePortKeeps(s, p);
    }
  }

  lemma LinkedPort(s: State, p: Id)
    requires p in s.heap && s.heap[p].Port? && Linked(s, p)
    ensures PortPaired(s, p) && PortLinked(s, p)
  {
  }

  lemma StrayOutlivesPort(s: State, p: Id, f: Id)
    requires p in s.heap && s.heap[p].Port? && IsStray(s.heap, s.heap[p].clients, f) && PortLinked(s, p)
    ensures var s1 := DropPort(s, p); f in s1.heap && s1.heap[f] == s.heap[f] && s1.heap[f].client.value !in s1.heap
  {
    var c := s.heap[f].client.value;
    assert OwnClient(s, p, c);
  }

  lemma DropWholePortKeeps(s: State, p: Id)
    requires Paired(s) && p in s.heap && s.heap[p].Port? && !HasStray(s.heap, s.heap[p].clients)
    ensures Paired(DropPort(s, p))
  {
    hide Paired, Live, Owned, ClientPaired, PortShut, DropClients, DropOne, Parted, HasStray;
    var k, iwi := s.heap[p].clients, s.heap[p].iwi;
    var s1 := DropClients(s, p, k);
    LinkedAt(s, p);
    DropClientsKeeps(s, p, k);
    InspectorKept(s, p, k);
    assert k - k == {};
    if iwi.Some? {
      PartedKeeps(s1, iwi.value, p);
      DropOneKeeps(Parted(s1, iwi.value, p), iwi.value);
      PortAfterBoth(s1, iwi.value, p);
      PortShutKeeps(DropOne(Parted(s1, iwi.value, p), iwi.value), p);
    } else {
      PortShutKeeps(s1, p);
    }
    DropPortSteps(s, p);
  }

  lemma PortAfterBoth(s: State, w: Id, p: Id)
    requires IsInspectorOf(s, w, p) && p in s.heap && s.heap[p].Port?
    ensures var s1 := DropOne(Parted(s, w, p), w);
            p in s1.heap && s1.heap[p] == s.heap[p].(iwi := None)
  {
  }

  lemma DropPortSteps(s: State, p: Id)
    requires p in s.heap && s.heap[p].Port?
    requires var s1 := DropClients(s, p, s.heap[p].clients);
             && p in s1.heap && s1.heap[p] == s.heap[p].(clients := {})
             && (s.heap[p].iwi.Some? ==> IsInspectorOf(s1, s.heap[p].iwi.value, p))
    ensures var s1 := DropClients(s, p, s.heap[p].clients);
            DropPort(s, p) ==
              if s.heap[p].iwi.None? then PortShut(s1, p)
              else PortShut(DropOne(Parted(s1, s.heap[p].iwi.value, p), s.heap[p].iwi.value), p)
  {
    hide DropClients;
    var s1 := DropClients(s, p, s.heap[p].clients);
    if s.heap[p].iwi.Some? {
      var w := s.heap[p].iwi.value;
      var got := PortShut(DropOne(Parted(s1, w, p), w), p);
      assert got.heap == DropPort(s, p).heap;
    }
  }

  lemma ListenerKeeps(s: State, id: Id)
    requires Paired(s) && id in s.heap && s.heap[id].Listener?
    ensures Paired(s.(fds := FdsOfOthers(s.fds, id)))
  {
    hide Paired, Owned, Live, PortPaired, ClientPaired;
    var s1 := s.(fds := FdsOfOthers(s.fds, id));
    LinkedAt(s, id);
    KnownOf(s);
    FewerOwned(s, id);
    forall x | x in s1.heap ensures Linked(s1, x) {
      LinkedAt(s, x);
      LinkedWithoutListener(s, id, x);
    }
    PairedFrom(s1);
  }

  lemma FewerOwned(s: State, id: Id)
    requires Owned(s) && Known(s)
    ensures Owned(s.(fds := FdsOfOthers(s.fds, id))) && Known(s.(fds := FdsOfOthers(s.fds, id)))
  {
  }

  lemma LinkedWithoutListener(s: State, id: Id, x: Id)
    requires x in s.heap && Linked(s, x) && id in s.heap && s.heap[id].Listener?
    ensures Linked(s.(fds := FdsOfOthers(s.fds, id)), x)
  {
  }

  /** Closing the record frees a client that does not know of all its static requests. */
  predicate Leaves(s: State, id: Id) {
    id in s.heap &&
    match s.heap[id]
    case Fetch(_, Some(c)) => HasStray(s.heap - {id}, {c})
    case Client(_, _, _) => HasStray(s.heap, {id})
    case Inspector(_, Some(p)) => p in s.heap && s.heap[p].Port? && s.heap[p].fd > 0 && HasStray(s.heap, s.heap[p].clients)
    case Port(_, _, _, clients, _) => HasStray(s.heap, clients)
    case _ => false
  }

  /**
   * Whatever is closed, all links between the remaining records hold, if and only if no freed
   * client had a static request that it did not know of.
   */
  lemma AfterKeeps(s: State, fd: int)
    requires Paired(s) && fd in s.fds
    ensures Paired(After(s, s.fds[fd])) <==> !Leaves(s, s.fds[fd])
  {
    hide Paired, Owned, Live, ClientPaired, PortPaired, DropClients, DropPort, DropOne, Linked, FetchGone, HasStray;
    var id := s.fds[fd];
    PairedReady(s, fd);
    RegisteredAt(s, fd);
    match s.heap[id]
    case Fetch(_, None) =>
      DropOneKeeps(s, id);
    case Fetch(_, Some(c)) =>
      OwnerOf(s, c);
      OwnersClient(s, c);
      FetchGoneKeeps(s, id, c);
      StillOwned(s, id, c);
      DropClientsKeeps(FetchGone(s, id, c), s.heap[c].owner, {c});
    case Client(_, p, _) =>
      OwnersClient(s, id);
      DropClientsKeeps(s, p, {id});
    case Inspector(_, None) =>
      DropOneKeeps(s, id);
    case Inspector(_, Some(p)) =>
      PortIsLinked(s, p);
      if s.heap[p].fd > 0 {
        DropPortKeeps(s, p);
      } else {
        PartedKeeps(s, id, p);
        DropOneKeeps(Parted(s, id, p), id);
        SameWhenParted(s, id, p);
      }
    case Port(_, _, _, _, _) =>
      DropPortKeeps(s, id);
    case Listener(_) =>
      ListenerKeeps(s, id);
  }

  lemma StillOwned(s: State, f: Id, c: Id)
    requires IsFetchOf(s, f, c) && c in s.heap && s.heap[c].Client? && HasClient(s, s.heap[c].owner, c)
    ensures HasClient(FetchGone(s, f, c), s.heap[c].owner, c)
    ensures HasStray(FetchGone(s, f, c).heap, {c}) <==> HasStray(s.heap - {f}, {c})
  {
    var h, h' := s.heap - {f}, FetchGone(s, f, c).heap;
    assert forall g :: g in h && h[g].Fetch? ==> g in h' && h'[g] == h[g];
    assert forall g :: g in h' && h'[g].Fetch? ==> g in h && h[g] == h'[g];
    forall g ensures IsStray(h, {c}, g) <==> IsStray(h', {c}, g) {
    }
  }

  lemma RegisteredAt(s: State, fd: int)
    requires Paired(s) && fd in s.fds
    ensures fd > 0 && s.fds[fd] in s.heap && s.heap[s.fds[fd]].fd == fd
  {
  }

  lemma OwnersClient(s: State, c: Id)
    requires ClientPaired(s, c)
    ensures c in s.heap && s.heap[c].Client? && HasClient(s, s.heap[c].owner, c)
  {
  }

  lemma SameWhenParted(s: State, w: Id, p: Id)
    requires IsInspectorOf(s, w, p) && p in s.heap && s.heap[p].Port?
    ensures DropOne(Parted(s, w, p), w) == DropOne(s.(heap := s.heap[p := s.heap[p].(iwi := None)]), w)
  {
  }

  // ----- static requests that outlive their client -----

  /** Every client knows of all its static requests. */
  predicate AllRecorded(s: State) {
    forall f :: f in s.heap && s.heap[f].Fetch? && s.heap[f].client.Some? ==> IsRecorded(s.heap, f)
  }

  /** A registered static request whose client has been freed. */
  predicate IsDangling(s: State, fd: int) {
    && fd in s.fds && s.fds[fd] in s.heap && s.heap[s.fds[fd]].Fetch?
    && s.heap[s.fds[fd]].client.Some? && s.heap[s.fds[fd]].client.value !in s.heap
  }

  predicate Dangles(s: State) {
    exists fd :: fd in s.fds && IsDangling(s, fd)
  }

  /**
   * A close leaves a registered static request whose client is freed, if and only if some client
   * that it frees had a request that it did not know of.
   */
  lemma AfterDangles(s: State, fd: int)
    requires Paired(s) && fd in s.fds
    ensures Dangles(After(s, s.fds[fd])) <==> Leaves(s, s.fds[fd])
  {
    hide Paired, After, Leaves, Dangles;
    AfterKeeps(s, fd);
    if Leaves(s, s.fds[fd]) {
      LeftDangles(s, fd);
    } else {
      PairedNeverDangles(After(s, s.fds[fd]));
    }
  }

  lemma PairedNeverDangles(s: State)
    requires Paired(s)
    ensures !Dangles(s)
  {
    hide Paired, Live;
    forall fd | fd in s.fds ensures !IsDangling(s, fd) {
      RegisteredAt(s, fd);
      LinkedAt(s, s.fds[fd]);
    }
  }

  lemma LeftDangles(s: State, fd: int)
    requires Paired(s) && fd in s.fds && Leaves(s, s.fds[fd])
    ensures Dangles(After(s, s.fds[fd]))
  {
    hide Paired, Owned, Live, ClientPaired, PortPaired, DropClients, DropPort, FetchGone, IsDangling;
    var id := s.fds[fd];
    PairedReady(s, fd);
    RegisteredAt(s, fd);
    match s.heap[id]
    case Fetch(_, Some(c)) =>
      OwnerOf(s, c);
      OwnersClient(s, c);
      FetchGoneKeeps(s, id, c);
      StillOwned(s, id, c);
      DroppedDangles(FetchGone(s, id, c), s.heap[c].owner, {c});
    case Client(_, p, _) =>
      OwnersClient(s, id);
      DroppedDangles(s, p, {id});
    case Inspector(_, Some(p)) =>
      PortDangles(s, p);
    case Port(_, _, _, _, _) =>
      PortDangles(s, id);
  }

  lemma DroppedDangles(s: State, p: Id, k: set<Id>)
    requires Paired(s) && p in s.heap && s.heap[p].Port? && k <= s.heap[p].clients && HasStray(s.heap, k)
    ensures Dangles(DropClients(s, p, k))
  {
    hide Paired, Owned, ClientPaired, PortPaired, PortLinked;
    LinkedAt(s, p);
    LinkedPort(s, p);
    var f :| f in s.heap && IsStray(s.heap, k, f);
    StrayStays(s, p, k, f);
    LinkedAt(s, f);
    assert IsDangling(DropClients(s, p, k), s.heap[f].fd);
  }

  lemma PortDangles(s: State, p: Id)
    requires Paired(s) && p in s.heap && s.heap[p].Port? && HasStray(s.heap, s.heap[p].clients)
    ensures Dangles(DropPort(s, p))
  {
    hide Paired, Owned, ClientPaired, PortPaired, PortLinked;
    LinkedAt(s, p);
    LinkedPort(s, p);
    var f :| f in s.heap && IsStray(s.heap, s.heap[p].clients, f);
    StrayOutlivesPort(s, p, f);
    LinkedAt(s, f);
    PortTakes(s, p);
    assert !BelongsTo(s, p, f) by { StrayIsNotTaken(s, p, f); }
    assert IsDangling(DropPort(s, p), s.heap[f].fd);
  }

  lemma StrayIsNotTaken(s: State, p: Id, f: Id)
    requires PortLinked(s, p) && IsStray(s.heap, s.heap[p].clients, f)
    ensures !BelongsTo(s, p, f)
  {
  }

  /** A second static request is one too many: the client forgets the first. */
  lemma RequestRecorded(s: State, fd: int, id: Id, c: Id)
    requires Paired(s) && AllRecorded(s) && id !in s.heap && c in s.heap && s.heap[c].Client?
    ensures AllRecorded(Requested(s, fd, id, c)) <==> s.heap[c].ifs.None?
  {
    hide Live, Owned;
    var s1 := Requested(s, fd, id, c);
    assert Linked(s, c);
    if s.heap[c].ifs.Some? {
      var f := s.heap[c].ifs.value;
      assert f in s1.heap && s1.heap[f] == s.heap[f] && !IsRecorded(s1.heap, f);
    } else {
      forall f | f in s1.heap && s1.heap[f].Fetch? && s1.heap[f].client.Some? ensures IsRecorded(s1.heap, f) {
        assert f != id ==> IsRecorded(s.heap, f);
      }
    }
  }

  /** What does not touch clients and static requests. */
  lemma SameFetches(s: State, s1: State)
    requires AllRecorded(s)
    requires forall id :: id in s1.heap && s1.heap[id].Fetch? ==> id in s.heap && s.heap[id] == s1.heap[id]
    requires forall id :: id in s.heap && s.heap[id].Client? ==> id in s1.heap && s1.heap[id] == s.heap[id]
    ensures AllRecorded(s1)
  {
    forall f | f in s1.heap && s1.heap[f].Fetch? && s1.heap[f].client.Some? ensures IsRecorded(s1.heap, f) {
      assert IsRecorded(s.heap, f);
      var c := s.heap[f].client.value;
      assert c in s1.heap && s1.heap[c] == s.heap[c];
    }
  }

  lemma AcceptRecorded(s: State, fd: int, id: Id, p: Id)
    requires id !in s.heap && p in s.heap && s.heap[p].Port?
    ensures AllRecorded(s) ==> AllRecorded(Accepted(s, fd, id, p))
  {
    if AllRecorded(s) {
      SameFetches(s, Accepted(s, fd, id, p));
    }
  }

  lemma AttachRecorded(s: State, fd: int, id: Id, p: Id, sticky: bool)
    requires id !in s.heap && p in s.heap && s.heap[p].Port?
    ensures AllRecorded(s) ==> AllRecorded(Attached(s, fd, id, p, sticky))
  {
    if AllRecorded(s) {
      SameFetches(s, Attached(s, fd, id, p, sticky));
    }
  }

  lemma StartRecorded(s: State, fd: int, id: Id, obj: Obj)
    requires Starts(s, fd, id, obj)
    ensures AllRecorded(s) ==> AllRecorded(Started(s, fd, id, obj))
  {
    if AllRecorded(s) {
      SameFetches(s, Started(s, fd, id, obj));
    }
  }

  lemma OnlyStrayOf(s: State, fd: int, id: Id, c: Id)
    requires Paired(s) && AllRecorded(s) && id !in s.heap && c in s.heap && s.heap[c].Client?
    ensures HasStray(Requested(s, fd, id, c).heap, {c}) <==> s.heap[c].ifs.Some?
  {
    hide Live, Owned;
    var s1 := Requested(s, fd, id, c);
    assert Linked(s, c);
    if s.heap[c].ifs.Some? {
      var f := s.heap[c].ifs.value;
      assert f in s1.heap && IsStray(s1.heap, {c}, f);
    } else {
      forall f | f in s1.heap ensures !IsStray(s1.heap, {c}, f) {
        assert f in s.heap && IsFetchOf(s, f, c) ==> IsRecorded(s.heap, f);
      }
    }
  }

  /** What a close leaves of the static requests and their clients. */
  lemma FetchesAfter(s: State, id: Id)
    requires Paired(s) && AllRecorded(s) && Ready(s, id)
    ensures AllRecorded(After(s, id)) && !Leaves(s, id)
  {
    hide Paired, Live, Owned;
  }

  /** While every client knows of all its requests, closing keeps everything. */
  lemma AfterRecorded(s: State, fd: int)
    requires Paired(s) && AllRecorded(s) && fd in s.fds
    ensures !Leaves(s, s.fds[fd]) && Paired(After(s, s.fds[fd])) && AllRecorded(After(s, s.fds[fd]))
  {
    hide Paired, Linked, DropClients, DropPort, FetchGone;
    AfterKeeps(s, fd);
    PairedReady(s, fd);
    FetchesAfter(s, s.fds[fd]);
  }

  /**
   * A client that makes one more static request and then closes leaves a registered request
   * without a client, if and only if it had one under way already.
   */
  lemma RequestThenCloseDangles(s: State, fd: int, id: Id, c: Id)
    requires Paired(s) && AllRecorded(s) && fd > 0 && fd !in s.fds && id !in s.heap && c in s.heap && s.heap[c].Client?
    ensures var s1 := Requested(s, fd, id, c);
            && Live(s1, c) && Paired(s1)
            && (Dangles(After(s1, c)) <==> s.heap[c].ifs.Some?)
  {
    hide Paired, Live, After, Dangles, Linked, ClientPaired;
    var s1 := Requested(s, fd, id, c);
    RequestKeeps(s, fd, id, c);
    LinkedAt(s1, c);
    ClientOfLinked(s1, c);
    ClientLive(s1, c);
    LiveAt(s1, c);
    AfterDangles(s1, s1.heap[c].fd);
    RequestRecorded(s, fd, id, c);
    OnlyStrayOf(s, fd, id, c);
  }

  lemma LiveAt(s: State, id: Id)
    requires Live(s, id)
    ensures id in s.heap && s.heap[id].fd in s.fds && s.fds[s.heap[id].fd] == id
  {
  }

  // ----- what goes with a port -----

  /** The port itself, its inspector, its clients and their static requests. */
  predicate BelongsTo(s: State, p: Id, id: Id)
    requires p in s.heap && s.heap[p].Port?
  {
    || id == p || Some(id) == s.heap[p].iwi || id in s.heap[p].clients
    || (IsRecorded(s.heap, id) && s.heap[id].client.value in s.heap[p].clients)
  }

  /**
   * Closing a listening port, or the inspector of one, takes every descriptor of the port, its
   * inspector, its clients and their static requests, and no other descriptor and no other record.
   */
  lemma PortTakesAll(s: State, fd: int, p: Id)
    requires Paired(s) && fd in s.fds && p in s.heap && s.heap[p].Port? && s.heap[p].fd > 0
    requires s.fds[fd] == p || IsInspectorOf(s, s.fds[fd], p)
    ensures var s1 := After(s, s.fds[fd]);
            && (forall x :: x in s1.fds <==> x in s.fds && !BelongsTo(s, p, s.fds[x]))
            && (forall x :: x in s1.fds ==> s1.fds[x] == s.fds[x])
            && (forall id :: id in s.heap && BelongsTo(s, p, id) && id != p ==> id !in s1.heap)
            && (forall id :: id in s.heap && !BelongsTo(s, p, id) ==> id in s1.heap && s1.heap[id] == s.heap[id])
  {
    hide Owned, Live, ClientPaired, PortPaired, Linked, Paired;
    PairedReady(s, fd);
    RegisteredAt(s, fd);
    PortTakes(s, p);
  }

  lemma PortTakes(s: State, p: Id)
    requires p in s.heap && s.heap[p].Port?
    ensures var s1 := DropPort(s, p);
            && (forall x :: x in s1.fds <==> x in s.fds && !BelongsTo(s, p, s.fds[x]))
            && (forall x :: x in s1.fds ==> s1.fds[x] == s.fds[x])
            && (forall id :: id in s.heap && BelongsTo(s, p, id) && id != p ==> id !in s1.heap)
            && (forall id :: id in s.heap && !BelongsTo(s, p, id) ==> id in s1.heap && s1.heap[id] == s.heap[id])
  {
  }

  // ----- new records -----

  /** A new record with a new descriptor, linked from the old record `q`. */
  function Grown(s: State, fd: int, id: Id, obj: Obj, q: Id, qobj: Obj): State {
    State(s.heap[q := qobj][id := obj], s.fds[fd := id], s.devices)
  }

  /** The record only gained links. */
  predicate Extends(a: Obj, b: Obj) {
    match a
    case Port(fd, sticky, device, clients, iwi) =>
      b.Port? && b.fd == fd && b.device == device && clients <= b.clients
      && (iwi.Some? ==> b.iwi == iwi)
    case Client(fd, owner, _) => b.Client? && b.fd == fd && b.owner == owner
    case _ => b == a
  }

  /** A new number, a new record and nothing but new links. */
  predicate Grows(s: State, fd: int, id: Id, obj: Obj, q: Id, qobj: Obj) {
    && fd > 0 && fd !in s.fds && id !in s.heap && obj.fd == fd
    && q in s.heap && Extends(s.heap[q], qobj)
    && (obj.Fetch? ==> obj.client == Some(q))
  }

  lemma GrownKeeps(s: State, fd: int, id: Id, obj: Obj, q: Id, qobj: Obj)
    requires Paired(s) && Grows(s, fd, id, obj, q, qobj)
    requires Linked(Grown(s, fd, id, obj, q, qobj), q) && Linked(Grown(s, fd, id, obj, q, qobj), id)
    ensures Paired(Grown(s, fd, id, obj, q, qobj))
  {
    hide Paired, Owned, Live, ClientPaired, PortPaired, Extends;
    var s1 := Grown(s, fd, id, obj, q, qobj);
    LinkedAt(s, q);
    KnownOf(s);
    GrownOwned(s, fd, id, obj, q, qobj);
    forall x | x in s1.heap ensures Linked(s1, x) {
      if x != q && x != id {
        LinkedAt(s, x);
        LinkedGrown(s, fd, id, obj, q, qobj, x);
      }
    }
    PairedFrom(s1);
  }

  lemma GrownOwned(s: State, fd: int, id: Id, obj: Obj, q: Id, qobj: Obj)
    requires Owned(s) && Known(s) && Grows(s, fd, id, obj, q, qobj)
    ensures Owned(Grown(s, fd, id, obj, q, qobj)) && Known(Grown(s, fd, id, obj, q, qobj))
  {
  }

  lemma LiveGrown(s: State, fd: int, id: Id, obj: Obj, q: Id, qobj: Obj, x: Id)
    requires Grows(s, fd, id, obj, q, qobj) && Live(s, x)
    ensures Live(Grown(s, fd, id, obj, q, qobj), x)
  {
  }

  lemma ClientGrown(s: State, fd: int, id: Id, obj: Obj, q: Id, qobj: Obj, c: Id)
    requires Grows(s, fd, id, obj, q, qobj) && ClientPaired(s, c) && c != q
    ensures ClientPaired(Grown(s, fd, id, obj, q, qobj), c)
  {
    hide Live;
    var s1 := Grown(s, fd, id, obj, q, qobj);
    if s.heap[c].ifs.Some? {
      LiveGrown(s, fd, id, obj, q, qobj, s.heap[c].ifs.value);
    }
  }

  lemma PortGrown(s: State, fd: int, id: Id, obj: Obj, q: Id, qobj: Obj, p: Id)
    requires Grows(s, fd, id, obj, q, qobj) && PortPaired(s, p) && p != q
    requires qobj.Client? ==> ClientPaired(Grown(s, fd, id, obj, q, qobj), q)
    ensures PortPaired(Grown(s, fd, id, obj, q, qobj), p)
  {
    hide Live, ClientPaired;
    var s1 := Grown(s, fd, id, obj, q, qobj);
    forall c | c in s.heap[p].clients ensures OwnClient(s1, p, c) {
      assert OwnClient(s, p, c);
      ClientIsLinked(s, c);
      LiveGrown(s, fd, id, obj, q, qobj, c);
      if c != q {
        ClientGrown(s, fd, id, obj, q, qobj, c);
      }
    }
    if s.heap[p].iwi.Some? {
      LiveGrown(s, fd, id, obj, q, qobj, s.heap[p].iwi.value);
    }
  }

  lemma LinkedGrown(s: State, fd: int, id: Id, obj: Obj, q: Id, qobj: Obj, x: Id)
    requires Grows(s, fd, id, obj, q, qobj) && x in s.heap && x != q && Linked(s, x)
    requires Linked(Grown(s, fd, id, obj, q, qobj), q)
    ensures Linked(Grown(s, fd, id, obj, q, qobj), x)
  {
    hide Live, ClientPaired, PortPaired;
    match s.heap[x]
    case Port(_, _, _, _, _) =>
      PortGrown(s, fd, id, obj, q, qobj, x);
      if s.heap[x].fd > 0 {
        LiveGrown(s, fd, id, obj, q, qobj, x);
      }
    case Client(_, _, _) =>
      ClientGrown(s, fd, id, obj, q, qobj, x);
    case Fetch(_, _) =>
      LiveGrown(s, fd, id, obj, q, qobj, x);
    case _ =>
  }

  /** A port accepts a client. */
  function Accepted(s: State, fd: int, id: Id, p: Id): State
    requires p in s.heap && s.heap[p].Port?
  {
    Grown(s, fd, id, Client(fd, p, None), p, s.heap[p].(clients := s.heap[p].clients + {id}))
  }

  lemma AcceptKeeps(s: State, fd: int, id: Id, p: Id)
    requires Paired(s) && fd > 0 && fd !in s.fds && id !in s.heap && p in s.heap && s.heap[p].Port?
    requires s.heap[p].fd > 0
    ensures Paired(Accepted(s, fd, id, p))
  {
    hide Paired, Linked;
    var obj, pobj := Client(fd, p, None), s.heap[p].(clients := s.heap[p].clients + {id});
    var s1 := Accepted(s, fd, id, p);
    LinkedAt(s, p);
    NoFetchOfNew(s, id);
    NewClientLinked(s, fd, id, p);
    GrownKeeps(s, fd, id, obj, p, pobj);
  }

  lemma NoFetchOfNew(s: State, id: Id)
    requires Paired(s) && id !in s.heap
    ensures forall f :: f in s.heap ==> !IsFetchOf(s, f, id)
  {
  }

  lemma NewClientLinked(s: State, fd: int, id: Id, p: Id)
    requires fd > 0 && fd !in s.fds && id !in s.heap && p in s.heap && s.heap[p].Port? && Linked(s, p)
    requires s.heap[p].fd > 0
    requires forall f :: f in s.heap ==> !IsFetchOf(s, f, id)
    ensures Linked(Accepted(s, fd, id, p), p) && Linked(Accepted(s, fd, id, p), id)
  {
    hide ClientPaired, Live;
    var obj, pobj := Client(fd, p, None), s.heap[p].(clients := s.heap[p].clients + {id});
    var s1 := Accepted(s, fd, id, p);
    NewClientPaired(s, fd, id, p);
    forall c | c in s1.heap[p].clients ensures OwnClient(s1, p, c) {
      if c != id {
        assert OwnClient(s, p, c);
        LiveGrown(s, fd, id, obj, p, pobj, c);
        NotTheClient(s, p, c, p);
        ClientGrown(s, fd, id, obj, p, pobj, c);
      }
    }
    if s.heap[p].iwi.Some? {
      LiveGrown(s, fd, id, obj, p, pobj, s.heap[p].iwi.value);
    }
    if s.heap[p].fd > 0 {
      LiveGrown(s, fd, id, obj, p, pobj, p);
    }
  }

  lemma NewClientPaired(s: State, fd: int, id: Id, p: Id)
    requires fd > 0 && fd !in s.fds && id !in s.heap && p in s.heap && s.heap[p].Port?
    requires forall f :: f in s.heap ==> !IsFetchOf(s, f, id)
    ensures OwnClient(Accepted(s, fd, id, p), p, id)
  {
  }

  /** A port gets the inspector of its device. */
  function Attached(s: State, fd: int, id: Id, p: Id, sticky: bool): State
    requires p in s.heap && s.heap[p].Port?
  {
    Grown(s, fd, id, Inspector(fd, Some(p)), p, WithInspector(s.heap[p], id, sticky))
  }

  function WithInspector(port: Obj, id: Id, sticky: bool): Obj
    requires port.Port?
  {
    port.(iwi := Some(id), sticky := sticky)
  }

  lemma AttachKeeps(s: State, fd: int, id: Id, p: Id, sticky: bool)
    requires Paired(s) && fd > 0 && fd !in s.fds && id !in s.heap
    requires p in s.heap && s.heap[p].Port? && s.heap[p].iwi.None? && s.heap[p].fd > 0
    ensures Paired(Attached(s, fd, id, p, sticky))
  {
    hide Paired, Linked;
    LinkedAt(s, p);
    NewInspectorLinked(s, fd, id, p, sticky);
    GrownKeeps(s, fd, id, Inspector(fd, Some(p)), p, WithInspector(s.heap[p], id, sticky));
  }

  lemma NewInspectorLinked(s: State, fd: int, id: Id, p: Id, sticky: bool)
    requires fd > 0 && fd !in s.fds && id !in s.heap
    requires p in s.heap && s.heap[p].Port? && s.heap[p].iwi.None? && s.heap[p].fd > 0 && Linked(s, p)
    ensures Linked(Attached(s, fd, id, p, sticky), p) && Linked(Attached(s, fd, id, p, sticky), id)
  {
    hide ClientPaired, Live;
    var obj, pobj := Inspector(fd, Some(p)), WithInspector(s.heap[p], id, sticky);
    var s1 := Attached(s, fd, id, p, sticky);
    forall c | c in s1.heap[p].clients ensures OwnClient(s1, p, c) {
      assert OwnClient(s, p, c);
      LiveGrown(s, fd, id, obj, p, pobj, c);
      NotTheClient(s, p, c, p);
      ClientGrown(s, fd, id, obj, p, pobj, c);
    }
    assert Live(s1, id) by { NewLive(s, fd, id, obj, p, pobj); }
    if s.heap[p].fd > 0 {
      LiveGrown(s, fd, id, obj, p, pobj, p);
    }
  }

  lemma NewLive(s: State, fd: int, id: Id, obj: Obj, q: Id, qobj: Obj)
    requires fd > 0 && obj.fd == fd
    ensures Live(Grown(s, fd, id, obj, q, qobj), id)
  {
  }

  /** A client asks for a static file. */
  function Requested(s: State, fd: int, id: Id, c: Id): State
    requires c in s.heap && s.heap[c].Client?
  {
    Grown(s, fd, id, Fetch(fd, Some(c)), c, s.heap[c].(ifs := Some(id)))
  }

  lemma RequestKeeps(s: State, fd: int, id: Id, c: Id)
    requires Paired(s) && fd > 0 && fd !in s.fds && id !in s.heap && c in s.heap && s.heap[c].Client?
    ensures Paired(Requested(s, fd, id, c))
  {
    hide Paired, Linked, ClientPaired;
    LinkedAt(s, c);
    ClientOfLinked(s, c);
    NewFetchLinked(s, fd, id, c);
    GrownKeeps(s, fd, id, Fetch(fd, Some(c)), c, s.heap[c].(ifs := Some(id)));
  }

  lemma ClientOfLinked(s: State, c: Id)
    requires c in s.heap && s.heap[c].Client? && Linked(s, c)
    ensures ClientPaired(s, c)
  {
  }

  lemma NewFetchLinked(s: State, fd: int, id: Id, c: Id)
    requires fd > 0 && fd !in s.fds && id !in s.heap && c in s.heap && s.heap[c].Client?
    requires ClientPaired(s, c)
    ensures Linked(Requested(s, fd, id, c), c) && Linked(Requested(s, fd, id, c), id)
  {
  }

  /** A record of its own: a port, new or kept for its device, or the device listener. */
  function Started(s: State, fd: int, id: Id, obj: Obj): State {
    State(s.heap[id := obj], if fd > 0 then s.fds[fd := id] else s.fds, if obj.Port? then s.devices[obj.device := id] else s.devices)
  }

  /** The port is new, listening or not, or the kept one of the device, which has no clients and no inspector. */
  predicate Starts(s: State, fd: int, id: Id, obj: Obj) {
    && (fd == 0 || (fd > 0 && fd !in s.fds))
    && match obj
       case Listener(f) => f == fd && id !in s.heap
       case Port(f, sticky, device, clients, iwi) =>
         && f == fd && iwi.None? && clients == {}
         && (if device in s.devices
             then s.devices[device] == id && id in s.heap && s.heap[id].Port? && s.heap[id].fd <= 0
                  && s.heap[id].clients == {} && s.heap[id].iwi.None? && s.heap[id].device == device
             else id !in s.heap)
       case _ => false
  }

  lemma StartKeeps(s: State, fd: int, id: Id, obj: Obj)
    requires Paired(s) && Starts(s, fd, id, obj)
    ensures Paired(Started(s, fd, id, obj))
  {
    hide Paired, Owned, Live, ClientPaired, PortPaired, Starts;
    var s1 := Started(s, fd, id, obj);
    PairedOwned(s);
    KnownOf(s);
    StartedOwned(s, fd, id, obj);
    StartedKnown(s, fd, id, obj);
    StartedLinked(s, fd, id, obj);
    forall x | x in s1.heap ensures Linked(s1, x) {
      if x != id {
        LinkedAt(s, x);
        if s.heap[x].Client? {
          ClientOfLinked(s, x);
          ClientLive(s, x);
        }
        LinkedStarted(s, fd, id, obj, x);
      }
    }
    PairedFrom(s1);
  }

  lemma StartedKnown(s: State, fd: int, id: Id, obj: Obj)
    requires Known(s) && Starts(s, fd, id, obj)
    ensures Known(Started(s, fd, id, obj))
  {
  }

  lemma StartedOwned(s: State, fd: int, id: Id, obj: Obj)
    requires Owned(s) && Starts(s, fd, id, obj)
    ensures Owned(Started(s, fd, id, obj))
  {
  }

  /** The record that starts was not registered. */
  lemma LiveStarted(s: State, fd: int, id: Id, obj: Obj, x: Id)
    requires Starts(s, fd, id, obj) && Live(s, x)
    ensures x != id && Live(Started(s, fd, id, obj), x)
  {
  }

  lemma ClientStarted(s: State, fd: int, id: Id, obj: Obj, c: Id)
    requires Starts(s, fd, id, obj) && ClientPaired(s, c) && Live(s, c)
    ensures ClientPaired(Started(s, fd, id, obj), c)
  {
  }

  lemma PortStarted(s: State, fd: int, id: Id, obj: Obj, p: Id)
    requires Starts(s, fd, id, obj) && PortPaired(s, p) && p != id
    ensures PortPaired(Started(s, fd, id, obj), p)
  {
    hide Live, ClientPaired;
    var s1 := Started(s, fd, id, obj);
    forall c | c in s.heap[p].clients ensures OwnClient(s1, p, c) {
      assert OwnClient(s, p, c);
      ClientIsLinked(s, c);
      LiveStarted(s, fd, id, obj, c);
      ClientStarted(s, fd, id, obj, c);
    }
    if s.heap[p].iwi.Some? {
      LiveStarted(s, fd, id, obj, s.heap[p].iwi.value);
    }
  }

  lemma StartedLinked(s: State, fd: int, id: Id, obj: Obj)
    requires Starts(s, fd, id, obj)
    ensures Linked(Started(s, fd, id, obj), id)
  {
  }

  lemma LinkedStarted(s: State, fd: int, id: Id, obj: Obj, x: Id)
    requires Starts(s, fd, id, obj) && x in s.heap && x != id && Linked(s, x)
    requires s.heap[x].Client? ==> Live(s, x)
    ensures Linked(Started(s, fd, id, obj), x)
  {
    hide Live, ClientPaired, PortPaired;
    match s.heap[x]
    case Port(_, _, _, _, _) =>
      PortStarted(s, fd, id, obj, x);
      if s.heap[x].fd > 0 {
        LiveStarted(s, fd, id, obj, x);
      }
    case Client(_, _, _) =>
      ClientStarted(s, fd, id, obj, x);
    case Fetch(_, _) =>
      LiveStarted(s, fd, id, obj, x);
    case _ =>
  }

  /** A device of the table has a port, and a port that does not listen has nothing. */
  lemma DeviceAt(s: State, d: Device)
    requires Paired(s) && d in s.devices
    ensures var p := s.devices[d];
            && p in s.heap && s.heap[p].Port? && s.heap[p].device == d
            && (if s.heap[p].fd > 0 then Live(s, p) else s.heap[p].clients == {} && s.heap[p].iwi.None?)
  {
  }

}
