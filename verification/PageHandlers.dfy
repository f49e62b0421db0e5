/** The handlers that keep pages and clients together (src/ios_webkit_debug_proxy.c). */
module PageHandlers {
  import opened Bytes
  import opened Pages

  /** The records of one inspector and of the clients of its port. */
  class Devtools {
    const connection: Conn
    var pages: map<nat, Page>
    var clients: map<ClientId, Iws>
    var open: set<ClientId>
    var apps: set<App>
    var maxNum: nat
    var connected: bool
    /** The clients that have asked for a page: a connection is upgraded once. */
    ghost var attached: set<ClientId>

    function S(): State
      reads this
    {
      State(pages, clients, open, apps, maxNum, connection)
    }

    ghost predicate Valid()
      reads this
    {
      && Invariant(S())
      && attached <= clients.Keys
      && Within(S(), attached)
    }

    constructor (connection: Conn)
      ensures Valid() && S() == State(map[], map[], {}, {}, 0, connection) && attached == {}
    {
      this.connection := connection;
      pages, clients, open, apps, maxNum := map[], map[], {}, {}, 0;
      connected, attached := false, {};
    }

    /** A client connects. */
    method OpenClient(c: ClientId)
      requires Valid() && c !in clients
      modifies `clients, `open
      ensures Valid() && S() == Opened(old(S()), c) && c !in attached
      ensures clients == old(clients)[c := Iws(0, None)] && open == old(open) + {c}
      ensures TwoWay(old(S())) ==> TwoWay(S())
      ensures NoDangling(old(S())) ==> NoDangling(S())
    {
      hide Invariant, TwoWay, Unattached, NoDangling;
      OpenKeeps(S(), c);
      if NoDangling(S()) {
        OpenDangles(S(), c);
      }
      clients, open := clients[c := Iws(0, None)], open + {c};
    }

    /** Let a page and its client go, unless they do not hold each other. */
    method StopDevtools(n: nat)
      requires Allocated(S()) && n in pages
      modifies `pages, `clients
      ensures S() == Stop(old(S()), n)
      ensures var page := old(pages)[n];
              var held := page.iws.Some? && page.sender == page.iws && page.iws.value in open
                          && old(clients)[page.iws.value].ipage == Some(n);
              && (held ==>
                    && pages == old(pages)[n := page.(iws := None, sender := None)]
                    && clients == old(clients)[page.iws.value := Iws(0, None)])
              && (!held ==> pages == old(pages) && clients == old(clients))
    {
      var page := pages[n];
      if page.iws.None? {
        return;
      }
      var c := page.iws.value;
      if clients[c].ipage != Some(n) {
        return;
      }
      if page.sender.None? {
        return;
      }
      if page.sender.value !in open || page.sender.value != c {
        return;
      }
      clients := clients[c := Iws(0, None)];
      pages := pages[n := page.(iws := None, sender := None)];
    }

    /** Give a page to a client, taking it from another if need be. */
    method StartDevtools(n: nat, c: ClientId)
      requires Allocated(S()) && n in pages && c in clients
      modifies `pages, `clients
      ensures S() == Take(old(S()), n, c)
    {
      var other := pages[n].iws;
      if other.Some? {
        StopDevtools(n);
        clients := clients[other.value := clients[other.value].(pageNum := pages[n].num)];
      }
      clients := clients[c := Iws(pages[n].num, Some(n))];
      pages := pages[n := pages[n].(iws := Some(c), sender := Some(c))];
    }

    /** An open client asks for a page by its number, once. */
    method OnDevtoolsRequest(c: ClientId, num: int) returns (found: bool)
      requires Valid() && c in open && c !in attached
      modifies `pages, `clients, `attached
      ensures Valid() && attached == old(attached) + {c}
      ensures found <==> num >= 0 && num in old(pages)
      ensures found ==> num in pages && pages[num].iws == Some(c) && c in clients && clients[c] == Iws(num, Some(num))
      ensures found ==> Allocated(old(S())) && c in old(clients) && S() == Take(old(S()), num, c)
      ensures found ==>
                var other := old(pages)[num].iws;
                && pages == old(pages)[num := old(pages)[num].(iws := Some(c), sender := Some(c))]
                && clients == (if other.Some? then old(clients)[other.value := Iws(num, None)] else old(clients))
                                [c := Iws(num, Some(num))]
      ensures !found ==> S() == old(S())
      ensures TwoWay(old(S())) ==> TwoWay(S())
      ensures NoDangling(old(S())) ==> NoDangling(S())
    {
      hide Invariant, TwoWay, Unattached, Take, NoDangling;
      NumbersGiven(S());
      if num <= 0 || num > maxNum || num !in pages {
        attached := attached + {c};
        return false;
      }
      var n: nat := num;
      NotYet(S(), c, attached);
      TakeKeeps(S(), n, c);
      TakeFacts(S(), n, c);
      TakeExactly(S(), n, c);
      if NoDangling(S()) {
        TakeDangles(S(), n, c);
      }
      StartDevtools(n, c);
      attached := attached + {c};
      return true;
    }

    /** A client disconnects. */
    method CloseClient(c: ClientId)
      requires Valid() && c in open
      modifies `pages, `clients, `open
      ensures Valid()
      ensures Allocated(old(S())) && c in old(clients) && S() == Closed(old(S()), c)
      ensures TwoWay(old(S())) ==> TwoWay(S())
      ensures NoDangling(old(S())) ==> (NoDangling(S()) <==> !Claimed(old(S()), c))
      ensures open == old(open) - {c} && clients == old(clients)[c := Iws(0, None)]
      ensures pages == match old(clients)[c].ipage
                       case Some(n) => old(pages)[n := old(pages)[n].(iws := None, sender := None)]
                       case None => old(pages)
    {
      hide Invariant, TwoWay, NoDangling, Claimed;
      InOpen(S(), c);
      if NoDangling(S()) {
        CloseDangles(S(), c);
      }
      CloseKeeps(S(), c);
      CloseFacts(S(), c);
      CloseExactly(S(), c);
      var ipage := clients[c].ipage;
      if ipage.Some? {
        if pages[ipage.value].sender.Some? && pages[ipage.value].iws == Some(c) {
          StopDevtools(ipage.value);
        }
      }
      open := open - {c};
      clients := clients[c := Iws(0, None)];
    }

    /** An app was started. */
    method AddAppId(app: App)
      requires Valid()
      modifies `apps
      ensures Valid() && S() == AddApp(old(S()), app) && apps == old(apps) + {app}
      ensures TwoWay(old(S())) ==> TwoWay(S())
      ensures NoDangling(old(S())) ==> NoDangling(S())
    {
      hide Invariant, TwoWay;
      AddAppKeeps(S(), app);
      if app in apps {
        assert apps == apps + {app};
        return;
      }
      apps := apps + {app};
    }

    /** The pages as the table gives them, in any order. */
    method Order() returns (order: seq<nat>)
      ensures Lists(S(), order)
    {
      order := [];
      var left: set<nat> := pages.Keys;
      while left != {}
        invariant left <= pages.Keys && NoRepeats(order)
        invariant forall n :: n in pages <==> n in left || n in order
        invariant forall n :: n in order ==> n !in left
        decreases |left|
      {
        SomeMember(left);
        var n :| n in left;
        left := left - {n};
        order := order + [n];
      }
    }

    /** Drop the pages of an app, among those seen before, that are not in a listing. */
    method DropStale(order: seq<nat>, app: App, ls: seq<Listed>, ghost all: set<App>)
      requires Ready(S().(apps := all), order) && NoRepeats(order)
      modifies `pages, `clients
      ensures S().(apps := all) == DropOld(old(S()).(apps := all), order, app, ls)
      ensures clients.Keys == old(clients.Keys)
      ensures forall n :: n in pages ==> n in old(pages) && pages[n] == old(pages)[n]
    {
      hide Ready, DropOld;
      ghost var s := S().(apps := all);
      assert order[0..] == order;
      for i := 0 to |order|
        invariant Ready(S().(apps := all), order[i..]) && NoRepeats(order[i..])
        invariant DropOld(S().(apps := all), order[i..], app, ls) == DropOld(s, order, app, ls)
        invariant clients.Keys == old(clients.Keys)
        invariant forall n :: n in pages ==> n in old(pages) && pages[n] == old(pages)[n]
      {
        var n := order[i];
        assert order[i..][0] == n && order[i..][1..] == order[i + 1..];
        DropStep(S().(apps := all), order[i..], app, ls);
        if pages[n].app == app {
          var listed := FindListed(ls, pages[n].pageId);
          if !listed {
            DropAnyApps(S(), all, n);
            StopDevtools(n);
            pages := pages - {n};
          }
        }
      }
      EmptyDrop(S().(apps := all), app, ls);
      assert order[|order|..] == [];
    }

    /** An app has stopped: its pages go. */
    method RemoveAppId(app: App) returns (ghost order: seq<nat>)
      requires Valid()
      modifies `pages, `clients, `apps
      ensures Valid()
      ensures app !in old(apps) ==> S() == old(S())
      ensures app in old(apps) ==> Lists(old(S()), order) && S() == RemoveApp(old(S()), order, app)
      ensures TwoWay(old(S())) ==> TwoWay(S())
      ensures apps == old(apps) - {app} && open == old(open)
      ensures NoDangling(old(S())) ==> NoDangling(S())
      ensures forall n :: n in pages <==> n in old(pages) && (app in old(apps) ==> old(pages)[n].app != app)
      ensures forall n :: n in pages ==> pages[n] == old(pages)[n]
      ensures app in old(apps) ==>
                forall c :: c in old(clients) ==> c in clients && LeftApp(old(clients)[c], clients[c], old(pages), app)
    {
      hide Invariant, TwoWay, DropOld, Ready, RemoveApp;
      order := [];
      if app !in apps {
        return;
      }
      ghost var all := apps;
      apps := apps - {app};
      var seen := Order();
      order := seen;
      RemoveAppKeeps(old(S()), order, app);
      RemoveAppSteps(old(S()), order, app);
      RemoveAppClients(old(S()), order, app);
      DropStale(seen, app, [], all);
    }

    /** The device names all its apps: the others are gone. An empty list says nothing. */
    method OnConnectedApps(list: seq<App>)
      requires Valid()
      modifies `pages, `clients, `apps, `connected
      ensures Valid() && connected
      ensures TwoWay(old(S())) ==> TwoWay(S())
      ensures list == [] ==> S() == old(S())
      ensures list != [] ==> forall a :: a in apps <==> a in list
      ensures list != [] ==> forall n :: n in pages <==> n in old(pages) && old(pages)[n].app in list
      ensures forall n :: n in pages ==> pages[n] == old(pages)[n]
      ensures forall c :: c in old(clients) ==>
                c in clients && Kept(old(clients)[c], clients[c], old(pages), if list == [] then {} else Unnamed(old(apps), list))
      ensures NoDangling(old(S())) ==> NoDangling(S())
    {
      hide Invariant, TwoWay, RemoveApp, AddApp, NoDangling, Kept;
      ClientsKept(clients, pages);
      connected := true;
      if list == [] {
        return;
      }
      PagesOfApps(S());
      RemoveUnnamed(list);
      assert forall n :: n in pages <==> n in old(pages) && old(pages)[n].app in list;
      AddApps(list);
      if NoDangling(old(S())) {
        FewerDangling(old(S()), S());
      }
    }

    /** The apps that are not in the list go, with their pages. */
    method RemoveUnnamed(list: seq<App>)
      requires Valid()
      modifies `pages, `clients, `apps
      ensures Valid() && (TwoWay(old(S())) ==> TwoWay(S()))
      ensures apps == old(apps) - Unnamed(old(apps), list)
      ensures forall n :: n in pages <==> n in old(pages) && old(pages)[n].app !in Unnamed(old(apps), list)
      ensures forall n :: n in pages ==> pages[n] == old(pages)[n]
      ensures forall c :: c in old(clients) ==>
                c in clients && Kept(old(clients)[c], clients[c], old(pages), Unnamed(old(apps), list))
    {
      hide Invariant, TwoWay, RemoveApp, NoDangling, Kept, Unnamed;
      ClientsKept(clients, pages);
      var left: set<App> := apps;
      ghost var gone: set<App> := {};
      while left != {}
        invariant Valid() && (TwoWay(old(S())) ==> TwoWay(S()))
        invariant left <= old(apps) && gone <= old(apps)
        invariant forall a :: a in gone <==> a in old(apps) && a !in left && a !in list
        invariant apps == old(apps) - gone
        invariant forall n :: n in pages <==> n in old(pages) && old(pages)[n].app !in gone
        invariant forall n :: n in pages ==> pages[n] == old(pages)[n]
        invariant forall c :: c in old(clients) ==> c in clients && Kept(old(clients)[c], clients[c], old(pages), gone)
        decreases |left|
      {
        SomeMember(left);
        var oa :| oa in left;
        left := left - {oa};
        if oa !in list {
          ghost var clients1, pages1 := clients, pages;
          ghost var _ := RemoveAppId(oa);
          KeptTwice(old(clients), clients1, clients, old(pages), pages1, gone, oa);
          gone := gone + {oa};
        }
      }
      AllUnnamed(old(apps), gone, list);
    }

    method AddApps(list: seq<App>)
      requires Valid()
      modifies `apps
      ensures Valid() && (TwoWay(old(S())) ==> TwoWay(S()))
      ensures forall a :: a in apps <==> a in old(apps) || a in list
    {
      hide Invariant, TwoWay;
      for i := 0 to |list|
        invariant Valid() && (TwoWay(old(S())) ==> TwoWay(S()))
        invariant forall a :: a in apps <==> a in old(apps) || a in list[..i]
      {
        AddAppId(list[i]);
        assert list[..i + 1] == list[..i] + [list[i]];
      }
      assert list[..|list|] == list;
    }

    /** One line of a listing. */
    method AddLine(order: seq<nat>, app: App, l: Listed)
      requires Allocated(S()) && forall n :: n in order ==> n in pages
      modifies `pages, `clients, `maxNum
      ensures S() == AddOne(old(S()), order, app, l)
    {
      var ipage := FindPage(order, app, l.pageId);
      var n: nat;
      if ipage.None? {
        maxNum := (maxNum + 1) % ROOM;
        n := maxNum;
        pages := pages[n := Page(n, app, l.pageId, None, None, None)];
      } else {
        n := ipage.value;
        if pages[n].iws.Some? && l.connection.Some? && l.connection.value != connection {
          clients := clients[pages[n].iws.value := clients[pages[n].iws.value].(ipage := None)];
        }
      }
      pages := pages[n := pages[n].(connection := l.connection)];
    }

    /** Look for a page among those seen. */
    method FindPage(order: seq<nat>, app: App, id: int) returns (r: Option<nat>)
      requires forall n :: n in order ==> n in pages
      ensures r == Find(S(), order, app, id)
    {
      assert order[0..] == order;
      for i := 0 to |order|
        invariant Find(S(), order, app, id) == Find(S(), order[i..], app, id)
      {
        assert order[i..][1..] == order[i + 1..];
        if pages[order[i]].pageId == id && pages[order[i]].app == app {
          return Some(order[i]);
        }
      }
      return None;
    }

    /** The device lists the pages of an app. */
    method OnListing(app: App, ls: seq<Listed>) returns (known: bool, ghost order: seq<nat>)
      requires Valid() && maxNum + |ls| < ROOM
      modifies `pages, `clients, `maxNum
      ensures known <==> app in apps
      ensures Lists(old(S()), order) || !known
      ensures known ==> S() == Listing(old(S()), order, app, ls)
      ensures !known ==> S() == old(S())
      ensures known && TwoWay(old(S())) ==> (TwoWay(S()) <==> !AnyTakesAway(old(S()), order, app, ls))
      ensures NoDangling(old(S())) ==> NoDangling(S())
      ensures Valid() <==> !known || NewOnce(old(S()), app, ls)
    {
      hide Invariant, AddAll, DropOld, NewOnce, Ready, Listing, Lists, AddOne;
      known, order := app in apps, [];
      if !known {
        return;
      }
      var seen := Order();
      order := seen;
      ghost var s := S();
      ListsReady(s, order);
      ListingSteps(s, order, app, ls);
      assert ls[0..] == ls;
      for i := 0 to |ls|
        invariant Ready(S(), seen) && apps == s.apps && maxNum + (|ls| - i) < ROOM
        invariant AddAll(S(), seen, app, ls[i..]) == AddAll(s, seen, app, ls)
        invariant clients.Keys == s.clients.Keys && Within(S(), attached)
      {
        assert ls[i..][0] == ls[i] && ls[i..][1..] == ls[i + 1..];
        AddStep(S(), seen, app, ls[i..], attached);
        AddLine(seen, app, ls[i]);
      }
      assert ls[|ls|..] == [];
      AddNothing(S(), seen, app);
      DropStale(seen, app, ls, apps);
      ListingKeeps(s, order, app, ls);
      if TwoWay(s) {
        ListingTwoWay(s, order, app, ls);
      }
      if NoDangling(s) {
        ListingDangles(s, order, app, ls);
      }
    }
  }

  function Unnamed(apps: set<App>, list: seq<App>): set<App> {
    set a | a in apps && a !in list
  }

  /** The client has lost its page, if that was one of an app in `gone`, and is otherwise as it was. */
  predicate Kept(was: Iws, now: Iws, pages: map<nat, Page>, gone: set<App>) {
    now == if was.ipage.Some? && was.ipage.value in pages && pages[was.ipage.value].app in gone then Iws(0, None) else was
  }

  lemma KeptTwice(c0: map<ClientId, Iws>, c1: map<ClientId, Iws>, c2: map<ClientId, Iws>,
                  p0: map<nat, Page>, p1: map<nat, Page>, gone: set<App>, app: App)
    requires forall c :: c in c0 ==> c in c1 && Kept(c0[c], c1[c], p0, gone)
    requires forall c :: c in c1 ==> c in c2 && LeftApp(c1[c], c2[c], p1, app)
    requires forall n :: n in p1 <==> n in p0 && p0[n].app !in gone
    requires forall n :: n in p1 ==> p1[n] == p0[n]
    ensures forall c :: c in c0 ==> c in c2 && Kept(c0[c], c2[c], p0, gone + {app})
  {
  }

  /** The client has lost its page, if that was one of the app, and is otherwise as it was. */
  predicate LeftApp(was: Iws, now: Iws, pages: map<nat, Page>, app: App) {
    var p := was.ipage;
    && (p.Some? ==> p.value in pages)
    && now == if p.Some? && pages[p.value].app == app then Iws(0, None) else was
  }

  lemma AllUnnamed(apps: set<App>, gone: set<App>, list: seq<App>)
    requires forall a :: a in gone <==> a in apps && a !in list
    ensures gone == Unnamed(apps, list)
  {
    forall a ensures a in gone <==> a in Unnamed(apps, list) {
    }
  }

  lemma ClientsKept(clients: map<ClientId, Iws>, pages: map<nat, Page>)
    ensures forall c :: c in clients ==> Kept(clients[c], clients[c], pages, {})
  {
  }

  /** A run that ends with a page pointing at a client that was freed. */
  method ClaimThenClose(own: Conn, other: Conn, c: ClientId, app: App, id: int) returns (d: Devtools)
    requires own != other
    ensures !NoDangling(d.S())
  {
    hide Invariant, TwoWay, NoDangling, Listing, Closed, Take, Claimed;
    d := new Devtools(own);
    EmptyTwoWay(d.S());
    d.OpenClient(c);
    d.AddAppId(app);
    ghost var s := d.S();
    var known, order := d.OnListing(app, [Listed(id, None)]);
    OnePage(s, order, app, Listed(id, None));
    s := d.S();
    var found := d.OnDevtoolsRequest(c, 1);
    TakenPage(s, 1, c);
    s := d.S();
    var known2, order2 := d.OnListing(app, [Listed(id, Some(other))]);
    ClaimThenCloseDangles(s, order2, app, 1, Listed(id, Some(other)), c);
    d.CloseClient(c);
  }

  lemma TakenPage(s: State, n: nat, c: ClientId)
    requires Allocated(s) && n in s.pages && c in s.clients
    ensures var s1 := Take(s, n, c);
            && n in s1.pages && SamePage(s1.pages[n], s.pages[n].app, s.pages[n].pageId)
            && s1.apps == s.apps && s1.maxNum == s.maxNum && s1.connection == s.connection
  {
  }

  lemma EmptyTwoWay(s: State)
    requires s.pages == map[]
    ensures TwoWay(s)
  {
  }

  /** The first listing of an app, with one line. */
  lemma OnePage(s: State, order: seq<nat>, app: App, l: Listed)
    requires Invariant(s) && Lists(s, order) && s.pages == map[] && s.maxNum == 0 && app in s.apps
    ensures var s1 := Listing(s, order, app, [l]);
            && 1 in s1.pages && SamePage(s1.pages[1], app, l.pageId) && s1.maxNum <= 1
            && s1.apps == s.apps && s1.open == s.open && NewOnce(s, app, [l]) && !AnyTakesAway(s, order, app, [l])
  {
    hide Invariant, Listing;
    ListingReconciles(s, order, app, [l]);
    var s1 := Listing(s, order, app, [l]);
    assert IsListed([l], l.pageId) by { assert [l][0] == l; }
    var n :| n in s1.pages && SamePage(s1.pages[n], app, l.pageId);
  }

  lemma FewerDangling(s: State, s1: State)
    requires NoDangling(s) && s1.open == s.open
    requires forall n :: n in s1.pages ==> n in s.pages && s1.pages[n] == s.pages[n]
    ensures NoDangling(s1)
  {
  }

  method FindListed(ls: seq<Listed>, id: int) returns (found: bool)
    ensures found <==> IsListed(ls, id)
  {
    var i := 0;
    while i < |ls| && ls[i].pageId != id
      invariant i <= |ls| && forall j :: 0 <= j < i ==> ls[j].pageId != id
    {
      i := i + 1;
    }
    found := i < |ls|;
  }

  lemma ListingSteps(s: State, order: seq<nat>, app: App, ls: seq<Listed>)
    requires Invariant(s) && Lists(s, order) && s.maxNum + |ls| < ROOM && app in s.apps
    ensures Ready(s, order) && NoRepeats(order)
    ensures Ready(AddAll(s, order, app, ls), order)
    ensures Listing(s, order, app, ls) == DropOld(AddAll(s, order, app, ls), order, app, ls)
  {
    hide Invariant, AddAll, DropOld;
    ListsReady(s, order);
    AddAllKeeps(s, order, app, ls);
  }

  lemma AddStep(s: State, order: seq<nat>, app: App, ls: seq<Listed>, some: set<ClientId>)
    requires Ready(s, order) && app in s.apps && s.maxNum + |ls| < ROOM && ls != []
    ensures Allocated(s) && forall n :: n in order ==> n in s.pages
    ensures var s1 := AddOne(s, order, app, ls[0]);
            && Ready(s1, order) && s1.apps == s.apps && s1.maxNum <= s.maxNum + 1 && s1.clients.Keys == s.clients.Keys
            && s1.connection == s.connection
            && AddAll(s, order, app, ls) == AddAll(s1, order, app, ls[1..])
            && (Within(s, some) ==> Within(s1, some))
  {
    hide Owns, Settled, Numbered, AddOne;
    AddOneKeeps(s, order, app, ls[0]);
    if Within(s, some) {
      AddOneWithin(s, order, app, ls[0], some);
    }
  }

  lemma AddNothing(s: State, order: seq<nat>, app: App)
    requires Ready(s, order) && app in s.apps && s.maxNum < ROOM
    ensures AddAll(s, order, app, []) == s
  {
  }

  lemma DropStep(s: State, order: seq<nat>, app: App, ls: seq<Listed>)
    requires Ready(s, order) && NoRepeats(order) && order != []
    ensures Allocated(s) && order[0] in s.pages && NoRepeats(order[1..])
    ensures var s1 := if s.pages[order[0]].app == app && !IsListed(ls, s.pages[order[0]].pageId)
                      then Dropped(s, order[0]) else s;
            && Ready(s1, order[1..])
            && DropOld(s, order, app, ls) == DropOld(s1, order[1..], app, ls)
            && s1.clients.Keys == s.clients.Keys
            && (forall n :: n in s1.pages ==> n in s.pages && s1.pages[n] == s.pages[n])
  {
    hide Owns, Settled, Numbered, Dropped, IsListed;
    DropKeeps(s, order[0]);
    DropExact(s, order[0]);
    DropClients(s, order[0]);
  }

  lemma DropClients(s: State, n: nat)
    requires Allocated(s) && n in s.pages
    ensures Dropped(s, n).clients.Keys == s.clients.Keys
  {
  }

  lemma EmptyDrop(s: State, app: App, ls: seq<Listed>)
    requires Ready(s, [])
    ensures DropOld(s, [], app, ls) == s
  {
  }

  /** Stopping a page has nothing to do with the apps. */
  lemma DropAnyApps(s: State, all: set<App>, n: nat)
    requires Allocated(s.(apps := all)) && n in s.pages
    ensures Allocated(s)
    ensures Dropped(s.(apps := all), n) == Dropped(s, n).(apps := all)
    ensures Dropped(s, n) == Stop(s, n).(pages := Stop(s, n).pages - {n})
  {
  }

  lemma RemoveAppSteps(s: State, order: seq<nat>, app: App)
    requires Invariant(s) && Lists(s, order)
    ensures Ready(s, order) && NoRepeats(order)
    ensures app !in s.apps ==> RemoveApp(s, order, app) == s
    ensures app in s.apps ==>
              RemoveApp(s, order, app) == DropOld(s, order, app, []).(apps := DropOld(s, order, app, []).apps - {app})
              && DropOld(s, order, app, []).apps == s.apps
  {
    hide Invariant;
    ListsReady(s, order);
    DropOldKeeps(s, order, app, []);
  }

  lemma PagesOfApps(s: State)
    requires Invariant(s)
    ensures forall n :: n in s.pages ==> s.pages[n].app in s.apps
  {
  }

  /** Only numbers that were given out name pages. */
  lemma NumbersGiven(s: State)
    requires Invariant(s)
    ensures forall n :: n in s.pages ==> 0 < n <= s.maxNum
    ensures s.open <= s.clients.Keys
  {
  }

  lemma NotYet(s: State, c: ClientId, attached: set<ClientId>)
    requires c !in attached && forall n :: n in s.pages && s.pages[n].iws.Some? ==> s.pages[n].iws.value in attached
    ensures Unattached(s, c)
  {
  }

  lemma TakeFacts(s: State, n: nat, c: ClientId)
    requires Invariant(s) && Allocated(s) && n in s.pages && c in s.clients
    ensures var s1 := Take(s, n, c);
            && n in s1.pages && s1.pages[n].iws == Some(c) && c in s1.clients && s1.clients[c] == Iws(n, Some(n))
            && s1.clients.Keys == s.clients.Keys
            && (forall m :: m in s1.pages && s1.pages[m].iws.Some? && m != n ==> m in s.pages && s1.pages[m].iws == s.pages[m].iws)
  {
    hide Owns, Settled, Unique;
  }

  lemma TakeExactly(s: State, n: nat, c: ClientId)
    requires Invariant(s) && Allocated(s) && n in s.pages && c in s.clients
    ensures var s1, other := Take(s, n, c), s.pages[n].iws;
            && s1.pages == s.pages[n := s.pages[n].(iws := Some(c), sender := Some(c))]
            && s1.clients == (if other.Some? then s.clients[other.value := Iws(n, None)] else s.clients)[c := Iws(n, Some(n))]
  {
    hide Unique;
  }

  lemma CloseExactly(s: State, c: ClientId)
    requires Invariant(s) && Allocated(s) && c in s.clients
    ensures var s1 := Closed(s, c);
            && s1.open == s.open - {c} && s1.clients == s.clients[c := Iws(0, None)]
            && (s.clients[c].ipage.Some? ==> s.clients[c].ipage.value in s.pages)
            && s1.pages == match s.clients[c].ipage
                           case Some(n) => s.pages[n := s.pages[n].(iws := None, sender := None)]
                           case None => s.pages
  {
    hide Settled, Unique;
  }

  lemma InOpen(s: State, c: ClientId)
    requires Invariant(s) && c in s.open
    ensures c in s.clients
  {
  }

  lemma CloseFacts(s: State, c: ClientId)
    requires Allocated(s) && c in s.clients
    ensures var s1 := Closed(s, c);
            && s1.clients.Keys == s.clients.Keys
            && (forall m :: m in s1.pages && s1.pages[m].iws.Some? ==> m in s.pages && s1.pages[m].iws == s.pages[m].iws)
  {
  }
}
