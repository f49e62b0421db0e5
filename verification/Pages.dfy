/**
 * The pages of one inspector and the clients that inspect them (src/ios_webkit_debug_proxy.c):
 * who owns a page while clients attach, steal and leave and the device lists and drops pages.
 */
module Pages {
  import opened Bytes

  type ClientId = int
  type App = int
  type Conn = int

  /** A page; `sender` is the ws_id of the client it is forwarded for. */
  datatype Page = Page(num: nat, app: App, pageId: int, connection: Option<Conn>,
                       sender: Option<ClientId>, iws: Option<ClientId>)

  /** A client. A closed one keeps a zeroed record, to which a page may still point: see `NoDangling`. */
  datatype Iws = Iws(pageNum: nat, ipage: Option<nat>)

  /** One line of a listing. */
  datatype Listed = Listed(pageId: int, connection: Option<Conn>)

  /** `open` is the table of clients by ws_id; `pages` the table by page number. */
  datatype State = State(pages: map<nat, Page>, clients: map<ClientId, Iws>, open: set<ClientId>,
                         apps: set<App>, maxNum: nat, connection: Conn)

  const ROOM := 0x1_0000_0000

  // ----- single steps -----

  /** Every pointer leads to a record. */
  predicate Allocated(s: State) {
    && (forall n :: n in s.pages && s.pages[n].iws.Some? ==> s.pages[n].iws.value in s.clients)
    && (forall c :: c in s.clients && s.clients[c].ipage.Some? ==> s.clients[c].ipage.value in s.pages)
    && s.open <= s.clients.Keys
  }

  /** The page and its client let go of each other, if they hold each other. */
  function Stop(s: State, n: nat): State
    requires Allocated(s) && n in s.pages
  {
    var page := s.pages[n];
    if page.iws.None? || s.clients[page.iws.value].ipage != Some(n) || page.sender.None?
       || page.sender.value !in s.open || page.sender != page.iws then s
    else s.(clients := s.clients[page.iws.value := Iws(0, None)],
            pages := s.pages[n := page.(iws := None, sender := None)])
  }

  /** A client takes a page, from another client if need be. */
  function Take(s: State, n: nat, c: ClientId): State
    requires Allocated(s) && n in s.pages && c in s.clients
  {
    var num := s.pages[n].num;
    var s1 := Stop(s, n);
    var s2 := if s.pages[n].iws.Some?
              then s1.(clients := s1.clients[s.pages[n].iws.value := s1.clients[s.pages[n].iws.value].(pageNum := num)])
              else s1;
    s2.(clients := s2.clients[c := Iws(num, Some(n))],
        pages := s2.pages[n := s2.pages[n].(iws := Some(c), sender := Some(c))])
  }

  function Opened(s: State, c: ClientId): State {
    s.(clients := s.clients[c := Iws(0, None)], open := s.open + {c})
  }

  /** A client leaves its page and its table and is freed. */
  function Closed(s: State, c: ClientId): State
    requires Allocated(s) && c in s.clients
  {
    var p := s.clients[c].ipage;
    var s1 := if p.Some? && s.pages[p.value].sender.Some? && s.pages[p.value].iws == Some(c) then Stop(s, p.value) else s;
    s1.(clients := s1.clients[c := Iws(0, None)], open := s1.open - {c})
  }

  /** A page is taken out of the table and freed. */
  function Dropped(s: State, n: nat): State
    requires Allocated(s) && n in s.pages
  {
    var s1 := Stop(s, n);
    s1.(pages := s1.pages - {n})
  }

  // ----- ownership -----

  /** A client that has a page is open and is the one its page names, under both its names. */
  predicate Owns(s: State) {
    forall c :: c in s.clients && s.clients[c].ipage.Some? ==>
      var n := s.clients[c].ipage.value;
      && c in s.open && n in s.pages && s.pages[n].iws == Some(c) && s.pages[n].sender == Some(c)
      && s.clients[c].pageNum == s.pages[n].num
  }

  /** A page's two names for its client agree and lead to a record, which has this page or none. */
  predicate Settled(s: State) {
    forall n :: n in s.pages ==>
      && s.pages[n].sender == s.pages[n].iws
      && (s.pages[n].iws.Some? ==>
            var c := s.pages[n].iws.value;
            c in s.clients && (s.clients[c].ipage.None? || s.clients[c].ipage == Some(n)))
  }

  /** Pages are filed under their numbers, which have been given out, and belong to known apps. */
  predicate Numbered(s: State) {
    s.open <= s.clients.Keys &&
    forall n :: n in s.pages ==> s.pages[n].num == n && 0 < n <= s.maxNum && s.pages[n].app in s.apps
  }

  predicate SamePage(page: Page, app: App, pageId: int) {
    page.app == app && page.pageId == pageId
  }

  /** An app has at most one page of each id. */
  predicate Unique(s: State) {
    forall m, n :: m in s.pages && n in s.pages && SamePage(s.pages[m], s.pages[n].app, s.pages[n].pageId) ==> m == n
  }

  predicate Invariant(s: State) {
    Owns(s) && Settled(s) && Numbered(s) && Unique(s)
  }

  /** And no page names a client that does not have it: nobody has claimed one from afar. */
  predicate TwoWay(s: State) {
    forall n :: n in s.pages && s.pages[n].iws.Some? ==>
      var c := s.pages[n].iws.value; c in s.clients && s.clients[c].ipage == Some(n)
  }

  lemma InvariantAllocated(s: State)
    requires Owns(s) && Settled(s) && Numbered(s)
    ensures Allocated(s)
  {
  }

  /** What the invariant says of one page: at most one client has it, and no client has a removed one. */
  lemma OneOwner(s: State, c: ClientId, d: ClientId)
    requires Invariant(s) && c in s.clients && d in s.clients
    requires s.clients[c].ipage.Some? && s.clients[d].ipage == s.clients[c].ipage
    ensures c == d && s.clients[c].ipage.value in s.pages
  {
    hide Settled, Numbered, Unique;
  }

  lemma StopKeeps(s: State, n: nat)
    requires Owns(s) && Settled(s) && Numbered(s) && n in s.pages
    ensures Allocated(s)
    ensures var s1 := Stop(s, n);
            && Owns(s1) && Settled(s1) && Numbered(s1) && (Unique(s) ==> Unique(s1)) && (TwoWay(s) ==> TwoWay(s1))
            && (s.pages[n].iws.Some? ==> s1.clients[s.pages[n].iws.value].ipage.None?)
  {
  }

  /** The client recorded at a page has gone to another page. */
  predicate Strayed(s: State, n: nat, c: ClientId)
    requires n in s.pages
  {
    && s.pages[n].iws.Some? && s.pages[n].iws.value != c && s.pages[n].iws.value in s.clients
    && s.clients[s.pages[n].iws.value].ipage.Some? && s.clients[s.pages[n].iws.value].ipage != Some(n)
  }

  /**
   * Taking a page keeps the ownership exactly when the page's recorded client has not gone to
   * another page: such a client would get the number of the page it no longer has.
   */
  lemma TakeOwns(s: State, n: nat, c: ClientId)
    requires Allocated(s) && Owns(s) && n in s.pages && c in s.open
    requires s.pages[n].num == n && forall m :: m in s.pages ==> s.pages[m].num == m
    requires s.pages[n].sender == s.pages[n].iws
    ensures Owns(Take(s, n, c)) <==> !Strayed(s, n, c)
  {
    var s1 := Take(s, n, c);
    if Strayed(s, n, c) {
      var d := s.pages[n].iws.value;
      assert s1.clients[d].ipage == s.clients[d].ipage && s1.clients[d].pageNum == n;
      assert s1.pages[s1.clients[d].ipage.value].num != n;
    }
  }

  /** No page names the client. */
  predicate Unattached(s: State, c: ClientId) {
    forall n :: n in s.pages ==> s.pages[n].iws != Some(c)
  }

  /** A client that has never had a page takes one: everything is kept. */
  lemma TakeKeeps(s: State, n: nat, c: ClientId)
    requires Invariant(s) && n in s.pages && c in s.open && Unattached(s, c)
    ensures Allocated(s) && c in s.clients
    ensures Invariant(Take(s, n, c)) && (TwoWay(s) ==> TwoWay(Take(s, n, c)))
  {
    InvariantAllocated(s);
    StopKeeps(s, n);
    var s1 := Stop(s, n);
    var s2 := Take(s, n, c);
    assert s2.pages == s1.pages[n := s1.pages[n].(iws := Some(c), sender := Some(c))];
    TakeSettled(s, n, c);
    TakeOwned(s, n, c);
  }

  lemma TakeSettled(s: State, n: nat, c: ClientId)
    requires Allocated(s) && Settled(s) && Owns(s) && n in s.pages && c in s.open && Unattached(s, c)
    ensures Settled(Take(s, n, c)) && (TwoWay(s) ==> TwoWay(Take(s, n, c)))
  {
  }

  lemma TakeOwned(s: State, n: nat, c: ClientId)
    requires Allocated(s) && Settled(s) && Owns(s) && n in s.pages && c in s.open && Unattached(s, c)
    ensures Owns(Take(s, n, c))
  {
  }

  lemma OpenKeeps(s: State, c: ClientId)
    requires Invariant(s) && c !in s.clients
    ensures Invariant(Opened(s, c)) && Unattached(Opened(s, c), c) && (TwoWay(s) ==> TwoWay(Opened(s, c)))
  {
  }

  lemma SamePages(s: State, s1: State)
    requires s.pages == s1.pages
    ensures Unique(s) <==> Unique(s1)
  {
  }

  lemma CloseKeeps(s: State, c: ClientId)
    requires Invariant(s) && c in s.clients
    ensures Allocated(s)
    ensures Invariant(Closed(s, c)) && (TwoWay(s) ==> TwoWay(Closed(s, c)))
  {
    hide Unique;
    InvariantAllocated(s);
    var p := s.clients[c].ipage;
    if p.Some? {
      StopKeeps(s, p.value);
    }
    CloseOwned(s, c);
    SamePages(Closed(s, c), if p.Some? && s.pages[p.value].sender.Some? && s.pages[p.value].iws == Some(c)
                            then Stop(s, p.value) else s);
  }

  lemma CloseOwned(s: State, c: ClientId)
    requires Allocated(s) && Owns(s) && Settled(s) && Numbered(s) && c in s.clients
    ensures var s1 := Closed(s, c);
            Owns(s1) && Settled(s1) && Numbered(s1) && (TwoWay(s) ==> TwoWay(s1))
  {
  }

  /** Dropping a page: its client does not keep it. */
  lemma DropKeeps(s: State, n: nat)
    requires Owns(s) && Settled(s) && Numbered(s) && n in s.pages
    ensures Allocated(s)
    ensures var s1 := Dropped(s, n);
            && Owns(s1) && Settled(s1) && Numbered(s1) && Allocated(s1)
            && (Unique(s) ==> Unique(s1)) && (TwoWay(s) ==> TwoWay(s1))
  {
    hide Unique;
    InvariantAllocated(s);
    StopKeeps(s, n);
    DropUnique(s, n);
    DropOwned(s, n);
  }

  lemma DropUnique(s: State, n: nat)
    requires Allocated(s) && n in s.pages
    ensures Unique(Stop(s, n)) ==> Unique(Dropped(s, n))
  {
  }

  lemma DropOwned(s: State, n: nat)
    requires Allocated(s) && Owns(s) && Settled(s) && Numbered(s) && n in s.pages
    ensures var s1 := Dropped(s, n);
            Owns(s1) && Settled(s1) && Numbered(s1) && (TwoWay(s) ==> TwoWay(s1))
  {
  }

  // ----- a listing -----

  /** The page of an app with an id among those seen, in the order the table gives them. */
  function Find(s: State, order: seq<nat>, app: App, id: int): (r: Option<nat>)
    requires forall n :: n in order ==> n in s.pages
    ensures r.Some? ==> r.value in order && r.value in s.pages && SamePage(s.pages[r.value], app, id)
    ensures r.None? ==> forall n :: n in order ==> !SamePage(s.pages[n], app, id)
  {
    if order == [] then None
    else if SamePage(s.pages[order[0]], app, id) then Some(order[0])
    else Find(s, order[1..], app, id)
  }

  /** The listing names another inspector than ours for a page. */
  predicate Claims(s: State, l: Listed) {
    l.connection.Some? && l.connection.value != s.connection
  }

  /** A line for a page we have: its client loses it when it is claimed from afar. */
  function Seen(s: State, n: nat, l: Listed): State
    requires Allocated(s) && n in s.pages
  {
    var page := s.pages[n];
    var s1 := if page.iws.Some? && Claims(s, l)
              then s.(clients := s.clients[page.iws.value := s.clients[page.iws.value].(ipage := None)])
              else s;
    s1.(pages := s1.pages[n := page.(connection := l.connection)])
  }

  function NextNum(s: State): nat {
    (s.maxNum + 1) % ROOM
  }

  /** A line for a page we do not have. */
  function New(s: State, app: App, l: Listed): State {
    s.(pages := s.pages[NextNum(s) := Page(NextNum(s), app, l.pageId, l.connection, None, None)], maxNum := NextNum(s))
  }

  /** Numbers last until the counter of 32 bits wraps around: the next page would be page 0. */
  lemma NumbersLast(s: State, app: App, l: Listed)
    requires Numbered(s) && app in s.apps && s.maxNum < 0x1_0000_0000
    ensures Numbered(New(s, app, l)) <==> s.maxNum < 0xFFFF_FFFF
    ensures var s1, n := New(s, app, l), if s.maxNum < 0xFFFF_FFFF then s.maxNum + 1 else 0;
            s1.maxNum == n && s1.pages == s.pages[n := Page(n, app, l.pageId, l.connection, None, None)]
  {
    var s1 := New(s, app, l);
    assert NextNum(s) in s1.pages;
    if s.maxNum + 1 < ROOM {
      assert s1.maxNum == s.maxNum + 1;
    }
  }

  function AddOne(s: State, order: seq<nat>, app: App, l: Listed): State
    requires Allocated(s) && forall n :: n in order ==> n in s.pages
  {
    match Find(s, order, app, l.pageId)
    case Some(n) => Seen(s, n, l)
    case None => New(s, app, l)
  }

  /** What one line of a listing keeps. */
  predicate Ready(s: State, order: seq<nat>) {
    && Owns(s) && Settled(s) && Numbered(s)
    && (forall n :: n in order ==> n in s.pages)
  }

  lemma SeenKeeps(s: State, n: nat, l: Listed)
    requires Owns(s) && Settled(s) && Numbered(s) && n in s.pages
    ensures Allocated(s)
    ensures var s1 := Seen(s, n, l);
            && Owns(s1) && Settled(s1) && Numbered(s1)
            && (TwoWay(s) ==> (TwoWay(s1) <==> !(s.pages[n].iws.Some? && Claims(s, l))))
  {
    InvariantAllocated(s);
    var s1 := Seen(s, n, l);
    if TwoWay(s) && s.pages[n].iws.Some? && Claims(s, l) {
      assert n in s1.pages && s1.pages[n].iws.Some? && s1.clients[s1.pages[n].iws.value].ipage.None?;
    }
  }

  lemma NewKeeps(s: State, app: App, l: Listed)
    requires Owns(s) && Settled(s) && Numbered(s) && app in s.apps && s.maxNum + 1 < ROOM
    ensures var s1 := New(s, app, l);
            && Owns(s1) && Settled(s1) && Numbered(s1) && (TwoWay(s) ==> TwoWay(s1))
            && NextNum(s) == s.maxNum + 1 && NextNum(s) !in s.pages
  {
  }

  predicate HasPage(s: State, app: App, id: int) {
    exists n :: n in s.pages && SamePage(s.pages[n], app, id)
  }

  /** One line keeps everything there was but a claimed client, and its page is there afterwards. */
  ghost predicate Line(s: State, s1: State, order: seq<nat>, app: App, l: Listed)
    requires forall n :: n in order ==> n in s.pages
  {
    && s1.apps == s.apps && s1.open == s.open && s1.connection == s.connection && s1.clients.Keys == s.clients.Keys
    && s.maxNum <= s1.maxNum <= s.maxNum + 1
    && (forall n :: n in s.pages ==>
          n in s1.pages && SamePage(s1.pages[n], s.pages[n].app, s.pages[n].pageId) && s1.pages[n].num == s.pages[n].num)
    && (forall n :: n in s.pages && s.pages[n].app != app ==> s1.pages[n] == s.pages[n])
    && (forall n :: n in s1.pages && n !in s.pages ==>
          n > s.maxNum && SamePage(s1.pages[n], app, l.pageId) && Find(s, order, app, l.pageId).None?)
    && HasPage(s1, app, l.pageId)
  }

  lemma AddOneKeeps(s: State, order: seq<nat>, app: App, l: Listed)
    requires Ready(s, order) && app in s.apps && s.maxNum + 1 < ROOM
    ensures Allocated(s)
    ensures Ready(AddOne(s, order, app, l), order) && Line(s, AddOne(s, order, app, l), order, app, l)
  {
    hide Owns, Settled, Numbered, Line, Seen, New;
    InvariantAllocated(s);
    match Find(s, order, app, l.pageId)
    case Some(n) =>
      SeenKeeps(s, n, l);
      SeenLine(s, order, app, l, n);
    case None =>
      NewKeeps(s, app, l);
      NewLine(s, order, app, l);
  }

  lemma SeenLine(s: State, order: seq<nat>, app: App, l: Listed, n: nat)
    requires Ready(s, order) && Allocated(s) && Find(s, order, app, l.pageId) == Some(n)
    ensures Line(s, Seen(s, n, l), order, app, l) && s.pages.Keys <= Seen(s, n, l).pages.Keys
  {
    hide Owns, Settled, Numbered;
    var s1 := Seen(s, n, l);
    assert n in s1.pages && SamePage(s1.pages[n], app, l.pageId);
  }

  lemma NewLine(s: State, order: seq<nat>, app: App, l: Listed)
    requires Ready(s, order) && Find(s, order, app, l.pageId).None?
    requires NextNum(s) == s.maxNum + 1 && NextNum(s) !in s.pages
    ensures Line(s, New(s, app, l), order, app, l) && s.pages.Keys <= New(s, app, l).pages.Keys
  {
    hide Owns, Settled, Numbered, NextNum;
    var s1 := New(s, app, l);
    assert NextNum(s) in s1.pages && SamePage(s1.pages[NextNum(s)], app, l.pageId);
  }

  function AddAll(s: State, order: seq<nat>, app: App, ls: seq<Listed>): State
    requires Ready(s, order) && app in s.apps && s.maxNum + |ls| < ROOM
    decreases |ls|
  {
    if ls == [] then s
    else
      AddOneKeeps(s, order, app, ls[0]);
      AddAll(AddOne(s, order, app, ls[0]), order, app, ls[1..])
  }

  predicate NoRepeats(order: seq<nat>) {
    forall i, j :: 0 <= i < j < |order| ==> order[i] != order[j]
  }

  predicate IsListed(ls: seq<Listed>, id: int) {
    exists i :: 0 <= i < |ls| && ls[i].pageId == id
  }

  /** Drop the pages of an app, among those seen before, that are not listed. */
  function DropOld(s: State, order: seq<nat>, app: App, ls: seq<Listed>): State
    requires Ready(s, order) && NoRepeats(order)
    decreases |order|
  {
    if order == [] then s
    else
      DropKeeps(s, order[0]);
      var n := order[0];
      var s1 := if s.pages[n].app == app && !IsListed(ls, s.pages[n].pageId) then Dropped(s, n) else s;
      DropOld(s1, order[1..], app, ls)
  }

  /** The table's pages, each once, in any order. */
  ghost predicate Lists(s: State, order: seq<nat>) {
    && NoRepeats(order)
    && (forall n :: n in order ==> n in s.pages)
    && (forall n :: n in s.pages ==> n in order)
  }

  lemma ListsReady(s: State, order: seq<nat>)
    requires Invariant(s) && Lists(s, order)
    ensures Ready(s, order) && Allocated(s)
  {
  }

  /** The device lists the pages of an app. */
  function Listing(s: State, order: seq<nat>, app: App, ls: seq<Listed>): State
    requires Invariant(s) && Lists(s, order) && s.maxNum + |ls| < ROOM
  {
    if app !in s.apps then s
    else
      ListsReady(s, order);
      AddAllKeeps(s, order, app, ls);
      DropOld(AddAll(s, order, app, ls), order, app, ls)
  }

  /** No page that is missing from the table is listed twice. */
  ghost predicate OnceNew(s: State, order: seq<nat>, app: App, ls: seq<Listed>)
    requires forall n :: n in order ==> n in s.pages
  {
    forall i, j :: 0 <= i < j < |ls| && ls[i].pageId == ls[j].pageId ==> Find(s, order, app, ls[i].pageId).Some?
  }

  /** What all the lines of a listing keep. */
  ghost predicate Lines(s: State, s1: State, app: App, ls: seq<Listed>) {
    && s1.apps == s.apps && s1.open == s.open && s1.connection == s.connection && s1.clients.Keys == s.clients.Keys
    && s.maxNum <= s1.maxNum <= s.maxNum + |ls|
    && (forall n :: n in s.pages ==>
          n in s1.pages && SamePage(s1.pages[n], s.pages[n].app, s.pages[n].pageId) && s1.pages[n].num == s.pages[n].num)
    && (forall n :: n in s.pages && s.pages[n].app != app ==> s1.pages[n] == s.pages[n])
    && (forall n :: n in s1.pages && n !in s.pages ==>
          n > s.maxNum && s1.pages[n].app == app && IsListed(ls, s1.pages[n].pageId))
    && (forall i :: 0 <= i < |ls| ==> HasPage(s1, app, ls[i].pageId))
  }

  lemma {:induction false} AddAllKeeps(s: State, order: seq<nat>, app: App, ls: seq<Listed>)
    requires Ready(s, order) && app in s.apps && s.maxNum + |ls| < ROOM
    ensures Ready(AddAll(s, order, app, ls), order) && Lines(s, AddAll(s, order, app, ls), app, ls)
    decreases |ls|
  {
    hide Owns, Settled, Numbered, Line, Lines, AddOne, HasPage;
    if ls == [] {
      NoLines(s, app);
    } else {
      AddOneKeeps(s, order, app, ls[0]);
      var s1 := AddOne(s, order, app, ls[0]);
      assert app in s1.apps && s1.maxNum <= s.maxNum + 1 by { LineFacts(s, s1, order, app, ls[0]); }
      AddAllKeeps(s1, order, app, ls[1..]);
      LinesStep(s, s1, AddAll(s1, order, app, ls[1..]), order, app, ls);
    }
  }

  lemma NoLines(s: State, app: App)
    ensures Lines(s, s, app, [])
  {
  }

  lemma LineFacts(s: State, s1: State, order: seq<nat>, app: App, l: Listed)
    requires forall n :: n in order ==> n in s.pages
    requires Line(s, s1, order, app, l)
    ensures s1.apps == s.apps && s.maxNum <= s1.maxNum <= s.maxNum + 1
  {
  }

  lemma LinesStep(s: State, s1: State, s2: State, order: seq<nat>, app: App, ls: seq<Listed>)
    requires ls != [] && forall n :: n in order ==> n in s.pages
    requires Line(s, s1, order, app, ls[0]) && Lines(s1, s2, app, ls[1..])
    ensures Lines(s, s2, app, ls)
  {
  }

  /** A page to be dropped: of the app, seen before and not listed. */
  predicate Stale(s: State, order: seq<nat>, app: App, ls: seq<Listed>, n: nat) {
    n in order && n in s.pages && s.pages[n].app == app && !IsListed(ls, s.pages[n].pageId)
  }

  /** Exactly the stale pages are gone and the others are as they were. */
  ghost predicate OnlyStaleGone(s: State, s1: State, order: seq<nat>, app: App, ls: seq<Listed>) {
    && s1.apps == s.apps && s1.open == s.open && s1.connection == s.connection && s1.maxNum == s.maxNum
    && (forall n :: n in s1.pages <==> n in s.pages && !Stale(s, order, app, ls, n))
    && (forall n :: n in s1.pages ==> s1.pages[n] == s.pages[n])
  }

  lemma {:induction false} DropOldKeeps(s: State, order: seq<nat>, app: App, ls: seq<Listed>)
    requires Ready(s, order) && NoRepeats(order)
    ensures var s1 := DropOld(s, order, app, ls);
            && Owns(s1) && Settled(s1) && Numbered(s1) && (TwoWay(s) ==> TwoWay(s1))
            && OnlyStaleGone(s, s1, order, app, ls)
    decreases |order|
  {
    hide Owns, Settled, Numbered, IsListed, TwoWay, Dropped;
    if order != [] {
      var n := order[0];
      DropKeeps(s, n);
      DropExact(s, n);
      var s1 := if s.pages[n].app == app && !IsListed(ls, s.pages[n].pageId) then Dropped(s, n) else s;
      assert forall m :: m in order[1..] ==> m in s1.pages;
      DropOldKeeps(s1, order[1..], app, ls);
      StaleStep(s, s1, DropOld(s1, order[1..], app, ls), order, app, ls);
    }
  }

  lemma DropExact(s: State, n: nat)
    requires Allocated(s) && n in s.pages
    ensures var s1 := Dropped(s, n);
            && s1.apps == s.apps && s1.open == s.open && s1.connection == s.connection && s1.maxNum == s.maxNum
            && s1.pages == s.pages - {n}
  {
  }

  lemma StaleStep(s: State, s1: State, s2: State, order: seq<nat>, app: App, ls: seq<Listed>)
    requires order != [] && order[0] in s.pages && NoRepeats(order)
    requires s1.apps == s.apps && s1.open == s.open && s1.connection == s.connection && s1.maxNum == s.maxNum
    requires s1.pages == if s.pages[order[0]].app == app && !IsListed(ls, s.pages[order[0]].pageId)
                         then s.pages - {order[0]} else s.pages
    requires OnlyStaleGone(s1, s2, order[1..], app, ls)
    ensures OnlyStaleGone(s, s2, order, app, ls)
  {
  }

  /** What is left to list has not been added yet. */
  ghost predicate Unseen(s: State, order: seq<nat>, app: App, ls: seq<Listed>) {
    forall n: nat, i: nat :: n in s.pages && n !in order && 0 <= i < |ls| ==> !SamePage(s.pages[n], app, ls[i].pageId)
  }

  lemma AddOneUnique(s: State, order: seq<nat>, app: App, ls: seq<Listed>)
    requires Ready(s, order) && app in s.apps && s.maxNum + 1 < ROOM
    requires ls != [] && Unique(s) && OnceNew(s, order, app, ls) && Unseen(s, order, app, ls)
    ensures Allocated(s)
    ensures var s1 := AddOne(s, order, app, ls[0]); Unique(s1) && Unseen(s1, order, app, ls[1..])
  {
    hide Owns, Settled;
    InvariantAllocated(s);
    AddOneKeeps(s, order, app, ls[0]);
    var l := ls[0];
    match Find(s, order, app, l.pageId)
    case Some(n) =>
      SeenUnique(s, n, l);
      SeenUnseen(s, n, l, order, app, ls);
    case None =>
      assert NextNum(s) !in s.pages;
      forall n | n in s.pages ensures !SamePage(s.pages[n], app, l.pageId) {
      }
  }

  lemma SeenUnique(s: State, n: nat, l: Listed)
    requires Allocated(s) && n in s.pages && Unique(s)
    ensures Unique(Seen(s, n, l))
  {
  }

  lemma SeenUnseen(s: State, n: nat, l: Listed, order: seq<nat>, app: App, ls: seq<Listed>)
    requires Allocated(s) && n in s.pages && ls != [] && Unseen(s, order, app, ls)
    ensures Unseen(Seen(s, n, l), order, app, ls[1..])
  {
  }

  lemma {:induction false} AddAllUnique(s: State, order: seq<nat>, app: App, ls: seq<Listed>)
    requires Ready(s, order) && app in s.apps && s.maxNum + |ls| < ROOM
    requires Unique(s) && OnceNew(s, order, app, ls) && Unseen(s, order, app, ls)
    ensures Unique(AddAll(s, order, app, ls))
    decreases |ls|
  {
    hide Owns, Settled, Numbered, Unique, Unseen, OnceNew, Line, AddOne;
    if ls != [] {
      AddOneUnique(s, order, app, ls);
      AddOneKeeps(s, order, app, ls[0]);
      var s1 := AddOne(s, order, app, ls[0]);
      assert app in s1.apps && s1.maxNum <= s.maxNum + 1 by { LineFacts(s, s1, order, app, ls[0]); }
      RestOnceNew(s, s1, order, app, ls);
      AddAllUnique(s1, order, app, ls[1..]);
    }
  }

  lemma RestOnceNew(s: State, s1: State, order: seq<nat>, app: App, ls: seq<Listed>)
    requires ls != [] && (forall n :: n in order ==> n in s.pages) && Line(s, s1, order, app, ls[0])
    ensures forall n :: n in order ==> n in s1.pages
    ensures OnceNew(s, order, app, ls) ==> OnceNew(s1, order, app, ls[1..])
    ensures forall id :: Find(s1, order, app, id) == Find(s, order, app, id)
  {
    hide Line, Find;
    LineSame(s, s1, order, app, ls[0]);
    forall id ensures Find(s1, order, app, id) == Find(s, order, app, id) {
      SameFind(s, s1, order, app, id);
    }
  }

  ghost predicate PageBeyond(s: State, k: nat, app: App, id: int) {
    exists n :: n in s.pages && n > k && SamePage(s.pages[n], app, id)
  }

  ghost predicate TwoPages(s: State, app: App, id: int) {
    exists m, n :: m in s.pages && n in s.pages && m < n && SamePage(s.pages[m], app, id) && SamePage(s.pages[n], app, id)
  }

  lemma BeyondLess(s: State, k: nat, k': nat, app: App, id: int)
    requires PageBeyond(s, k, app, id) && k' <= k
    ensures PageBeyond(s, k', app, id)
  {
    var n :| n in s.pages && n > k && SamePage(s.pages[n], app, id);
    assert n > k';
  }

  lemma BeyondAnother(s: State, k: nat, app: App, id: int)
    requires PageBeyond(s, k, app, id) && k in s.pages && SamePage(s.pages[k], app, id)
    ensures TwoPages(s, app, id)
  {
    var n :| n in s.pages && n > k && SamePage(s.pages[n], app, id);
    assert k < n;
  }

  /** Each line for a page that is missing from the table makes a page of its own. */
  lemma {:induction false} AddAllNew(s: State, order: seq<nat>, app: App, ls: seq<Listed>, k: nat)
    requires Ready(s, order) && app in s.apps && s.maxNum + |ls| < ROOM
    requires k < |ls| && Find(s, order, app, ls[k].pageId).None?
    ensures PageBeyond(AddAll(s, order, app, ls), s.maxNum, app, ls[k].pageId)
    decreases |ls|
  {
    hide Owns, Settled, Numbered, Line, AddOne, Find, Lines;
    AddOneKeeps(s, order, app, ls[0]);
    var s1 := AddOne(s, order, app, ls[0]);
    LineFacts(s, s1, order, app, ls[0]);
    RestOnceNew(s, s1, order, app, ls);
    var s2 := AddAll(s1, order, app, ls[1..]);
    assert AddAll(s, order, app, ls) == s2;
    if k == 0 {
      AddAllKeeps(s1, order, app, ls[1..]);
      FirstNew(s, order, app, ls[0]);
      StillThere(s1, s2, app, ls[1..], s1.maxNum);
      assert s1.maxNum in s2.pages && SamePage(s2.pages[s1.maxNum], app, ls[k].pageId);
    } else {
      AddAllNew(s1, order, app, ls[1..], k - 1);
      BeyondLess(s2, s1.maxNum, s.maxNum, app, ls[k].pageId);
    }
  }

  lemma FirstNew(s: State, order: seq<nat>, app: App, l: Listed)
    requires Ready(s, order) && s.maxNum + 1 < ROOM && Find(s, order, app, l.pageId).None?
    ensures Allocated(s)
    ensures var s1 := AddOne(s, order, app, l);
            s1.maxNum == s.maxNum + 1 && s1.maxNum in s1.pages && SamePage(s1.pages[s1.maxNum], app, l.pageId)
  {
    InvariantAllocated(s);
  }

  lemma StillThere(s1: State, s2: State, app: App, ls: seq<Listed>, n: nat)
    requires Lines(s1, s2, app, ls) && n in s1.pages
    ensures n in s2.pages && SamePage(s2.pages[n], s1.pages[n].app, s1.pages[n].pageId)
    ensures s1.maxNum <= s2.maxNum
  {
  }

  /** A missing page that is listed twice becomes two pages. */
  lemma {:induction false} AddAllTwice(s: State, order: seq<nat>, app: App, ls: seq<Listed>, i: nat, j: nat)
    requires Ready(s, order) && app in s.apps && s.maxNum + |ls| < ROOM
    requires i < j < |ls| && ls[i].pageId == ls[j].pageId && Find(s, order, app, ls[i].pageId).None?
    ensures TwoPages(AddAll(s, order, app, ls), app, ls[i].pageId)
    decreases |ls|
  {
    hide Owns, Settled, Numbered, Line, AddOne, Find, Lines;
    AddOneKeeps(s, order, app, ls[0]);
    var s1 := AddOne(s, order, app, ls[0]);
    LineFacts(s, s1, order, app, ls[0]);
    RestOnceNew(s, s1, order, app, ls);
    var s2 := AddAll(s1, order, app, ls[1..]);
    assert AddAll(s, order, app, ls) == s2;
    if i == 0 {
      FirstNew(s, order, app, ls[0]);
      AddAllKeeps(s1, order, app, ls[1..]);
      StillThere(s1, s2, app, ls[1..], s1.maxNum);
      AddAllNew(s1, order, app, ls[1..], j - 1);
      BeyondAnother(s2, s1.maxNum, app, ls[j].pageId);
    } else {
      AddAllTwice(s1, order, app, ls[1..], i - 1, j - 1);
    }
  }

  // ----- the two results about a listing -----

  /**
   * A listing keeps ownership and numbers, and the ids of an app's pages stay unique exactly when
   * no page that the app did not have is listed twice.
   */
  lemma ListingKeeps(s: State, order: seq<nat>, app: App, ls: seq<Listed>)
    requires Invariant(s) && Lists(s, order) && s.maxNum + |ls| < ROOM
    ensures var s1 := Listing(s, order, app, ls);
            && Owns(s1) && Settled(s1) && Numbered(s1)
            && (Invariant(s1) <==> app !in s.apps || NewOnce(s, app, ls))
  {
    hide Owns, Settled, Numbered, Unique, OnceNew, Lines, AddAll, DropOld, Find, NewOnce;
    if app in s.apps {
      ListsReady(s, order);
      assert Unseen(s, order, app, ls) by { AllSeen(s, order, app, ls); }
      AddAllKeeps(s, order, app, ls);
      var s1 := AddAll(s, order, app, ls);
      DropOldKeeps(s1, order, app, ls);
      NewOnceInOrder(s, order, app, ls);
      if OnceNew(s, order, app, ls) {
        AddAllUnique(s, order, app, ls);
        FewerUnique(s1, DropOld(s1, order, app, ls));
      } else {
        TwiceNotUnique(s, order, app, ls);
      }
    }
  }

  /** No page that the app does not have is listed twice. */
  ghost predicate NewOnce(s: State, app: App, ls: seq<Listed>) {
    forall i, j :: 0 <= i < j < |ls| && ls[i].pageId == ls[j].pageId ==> HasPage(s, app, ls[i].pageId)
  }

  lemma NewOnceInOrder(s: State, order: seq<nat>, app: App, ls: seq<Listed>)
    requires Lists(s, order)
    ensures NewOnce(s, app, ls) <==> OnceNew(s, order, app, ls)
  {
    forall id ensures HasPage(s, app, id) <==> Find(s, order, app, id).Some? {
    }
  }

  lemma TwiceNotUnique(s: State, order: seq<nat>, app: App, ls: seq<Listed>)
    requires Ready(s, order) && NoRepeats(order) && app in s.apps && s.maxNum + |ls| < ROOM
    requires !OnceNew(s, order, app, ls)
    ensures Ready(AddAll(s, order, app, ls), order)
    ensures !Unique(DropOld(AddAll(s, order, app, ls), order, app, ls))
  {
    hide Owns, Settled, Numbered, Find, Lines, AddAll, DropOld;
    AddAllKeeps(s, order, app, ls);
    var i, j :| 0 <= i < j < |ls| && ls[i].pageId == ls[j].pageId && Find(s, order, app, ls[i].pageId).None?;
    AddAllTwice(s, order, app, ls, i, j);
    var s1 := AddAll(s, order, app, ls);
    DropOldKeeps(s1, order, app, ls);
    var m, n :| m in s1.pages && n in s1.pages && m < n
                && SamePage(s1.pages[m], app, ls[i].pageId) && SamePage(s1.pages[n], app, ls[i].pageId);
    assert IsListed(ls, ls[i].pageId);
    assert !Stale(s1, order, app, ls, m) && !Stale(s1, order, app, ls, n);
  }

  lemma AllSeen(s: State, order: seq<nat>, app: App, ls: seq<Listed>)
    requires Lists(s, order)
    ensures Unseen(s, order, app, ls)
  {
  }

  lemma FewerUnique(s: State, s1: State)
    requires Unique(s) && forall n :: n in s1.pages ==> n in s.pages && s1.pages[n] == s.pages[n]
    ensures Unique(s1)
  {
  }

  /**
   * After a listing the app has exactly the listed pages; those it had keep their numbers, new
   * ones get numbers never given out before, and the pages of other apps are untouched.
   */
  lemma ListingReconciles(s: State, order: seq<nat>, app: App, ls: seq<Listed>)
    requires Invariant(s) && Lists(s, order) && s.maxNum + |ls| < ROOM && app in s.apps
    ensures var s1 := Listing(s, order, app, ls);
            && (forall id :: HasPage(s1, app, id) <==> IsListed(ls, id))
            && (forall n :: n in s.pages && s.pages[n].app == app ==>
                  (n in s1.pages <==> IsListed(ls, s.pages[n].pageId)))
            && (forall n :: n in s.pages && n in s1.pages ==>
                  SamePage(s1.pages[n], s.pages[n].app, s.pages[n].pageId) && s1.pages[n].num == s.pages[n].num)
            && (forall n :: n in s1.pages && n !in s.pages ==> s.maxNum < n <= s1.maxNum)
            && (forall n :: n in s.pages && s.pages[n].app != app ==> n in s1.pages && s1.pages[n] == s.pages[n])
            && s.maxNum <= s1.maxNum <= s.maxNum + |ls| && s1.apps == s.apps && s1.open == s.open
  {
    hide Owns, Settled, Unique, AddAll, DropOld, IsListed;
    ListsReady(s, order);
    AddAllKeeps(s, order, app, ls);
    var s1 := AddAll(s, order, app, ls);
    DropOldKeeps(s1, order, app, ls);
    var s2 := DropOld(s1, order, app, ls);
    forall id ensures HasPage(s2, app, id) <==> IsListed(ls, id) {
      ListedHasPage(s, s1, s2, order, app, ls, id);
    }
  }

  lemma ListedHasPage(s: State, s1: State, s2: State, order: seq<nat>, app: App, ls: seq<Listed>, id: int)
    requires Lists(s, order) && Lines(s, s1, app, ls) && OnlyStaleGone(s1, s2, order, app, ls)
    ensures HasPage(s2, app, id) <==> IsListed(ls, id)
  {
    if IsListed(ls, id) {
      var i :| 0 <= i < |ls| && ls[i].pageId == id;
      assert HasPage(s1, app, id);
      var n :| n in s1.pages && SamePage(s1.pages[n], app, id);
      assert !Stale(s1, order, app, ls, n);
      assert n in s2.pages && SamePage(s2.pages[n], app, id);
    }
    if HasPage(s2, app, id) {
      var n :| n in s2.pages && SamePage(s2.pages[n], app, id);
      assert !Stale(s1, order, app, ls, n);
    }
  }

  // ----- exactly what a listing changes -----

  /** No two of the pages seen have the same app and id. */
  ghost predicate OneEach(s: State, order: seq<nat>) {
    forall m, n ::
      m in order && n in order && m in s.pages && n in s.pages && SamePage(s.pages[m], s.pages[n].app, s.pages[n].pageId)
      ==> m == n
  }

  /** The line is about the page that the client has. */
  predicate IsAbout(s: State, order: seq<nat>, app: App, l: Listed, c: ClientId) {
    && c in s.clients && s.clients[c].ipage.Some? && s.clients[c].ipage.value in s.pages
    && s.clients[c].ipage.value in order && SamePage(s.pages[s.clients[c].ipage.value], app, l.pageId)
  }

  /** One line: its page gets its connection, and the client of a claimed page loses it but for its number. */
  ghost predicate LineExact(s: State, s1: State, order: seq<nat>, app: App, l: Listed) {
    && (forall n :: n in s.pages ==>
          n in s1.pages
          && s1.pages[n] == (if n in order && SamePage(s.pages[n], app, l.pageId) then s.pages[n].(connection := l.connection)
                             else s.pages[n]))
    && (forall n :: n in s1.pages && n !in s.pages ==> s1.pages[n] == Page(n, app, l.pageId, l.connection, None, None))
    && (forall c :: c in s.clients ==>
          c in s1.clients
          && s1.clients[c] == (if IsAbout(s, order, app, l, c) && Claims(s, l) then s.clients[c].(ipage := None)
                               else s.clients[c]))
    && s1.connection == s.connection
  }

  lemma SeenExact(s: State, order: seq<nat>, app: App, l: Listed, n: nat)
    requires Ready(s, order) && Allocated(s) && OneEach(s, order) && Find(s, order, app, l.pageId) == Some(n)
    ensures LineExact(s, Seen(s, n, l), order, app, l)
  {
    hide Numbered, Find;
    forall m | m in order && SamePage(s.pages[m], app, l.pageId) ensures m == n {
      assert SamePage(s.pages[m], s.pages[n].app, s.pages[n].pageId);
    }
    var s1 := Seen(s, n, l);
    forall c | c in s.clients
      ensures s1.clients[c] == if IsAbout(s, order, app, l, c) && Claims(s, l) then s.clients[c].(ipage := None) else s.clients[c]
    {
    }
  }

  lemma NewExact(s: State, order: seq<nat>, app: App, l: Listed)
    requires Ready(s, order) && Find(s, order, app, l.pageId).None? && NextNum(s) !in s.pages
    ensures LineExact(s, New(s, app, l), order, app, l)
  {
    hide Owns, Settled, Numbered, NextNum;
  }

  lemma AddOneExact(s: State, order: seq<nat>, app: App, l: Listed)
    requires Ready(s, order) && OneEach(s, order) && app in s.apps && s.maxNum + 1 < ROOM
    ensures Allocated(s) && LineExact(s, AddOne(s, order, app, l), order, app, l)
  {
    hide Owns, Settled, Numbered, LineExact, Seen, New, OneEach;
    InvariantAllocated(s);
    match Find(s, order, app, l.pageId)
    case Some(n) => SeenExact(s, order, app, l, n);
    case None =>
      NewKeeps(s, app, l);
      NewExact(s, order, app, l);
  }

  /** The connection of a page with this id after all lines: that of the last line for it. */
  function Connected(was: Option<Conn>, id: int, ls: seq<Listed>): Option<Conn>
    decreases |ls|
  {
    if ls == [] then was
    else Connected(if ls[0].pageId == id then ls[0].connection else was, id, ls[1..])
  }

  predicate IsLastFor(ls: seq<Listed>, i: nat, id: int) {
    i < |ls| && ls[i].pageId == id && forall j :: i < j < |ls| ==> ls[j].pageId != id
  }

  lemma {:induction false} ConnectedByLast(was: Option<Conn>, id: int, ls: seq<Listed>, i: nat)
    requires IsLastFor(ls, i, id)
    ensures Connected(was, id, ls) == ls[i].connection
    decreases |ls|
  {
    var next := if ls[0].pageId == id then ls[0].connection else was;
    if i == 0 {
      ConnectedByNone(next, id, ls[1..]);
    } else {
      ConnectedByLast(next, id, ls[1..], i - 1);
    }
  }

  lemma {:induction false} ConnectedByNone(was: Option<Conn>, id: int, ls: seq<Listed>)
    requires forall j :: 0 <= j < |ls| ==> ls[j].pageId != id
    ensures Connected(was, id, ls) == was
  {
    if ls != [] {
      ConnectedByNone(was, id, ls[1..]);
    }
  }

  /** Some line of the listing claims the page with this id. */
  predicate AnyClaims(s: State, ls: seq<Listed>, id: int) {
    exists i :: 0 <= i < |ls| && ls[i].pageId == id && Claims(s, ls[i])
  }

  predicate IsLine(l: Listed, n: nat, app: App, page: Page) {
    page == Page(n, app, l.pageId, l.connection, None, None)
  }

  /** All lines together. */
  ghost predicate LinesExact(s: State, s1: State, order: seq<nat>, app: App, ls: seq<Listed>) {
    && (forall n :: n in s.pages ==>
          n in s1.pages
          && s1.pages[n] == (if n in order && s.pages[n].app == app
                             then s.pages[n].(connection := Connected(s.pages[n].connection, s.pages[n].pageId, ls))
                             else s.pages[n]))
    && (forall n :: n in s1.pages && n !in s.pages ==> exists i :: 0 <= i < |ls| && IsLine(ls[i], n, app, s1.pages[n]))
    && (forall c :: c in s.clients ==> c in s1.clients && s1.clients[c] == Listened(s, order, app, ls, c))
  }

  /** What the lines make of a client. */
  function Listened(s: State, order: seq<nat>, app: App, ls: seq<Listed>, c: ClientId): Iws
    requires c in s.clients
  {
    var p := s.clients[c].ipage;
    if p.Some? && p.value in order && p.value in s.pages && s.pages[p.value].app == app
       && AnyClaims(s, ls, s.pages[p.value].pageId)
    then s.clients[c].(ipage := None) else s.clients[c]
  }

  lemma {:induction false} AddAllExact(s: State, order: seq<nat>, app: App, ls: seq<Listed>)
    requires Ready(s, order) && OneEach(s, order) && app in s.apps && s.maxNum + |ls| < ROOM
    ensures LinesExact(s, AddAll(s, order, app, ls), order, app, ls)
    decreases |ls|
  {
    hide Owns, Settled, Numbered, Line, AddOne, OneEach, LineExact, LinesExact;
    if ls == [] {
      NoLineExact(s, order, app);
    } else {
      AddOneKeeps(s, order, app, ls[0]);
      AddOneExact(s, order, app, ls[0]);
      var s1 := AddOne(s, order, app, ls[0]);
      assert app in s1.apps && s1.maxNum <= s.maxNum + 1 by { LineFacts(s, s1, order, app, ls[0]); }
      StillOneEach(s, s1, order, app, ls[0]);
      AddAllExact(s1, order, app, ls[1..]);
      ExactStep(s, s1, AddAll(s1, order, app, ls[1..]), order, app, ls);
    }
  }

  lemma NoLineExact(s: State, order: seq<nat>, app: App)
    ensures LinesExact(s, s, order, app, [])
  {
  }

  lemma StillOneEach(s: State, s1: State, order: seq<nat>, app: App, l: Listed)
    requires OneEach(s, order) && LineExact(s, s1, order, app, l) && forall n :: n in order ==> n in s.pages
    ensures OneEach(s1, order)
  {
  }

  lemma ExactStep(s: State, s1: State, s2: State, order: seq<nat>, app: App, ls: seq<Listed>)
    requires ls != [] && (forall n :: n in order ==> n in s.pages)
    requires LineExact(s, s1, order, app, ls[0]) && LinesExact(s1, s2, order, app, ls[1..])
    ensures LinesExact(s, s2, order, app, ls)
  {
    forall n | n in s2.pages && n !in s.pages ensures exists i :: 0 <= i < |ls| && IsLine(ls[i], n, app, s2.pages[n]) {
      NewStep(s, s1, s2, order, app, ls, n);
    }
    forall c | c in s.clients ensures c in s2.clients && s2.clients[c] == Listened(s, order, app, ls, c) {
      ClientStep(s, s1, order, app, ls, c);
    }
  }

  lemma NewStep(s: State, s1: State, s2: State, order: seq<nat>, app: App, ls: seq<Listed>, n: nat)
    requires ls != [] && (forall n :: n in order ==> n in s.pages) && n in s2.pages && n !in s.pages
    requires LineExact(s, s1, order, app, ls[0]) && LinesExact(s1, s2, order, app, ls[1..])
    ensures exists i :: 0 <= i < |ls| && IsLine(ls[i], n, app, s2.pages[n])
  {
    if n in s1.pages {
      assert IsLine(ls[0], n, app, s2.pages[n]);
    } else {
      var i :| 0 <= i < |ls[1..]| && IsLine(ls[1..][i], n, app, s2.pages[n]);
      assert IsLine(ls[i + 1], n, app, s2.pages[n]);
    }
  }

  lemma ClientStep(s: State, s1: State, order: seq<nat>, app: App, ls: seq<Listed>, c: ClientId)
    requires ls != [] && (forall n :: n in order ==> n in s.pages) && c in s.clients
    requires LineExact(s, s1, order, app, ls[0])
    ensures c in s1.clients && Listened(s1, order, app, ls[1..], c) == Listened(s, order, app, ls, c)
  {
    var p := s.clients[c].ipage;
    if p.Some? && p.value in order && s.pages[p.value].app == app {
      ClaimsStep(s, s1, ls, s.pages[p.value].pageId);
    }
  }

  lemma ClaimsStep(s: State, s1: State, ls: seq<Listed>, id: int)
    requires ls != [] && s1.connection == s.connection
    ensures AnyClaims(s, ls, id) <==> (ls[0].pageId == id && Claims(s, ls[0])) || AnyClaims(s1, ls[1..], id)
  {
    if i :| 0 <= i < |ls[1..]| && ls[1..][i].pageId == id && Claims(s1, ls[1..][i]) {
      assert ls[i + 1].pageId == id && Claims(s, ls[i + 1]);
    }
    if i :| 0 <= i < |ls| && ls[i].pageId == id && Claims(s, ls[i]) {
      if i > 0 {
        assert ls[1..][i - 1].pageId == id && Claims(s1, ls[1..][i - 1]);
      }
    }
  }

  /** Dropping stale pages takes them from their clients and touches no other client. */
  lemma {:induction false} DropOldClients(s: State, order: seq<nat>, app: App, ls: seq<Listed>)
    requires Ready(s, order) && NoRepeats(order)
    ensures forall c :: c in s.clients ==>
              var p := s.clients[c].ipage;
              c in DropOld(s, order, app, ls).clients && DropOld(s, order, app, ls).clients[c] ==
              if p.Some? && Stale(s, order, app, ls, p.value) then Iws(0, None) else s.clients[c]
    decreases |order|
  {
    hide Owns, Settled, Numbered, IsListed, Dropped;
    if order != [] {
      var n := order[0];
      DropKeeps(s, n);
      DropExact(s, n);
      DropClient(s, n);
      var s1 := if s.pages[n].app == app && !IsListed(ls, s.pages[n].pageId) then Dropped(s, n) else s;
      assert forall m :: m in order[1..] ==> m in s1.pages;
      DropOldClients(s1, order[1..], app, ls);
    }
  }

  lemma DropClient(s: State, n: nat)
    requires Allocated(s) && Owns(s) && Settled(s) && n in s.pages
    ensures forall c :: c in s.clients ==>
              c in Dropped(s, n).clients &&
              Dropped(s, n).clients[c] == if s.clients[c].ipage == Some(n) then Iws(0, None) else s.clients[c]
  {
  }

  /**
   * A listing to the last detail. A page that stays has the connection of the last line for it and
   * is otherwise as it was; a new page is what its line says. A client whose page went has none and
   * number 0; one whose page was claimed has none but keeps its number; any other is as it was.
   */
  lemma ListingExactly(s: State, order: seq<nat>, app: App, ls: seq<Listed>)
    requires Invariant(s) && Lists(s, order) && s.maxNum + |ls| < ROOM && app in s.apps
    ensures var s1 := Listing(s, order, app, ls);
            && (forall n: nat, i: nat ::
                  n in s.pages && n in s1.pages && s.pages[n].app == app && IsLastFor(ls, i, s.pages[n].pageId) ==>
                  s1.pages[n] == s.pages[n].(connection := ls[i].connection))
            && (forall n :: n in s1.pages && n !in s.pages ==> exists i :: 0 <= i < |ls| && IsLine(ls[i], n, app, s1.pages[n]))
            && (forall c :: c in s.clients ==>
                  var p := s.clients[c].ipage;
                  c in s1.clients && s1.clients[c] ==
                  (if p.None? || s.pages[p.value].app != app then s.clients[c]
                   else if !IsListed(ls, s.pages[p.value].pageId) then Iws(0, None)
                   else if exists i :: 0 <= i < |ls| && ls[i].pageId == s.pages[p.value].pageId
                                       && ls[i].connection.Some? && ls[i].connection.value != s.connection
                   then s.clients[c].(ipage := None)
                   else s.clients[c]))
  {
    hide Numbered, Settled, Owns, AddAll, DropOld, LinesExact, Lines, OneEach, Unique;
    ListsReady(s, order);
    AddAllKeeps(s, order, app, ls);
    UniqueOneEach(s, order);
    AddAllExact(s, order, app, ls);
    var s1 := AddAll(s, order, app, ls);
    DropOldKeeps(s1, order, app, ls);
    DropOldClients(s1, order, app, ls);
    ExactPages(s, s1, DropOld(s1, order, app, ls), order, app, ls);
    ExactClients(s, s1, DropOld(s1, order, app, ls), order, app, ls);
  }

  /** When no id is listed twice every page of the app has the connection of its line. */
  lemma ListingConnections(s: State, order: seq<nat>, app: App, ls: seq<Listed>, n: nat, i: nat)
    requires Invariant(s) && Lists(s, order) && s.maxNum + |ls| < ROOM && app in s.apps
    requires forall i, j :: 0 <= i < j < |ls| ==> ls[i].pageId != ls[j].pageId
    requires var s1 := Listing(s, order, app, ls);
             n in s1.pages && s1.pages[n].app == app && i < |ls| && ls[i].pageId == s1.pages[n].pageId
    ensures Listing(s, order, app, ls).pages[n].connection == ls[i].connection
  {
    hide Invariant, Lists, Listing, IsListed;
    ListingExactly(s, order, app, ls);
    ListingReconciles(s, order, app, ls);
    var s1 := Listing(s, order, app, ls);
    if n in s.pages {
      assert IsLastFor(ls, i, s.pages[n].pageId);
    } else {
      var j :| 0 <= j < |ls| && IsLine(ls[j], n, app, s1.pages[n]);
      assert j == i;
    }
  }

  lemma UniqueOneEach(s: State, order: seq<nat>)
    requires Unique(s)
    ensures OneEach(s, order)
  {
  }

  lemma ExactPages(s: State, s1: State, s2: State, order: seq<nat>, app: App, ls: seq<Listed>)
    requires Lists(s, order) && LinesExact(s, s1, order, app, ls) && OnlyStaleGone(s1, s2, order, app, ls)
    ensures forall n: nat, i: nat :: n in s.pages && n in s2.pages && s.pages[n].app == app && IsLastFor(ls, i, s.pages[n].pageId) ==>
              s2.pages[n] == s.pages[n].(connection := ls[i].connection)
    ensures forall n :: n in s2.pages && n !in s.pages ==> exists i :: 0 <= i < |ls| && IsLine(ls[i], n, app, s2.pages[n])
  {
    hide IsListed, Connected;
    forall n: nat, i: nat | n in s.pages && n in s2.pages && s.pages[n].app == app && IsLastFor(ls, i, s.pages[n].pageId)
      ensures s2.pages[n] == s.pages[n].(connection := ls[i].connection)
    {
      ConnectedByLast(s.pages[n].connection, s.pages[n].pageId, ls, i);
    }
  }

  lemma ExactClients(s: State, s1: State, s2: State, order: seq<nat>, app: App, ls: seq<Listed>)
    requires Allocated(s) && Lists(s, order) && LinesExact(s, s1, order, app, ls)
    requires forall c :: c in s1.clients ==>
               var p := s1.clients[c].ipage;
               c in s2.clients && s2.clients[c] ==
               if p.Some? && Stale(s1, order, app, ls, p.value) then Iws(0, None) else s1.clients[c]
    ensures forall c :: c in s.clients ==>
              var p := s.clients[c].ipage;
              c in s2.clients && s2.clients[c] ==
              (if p.None? || s.pages[p.value].app != app then s.clients[c]
               else if !IsListed(ls, s.pages[p.value].pageId) then Iws(0, None)
               else if AnyClaims(s, ls, s.pages[p.value].pageId) then s.clients[c].(ipage := None)
               else s.clients[c])
  {
    hide Connected;
    forall c | c in s.clients && s.clients[c].ipage.Some? && AnyClaims(s, ls, s.pages[s.clients[c].ipage.value].pageId)
      ensures IsListed(ls, s.pages[s.clients[c].ipage.value].pageId)
    {
    }
  }

  // ----- claims from afar -----

  /** A line claims a page that a client has. */
  predicate TakesAway(s: State, order: seq<nat>, app: App, l: Listed)
    requires forall n :: n in order ==> n in s.pages
  {
    var r := Find(s, order, app, l.pageId);
    r.Some? && s.pages[r.value].iws.Some? && Claims(s, l)
  }

  /** A page names a client that has no page. */
  predicate Bereft(s: State, n: nat) {
    n in s.pages && s.pages[n].iws.Some? && s.pages[n].iws.value in s.clients
    && s.clients[s.pages[n].iws.value].ipage.None?
  }

  lemma BereftNotTwoWay(s: State, n: nat)
    requires Bereft(s, n)
    ensures !TwoWay(s)
  {
  }

  lemma OneLineTwoWay(s: State, order: seq<nat>, app: App, l: Listed)
    requires Ready(s, order) && app in s.apps && s.maxNum + 1 < ROOM
    ensures Allocated(s)
    ensures var s1 := AddOne(s, order, app, l);
            && (TwoWay(s) && !TakesAway(s, order, app, l) ==> TwoWay(s1))
            && (TakesAway(s, order, app, l) ==>
                  Bereft(s1, Find(s, order, app, l.pageId).value) && s1.pages[Find(s, order, app, l.pageId).value].app == app)
            && (forall n :: Bereft(s, n) ==> Bereft(s1, n))
            && (forall n :: n in s.pages ==> n in s1.pages && s1.pages[n].iws == s.pages[n].iws)
  {
    hide Owns, Settled, Numbered, TwoWay;
    InvariantAllocated(s);
    match Find(s, order, app, l.pageId)
    case Some(n) => SeenKeeps(s, n, l);
    case None => NewKeeps(s, app, l);
  }

  lemma {:induction false} SameFind(s: State, s1: State, order: seq<nat>, app: App, id: int)
    requires forall n :: n in order ==> n in s.pages && n in s1.pages && SamePage(s1.pages[n], s.pages[n].app, s.pages[n].pageId)
    ensures Find(s, order, app, id) == Find(s1, order, app, id)
  {
    if order != [] {
      SameFind(s, s1, order[1..], app, id);
    }
  }

  lemma SameTakesAway(s: State, order: seq<nat>, app: App, l: Listed, l': Listed)
    requires Ready(s, order) && app in s.apps && s.maxNum + 1 < ROOM
    ensures Allocated(s)
    ensures var s1 := AddOne(s, order, app, l);
            Ready(s1, order) && (TakesAway(s1, order, app, l') <==> TakesAway(s, order, app, l'))
  {
    hide Owns, Settled, Numbered, Line, AddOne;
    InvariantAllocated(s);
    AddOneKeeps(s, order, app, l);
    OneLineTwoWay(s, order, app, l);
    var s1 := AddOne(s, order, app, l);
    LineSame(s, s1, order, app, l);
    SameFind(s, s1, order, app, l'.pageId);
  }

  lemma LineSame(s: State, s1: State, order: seq<nat>, app: App, l: Listed)
    requires forall n :: n in order ==> n in s.pages
    requires Line(s, s1, order, app, l)
    ensures s1.connection == s.connection
    ensures forall n :: n in s.pages ==> n in s1.pages && SamePage(s1.pages[n], s.pages[n].app, s.pages[n].pageId)
  {
  }

  /** Some line of the listing claims a page that a client has. */
  ghost predicate AnyTakesAway(s: State, order: seq<nat>, app: App, ls: seq<Listed>)
    requires forall n :: n in order ==> n in s.pages
  {
    exists i :: 0 <= i < |ls| && TakesAway(s, order, app, ls[i])
  }

  lemma {:induction false} AddAllBereft(s: State, order: seq<nat>, app: App, ls: seq<Listed>, n: nat)
    requires Ready(s, order) && app in s.apps && s.maxNum + |ls| < ROOM && Bereft(s, n)
    ensures Bereft(AddAll(s, order, app, ls), n)
    decreases |ls|
  {
    hide Owns, Settled, Numbered, Line, AddOne, Bereft;
    if ls != [] {
      AddOneKeeps(s, order, app, ls[0]);
      var s1 := AddOne(s, order, app, ls[0]);
      LineFacts(s, s1, order, app, ls[0]);
      OneLineTwoWay(s, order, app, ls[0]);
      AddAllBereft(s1, order, app, ls[1..], n);
    }
  }

  lemma {:induction false} AddAllTwoWay(s: State, order: seq<nat>, app: App, ls: seq<Listed>)
    requires Ready(s, order) && app in s.apps && s.maxNum + |ls| < ROOM && TwoWay(s)
    ensures !AnyTakesAway(s, order, app, ls) ==> TwoWay(AddAll(s, order, app, ls))
    ensures AnyTakesAway(s, order, app, ls) ==>
              exists n :: Bereft(AddAll(s, order, app, ls), n) && n in order && n in s.pages && s.pages[n].app == app
                          && IsListed(ls, s.pages[n].pageId)
    decreases |ls|
  {
    hide Owns, Settled, Numbered, Line, AddOne, Bereft, TwoWay, Find, TakesAway, IsListed;
    if ls != [] {
      AddOneKeeps(s, order, app, ls[0]);
      var s1 := AddOne(s, order, app, ls[0]);
      LineFacts(s, s1, order, app, ls[0]);
      LineSame(s, s1, order, app, ls[0]);
      OneLineTwoWay(s, order, app, ls[0]);
      MoreListed(ls);
      if TakesAway(s, order, app, ls[0]) {
        var n := Found(s, order, app, ls[0]);
        AddAllBereft(s1, order, app, ls[1..], n);
        assert IsListed(ls, s.pages[n].pageId);
      } else {
        AddAllTwoWay(s1, order, app, ls[1..]);
        LaterTakesAway(s, order, app, ls);
      }
    }
  }

  lemma MoreListed(ls: seq<Listed>)
    requires ls != []
    ensures IsListed(ls, ls[0].pageId) && forall id :: IsListed(ls[1..], id) ==> IsListed(ls, id)
  {
  }

  lemma Found(s: State, order: seq<nat>, app: App, l: Listed) returns (n: nat)
    requires (forall n :: n in order ==> n in s.pages) && TakesAway(s, order, app, l)
    ensures n in order && n in s.pages && SamePage(s.pages[n], app, l.pageId)
    ensures Find(s, order, app, l.pageId) == Some(n)
  {
    n := Find(s, order, app, l.pageId).value;
  }

  lemma LaterTakesAway(s: State, order: seq<nat>, app: App, ls: seq<Listed>)
    requires Ready(s, order) && app in s.apps && ls != [] && s.maxNum + |ls| < ROOM
    requires !TakesAway(s, order, app, ls[0])
    ensures Allocated(s) && Ready(AddOne(s, order, app, ls[0]), order)
    ensures AnyTakesAway(s, order, app, ls) <==> AnyTakesAway(AddOne(s, order, app, ls[0]), order, app, ls[1..])
  {
    hide Owns, Settled, Numbered, AddOne, Find, TakesAway;
    InvariantAllocated(s);
    AddOneKeeps(s, order, app, ls[0]);
    var s1 := AddOne(s, order, app, ls[0]);
    forall i | 1 <= i < |ls| ensures TakesAway(s1, order, app, ls[i]) <==> TakesAway(s, order, app, ls[i]) {
      SameTakesAway(s, order, app, ls[0], ls[i]);
    }
    if AnyTakesAway(s, order, app, ls) {
      var i :| 0 <= i < |ls| && TakesAway(s, order, app, ls[i]);
      assert TakesAway(s1, order, app, ls[1..][i - 1]);
    }
    if AnyTakesAway(s1, order, app, ls[1..]) {
      var i :| 0 <= i < |ls[1..]| && TakesAway(s1, order, app, ls[1..][i]);
      assert TakesAway(s, order, app, ls[i + 1]);
    }
  }

  lemma DroppedBereft(s: State, m: nat, n: nat)
    requires Allocated(s) && m in s.pages && Bereft(s, n) && m != n
    ensures Bereft(Dropped(s, m), n)
  {
  }

  lemma {:induction false} DropOldBereft(s: State, order: seq<nat>, app: App, ls: seq<Listed>, n: nat)
    requires Ready(s, order) && NoRepeats(order) && Bereft(s, n) && IsListed(ls, s.pages[n].pageId)
    ensures Bereft(DropOld(s, order, app, ls), n)
    decreases |order|
  {
    hide Owns, Settled, Numbered, Dropped, Bereft, IsListed;
    assert n in s.pages by { BereftPage(s, n); }
    if order != [] {
      var m := order[0];
      DropKeeps(s, m);
      DropExact(s, m);
      var s1 := if s.pages[m].app == app && !IsListed(ls, s.pages[m].pageId) then Dropped(s, m) else s;
      assert forall k :: k in order[1..] ==> k in s1.pages;
      if s1 != s {
        DroppedBereft(s, m, n);
      }
      DropOldBereft(s1, order[1..], app, ls, n);
    }
  }

  lemma BereftPage(s: State, n: nat)
    requires Bereft(s, n)
    ensures n in s.pages
  {
  }

  /**
   * Ownership stays mutual over a listing exactly when no line names another inspector for a page
   * that a client has.
   */
  lemma ListingTwoWay(s: State, order: seq<nat>, app: App, ls: seq<Listed>)
    requires Invariant(s) && TwoWay(s) && Lists(s, order) && s.maxNum + |ls| < ROOM && app in s.apps
    ensures TwoWay(Listing(s, order, app, ls)) <==> !AnyTakesAway(s, order, app, ls)
  {
    hide Owns, Settled, Numbered, Unique, AddAll, DropOld, TwoWay, Bereft, TakesAway, Lines, IsListed;
    ListsReady(s, order);
    AddAllKeeps(s, order, app, ls);
    AddAllTwoWay(s, order, app, ls);
    var s1 := AddAll(s, order, app, ls);
    DropOldKeeps(s1, order, app, ls);
    if AnyTakesAway(s, order, app, ls) {
      var n :| Bereft(s1, n) && n in order && n in s.pages && s.pages[n].app == app && IsListed(ls, s.pages[n].pageId);
      LinesPage(s, s1, app, ls, n);
      DropOldBereft(s1, order, app, ls, n);
      BereftNotTwoWay(DropOld(s1, order, app, ls), n);
    }
  }

  lemma LinesPage(s: State, s1: State, app: App, ls: seq<Listed>, n: nat)
    requires Lines(s, s1, app, ls) && n in s.pages
    ensures n in s1.pages && s1.pages[n].pageId == s.pages[n].pageId
  {
  }

  // ----- apps -----

  function AddApp(s: State, app: App): State {
    s.(apps := s.apps + {app})
  }

  /** An app is gone with all its pages. */
  function RemoveApp(s: State, order: seq<nat>, app: App): State
    requires Invariant(s) && Lists(s, order)
  {
    if app !in s.apps then s
    else
      ListsReady(s, order);
      var s1 := DropOld(s, order, app, []);
      s1.(apps := s1.apps - {app})
  }

  lemma AddAppKeeps(s: State, app: App)
    requires Invariant(s)
    ensures Invariant(AddApp(s, app)) && (TwoWay(s) ==> TwoWay(AddApp(s, app)))
  {
  }

  lemma RemoveAppKeeps(s: State, order: seq<nat>, app: App)
    requires Invariant(s) && Lists(s, order)
    ensures var s1 := RemoveApp(s, order, app);
            && Invariant(s1) && (TwoWay(s) ==> TwoWay(s1))
            && s1.apps == s.apps - {app} && s1.open == s.open && s1.maxNum == s.maxNum
            && s1.connection == s.connection
            && (forall n :: n in s1.pages <==> n in s.pages && (app in s.apps ==> s.pages[n].app != app))
            && (forall n :: n in s1.pages ==> s1.pages[n] == s.pages[n])
  {
    hide Owns, Settled, Unique, TwoWay, DropOld;
    if app in s.apps {
      ListsReady(s, order);
      DropOldKeeps(s, order, app, []);
      var s1 := DropOld(s, order, app, []);
      FewerUnique(s, s1);
      WithoutApp(s1, app);
    }
  }

  /** A client of a page that goes with its app has none and number 0; any other client is as it was. */
  lemma RemoveAppClients(s: State, order: seq<nat>, app: App)
    requires Invariant(s) && Lists(s, order) && app in s.apps
    ensures forall c :: c in s.clients ==>
              var p, s1 := s.clients[c].ipage, RemoveApp(s, order, app);
              && (p.Some? ==> p.value in s.pages) && c in s1.clients
              && s1.clients[c] == if p.Some? && s.pages[p.value].app == app then Iws(0, None) else s.clients[c]
  {
    hide Settled, Numbered, Unique, DropOld;
    ListsReady(s, order);
    DropOldClients(s, order, app, []);
  }

  lemma WithoutApp(s: State, app: App)
    requires Owns(s) && Settled(s) && Numbered(s) && Unique(s)
    requires forall n :: n in s.pages ==> s.pages[n].app != app
    ensures var s1 := s.(apps := s.apps - {app}); Invariant(s1) && (TwoWay(s) ==> TwoWay(s1))
  {
  }

  // ----- pages that name a closed client -----

  /** Only some clients are named by pages. */
  ghost predicate Within(s: State, some: set<ClientId>) {
    forall n :: n in s.pages && s.pages[n].iws.Some? ==> s.pages[n].iws.value in some
  }

  lemma AddOneWithin(s: State, order: seq<nat>, app: App, l: Listed, some: set<ClientId>)
    requires Allocated(s) && (forall n :: n in order ==> n in s.pages) && Within(s, some)
    ensures Within(AddOne(s, order, app, l), some)
  {
  }


  /**
   * No page points at a client that was freed. Only in such states do the handlers stay inside
   * their memory: in the others the model goes on with a zeroed record, the source does not.
   */
  ghost predicate NoDangling(s: State) {
    Within(s, s.open)
  }

  /** A page names the client, and the client has lost it to a claim. */
  predicate Claimed(s: State, c: ClientId) {
    !Unattached(s, c) && c in s.clients && s.clients[c].ipage.None?
  }

  /** A client that is closed is still named by a page if and only if one was claimed from it. */
  lemma ClosedIsNamed(s: State, c: ClientId)
    requires Invariant(s) && c in s.open
    ensures Allocated(s) && c in s.clients
    ensures Unattached(Closed(s, c), c) <==> !Claimed(s, c)
  {
    hide Unique;
    InvariantAllocated(s);
    var s1 := Closed(s, c);
    if Claimed(s, c) {
      var n :| n in s.pages && s.pages[n].iws == Some(c);
      assert n in s1.pages && s1.pages[n].iws == Some(c);
    }
  }

  /** Closing a client leaves no dangling page if and only if none was claimed from it. */
  lemma CloseDangles(s: State, c: ClientId)
    requires Invariant(s) && c in s.open && NoDangling(s)
    ensures Allocated(s) && c in s.clients
    ensures NoDangling(Closed(s, c)) <==> !Claimed(s, c)
  {
    hide Unique, Owns, Settled;
    ClosedIsNamed(s, c);
    ClosedElsewhere(s, c);
    var s1 := Closed(s, c);
    if !Unattached(s1, c) {
      var n :| n in s1.pages && s1.pages[n].iws == Some(c);
      assert c !in s1.open;
    }
  }

  lemma ClosedElsewhere(s: State, c: ClientId)
    requires Allocated(s) && c in s.clients
    ensures var s1 := Closed(s, c);
            && s1.open == s.open - {c}
            && (forall n :: n in s1.pages && s1.pages[n].iws.Some? ==> n in s.pages && s1.pages[n].iws == s.pages[n].iws)
  {
  }

  /** While ownership is mutual no page names a closed client. */
  lemma MutualNeverDangles(s: State)
    requires Invariant(s) && TwoWay(s)
    ensures NoDangling(s)
  {
    hide Unique, Settled, Numbered;
  }

  lemma OpenDangles(s: State, c: ClientId)
    requires NoDangling(s)
    ensures NoDangling(Opened(s, c))
  {
  }

  lemma TakeDangles(s: State, n: nat, c: ClientId)
    requires Allocated(s) && n in s.pages && c in s.open && NoDangling(s)
    ensures c in s.clients && NoDangling(Take(s, n, c))
  {
  }

  lemma SeenWithin(s: State, s1: State, some: set<ClientId>)
    requires Within(s, some) && forall n :: n in s1.pages ==> n in s.pages && s1.pages[n] == s.pages[n]
    ensures Within(s1, some)
  {
  }

  lemma {:induction false} AddAllWithin(s: State, order: seq<nat>, app: App, ls: seq<Listed>, some: set<ClientId>)
    requires Ready(s, order) && app in s.apps && s.maxNum + |ls| < ROOM && Within(s, some)
    ensures Within(AddAll(s, order, app, ls), some)
    decreases |ls|
  {
    hide Owns, Settled, Numbered, Line, AddOne, Within;
    if ls != [] {
      AddOneKeeps(s, order, app, ls[0]);
      var s1 := AddOne(s, order, app, ls[0]);
      LineFacts(s, s1, order, app, ls[0]);
      AddOneWithin(s, order, app, ls[0], some);
      AddAllWithin(s1, order, app, ls[1..], some);
    }
  }

  /** A listing leaves no page dangling, whatever it claims. */
  lemma ListingDangles(s: State, order: seq<nat>, app: App, ls: seq<Listed>)
    requires Invariant(s) && Lists(s, order) && s.maxNum + |ls| < ROOM && NoDangling(s)
    ensures NoDangling(Listing(s, order, app, ls))
  {
    hide Owns, Settled, Numbered, Unique, AddAll, DropOld, IsListed, Within, Lines;
    if app in s.apps {
      ListsReady(s, order);
      AddAllKeeps(s, order, app, ls);
      AddAllWithin(s, order, app, ls, s.open);
      var s1 := AddAll(s, order, app, ls);
      SameOpen(s, s1, app, ls);
      DropOldKeeps(s1, order, app, ls);
      SeenWithin(s1, DropOld(s1, order, app, ls), s.open);
    }
  }

  lemma SameOpen(s: State, s1: State, app: App, ls: seq<Listed>)
    requires Lines(s, s1, app, ls)
    ensures s1.open == s.open
  {
  }

  /** Another inspector claims a client's page, then the client closes: the page points nowhere. */
  lemma ClaimThenCloseDangles(s: State, order: seq<nat>, app: App, n: nat, l: Listed, c: ClientId)
    requires Invariant(s) && TwoWay(s) && Lists(s, order) && s.maxNum + 1 < ROOM && app in s.apps
    requires n in s.pages && SamePage(s.pages[n], app, l.pageId) && s.pages[n].iws == Some(c) && Claims(s, l)
    ensures var s1 := Listing(s, order, app, [l]);
            Invariant(s1) && c in s1.open && Allocated(s1) && c in s1.clients && !NoDangling(Closed(s1, c))
  {
    hide Owns, Settled, Numbered, Unique, AddOne, DropOld, Line, Lines;
    var ls := [l];
    ListsReady(s, order);
    ListingKeeps(s, order, app, ls);
    OneLineClaims(s, order, app, n, l, c);
    AddOneKeeps(s, order, app, l);
    var s1 := AddOne(s, order, app, l);
    assert ls[1..] == [] && AddAll(s, order, app, ls) == s1;
    DropOldKeeps(s1, order, app, ls);
    assert IsListed(ls, l.pageId) by { assert ls[0].pageId == l.pageId; }
    DropOldBereft(s1, order, app, ls, n);
    var s2 := Listing(s, order, app, ls);
    assert n in s2.pages && s2.pages[n].iws == Some(c);
    ClaimedInOpen(s, s2, n, c);
    ClosedIsNamed(s2, c);
    ClosedElsewhere(s2, c);
  }

  lemma ClaimedInOpen(s: State, s2: State, n: nat, c: ClientId)
    requires Invariant(s) && TwoWay(s) && n in s.pages && s.pages[n].iws == Some(c) && s2.open == s.open
    ensures c in s2.open
  {
    hide Settled, Numbered, Unique;
  }

  lemma OneLineClaims(s: State, order: seq<nat>, app: App, n: nat, l: Listed, c: ClientId)
    requires Invariant(s) && Lists(s, order) && s.maxNum + 1 < ROOM && app in s.apps
    requires n in s.pages && SamePage(s.pages[n], app, l.pageId) && s.pages[n].iws == Some(c) && Claims(s, l)
    ensures Allocated(s)
    ensures var s1 := AddOne(s, order, app, l);
            Bereft(s1, n) && s1.pages[n].iws == Some(c) && s1.pages[n].pageId == l.pageId && s1.open == s.open
  {
    hide Owns, Settled, Numbered, AddOne;
    ListsReady(s, order);
    OneLineTwoWay(s, order, app, l);
    AddOneKeeps(s, order, app, l);
    assert Find(s, order, app, l.pageId) == Some(n) by { hide Line; }
  }
}
