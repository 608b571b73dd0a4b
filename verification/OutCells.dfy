/** cdogEar.c: the pool of outgoing cells. Any number of producers take cells from the free ring and
    post them to the ready ring; the sending thread routes them to the clients' lists, sends them and
    gives them back, while clients close and connect again. A pop or a push is one step. */
module OutCells {

  const NONE := -1

  /** What a producer writes into a cell: whom it is for, and that client's session number then.
      `at` is bookkeeping: how many connections had been accepted at that time. */
  datatype Cell = Cell(client: int, session: nat, at: nat)

  datatype Client = Client(
    working: bool,        // in WorkClientList, not in FreeClientList
    connected: bool,      // lSocketStatus is STATUS_SOCKET_CONNECT
    closed: bool,         // lStatus is STATUS_IOCLOSEED
    session: nat,
    waiting: seq<int>,    // ListSendMsg
    current: int,         // pCurSendMsg
    sendLen: nat)         // iCurSendLen

  datatype SenderPc =
    | Main
    | Routing(cell: int)  // a cell popped from the ready ring
    | Closing(i: nat)     // giving back what client i still has

  datatype State = State(
    cells: seq<Cell>, free: seq<int>, ready: seq<int>, taken: multiset<int>,
    clients: seq<Client>, sender: SenderPc, accepted: nat)

  /** FifoPush on a ring of m + 1 slots: refused when m cells wait, and no caller looks. */
  function Pushed(ring: seq<int>, cell: int, m: nat): seq<int> {
    if |ring| < m then ring + [cell] else ring
  }

  /** InitServer: all cells are in the free ring. */
  function Init(m: nat, clients: nat): State {
    State(seq(m, i => Cell(NONE, 0, 0)), seq(m, i => i), [], multiset{},
          seq(clients, i => Client(false, false, false, 0, [], NONE, 0)), Main, 0)
  }

  datatype Step =
    | Get                          // IoGetSendMsgCell: pop
    | Stamp(cell: int, i: nat)     // IoGetSendMsgCell: client and session number
    | Post(cell: int)              // IoPutSendMsgCell
    | PopReady | Route             // POP_DOGMSG_2LISTTAIL
    | MarkClosed(i: nat)           // processIOThread: STATUS_IOCLOSEED
    | BeginClose(i: nat) | GiveBack | EndClose
    | Load(i: nat, len: nat)       // the next message of the client becomes the current one
    | Send(i: nat, sent: nat, len: nat)
    | Accept(i: nat)

  predicate Enabled(s: State, step: Step) {
    match step
    case Get => s.free != []
    case Stamp(cell, i) => cell in s.taken && 0 <= cell < |s.cells| && i < |s.clients|
    case Post(cell) => cell in s.taken && 0 <= cell < |s.cells| && 0 <= s.cells[cell].client < |s.clients|
    case PopReady => s.sender == Main && s.ready != []
    case Route => s.sender.Routing? && 0 <= s.sender.cell < |s.cells| && 0 <= s.cells[s.sender.cell].client < |s.clients|
    case MarkClosed(i) => i < |s.clients|
    case BeginClose(i) => s.sender == Main && i < |s.clients| && s.clients[i].working && s.clients[i].closed
    case GiveBack => s.sender.Closing? && s.sender.i < |s.clients|
      && (s.clients[s.sender.i].waiting != [] || s.clients[s.sender.i].current != NONE)
    case EndClose => s.sender.Closing? && s.sender.i < |s.clients|
      && s.clients[s.sender.i].waiting == [] && s.clients[s.sender.i].current == NONE
    case Load(i, len) => s.sender == Main && len > 0 && i < |s.clients|
      && var c := s.clients[i]; c.working && c.connected && c.sendLen == 0 && c.waiting != []
    case Send(i, sent, len) => s.sender == Main && len > 0 && i < |s.clients|
      && s.clients[i].working && 0 < sent <= s.clients[i].sendLen
    case Accept(i) => s.sender == Main && i < |s.clients| && !s.clients[i].working
  }

  function WithClient(s: State, i: nat, c: Client): State
    requires i < |s.clients|
  {
    s.(clients := s.clients[i := c])
  }

  /** The first waiting message becomes the current one; its text has len bytes. */
  function Loaded(c: Client, len: nat): Client
    requires c.waiting != []
  {
    c.(waiting := c.waiting[1..], current := c.waiting[0], sendLen := len)
  }

  function Apply(s: State, step: Step): State
    requires Enabled(s, step)
  {
    var m := |s.cells|;
    match step
    case Get => s.(free := s.free[1..], taken := s.taken + multiset{s.free[0]})
    case Stamp(cell, i) => s.(cells := s.cells[cell := Cell(i, s.clients[i].session, s.accepted)])
    case Post(cell) => s.(taken := s.taken - multiset{cell}, ready := Pushed(s.ready, cell, m))
    case PopReady => s.(ready := s.ready[1..], sender := Routing(s.ready[0]))
    case Route =>
      var cell := s.sender.cell;
      var i := s.cells[cell].client;
      var c := s.clients[i];
      if s.cells[cell].session != c.session || !c.connected then
        s.(free := Pushed(s.free, cell, m), sender := Main)
      else
        WithClient(s, i, c.(waiting := c.waiting + [cell])).(sender := Main)
    case MarkClosed(i) => WithClient(s, i, s.clients[i].(closed := true))
    case BeginClose(i) => s.(sender := Closing(i))
    case GiveBack =>
      var i, c := s.sender.i, s.clients[s.sender.i];
      if c.waiting != [] then
        WithClient(s, i, c.(waiting := c.waiting[1..])).(free := Pushed(s.free, c.waiting[0], m))
      else
        WithClient(s, i, c.(current := NONE)).(free := Pushed(s.free, c.current, m))
    case EndClose =>
      WithClient(s, s.sender.i, s.clients[s.sender.i].(working := false, connected := false, closed := false, session := 0))
        .(sender := Main)
    case Load(i, len) => WithClient(s, i, Loaded(s.clients[i], len))
    case Send(i, sent, len) =>
      var c := s.clients[i].(sendLen := s.clients[i].sendLen - sent);
      if c.sendLen > 0 then WithClient(s, i, c)
      else
        var free := if c.current == NONE then s.free else Pushed(s.free, c.current, m);
        var d := c.(current := NONE);
        WithClient(s, i, if d.waiting != [] then Loaded(d, len) else d).(free := free)
    case Accept(i) =>
      var accepted := s.accepted + 1;
      WithClient(s, i, s.clients[i].(working := true, connected := true, closed := false, session := accepted % 0x1_0000_0000))
        .(accepted := accepted)
  }

  // ----- conservation

  function Owned(c: Client): multiset<int> {
    multiset(c.waiting) + if c.current == NONE then multiset{} else multiset{c.current}
  }

  function ClientCells(clients: seq<Client>): multiset<int> {
    if clients == [] then multiset{} else Owned(clients[0]) + ClientCells(clients[1..])
  }

  function Hand(pc: SenderPc): multiset<int> {
    if pc.Routing? then multiset{pc.cell} else multiset{}
  }

  /** All cells, place by place. */
  function Total(s: State): multiset<int> {
    multiset(s.free) + multiset(s.ready) + s.taken + Hand(s.sender) + ClientCells(s.clients)
  }

  function All(m: nat): multiset<int> {
    if m == 0 then multiset{} else All(m - 1) + multiset{m - 1}
  }

  lemma {:induction false} ClientCellsUpdate(clients: seq<Client>, i: nat, c: Client)
    requires i < |clients|
    ensures ClientCells(clients[i := c]) + Owned(clients[i]) == ClientCells(clients) + Owned(c)
  {
    hide Owned;
    if i == 0 {
      assert clients[i := c][1..] == clients[1..];
    } else {
      assert clients[i := c][1..] == clients[1..][i - 1 := c];
      ClientCellsUpdate(clients[1..], i - 1, c);
      var first, rest, rest' := Owned(clients[0]), ClientCells(clients[1..]), ClientCells(clients[1..][i - 1 := c]);
      assert (first + rest') + Owned(clients[i]) == first + (rest' + Owned(clients[i]));
      assert (first + rest) + Owned(c) == first + (rest + Owned(c));
    }
  }

  lemma {:induction false} OwnedIsCounted(clients: seq<Client>, i: nat, cell: int)
    requires i < |clients|
    ensures Owned(clients[i])[cell] <= ClientCells(clients)[cell]
  {
    hide Owned;
    if i > 0 {
      OwnedIsCounted(clients[1..], i - 1, cell);
    }
  }

  lemma {:induction false} AllOnce(m: nat, cell: int)
    ensures All(m)[cell] == if 0 <= cell < m then 1 else 0
  {
    if m > 0 {
      AllOnce(m - 1, cell);
    }
  }

  lemma {:induction false} AllSize(m: nat)
    ensures |All(m)| == m
  {
    if m > 0 {
      AllSize(m - 1);
    }
  }

  // ----- the invariant

  predicate Conserved(s: State) {
    Total(s) == All(|s.cells|)
  }

  /** A client not at work has nothing, and a current message is one that is being sent. */
  predicate Quiet(c: Client) {
    && (!c.working ==> c.waiting == [] && c.current == NONE && !c.connected)
    && (c.current != NONE ==> c.sendLen > 0)
  }

  predicate ForSession(cells: seq<Cell>, i: nat, c: Client, cell: int) {
    0 <= cell < |cells| && cells[cell].client == i && cells[cell].session == c.session
  }

  /** What a client has waiting or is being sent is for the session it has now. */
  predicate SessionKept(cells: seq<Cell>, i: nat, c: Client) {
    && (forall k :: 0 <= k < |c.waiting| ==> ForSession(cells, i, c, c.waiting[k]))
    && (c.current != NONE ==> ForSession(cells, i, c, c.current))
  }

  predicate Inv(s: State) {
    && Conserved(s)
    && (forall i :: 0 <= i < |s.clients| ==> Quiet(s.clients[i]) && SessionKept(s.cells, i, s.clients[i]))
    && (s.sender.Closing? ==> s.sender.i < |s.clients| && s.clients[s.sender.i].working)
  }

  lemma {:induction false} InitCells(m: nat)
    ensures multiset(seq(m, i => i)) == All(m)
  {
    if m > 0 {
      InitCells(m - 1);
      assert seq(m, i => i) == seq(m - 1, i => i) + [m - 1];
    }
  }

  lemma {:induction false} NothingOwned(clients: seq<Client>)
    requires forall i :: 0 <= i < |clients| ==> clients[i].waiting == [] && clients[i].current == NONE
    ensures ClientCells(clients) == multiset{}
  {
    if clients != [] {
      NothingOwned(clients[1..]);
    }
  }

  lemma InitInv(m: nat, clients: nat)
    ensures Inv(Init(m, clients))
  {
    InitCells(m);
    NothingOwned(Init(m, clients).clients);
  }

  // ----- no push fails

  /** Any two different places have room for each other's cells: a cell counted elsewhere leaves a place
      in the ring for it. */
  lemma RoomFor(s: State, ring: seq<int>, rest: multiset<int>, cell: int)
    requires Conserved(s) && Total(s) == multiset(ring) + rest && cell in rest
    ensures |ring| < |s.cells| && 0 <= cell < |s.cells|
  {
    hide Total;
    AllSize(|s.cells|);
    AllOnce(|s.cells|, cell);
    assert |multiset(ring) + rest| == |ring| + |rest|;
    assert |rest| >= 1;
  }

  lemma FreeRoom(s: State, cell: int)
    requires Conserved(s) && (cell in Hand(s.sender) || exists i :: 0 <= i < |s.clients| && cell in Owned(s.clients[i]))
    ensures |s.free| < |s.cells| && 0 <= cell < |s.cells|
  {
    var rest := multiset(s.ready) + s.taken + Hand(s.sender) + ClientCells(s.clients);
    if cell !in Hand(s.sender) {
      var i :| 0 <= i < |s.clients| && cell in Owned(s.clients[i]);
      OwnedIsCounted(s.clients, i, cell);
    }
    assert Total(s) == multiset(s.free) + rest;
    RoomFor(s, s.free, rest, cell);
  }

  lemma ReadyRoom(s: State, cell: int)
    requires Conserved(s) && cell in s.taken
    ensures |s.ready| < |s.cells| && 0 <= cell < |s.cells|
  {
    var rest := multiset(s.free) + s.taken + Hand(s.sender) + ClientCells(s.clients);
    assert Total(s) == multiset(s.ready) + rest;
    RoomFor(s, s.ready, rest, cell);
  }

  // ----- every step conserves the cells

  lemma PopMultiset(ring: seq<int>)
    requires ring != []
    ensures multiset(ring) == multiset{ring[0]} + multiset(ring[1..])
  {
    assert ring == [ring[0]] + ring[1..];
  }

  lemma CancelSame(x: multiset<int>, y: multiset<int>, o: multiset<int>)
    requires x + o == y + o
    ensures x == y
  {
    forall z: int
      ensures x[z] == y[z]
    {
      assert (x + o)[z] == (y + o)[z];
    }
  }

  lemma CancelOne(x: multiset<int>, y: multiset<int>, o: multiset<int>, cell: int)
    requires y + o == x + (o + multiset{cell})
    ensures y == x + multiset{cell}
  {
    assert x + (o + multiset{cell}) == (x + multiset{cell}) + o;
    CancelSame(y, x + multiset{cell}, o);
  }

  /** A cell goes from a client to the free ring. */
  lemma GivenBack(s: State, i: nat, c: Client, cell: int)
    requires Conserved(s) && i < |s.clients| && Owned(c) + multiset{cell} == Owned(s.clients[i])
    ensures Conserved(WithClient(s, i, c).(free := Pushed(s.free, cell, |s.cells|)))
    ensures Pushed(s.free, cell, |s.cells|) == s.free + [cell]
  {
    hide Owned, ClientCells, All;
    assert cell in Owned(s.clients[i]);
    FreeRoom(s, cell);
    ClientCellsUpdate(s.clients, i, c);
    var x, y := ClientCells(s.clients[i := c]), ClientCells(s.clients);
    CancelOne(x, y, Owned(c), cell);
    assert multiset(s.free + [cell]) == multiset(s.free) + multiset{cell};
    assert Total(WithClient(s, i, c).(free := s.free + [cell])) == Total(s);
  }

  /** A client changes, its cells do not. */
  lemma SameCells(s: State, i: nat, c: Client)
    requires Conserved(s) && i < |s.clients| && Owned(s.clients[i]) == Owned(c)
    ensures Conserved(WithClient(s, i, c))
  {
    hide Owned, ClientCells, All;
    ClientCellsUpdate(s.clients, i, c);
    CancelSame(ClientCells(s.clients[i := c]), ClientCells(s.clients), Owned(c));
  }

  lemma LoadedOwns(c: Client, len: nat)
    requires c.waiting != [] && c.current == NONE
    ensures Owned(Loaded(c, len)) == Owned(c) || c.waiting[0] == NONE
  {
    PopMultiset(c.waiting);
  }

  lemma WaitingOwns(c: Client)
    requires c.waiting != []
    ensures Owned(c) == Owned(c.(waiting := c.waiting[1..])) + multiset{c.waiting[0]}
  {
    PopMultiset(c.waiting);
  }

  lemma GetConserves(s: State)
    requires Conserved(s) && Enabled(s, Get)
    ensures Conserved(Apply(s, Get))
  {
    hide ClientCells, All;
    PopMultiset(s.free);
    assert Total(Apply(s, Get)) == Total(s);
  }

  lemma PostConserves(s: State, cell: int)
    requires Conserved(s) && Enabled(s, Post(cell))
    ensures Conserved(Apply(s, Post(cell))) && Apply(s, Post(cell)).ready == s.ready + [cell]
  {
    hide ClientCells, All;
    ReadyRoom(s, cell);
    assert multiset(s.ready + [cell]) == multiset(s.ready) + multiset{cell};
    assert Total(Apply(s, Post(cell))) == Total(s);
  }

  lemma PopReadyConserves(s: State)
    requires Conserved(s) && Enabled(s, PopReady)
    ensures Conserved(Apply(s, PopReady))
  {
    hide ClientCells, All;
    PopMultiset(s.ready);
    assert Total(Apply(s, PopReady)) == Total(s);
  }

  lemma RouteConserves(s: State)
    requires Conserved(s) && Enabled(s, Route)
    ensures Conserved(Apply(s, Route))
  {
    hide ClientCells, All;
    var cell, t := s.sender.cell, Apply(s, Route);
    var i := s.cells[cell].client;
    var c := s.clients[i];
    FreeRoom(s, cell);
    if s.cells[cell].session != c.session || !c.connected {
      assert multiset(s.free + [cell]) == multiset(s.free) + multiset{cell};
      assert Total(t) == Total(s);
    } else {
      var d := c.(waiting := c.waiting + [cell]);
      assert Owned(d) == Owned(c) + multiset{cell};
      ClientCellsUpdate(s.clients, i, d);
      RoutedTotal(s, i, d, cell);
    }
  }

  lemma RoutedTotal(s: State, i: nat, d: Client, cell: int)
    requires i < |s.clients| && s.sender == Routing(cell)
    requires ClientCells(s.clients[i := d]) + Owned(s.clients[i]) == ClientCells(s.clients) + (Owned(s.clients[i]) + multiset{cell})
    ensures Total(WithClient(s, i, d).(sender := Main)) == Total(s)
  {
    hide Owned, ClientCells;
    CancelOne(ClientCells(s.clients), ClientCells(s.clients[i := d]), Owned(s.clients[i]), cell);
  }

  // ----- every step keeps the invariant

  predicate ClientOk(cells: seq<Cell>, i: nat, c: Client) {
    Quiet(c) && SessionKept(cells, i, c)
  }

  /** Only client i has changed. */
  lemma OneClient(s: State, t: State, i: nat, c: Client)
    requires Inv(s) && i < |s.clients| && t.clients == s.clients[i := c] && t.cells == s.cells
    requires ClientOk(s.cells, i, c) && Conserved(t)
    requires t.sender.Closing? ==> s.sender == t.sender && (t.sender.i == i ==> c.working)
    ensures Inv(t)
  {
    hide Conserved, Quiet, SessionKept;
  }

  lemma HandStepKeeps(s: State, step: Step)
    requires Inv(s) && Enabled(s, step) && (step.Get? || step.Post? || step.PopReady? || step.BeginClose?)
    ensures Inv(Apply(s, step))
  {
    hide Total, Quiet, SessionKept;
    match step
    case Get => GetConserves(s);
    case Post(cell) => PostConserves(s, cell);
    case PopReady => PopReadyConserves(s);
    case BeginClose(i) => assert Total(Apply(s, step)) == Total(s) by { SameHand(s, i); }
  }

  lemma SameHand(s: State, i: nat)
    requires s.sender == Main
    ensures Total(s.(sender := Closing(i))) == Total(s)
  {
  }

  /** A cell with a producer is nowhere else, so stamping it concerns no client. */
  lemma StampKeeps(s: State, cell: int, i: nat)
    requires Inv(s) && Enabled(s, Stamp(cell, i))
    ensures Inv(Apply(s, Stamp(cell, i)))
  {
    hide Quiet, SessionKept, Total;
    var t := Apply(s, Stamp(cell, i));
    assert Total(t) == Total(s) && |t.cells| == |s.cells| by { SameTotal(s, t); }
    forall j | 0 <= j < |s.clients|
      ensures SessionKept(t.cells, j, s.clients[j])
    {
      AllOnce(|s.cells|, cell);
      OwnedIsCounted(s.clients, j, cell);
      NotOwned(s, j, cell);
      StampedElsewhere(s.cells, t.cells, j, s.clients[j], cell);
    }
  }

  lemma SameTotal(s: State, t: State)
    requires t == s.(cells := t.cells)
    ensures Total(t) == Total(s)
  {
  }

  lemma StampedElsewhere(cells: seq<Cell>, after: seq<Cell>, j: nat, c: Client, cell: int)
    requires 0 <= cell < |cells| == |after| && after == cells[cell := after[cell]] && SessionKept(cells, j, c)
    requires cell !in c.waiting && (c.current != NONE ==> c.current != cell)
    ensures SessionKept(after, j, c)
  {
    forall k | 0 <= k < |c.waiting|
      ensures ForSession(after, j, c, c.waiting[k])
    {
      assert ForSession(cells, j, c, c.waiting[k]);
    }
  }

  lemma NotOwned(s: State, j: nat, cell: int)
    requires j < |s.clients| && cell in s.taken && Total(s)[cell] == 1 && Owned(s.clients[j])[cell] <= ClientCells(s.clients)[cell]
    ensures cell !in s.clients[j].waiting && (s.clients[j].current != NONE ==> s.clients[j].current != cell)
  {
    hide ClientCells;
    assert Owned(s.clients[j])[cell] == 0;
  }

  lemma RouteKeeps(s: State)
    requires Inv(s) && Enabled(s, Route)
    ensures Inv(Apply(s, Route))
  {
    hide Conserved;
    RouteConserves(s);
    var cell := s.sender.cell;
    var i := s.cells[cell].client;
    var c := s.clients[i];
    if s.cells[cell].session == c.session && c.connected {
      OneClient(s, Apply(s, Route), i, c.(waiting := c.waiting + [cell]));
    }
  }

  lemma OkRest(cells: seq<Cell>, i: nat, c: Client)
    requires ClientOk(cells, i, c) && c.waiting != []
    ensures ClientOk(cells, i, c.(waiting := c.waiting[1..])) && c.waiting[0] != NONE && c.working
  {
    assert ForSession(cells, i, c, c.waiting[0]);
    forall k | 1 <= k < |c.waiting|
      ensures ForSession(cells, i, c.(waiting := c.waiting[1..]), c.waiting[k])
    {
      assert ForSession(cells, i, c, c.waiting[k]);
    }
  }

  lemma OkUnsent(cells: seq<Cell>, i: nat, c: Client, sendLen: nat)
    requires ClientOk(cells, i, c)
    ensures ClientOk(cells, i, c.(current := NONE, sendLen := sendLen))
    ensures sendLen > 0 ==> ClientOk(cells, i, c.(sendLen := sendLen))
  {
    forall k | 0 <= k < |c.waiting|
      ensures ForSession(cells, i, c.(current := NONE), c.waiting[k])
    {
      assert ForSession(cells, i, c, c.waiting[k]);
    }
  }

  lemma OkLoaded(cells: seq<Cell>, i: nat, c: Client, len: nat)
    requires ClientOk(cells, i, c) && c.waiting != [] && c.current == NONE && len > 0
    ensures ClientOk(cells, i, Loaded(c, len)) && c.waiting[0] != NONE
  {
    OkRest(cells, i, c);
    assert ForSession(cells, i, c, c.waiting[0]);
  }

  lemma GiveBackKeeps(s: State)
    requires Inv(s) && Enabled(s, GiveBack)
    ensures Inv(Apply(s, GiveBack))
  {
    hide Conserved, Owned, Quiet, SessionKept;
    var i := s.sender.i;
    var c := s.clients[i];
    assert ClientOk(s.cells, i, c);
    if c.waiting != [] {
      OkRest(s.cells, i, c);
      WaitingOwns(c);
      GivenBack(s, i, c.(waiting := c.waiting[1..]), c.waiting[0]);
      OneClient(s, Apply(s, GiveBack), i, c.(waiting := c.waiting[1..]));
    } else {
      OkUnsent(s.cells, i, c, c.sendLen);
      CurrentOwns(c);
      GivenBack(s, i, c.(current := NONE), c.current);
      OneClient(s, Apply(s, GiveBack), i, c.(current := NONE));
    }
  }

  lemma CurrentOwns(c: Client)
    ensures c.current != NONE ==> Owned(c.(current := NONE)) + multiset{c.current} == Owned(c)
    ensures forall n: nat :: Owned(c.(sendLen := n)) == Owned(c)
  {
  }

  lemma LoadKeeps(s: State, i: nat, len: nat)
    requires Inv(s) && Enabled(s, Load(i, len))
    ensures Inv(Apply(s, Load(i, len)))
  {
    hide Conserved, Owned, SessionKept;
    var c := s.clients[i];
    assert ClientOk(s.cells, i, c);
    OkLoaded(s.cells, i, c, len);
    LoadedOwns(c, len);
    SameCells(s, i, Loaded(c, len));
    OneClient(s, Apply(s, Load(i, len)), i, Loaded(c, len));
  }

  lemma SendKeeps(s: State, i: nat, sent: nat, len: nat)
    requires Inv(s) && Enabled(s, Send(i, sent, len))
    ensures Inv(Apply(s, Send(i, sent, len)))
  {
    hide Conserved, Owned, Quiet, SessionKept;
    var n := s.clients[i].sendLen - sent;
    var c := s.clients[i].(sendLen := n);
    assert ClientOk(s.cells, i, s.clients[i]);
    OkUnsent(s.cells, i, s.clients[i], n);
    CurrentOwns(s.clients[i]);
    if n > 0 {
      SameCells(s, i, c);
      OneClient(s, Apply(s, Send(i, sent, len)), i, c);
    } else {
      SentKeeps(s, i, sent, len, c);
    }
  }

  /** The current message is out: its cell goes back, the next one is loaded. */
  lemma SentKeeps(s: State, i: nat, sent: nat, len: nat, c: Client)
    requires Inv(s) && Enabled(s, Send(i, sent, len)) && c == s.clients[i].(sendLen := 0) && sent == s.clients[i].sendLen
    requires ClientOk(s.cells, i, c.(current := NONE)) && Owned(c) == Owned(s.clients[i])
    ensures Inv(Apply(s, Send(i, sent, len)))
  {
    hide Conserved, Owned, Quiet, SessionKept;
    var d := c.(current := NONE);
    var e := if d.waiting != [] then Loaded(d, len) else d;
    if d.waiting != [] {
      OkLoaded(s.cells, i, d, len);
      LoadedOwns(d, len);
    }
    if c.current == NONE {
      assert d == c;
      SameCells(s, i, e);
    } else {
      CurrentOwns(c);
      GivenBack(s, i, e, c.current);
    }
    OneClient(s, Apply(s, Send(i, sent, len)), i, e);
  }

  lemma StatusKeeps(s: State, step: Step)
    requires Inv(s) && Enabled(s, step) && (step.MarkClosed? || step.EndClose? || step.Accept?)
    ensures Inv(Apply(s, step))
  {
    hide Conserved, Owned, Quiet, SessionKept;
    var i := if step.EndClose? then s.sender.i else step.i;
    var t := Apply(s, step);
    var c := t.clients[i];
    assert ClientOk(s.cells, i, s.clients[i]);
    OkStatus(s.cells, i, s.clients[i], c);
    SameCells(s, i, c);
    ConservedSender(WithClient(s, i, c), t);
    OneClient(s, t, i, c);
  }

  /** A client's status changes; its session number only when it has nothing. */
  lemma OkStatus(cells: seq<Cell>, i: nat, c: Client, d: Client)
    requires ClientOk(cells, i, c) && d == c.(working := d.working, connected := d.connected, closed := d.closed, session := d.session)
    requires (d.working == c.working && d.connected == c.connected && d.session == c.session)
          || ((!d.working ==> !d.connected) && c.waiting == [] && c.current == NONE)
          || (!c.working && d.working)
    ensures ClientOk(cells, i, d) && Owned(d) == Owned(c)
  {
    forall k | 0 <= k < |c.waiting|
      ensures ForSession(cells, i, d, c.waiting[k])
    {
      assert ForSession(cells, i, c, c.waiting[k]);
    }
  }

  lemma ConservedSender(s: State, t: State)
    requires Conserved(s) && t == s.(sender := t.sender, accepted := t.accepted) && Hand(s.sender) == Hand(t.sender)
    ensures Conserved(t)
  {
    hide ClientCells, All;
  }

  lemma StepKeepsInv(s: State, step: Step)
    requires Inv(s) && Enabled(s, step)
    ensures Inv(Apply(s, step))
  {
    hide Inv, Apply, Enabled;
    match step
    case Stamp(cell, i) => StampKeeps(s, cell, i);
    case Route => RouteKeeps(s);
    case GiveBack => GiveBackKeeps(s);
    case Load(i, len) => LoadKeeps(s, i, len);
    case Send(i, sent, len) => SendKeeps(s, i, sent, len);
    case MarkClosed(_) => StatusKeeps(s, step);
    case EndClose => StatusKeeps(s, step);
    case Accept(_) => StatusKeeps(s, step);
    case _ => HandStepKeeps(s, step);
  }

  // ----- every run

  predicate CanRun(s: State, steps: seq<Step>)
    decreases |steps|
  {
    steps == [] || (Enabled(s, steps[0]) && CanRun(Apply(s, steps[0]), steps[1..]))
  }

  function After(s: State, steps: seq<Step>): State
    requires CanRun(s, steps)
    decreases |steps|
  {
    if steps == [] then s else After(Apply(s, steps[0]), steps[1..])
  }

  /** The states of all runs, for any number of cells and clients. */
  ghost predicate Reachable(s: State, m: nat) {
    exists clients: nat, steps: seq<Step> :: CanRun(Init(m, clients), steps) && After(Init(m, clients), steps) == s
  }

  lemma {:induction false} RunKeepsInv(s: State, steps: seq<Step>)
    requires Inv(s) && Stamps(s) && CanRun(s, steps)
    ensures Inv(After(s, steps)) && Stamps(After(s, steps)) && |After(s, steps).cells| == |s.cells|
    decreases |steps|
  {
    hide Inv, Stamps, Apply, Enabled;
    if steps != [] {
      StepKeepsInv(s, steps[0]);
      StepKeepsStamps(s, steps[0]);
      RunKeepsInv(Apply(s, steps[0]), steps[1..]);
    }
  }

  lemma ReachableInv(s: State, m: nat)
    requires Reachable(s, m)
    ensures Inv(s) && Stamps(s) && |s.cells| == m
  {
    hide Inv, Apply, Enabled;
    var clients: nat, steps: seq<Step> :| CanRun(Init(m, clients), steps) && After(Init(m, clients), steps) == s;
    InitInv(m, clients);
    RunKeepsInv(Init(m, clients), steps);
  }

  /** In every state of every run each cell is in exactly one place, counted with multiplicity: the free
      ring, the ready ring, a producer, the hand of the sending thread, or one client. */
  lemma OnePlace(s: State, m: nat, cell: nat)
    requires Reachable(s, m) && cell < m
    ensures multiset(s.free)[cell] + multiset(s.ready)[cell] + s.taken[cell] + Hand(s.sender)[cell] + ClientCells(s.clients)[cell] == 1
  {
    hide Reachable, ClientCells, All;
    ReachableInv(s, m);
    AllOnce(m, cell);
    assert Total(s)[cell] == 1;
  }

  /** The push a step makes, if any: the ring before it. */
  function PushedTo(s: State, step: Step): (seq<int>, bool)
    requires Enabled(s, step)
  {
    match step
    case Post(_) => (s.ready, true)
    case Route =>
      var cell := s.cells[s.sender.cell];
      (s.free, cell.session != s.clients[cell.client].session || !s.clients[cell.client].connected)
    case GiveBack => (s.free, true)
    case Send(i, sent, _) => (s.free, sent == s.clients[i].sendLen && s.clients[i].current != NONE)
    case _ => ([], false)
  }

  /** No push ever fails, so no caller needs to look: the ring always has room. */
  lemma NoPushFails(s: State, m: nat, step: Step)
    requires Reachable(s, m) && Enabled(s, step)
    ensures PushedTo(s, step).1 ==> |PushedTo(s, step).0| < m
  {
    hide Reachable, Total, ClientCells, All;
    ReachableInv(s, m);
    match step
    case Post(cell) => ReadyRoom(s, cell);
    case Route => FreeRoom(s, s.sender.cell);
    case GiveBack =>
      var c := s.clients[s.sender.i];
      FreeRoom(s, if c.waiting != [] then c.waiting[0] else c.current);
    case Send(j, _, _) =>
      if s.clients[j].current != NONE {
        FreeRoom(s, s.clients[j].current);
      }
    case _ =>
  }

  /** The cell is in the client's list, or is its current one. */
  predicate HasCell(c: Client, cell: int) {
    cell in c.waiting || (cell == c.current && cell != NONE)
  }

  /** Every cell a client has waiting or is being sent is stamped with that client and with the session
      number it has now, across all closes and reconnects. */
  lemma CellsAreForTheSession(s: State, m: nat, j: nat, cell: int)
    requires Reachable(s, m) && j < |s.clients| && HasCell(s.clients[j], cell)
    ensures 0 <= cell < m == |s.cells| && s.cells[cell].client == j && s.cells[cell].session == s.clients[j].session
  {
    hide Reachable, Conserved, Stamps;
    ReachableInv(s, m);
    assert ClientOk(s.cells, j, s.clients[j]);
  }

  // ----- as long as session numbers do not repeat

  /** Session numbers and the times of stamps, before the 32-bit counter wraps. */
  predicate Stamps(s: State) {
    s.accepted < 0x1_0000_0000 ==>
      && (forall k :: 0 <= k < |s.cells| ==> s.cells[k].session <= s.cells[k].at)
      && (forall i :: 0 <= i < |s.clients| ==> s.clients[i].session <= s.accepted)
  }

  lemma StepKeepsStamps(s: State, step: Step)
    requires Stamps(s) && Enabled(s, step)
    ensures Stamps(Apply(s, step)) && |Apply(s, step).cells| == |s.cells|
  {
    hide Pushed;
  }

  /** Until the session counter wraps, the cells a client has were stamped for it no earlier than its
      present connection: the k-th accepted connection has number k, and the cell was stamped when at
      least that many had been accepted. No message meant for an earlier connection is queued for it. */
  lemma NothingFromBefore(s: State, m: nat, j: nat, cell: int)
    requires Reachable(s, m) && j < |s.clients| && HasCell(s.clients[j], cell) && s.accepted < 0x1_0000_0000
    ensures 0 <= cell < m == |s.cells| && s.cells[cell].at >= s.clients[j].session
  {
    hide Reachable, Inv, Stamps;
    CellsAreForTheSession(s, m, j, cell);
    ReachableInv(s, m);
    StampOf(s, cell);
  }

  lemma StampOf(s: State, cell: int)
    requires Stamps(s) && s.accepted < 0x1_0000_0000 && 0 <= cell < |s.cells|
    ensures s.cells[cell].session <= s.cells[cell].at
  {
  }
}
