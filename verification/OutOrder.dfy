/** The pool of outgoing cells again, with what has been popped from the ready ring for each connection and what has
    been sent on it: nothing for a live session is dropped, doubled or overtaken on the way. */
module OutOrder {
  import opened OutCells

  /** A state, and for each client since its last connection, oldest first: the cells posted and those popped from the ready
      ring that were stamped with it and its session, the cells that became its current message, and those whose last byte has
      been sent; and the number of that connection. No step reads these. */
  datatype Traced = Traced(
    s: State, posted: seq<seq<int>>, popped: seq<seq<int>>, started: seq<seq<int>>, finished: seq<seq<int>>, since: seq<nat>)

  /** The cell is stamped with client i and the session that i has now, and i is connected. */
  predicate IsFor(s: State, i: int, cell: int) {
    && 0 <= cell < |s.cells| && s.cells[cell].client == i && 0 <= i < |s.clients|
    && s.cells[cell].session == s.clients[i].session && s.clients[i].connected
  }

  function Recorded(histories: seq<seq<int>>, i: nat, cell: int): seq<seq<int>>
    requires i < |histories|
  {
    histories[i := histories[i] + [cell]]
  }

  predicate Sized(t: Traced) {
    |t.posted| == |t.popped| == |t.started| == |t.finished| == |t.since| == |t.s.clients|
  }

  predicate MayStep(t: Traced, step: Step) {
    Sized(t) && Enabled(t.s, step)
  }

  /** The step, and its record: a pop when the cell is taken from the ready ring, before it is routed; a message when it
      has become the current one, and when the last of its bytes has been sent; a new connection starts with nothing. */
  function Next(t: Traced, step: Step): (u: Traced)
    requires MayStep(t, step)
    ensures u.s == Apply(t.s, step)
  {
    var s := Apply(t.s, step);
    match step
    case Post(cell) =>
      var to := t.s.cells[cell].client;
      t.(s := s, posted := if IsFor(t.s, to, cell) then Recorded(t.posted, to, cell) else t.posted)
    case PopReady =>
      var cell := t.s.ready[0];
      var to := if 0 <= cell < |t.s.cells| then t.s.cells[cell].client else NONE;
      t.(s := s, popped := if IsFor(t.s, to, cell) then Recorded(t.popped, to, cell) else t.popped)
    case Load(i, _) => t.(s := s, started := Recorded(t.started, i, s.clients[i].current))
    case Send(i, sent, _) =>
      if sent < t.s.clients[i].sendLen then t.(s := s)
      else
        var last, next := t.s.clients[i].current, s.clients[i].current;
        t.(s := s, finished := if last != NONE then Recorded(t.finished, i, last) else t.finished,
           started := if next != NONE then Recorded(t.started, i, next) else t.started)
    case Accept(i) =>
      t.(s := s, posted := t.posted[i := []], popped := t.popped[i := []], started := t.started[i := []],
         finished := t.finished[i := []], since := t.since[i := s.accepted])
    case _ => t.(s := s)
  }

  /** What is in the sending thread's hand for client i. */
  function InHand(s: State, i: nat): seq<int> {
    if s.sender.Routing? && IsFor(s, i, s.sender.cell) then [s.sender.cell] else []
  }

  /** What in a ring is for client i. */
  function OnlyFor(s: State, ring: seq<int>, i: nat): seq<int> {
    if ring == [] then [] else (if IsFor(s, i, ring[0]) then [ring[0]] else []) + OnlyFor(s, ring[1..], i)
  }

  lemma {:induction false} OnlyForMore(s: State, ring: seq<int>, cell: int, i: nat)
    ensures OnlyFor(s, ring + [cell], i) == OnlyFor(s, ring, i) + if IsFor(s, i, cell) then [cell] else []
  {
    if ring == [] {
      assert [cell][1..] == [];
    } else {
      assert (ring + [cell])[1..] == ring[1..] + [cell];
      OnlyForMore(s, ring[1..], cell, i);
    }
  }

  lemma {:induction false} OnlyForSame(s: State, t: State, ring: seq<int>, i: nat)
    requires forall cell :: cell in ring ==> (IsFor(s, i, cell) <==> IsFor(t, i, cell))
    ensures OnlyFor(s, ring, i) == OnlyFor(t, ring, i)
  {
    hide IsFor;
    if ring != [] {
      OnlyForSame(s, t, ring[1..], i);
    }
  }

  lemma {:induction false} OnlyForNone(s: State, ring: seq<int>, i: nat)
    requires forall cell :: cell in ring ==> !IsFor(s, i, cell)
    ensures OnlyFor(s, ring, i) == []
  {
    hide IsFor;
    if ring != [] {
      OnlyForNone(s, ring[1..], i);
    }
  }

  function Current(c: Client): seq<int> {
    if c.current == NONE then [] else [c.current]
  }

  /** A connection that is not being closed. */
  predicate Live(s: State, i: nat) {
    i < |s.clients| && s.clients[i].working && s.sender != Closing(i)
  }

  predicate Kept(t: Traced, i: nat)
    requires Sized(t) && i < |t.s.clients|
  {
    Live(t.s, i) ==>
      && t.s.clients[i].connected
      && t.popped[i] == t.started[i] + t.s.clients[i].waiting + InHand(t.s, i)
      && t.started[i] == t.finished[i] + Current(t.s.clients[i])
  }

  /** Before the session counter wraps: what has been posted is what has been popped and what is still in the ring, and
      the session is the number of the connection. */
  predicate PostKept(t: Traced, i: nat)
    requires Sized(t) && i < |t.s.clients|
  {
    Live(t.s, i) && t.s.accepted < 0x1_0000_0000 ==>
      t.posted[i] == t.popped[i] + OnlyFor(t.s, t.s.ready, i) && t.s.clients[i].session == t.since[i]
  }

  /** No cell has a session number that has not been given yet. */
  predicate NoneAhead(s: State) {
    s.accepted < 0x1_0000_0000 ==> forall k :: 0 <= k < |s.cells| ==> s.cells[k].session <= s.accepted
  }

  ghost predicate TInv(t: Traced) {
    && Sized(t) && Inv(t.s) && Stamps(t.s) && NoneAhead(t.s)
    && forall i :: 0 <= i < |t.s.clients| ==> Kept(t, i) && PostKept(t, i)
  }

  // ----- every step keeps the order

  /** Steps that concern neither client i nor what is in the hand for it. */
  lemma Untouched(t: Traced, u: Traced, i: nat)
    requires Sized(t) && Sized(u) && i < |t.s.clients| == |u.s.clients| && Kept(t, i)
    requires var c, d := t.s.clients[i], u.s.clients[i];
      c.waiting == d.waiting && c.current == d.current && c.connected == d.connected && c.working == d.working
    requires t.popped[i] == u.popped[i] && t.started[i] == u.started[i] && t.finished[i] == u.finished[i]
    requires InHand(t.s, i) == InHand(u.s, i) && (Live(u.s, i) ==> Live(t.s, i))
    ensures Kept(u, i)
  {
  }

  /** A cell with a producer is not in the hand of the sender. */
  lemma NotInHand(s: State, cell: int)
    requires Inv(s) && cell in s.taken && 0 <= cell < |s.cells|
    ensures s.sender.Routing? ==> s.sender.cell != cell
  {
    hide ClientCells, Owned;
    AllOnce(|s.cells|, cell);
    assert Total(s)[cell] == 1;
  }

  lemma StampKept(t: Traced, cell: int, j: nat, i: nat)
    requires TInv(t) && MayStep(t, Stamp(cell, j)) && i < |t.s.clients|
    ensures Kept(Next(t, Stamp(cell, j)), i)
  {
    hide Inv;
    NotInHand(t.s, cell);
    Untouched(t, Next(t, Stamp(cell, j)), i);
  }

  lemma PopKept(t: Traced, i: nat)
    requires TInv(t) && MayStep(t, PopReady) && i < |t.s.clients|
    ensures Kept(Next(t, PopReady), i)
  {
    hide Inv;
    var u, cell := Next(t, PopReady), t.s.ready[0];
    if IsFor(t.s, i, cell) {
      assert Kept(t, i) && InHand(u.s, i) == [cell] && InHand(t.s, i) == [];
      assert u.popped[i] == t.popped[i] + [cell];
      var before := t.started[i] + t.s.clients[i].waiting;
      assert before + [] == before;
    } else {
      Untouched(t, u, i);
    }
  }

  lemma RouteKept(t: Traced, i: nat)
    requires TInv(t) && MayStep(t, Route) && i < |t.s.clients|
    ensures Kept(Next(t, Route), i)
  {
    hide Inv;
    var u, cell := Next(t, Route), t.s.sender.cell;
    if IsFor(t.s, i, cell) {
      var waiting := t.s.clients[i].waiting;
      assert Kept(t, i) && InHand(t.s, i) == [cell] && InHand(u.s, i) == [];
      assert u.s.clients[i].waiting == waiting + [cell];
      assert t.started[i] + waiting + [cell] == t.started[i] + (waiting + [cell]) + [];
    } else {
      Untouched(t, u, i);
    }
  }

  lemma LoadKept(t: Traced, j: nat, len: nat, i: nat)
    requires TInv(t) && MayStep(t, Load(j, len)) && i < |t.s.clients|
    ensures Kept(Next(t, Load(j, len)), i)
  {
    var u := Next(t, Load(j, len));
    if i == j {
      hide Conserved;
      assert ClientOk(t.s.cells, i, t.s.clients[i]);
      hide Inv;
      OkLoaded(t.s.cells, i, t.s.clients[i], len);
      LoadedNext(t, i, len);
    } else {
      hide Inv;
      Untouched(t, u, i);
    }
  }

  lemma LoadedNext(t: Traced, i: nat, len: nat)
    requires Sized(t) && i < |t.s.clients| && Kept(t, i) && MayStep(t, Load(i, len))
    requires t.s.clients[i].current == NONE && t.s.clients[i].waiting[0] != NONE
    ensures Kept(Next(t, Load(i, len)), i)
  {
    var c := t.s.clients[i];
    assert c.waiting == [c.waiting[0]] + c.waiting[1..];
    assert t.started[i] + c.waiting == (t.started[i] + [c.waiting[0]]) + c.waiting[1..];
    assert t.finished[i] + [] == t.finished[i];
  }

  lemma SendKept(t: Traced, j: nat, sent: nat, len: nat, i: nat)
    requires TInv(t) && MayStep(t, Send(j, sent, len)) && i < |t.s.clients|
    ensures Kept(Next(t, Send(j, sent, len)), i)
  {
    var step := Send(j, sent, len);
    if i != j || sent < t.s.clients[i].sendLen {
      hide Inv;
      Untouched(t, Next(t, step), i);
    } else {
      hide Conserved;
      assert ClientOk(t.s.cells, i, t.s.clients[i]);
      hide Inv;
      SentNext(t, i, sent, len);
    }
  }

  lemma SentNext(t: Traced, i: nat, sent: nat, len: nat)
    requires Sized(t) && i < |t.s.clients| && Kept(t, i) && MayStep(t, Send(i, sent, len)) && sent == t.s.clients[i].sendLen
    requires ClientOk(t.s.cells, i, t.s.clients[i])
    ensures Kept(Next(t, Send(i, sent, len)), i)
  {
    var c := t.s.clients[i];
    var u := Next(t, Send(i, sent, len));
    assert t.finished[i] + [] == t.finished[i];
    if c.waiting != [] {
      OkRest(t.s.cells, i, c);
      assert c.waiting == [c.waiting[0]] + c.waiting[1..];
      assert t.started[i] + c.waiting == (t.started[i] + [c.waiting[0]]) + c.waiting[1..];
    }
  }

  lemma QuietKept(t: Traced, step: Step, i: nat)
    requires TInv(t) && MayStep(t, step) && i < |t.s.clients|
    requires step.Get? || step.Post? || step.MarkClosed? || step.BeginClose?
    ensures Kept(Next(t, step), i)
  {
    hide Inv, Kept, Pushed;
    Untouched(t, Next(t, step), i);
  }

  lemma CloseKept(t: Traced, step: Step, i: nat)
    requires TInv(t) && MayStep(t, step) && i < |t.s.clients| && (step.GiveBack? || step.EndClose?)
    ensures Kept(Next(t, step), i)
  {
    hide Inv, Kept, Pushed;
    if t.s.sender.i == i {
      NotLive(Next(t, step), i);
    } else {
      Untouched(t, Next(t, step), i);
    }
  }

  lemma NotLive(t: Traced, i: nat)
    requires Sized(t) && i < |t.s.clients| && !Live(t.s, i)
    ensures Kept(t, i)
  {
  }

  lemma AcceptKept(t: Traced, j: nat, i: nat)
    requires TInv(t) && MayStep(t, Accept(j)) && i < |t.s.clients|
    ensures Kept(Next(t, Accept(j)), i)
  {
    if i == j {
      hide Conserved;
      assert Quiet(t.s.clients[i]);
    } else {
      hide Inv;
      Untouched(t, Next(t, Accept(j)), i);
    }
  }

  // ----- every step keeps what has been posted

  /** Steps after which the same cells are for client i. */
  lemma PostUntouched(t: Traced, u: Traced, i: nat)
    requires Sized(t) && Sized(u) && i < |t.s.clients| == |u.s.clients| && PostKept(t, i)
    requires t.s.cells == u.s.cells && t.s.ready == u.s.ready && t.s.accepted <= u.s.accepted
    requires var c, d := t.s.clients[i], u.s.clients[i]; c.connected == d.connected && c.session == d.session
    requires t.posted[i] == u.posted[i] && t.popped[i] == u.popped[i] && t.since[i] == u.since[i] && (Live(u.s, i) ==> Live(t.s, i))
    ensures PostKept(u, i)
  {
    OnlyForSame(t.s, u.s, t.s.ready, i);
  }

  /** A cell with a producer is not in the ready ring either. */
  lemma NotReady(s: State, cell: int)
    requires Inv(s) && cell in s.taken && 0 <= cell < |s.cells|
    ensures cell !in s.ready
  {
    hide ClientCells, Owned;
    AllOnce(|s.cells|, cell);
    assert Total(s)[cell] == 1;
    assert multiset(s.ready)[cell] == 0;
  }

  lemma StampPosted(t: Traced, cell: int, j: nat, i: nat)
    requires TInv(t) && MayStep(t, Stamp(cell, j)) && i < |t.s.clients|
    ensures PostKept(Next(t, Stamp(cell, j)), i)
  {
    hide Inv, Stamps, NoneAhead;
    var u := Next(t, Stamp(cell, j));
    NotReady(t.s, cell);
    assert forall c :: 0 <= c < |t.s.cells| && c != cell ==> u.s.cells[c] == t.s.cells[c];
    OnlyForSame(t.s, u.s, t.s.ready, i);
    assert PostKept(t, i) && u.s.clients == t.s.clients && u.s.ready == t.s.ready;
  }

  lemma PostPosted(t: Traced, cell: int, i: nat)
    requires TInv(t) && MayStep(t, Post(cell)) && i < |t.s.clients|
    ensures PostKept(Next(t, Post(cell)), i)
  {
    hide Stamps, NoneAhead, Conserved;
    var u := Next(t, Post(cell));
    PostConserves(t.s, cell);
    OnlyForMore(t.s, t.s.ready, cell, i);
    OnlyForSame(t.s, u.s, t.s.ready + [cell], i);
    assert PostKept(t, i);
    assert t.popped[i] + OnlyFor(t.s, t.s.ready, i) + [cell] == t.popped[i] + (OnlyFor(t.s, t.s.ready, i) + [cell]);
    assert OnlyFor(t.s, t.s.ready, i) + [] == OnlyFor(t.s, t.s.ready, i);
  }

  lemma PopPosted(t: Traced, i: nat)
    requires TInv(t) && MayStep(t, PopReady) && i < |t.s.clients|
    ensures PostKept(Next(t, PopReady), i)
  {
    hide Inv, Stamps, NoneAhead;
    var u, cell, rest := Next(t, PopReady), t.s.ready[0], t.s.ready[1..];
    OnlyForSame(t.s, u.s, rest, i);
    assert PostKept(t, i);
    var left := OnlyFor(t.s, rest, i);
    assert t.popped[i] + ([cell] + left) == (t.popped[i] + [cell]) + left;
    assert [] + left == left;
  }

  lemma AcceptPosted(t: Traced, j: nat, i: nat)
    requires TInv(t) && MayStep(t, Accept(j)) && i < |t.s.clients|
    ensures PostKept(Next(t, Accept(j)), i)
  {
    hide Inv, Stamps;
    var u := Next(t, Accept(j));
    if i != j {
      PostUntouched(t, u, i);
    } else if u.s.accepted < 0x1_0000_0000 {
      OnlyForNone(u.s, u.s.ready, i);
    }
  }

  lemma QuietPosted(t: Traced, step: Step, i: nat)
    requires TInv(t) && MayStep(t, step) && i < |t.s.clients|
    requires !step.Stamp? && !step.Post? && !step.PopReady? && !step.Accept? && !step.EndClose?
    ensures PostKept(Next(t, step), i)
  {
    hide Inv, Stamps, NoneAhead, Kept, PostKept, Pushed;
    PostUntouched(t, Next(t, step), i);
  }

  lemma EndPosted(t: Traced, i: nat)
    requires TInv(t) && MayStep(t, EndClose) && i < |t.s.clients|
    ensures PostKept(Next(t, EndClose), i)
  {
    hide Inv, Stamps, NoneAhead, Kept;
    if t.s.sender.i != i {
      PostUntouched(t, Next(t, EndClose), i);
    }
  }

  lemma StepKeepsPosted(t: Traced, step: Step, i: nat)
    requires TInv(t) && MayStep(t, step) && i < |t.s.clients|
    ensures Sized(Next(t, step)) && i < |Next(t, step).s.clients| && PostKept(Next(t, step), i)
  {
    hide TInv, Apply, Enabled, Kept, PostKept;
    StepKeepsSize(t, step);
    match step
    case Stamp(cell, j) => StampPosted(t, cell, j, i);
    case Post(cell) => PostPosted(t, cell, i);
    case PopReady => PopPosted(t, i);
    case Accept(j) => AcceptPosted(t, j, i);
    case EndClose => EndPosted(t, i);
    case _ => QuietPosted(t, step, i);
  }

  lemma StepKeepsAhead(s: State, step: Step)
    requires NoneAhead(s) && Stamps(s) && Enabled(s, step)
    ensures NoneAhead(Apply(s, step))
  {
    hide Pushed;
  }

  lemma StepKeepsOrder(t: Traced, step: Step)
    requires TInv(t) && MayStep(t, step)
    ensures TInv(Next(t, step))
  {
    hide Inv, Apply, Enabled, Kept, PostKept, Stamps, NoneAhead;
    StepKeepsInv(t.s, step);
    StepKeepsStamps(t.s, step);
    StepKeepsAhead(t.s, step);
    StepKeepsSize(t, step);
    forall i | 0 <= i < |t.s.clients|
      ensures Kept(Next(t, step), i) && PostKept(Next(t, step), i)
    {
      StepKeepsPosted(t, step, i);
      match step
      case Stamp(cell, j) => StampKept(t, cell, j, i);
      case PopReady => PopKept(t, i);
      case Route => RouteKept(t, i);
      case Load(j, len) => LoadKept(t, j, len, i);
      case Send(j, sent, len) => SendKept(t, j, sent, len, i);
      case Accept(j) => AcceptKept(t, j, i);
      case GiveBack => CloseKept(t, step, i);
      case EndClose => CloseKept(t, step, i);
      case _ => QuietKept(t, step, i);
    }
  }

  lemma StepKeepsSize(t: Traced, step: Step)
    requires MayStep(t, step)
    ensures Sized(Next(t, step)) && |Next(t, step).s.clients| == |t.s.clients|
  {
  }

  // ----- every run

  function InitTraced(m: nat, clients: nat): Traced {
    var nothing := seq(clients, i => []);
    Traced(Init(m, clients), nothing, nothing, nothing, nothing, seq(clients, i => 0))
  }

  predicate CanRunTraced(t: Traced, steps: seq<Step>)
    decreases |steps|
  {
    steps == [] || (MayStep(t, steps[0]) && CanRunTraced(Next(t, steps[0]), steps[1..]))
  }

  function AfterTraced(t: Traced, steps: seq<Step>): Traced
    requires CanRunTraced(t, steps)
    decreases |steps|
  {
    if steps == [] then t else AfterTraced(Next(t, steps[0]), steps[1..])
  }

  /** The states of all runs with their records. */
  ghost predicate ReachableTraced(t: Traced, m: nat) {
    exists clients: nat, steps: seq<Step> ::
      CanRunTraced(InitTraced(m, clients), steps) && AfterTraced(InitTraced(m, clients), steps) == t
  }

  lemma {:induction false} RunKeepsOrder(t: Traced, steps: seq<Step>)
    requires TInv(t) && CanRunTraced(t, steps)
    ensures TInv(AfterTraced(t, steps))
    decreases |steps|
  {
    hide TInv, Next, MayStep;
    if steps != [] {
      StepKeepsOrder(t, steps[0]);
      RunKeepsOrder(Next(t, steps[0]), steps[1..]);
    }
  }

  lemma InitOrder(m: nat, clients: nat)
    ensures TInv(InitTraced(m, clients))
  {
    InitInv(m, clients);
    hide Inv;
  }

  /** The records belong to runs of the pool: each run has one, and each is one of a run. */
  lemma {:induction false} SameRuns(t: Traced, steps: seq<Step>)
    requires Sized(t)
    ensures CanRunTraced(t, steps) <==> CanRun(t.s, steps)
    ensures CanRunTraced(t, steps) ==> AfterTraced(t, steps).s == After(t.s, steps)
    decreases |steps|
  {
    hide Apply, Enabled, Next;
    if steps != [] && Enabled(t.s, steps[0]) {
      StepKeepsSize(t, steps[0]);
      SameRuns(Next(t, steps[0]), steps[1..]);
    }
  }

  /** In every state of every run, between two routings, for every connection that is not being closed: what has been popped
      for it is what has been sent, then what is being sent, then what waits, in that order. So no message for a live session
      is dropped, doubled or overtaken. */
  lemma SentInOrder(t: Traced, m: nat, i: nat)
    requires ReachableTraced(t, m) && !t.s.sender.Routing? && Live(t.s, i)
    ensures Sized(t)
    ensures t.popped[i] == t.finished[i] + Current(t.s.clients[i]) + t.s.clients[i].waiting
    ensures t.started[i] == t.finished[i] + Current(t.s.clients[i])
  {
    hide TInv;
    ReachableOrder(t, m);
    KeptMeans(t, i);
  }

  /** Until the session counter wraps the same holds from the posting on: what has been posted for it and is not on its way
      to the socket is still in the ready ring, in order. */
  lemma PostedInOrder(t: Traced, m: nat, i: nat)
    requires ReachableTraced(t, m) && !t.s.sender.Routing? && Live(t.s, i) && t.s.accepted < 0x1_0000_0000
    ensures Sized(t)
    ensures t.posted[i] == t.finished[i] + Current(t.s.clients[i]) + t.s.clients[i].waiting + OnlyFor(t.s, t.s.ready, i)
  {
    SentInOrder(t, m, i);
    ReachableOrder(t, m);
    hide Inv, Kept;
    assert PostKept(t, i);
  }

  /** Until then no cell stamped before a connection waits for it or is its current one: since[i] is its number, and so many connections
      had been accepted when the cell was stamped. */
  lemma NothingOlder(t: Traced, m: nat, i: nat, cell: int)
    requires ReachableTraced(t, m) && Live(t.s, i) && HasCell(t.s.clients[i], cell) && t.s.accepted < 0x1_0000_0000
    ensures Sized(t) && 0 <= cell < |t.s.cells| && t.s.cells[cell].at >= t.since[i]
  {
    ReachableOrder(t, m);
    hide Kept, Conserved;
    assert PostKept(t, i) && ClientOk(t.s.cells, i, t.s.clients[i]);
    StampOf(t.s, cell);
  }

  lemma ReachableOrder(t: Traced, m: nat)
    requires ReachableTraced(t, m)
    ensures TInv(t)
  {
    hide TInv, AfterTraced, CanRunTraced;
    var clients: nat, steps: seq<Step> :|
      CanRunTraced(InitTraced(m, clients), steps) && AfterTraced(InitTraced(m, clients), steps) == t;
    InitOrder(m, clients);
    RunKeepsOrder(InitTraced(m, clients), steps);
  }

  lemma KeptMeans(t: Traced, i: nat)
    requires TInv(t) && Live(t.s, i) && !t.s.sender.Routing?
    ensures Sized(t) && t.started[i] == t.finished[i] + Current(t.s.clients[i])
    ensures t.popped[i] == t.finished[i] + Current(t.s.clients[i]) + t.s.clients[i].waiting
  {
    hide Inv;
    assert Kept(t, i) && InHand(t.s, i) == [];
    assert t.started[i] + t.s.clients[i].waiting + [] == t.started[i] + t.s.clients[i].waiting;
  }

  // ----- what a stamp means

  /** A cell that is stamped for a connected client is for its session, */
  lemma StampedIsFor(s: State, cell: int, i: nat)
    requires Enabled(s, Stamp(cell, i)) && s.clients[i].connected
    ensures IsFor(Apply(s, Stamp(cell, i)), i, cell)
  {
  }

  /** and stays so until it is stamped again or the connection ends. */
  lemma StaysFor(s: State, step: Step, cell: int, i: nat)
    requires Inv(s) && Enabled(s, step) && IsFor(s, i, cell)
    requires !(step.Stamp? && step.cell == cell) && !(step.EndClose? && s.sender.i == i)
    ensures IsFor(Apply(s, step), i, cell)
  {
    hide Conserved, SessionKept, Pushed;
    assert Quiet(s.clients[i]);
  }
}
