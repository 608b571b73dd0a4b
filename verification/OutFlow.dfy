/** The pool of outgoing cells once more: whether the sending thread can always go on, and whose bytes a connection is
    sent. */
module OutFlow {
  import opened OutCells
  import OutOrder

  // ----- the sending thread can go on

  predicate Addressed(s: State, cell: int) {
    0 <= cell < |s.cells| && 0 <= s.cells[cell].client < |s.clients|
  }

  /** What is on its way to a client says which, and a client at work is connected. */
  predicate OnTheWay(s: State) {
    && (forall i :: 0 <= i < |s.clients| && s.clients[i].working ==> s.clients[i].connected)
    && (forall k :: 0 <= k < |s.ready| ==> Addressed(s, s.ready[k]))
    && (s.sender.Routing? ==> Addressed(s, s.sender.cell))
  }

  lemma StampOnTheWay(s: State, cell: int, i: nat)
    requires Inv(s) && OnTheWay(s) && Enabled(s, Stamp(cell, i))
    ensures OnTheWay(Apply(s, Stamp(cell, i)))
  {
    hide Inv;
    OutOrder.NotReady(s, cell);
    OutOrder.NotInHand(s, cell);
    var t := Apply(s, Stamp(cell, i));
    forall k | 0 <= k < |t.ready|
      ensures Addressed(t, t.ready[k])
    {
      assert Addressed(s, s.ready[k]);
    }
  }

  lemma PostOnTheWay(s: State, cell: int)
    requires OnTheWay(s) && Enabled(s, Post(cell))
    ensures OnTheWay(Apply(s, Post(cell)))
  {
  }

  lemma OtherOnTheWay(s: State, step: Step)
    requires OnTheWay(s) && Enabled(s, step) && !step.Stamp? && !step.Post?
    ensures OnTheWay(Apply(s, step))
  {
    hide Pushed;
    var t := Apply(s, step);
    assert t.cells == s.cells && |t.clients| == |s.clients|;
  }

  lemma StepKeepsOnTheWay(s: State, step: Step)
    requires Inv(s) && OnTheWay(s) && Enabled(s, step)
    ensures OnTheWay(Apply(s, step))
  {
    hide Inv, OnTheWay, Apply, Enabled;
    match step
    case Stamp(cell, i) => StampOnTheWay(s, cell, i);
    case Post(cell) => PostOnTheWay(s, cell);
    case _ => OtherOnTheWay(s, step);
  }

  lemma {:induction false} RunKeepsOnTheWay(s: State, steps: seq<Step>)
    requires Inv(s) && OnTheWay(s) && CanRun(s, steps)
    ensures OnTheWay(After(s, steps))
    decreases |steps|
  {
    hide Inv, OnTheWay, Apply, Enabled;
    if steps != [] {
      StepKeepsInv(s, steps[0]);
      StepKeepsOnTheWay(s, steps[0]);
      RunKeepsOnTheWay(Apply(s, steps[0]), steps[1..]);
    }
  }

  lemma ReachableOnTheWay(s: State, m: nat)
    requires Reachable(s, m)
    ensures OnTheWay(s)
  {
    hide Inv, Apply, Enabled;
    var clients: nat, steps: seq<Step> :| CanRun(Init(m, clients), steps) && After(Init(m, clients), steps) == s;
    InitInv(m, clients);
    RunKeepsOnTheWay(Init(m, clients), steps);
  }

  /** Wherever the sending thread is, it can go on: a message in its hand can be routed, a close that has begun can be gone on
      with until the client has nothing and can then be ended; between these it can take the next ready message, close what
      is to be closed, accept on any free client, and for a client at work with something to send either load or send. */
  lemma NeverStuck(s: State, m: nat)
    requires Reachable(s, m)
    ensures s.sender.Routing? ==> Enabled(s, Route)
    ensures s.sender.Closing? ==> (Enabled(s, GiveBack) <==> !Enabled(s, EndClose))
    ensures s.sender == Main ==> (s.ready != [] ==> Enabled(s, PopReady))
    ensures forall i: nat :: s.sender == Main && i < |s.clients| ==> CanServe(s, i)
  {
    hide Reachable, Conserved, SessionKept;
    ReachableInv(s, m);
    ReachableOnTheWay(s, m);
  }

  ghost predicate CanServe(s: State, i: nat)
    requires i < |s.clients|
  {
    var c := s.clients[i];
    if !c.working then Enabled(s, Accept(i))
    else
      && (c.closed ==> Enabled(s, BeginClose(i)))
      && forall len: nat :: len > 0 ==>
           if c.sendLen > 0 then Enabled(s, Send(i, c.sendLen, len)) && !Enabled(s, Load(i, len))
           else c.waiting != [] <==> Enabled(s, Load(i, len))
  }

  // ----- messages without text

  /** Loading a message of len bytes: with one that is empty the next turn loads again, over it, and the cell is in no place
      any more; with any other the turn after it goes on sending. */
  lemma EmptyMessageIsLostIff(s: State, i: nat, len: nat, next: nat)
    requires Inv(s) && s.sender == Main && i < |s.clients| && next > 0
    requires var c := s.clients[i]; c.working && c.connected && c.sendLen == 0 && |c.waiting| >= 2
    ensures var t := WithClient(s, i, Loaded(s.clients[i], len));
      && Conserved(t)
      && (Enabled(t, Load(i, next)) <==> len == 0)
      && (len == 0 ==> Total(Apply(t, Load(i, next))) + multiset{s.clients[i].waiting[0]} == Total(s))
  {
    hide Owned, SessionKept, Conserved;
    var c := s.clients[i];
    assert ClientOk(s.cells, i, c);
    OkRest(s.cells, i, c);
    LoadedOwns(c, len);
    SameCells(s, i, Loaded(c, len));
    if len == 0 {
      OkRest(s.cells, i, c.(waiting := c.waiting[1..]));
      LoadedOver(c, next);
      LostTotal(s, i, Loaded(Loaded(c, 0), next), c.waiting[0]);
      LoadsAgain(s, i, next);
    }
  }

  lemma LoadedOver(c: Client, next: nat)
    requires |c.waiting| >= 2 && c.current == NONE && c.waiting[0] != NONE
    ensures Owned(Loaded(Loaded(c, 0), next)) + multiset{c.waiting[0]} == Owned(c) || c.waiting[1] == NONE
  {
    PopMultiset(c.waiting);
    PopMultiset(c.waiting[1..]);
  }

  lemma LoadsAgain(s: State, i: nat, next: nat)
    requires i < |s.clients| && |s.clients[i].waiting| >= 2
    requires var t := WithClient(s, i, Loaded(s.clients[i], 0)); Enabled(t, Load(i, next))
    ensures Apply(WithClient(s, i, Loaded(s.clients[i], 0)), Load(i, next)) == WithClient(s, i, Loaded(Loaded(s.clients[i], 0), next))
  {
  }

  lemma LostTotal(s: State, i: nat, d: Client, cell: int)
    requires i < |s.clients| && Owned(d) + multiset{cell} == Owned(s.clients[i])
    ensures Total(WithClient(s, i, d)) + multiset{cell} == Total(s)
  {
    hide Owned, ClientCells;
    ClientCellsUpdate(s.clients, i, d);
    CancelOne(ClientCells(s.clients[i := d]), ClientCells(s.clients), Owned(d), cell);
  }

  // ----- whose bytes

  /** Bytes that one call of send has taken, and the cell they are from: none when the client has no current message. */
  datatype Burst = Burst(cell: int, bytes: nat)

  /** A state, and for each client since its last connection: the bytes sent on it, and how many bytes the connection before
      it had left unsent. No step reads these. */
  datatype Metered = Metered(s: State, sends: seq<seq<Burst>>, left: seq<nat>)

  predicate MayMeter(t: Metered, step: Step) {
    |t.sends| == |t.left| == |t.s.clients| && Enabled(t.s, step)
  }

  function Meter(t: Metered, step: Step): (u: Metered)
    requires MayMeter(t, step)
    ensures u.s == Apply(t.s, step)
  {
    var s := Apply(t.s, step);
    match step
    case Send(i, sent, _) => t.(s := s, sends := t.sends[i := t.sends[i] + [Burst(t.s.clients[i].current, sent)]])
    case Accept(i) => t.(s := s, sends := t.sends[i := []], left := t.left[i := t.s.clients[i].sendLen])
    case _ => t.(s := s)
  }

  /** The bytes sent that belong to no message of the connection. */
  function Foreign(sends: seq<Burst>): nat {
    if sends == [] then 0
    else Foreign(sends[..|sends| - 1]) + if sends[|sends| - 1].cell == NONE then sends[|sends| - 1].bytes else 0
  }

  lemma ForeignMore(sends: seq<Burst>, b: Burst)
    ensures Foreign(sends + [b]) == Foreign(sends) + if b.cell == NONE then b.bytes else 0
  {
    assert (sends + [b])[..|sends|] == sends;
  }

  /** As long as there is something left, it is what is sent. */
  predicate LeftFirst(sends: seq<Burst>, left: nat) {
    forall k :: 0 <= k < |sends| ==> (sends[k].cell == NONE <==> Foreign(sends[..k]) < left)
  }

  lemma LeftFirstMore(sends: seq<Burst>, left: nat, b: Burst)
    requires LeftFirst(sends, left) && (b.cell == NONE <==> Foreign(sends) < left)
    ensures LeftFirst(sends + [b], left)
  {
    hide Foreign;
    forall k | 0 <= k < |sends + [b]|
      ensures (sends + [b])[k].cell == NONE <==> Foreign((sends + [b])[..k]) < left
    {
      assert (sends + [b])[..k] == sends[..k];
      if k == |sends| {
        assert sends[..k] == sends;
      }
    }
  }

  predicate Accounted(c: Client, sends: seq<Burst>, left: nat) {
    LeftFirst(sends, left) && Foreign(sends) + (if c.current == NONE then c.sendLen else 0) == left
  }

  predicate AccountedAt(t: Metered, i: nat) {
    && |t.sends| == |t.left| == |t.s.clients| && i < |t.s.clients|
    && (OutOrder.Live(t.s, i) ==> Accounted(t.s.clients[i], t.sends[i], t.left[i]))
  }

  ghost predicate MInv(t: Metered) {
    && |t.sends| == |t.left| == |t.s.clients| && Inv(t.s)
    && forall i :: 0 <= i < |t.s.clients| ==> AccountedAt(t, i)
  }

  lemma BurstAccounted(c: Client, sends: seq<Burst>, left: nat, sent: nat, len: nat)
    requires Accounted(c, sends, left) && 0 < sent <= c.sendLen && Quiet(c)
    ensures var d := c.(sendLen := c.sendLen - sent);
      var e := d.(current := NONE);
      && (sent < c.sendLen ==> Accounted(d, sends + [Burst(c.current, sent)], left))
      && (sent == c.sendLen ==> Accounted(e, sends + [Burst(c.current, sent)], left))
      && (sent == c.sendLen && c.waiting != [] && c.waiting[0] != NONE ==>
            Accounted(Loaded(e, len), sends + [Burst(c.current, sent)], left))
  {
    hide LeftFirst, Foreign;
    ForeignMore(sends, Burst(c.current, sent));
    LeftFirstMore(sends, left, Burst(c.current, sent));
  }

  lemma SendAccounts(t: Metered, i: nat, sent: nat, len: nat)
    requires AccountedAt(t, i) && MayMeter(t, Send(i, sent, len)) && ClientOk(t.s.cells, i, t.s.clients[i])
    ensures AccountedAt(Meter(t, Send(i, sent, len)), i)
  {
    hide Accounted, Pushed;
    var c := t.s.clients[i];
    if c.waiting != [] {
      OkRest(t.s.cells, i, c);
    }
    hide Quiet, SessionKept;
    BurstAccounted(c, t.sends[i], t.left[i], sent, len);
  }

  lemma LoadAccounts(t: Metered, i: nat, len: nat)
    requires AccountedAt(t, i) && MayMeter(t, Load(i, len)) && ClientOk(t.s.cells, i, t.s.clients[i])
    ensures AccountedAt(Meter(t, Load(i, len)), i)
  {
    hide LeftFirst, Foreign;
    OkRest(t.s.cells, i, t.s.clients[i]);
  }

  lemma AcceptAccounts(t: Metered, i: nat)
    requires AccountedAt(t, i) && MayMeter(t, Accept(i)) && ClientOk(t.s.cells, i, t.s.clients[i])
    ensures AccountedAt(Meter(t, Accept(i)), i)
  {
    hide LeftFirst, Foreign, SessionKept;
    NothingSent(t.s.clients[i].sendLen);
  }

  /** The step is not about what client i sends. */
  predicate Elsewhere(step: Step, i: nat) {
    match step
    case Send(j, _, _) => j != i
    case Load(j, _) => j != i
    case Accept(j) => j != i
    case _ => true
  }

  lemma OtherAccounts(t: Metered, step: Step, i: nat)
    requires AccountedAt(t, i) && MayMeter(t, step) && Elsewhere(step, i)
    ensures AccountedAt(Meter(t, step), i)
  {
    hide LeftFirst, Foreign, Pushed;
  }

  lemma StepAccounts(t: Metered, step: Step, i: nat)
    requires MInv(t) && MayMeter(t, step) && i < |t.s.clients|
    ensures AccountedAt(Meter(t, step), i)
  {
    hide Conserved, Accounted, Meter, MayMeter, Apply, Enabled, Quiet, SessionKept;
    assert ClientOk(t.s.cells, i, t.s.clients[i]);
    if Elsewhere(step, i) {
      OtherAccounts(t, step, i);
    } else {
      match step
      case Send(j, sent, len) => SendAccounts(t, i, sent, len);
      case Load(j, len) => LoadAccounts(t, i, len);
      case Accept(j) => AcceptAccounts(t, i);
      case _ =>
    }
  }

  lemma NothingSent(left: nat)
    ensures LeftFirst([], left) && Foreign([]) == 0
  {
  }

  predicate CanRunMetered(t: Metered, steps: seq<Step>)
    decreases |steps|
  {
    steps == [] || (MayMeter(t, steps[0]) && CanRunMetered(Meter(t, steps[0]), steps[1..]))
  }

  function AfterMetered(t: Metered, steps: seq<Step>): Metered
    requires CanRunMetered(t, steps)
    decreases |steps|
  {
    if steps == [] then t else AfterMetered(Meter(t, steps[0]), steps[1..])
  }

  function InitMetered(m: nat, clients: nat): Metered {
    Metered(Init(m, clients), seq(clients, i => []), seq(clients, i => 0))
  }

  ghost predicate ReachableMetered(t: Metered, m: nat) {
    exists clients: nat, steps: seq<Step> ::
      CanRunMetered(InitMetered(m, clients), steps) && AfterMetered(InitMetered(m, clients), steps) == t
  }

  lemma StepKeepsAccount(t: Metered, step: Step)
    requires MInv(t) && MayMeter(t, step)
    ensures MInv(Meter(t, step))
  {
    hide Inv, Apply, Enabled, Meter, AccountedAt;
    StepKeepsInv(t.s, step);
    SameSizes(t, step);
    forall i | 0 <= i < |t.s.clients|
      ensures AccountedAt(Meter(t, step), i)
    {
      StepAccounts(t, step, i);
    }
  }

  lemma SameSizes(t: Metered, step: Step)
    requires MayMeter(t, step)
    ensures var u := Meter(t, step); |u.sends| == |u.left| == |u.s.clients| == |t.s.clients|
  {
  }

  lemma {:induction false} RunKeepsAccount(t: Metered, steps: seq<Step>)
    requires MInv(t) && CanRunMetered(t, steps)
    ensures MInv(AfterMetered(t, steps))
    decreases |steps|
  {
    hide MInv, Meter, MayMeter;
    if steps != [] {
      StepKeepsAccount(t, steps[0]);
      RunKeepsAccount(Meter(t, steps[0]), steps[1..]);
    }
  }

  lemma ReachableAccount(t: Metered, m: nat)
    requires ReachableMetered(t, m)
    ensures MInv(t)
  {
    hide MInv, AfterMetered, CanRunMetered;
    var clients: nat, steps: seq<Step> :|
      CanRunMetered(InitMetered(m, clients), steps) && AfterMetered(InitMetered(m, clients), steps) == t;
    InitAccount(m, clients);
    RunKeepsAccount(InitMetered(m, clients), steps);
  }

  lemma InitAccount(m: nat, clients: nat)
    ensures MInv(InitMetered(m, clients))
  {
    InitInv(m, clients);
    hide Inv;
  }

  /** A connection is first sent as many bytes as the connection before it on the same client had left unsent, and then only
      bytes of its own messages. So it is sent nothing but its own messages if and only if nothing was left: closing and
      accepting do not clear the count. */
  lemma LeftBytesFirst(t: Metered, m: nat, i: nat)
    requires ReachableMetered(t, m) && OutOrder.Live(t.s, i)
    ensures |t.sends| == |t.left| == |t.s.clients|
    ensures forall k :: 0 <= k < |t.sends[i]| ==> (t.sends[i][k].cell == NONE <==> Foreign(t.sends[i][..k]) < t.left[i])
    ensures Foreign(t.sends[i]) <= t.left[i]
    ensures t.s.clients[i].sendLen > 0 ==> (t.s.clients[i].current == NONE <==> Foreign(t.sends[i]) < t.left[i])
  {
    hide Inv, Foreign, ReachableMetered;
    ReachableAccount(t, m);
    assert AccountedAt(t, i);
  }

  /** Client i is being closed or not at work. */
  predicate Away(s: State, i: nat) {
    i < |s.clients| && (s.sender == Closing(i) || !s.clients[i].working)
  }

  lemma AwayStays(t: Metered, step: Step, i: nat)
    requires Away(t.s, i) && MayMeter(t, step)
    ensures |Meter(t, step).left| == |t.left|
    ensures step != Accept(i) ==>
      Away(Meter(t, step).s, i) && Meter(t, step).s.clients[i].sendLen == t.s.clients[i].sendLen
    ensures step == Accept(i) ==> Meter(t, step).left[i] == t.s.clients[i].sendLen
  {
    hide Pushed;
  }

  /** What is left is what was unsent when the close began, whatever goes on until the client is accepted again. */
  lemma {:induction false} LeftIsUnsent(t: Metered, steps: seq<Step>, i: nat)
    requires Away(t.s, i) && CanRunMetered(t, steps + [Accept(i)]) && Accept(i) !in steps
    ensures |t.left| == |AfterMetered(t, steps + [Accept(i)]).left|
    ensures AfterMetered(t, steps + [Accept(i)]).left[i] == t.s.clients[i].sendLen
    decreases |steps|
  {
    hide Away, Meter, Enabled, Apply;
    var all := steps + [Accept(i)];
    AwayStays(t, all[0], i);
    if steps != [] {
      assert all[1..] == steps[1..] + [Accept(i)];
      LeftIsUnsent(Meter(t, steps[0]), steps[1..], i);
    } else {
      assert all[1..] == [];
    }
  }

  lemma {:induction false} RunSnoc(t: Metered, steps: seq<Step>, step: Step)
    requires CanRunMetered(t, steps) && MayMeter(AfterMetered(t, steps), step)
    ensures CanRunMetered(t, steps + [step]) && AfterMetered(t, steps + [step]) == Meter(AfterMetered(t, steps), step)
    decreases |steps|
  {
    hide Meter, MayMeter;
    if steps == [] {
      assert [step][1..] == [];
    } else {
      assert (steps + [step])[1..] == steps[1..] + [step];
      RunSnoc(Meter(t, steps[0]), steps[1..], step);
    }
  }

  lemma Reached(t: Metered, m: nat, step: Step, u: Metered)
    requires ReachableMetered(t, m) && MayMeter(t, step) && Meter(t, step) == u
    ensures ReachableMetered(u, m)
  {
    hide Meter, MayMeter, CanRunMetered, AfterMetered;
    var clients: nat, steps: seq<Step> :|
      CanRunMetered(InitMetered(m, clients), steps) && AfterMetered(InitMetered(m, clients), steps) == t;
    RunSnoc(InitMetered(m, clients), steps, step);
  }

  /** One cell, one client. */
  function Small(cell: Cell, free: seq<int>, ready: seq<int>, taken: multiset<int>, c: Client, sender: SenderPc,
                 accepted: nat, sends: seq<Burst>, left: nat): Metered {
    Metered(State([cell], free, ready, taken, [c], sender, accepted), [sends], [left])
  }

  lemma SmallStart()
    ensures ReachableMetered(Small(Cell(NONE, 0, 0), [0], [], multiset{}, Client(false, false, false, 0, [], NONE, 0), Main, 0, [], 0), 1)
  {
    var t := Small(Cell(NONE, 0, 0), [0], [], multiset{}, Client(false, false, false, 0, [], NONE, 0), Main, 0, [], 0);
    assert InitMetered(1, 1) == t;
    var steps: seq<Step> := [];
    assert CanRunMetered(t, steps) && AfterMetered(t, steps) == t;
  }

  lemma SmallPosted()
    ensures ReachableMetered(Small(Cell(0, 1, 1), [], [0], multiset{}, Client(true, true, false, 1, [], NONE, 0), Main, 1, [], 0), 1)
  {
    hide ReachableMetered;
    SmallStart();
    var c := Client(true, true, false, 1, [], NONE, 0);
    Reached(Small(Cell(NONE, 0, 0), [0], [], multiset{}, Client(false, false, false, 0, [], NONE, 0), Main, 0, [], 0), 1,
            Accept(0), Small(Cell(NONE, 0, 0), [0], [], multiset{}, c, Main, 1, [], 0));
    Reached(Small(Cell(NONE, 0, 0), [0], [], multiset{}, c, Main, 1, [], 0), 1,
            Get, Small(Cell(NONE, 0, 0), [], [], multiset{0}, c, Main, 1, [], 0));
    Reached(Small(Cell(NONE, 0, 0), [], [], multiset{0}, c, Main, 1, [], 0), 1,
            Stamp(0, 0), Small(Cell(0, 1, 1), [], [], multiset{0}, c, Main, 1, [], 0));
    Reached(Small(Cell(0, 1, 1), [], [], multiset{0}, c, Main, 1, [], 0), 1,
            Post(0), Small(Cell(0, 1, 1), [], [0], multiset{}, c, Main, 1, [], 0));
  }

  lemma SmallRouted()
    ensures ReachableMetered(Small(Cell(0, 1, 1), [], [], multiset{}, Client(true, true, false, 1, [0], NONE, 0), Main, 1, [], 0), 1)
  {
    hide ReachableMetered;
    SmallPosted();
    var cell, c := Cell(0, 1, 1), Client(true, true, false, 1, [], NONE, 0);
    Reached(Small(cell, [], [0], multiset{}, c, Main, 1, [], 0), 1,
            PopReady, Small(cell, [], [], multiset{}, c, Routing(0), 1, [], 0));
    assert c.waiting + [0] == [0];
    Reached(Small(cell, [], [], multiset{}, c, Routing(0), 1, [], 0), 1,
            Route, Small(cell, [], [], multiset{}, c.(waiting := [0]), Main, 1, [], 0));
  }

  lemma SmallHalfSent()
    ensures ReachableMetered(Small(Cell(0, 1, 1), [], [], multiset{}, Client(true, true, false, 1, [], 0, 3), Main, 1, [Burst(0, 2)], 0), 1)
  {
    hide ReachableMetered;
    SmallRouted();
    var one: seq<int> := [0];
    assert one[1..] == [];
    var cell, c := Cell(0, 1, 1), Client(true, true, false, 1, [], 0, 5);
    Reached(Small(cell, [], [], multiset{}, Client(true, true, false, 1, [0], NONE, 0), Main, 1, [], 0), 1,
            Load(0, 5), Small(cell, [], [], multiset{}, c, Main, 1, [], 0));
    var nothing: seq<Burst> := [];
    assert nothing + [Burst(0, 2)] == [Burst(0, 2)];
    Reached(Small(cell, [], [], multiset{}, c, Main, 1, [], 0), 1,
            Send(0, 2, 1), Small(cell, [], [], multiset{}, c.(sendLen := 3), Main, 1, [Burst(0, 2)], 0));
  }

  lemma SmallClosed()
    ensures ReachableMetered(
      Small(Cell(0, 1, 1), [0], [], multiset{}, Client(true, true, true, 1, [], NONE, 3), Closing(0), 1, [Burst(0, 2)], 0), 1)
  {
    hide ReachableMetered;
    SmallHalfSent();
    var cell, c, sends := Cell(0, 1, 1), Client(true, true, false, 1, [], 0, 3), [Burst(0, 2)];
    var d := Client(true, true, true, 1, [], 0, 3);
    Reached(Small(cell, [], [], multiset{}, c, Main, 1, sends, 0), 1,
            MarkClosed(0), Small(cell, [], [], multiset{}, d, Main, 1, sends, 0));
    Reached(Small(cell, [], [], multiset{}, d, Main, 1, sends, 0), 1,
            BeginClose(0), Small(cell, [], [], multiset{}, d, Closing(0), 1, sends, 0));
    Reached(Small(cell, [], [], multiset{}, d, Closing(0), 1, sends, 0), 1,
            GiveBack, Small(cell, [0], [], multiset{}, d.(current := NONE), Closing(0), 1, sends, 0));
  }

  /** A run in which something is left: five bytes of a message on a client's first connection, two of them sent, the
      connection closed and the client accepted again: it is about to be sent the other three. */
  lemma BytesFromBefore()
    ensures exists t: Metered ::
      && ReachableMetered(t, 1) && t.s.clients == [Client(true, true, false, 2, [], NONE, 3)]
      && t.left == [3] && Enabled(t.s, Send(0, 3, 1))
  {
    hide ReachableMetered;
    SmallClosed();
    var cell, sends, gone := Cell(0, 1, 1), [Burst(0, 2)], Client(false, false, false, 0, [], NONE, 3);
    Reached(Small(cell, [0], [], multiset{}, Client(true, true, true, 1, [], NONE, 3), Closing(0), 1, sends, 0), 1,
            EndClose, Small(cell, [0], [], multiset{}, gone, Main, 1, sends, 0));
    var t := Small(cell, [0], [], multiset{}, Client(true, true, false, 2, [], NONE, 3), Main, 2, [], 3);
    Reached(Small(cell, [0], [], multiset{}, gone, Main, 1, sends, 0), 1, Accept(0), t);
  }
}
