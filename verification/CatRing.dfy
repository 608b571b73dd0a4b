/** cdogEar.c: the ring of incoming cells, free list and work queue at once. One thread receives for
    all clients and moves the put and the take index, the other processes and moves the get index. A
    step is one access to shared memory; the threads interleave freely over sequentially consistent
    memory. A call that finds nothing to do is not a step. */
module CatRing {
  import opened Slots

  const NONE := -1

  /** Where the receiving thread is; i is the client it works for. */
  datatype ReceivePc =
    | Receiving
    | TakeTested(i: nat)   // uiCliGetMsgNextIndex was not uiIoGetMsgIndex
    | TakeCopied(i: nat)   // pCurCat2DogIOMsg is set
    | TakeMoved(i: nat)    // uiCliGetMsgIndex is advanced
    | PutStored(i: nat)    // the cell is in the ring
    | PutCleared(i: nat)   // pCurCat2DogIOMsg is NULL again

  datatype ProcessPc =
    | Waiting
    | Seen                 // uiCliPutMsgIndex was not uiIoGetMsgIndex
    | Processing(m: int)   // the cell has been read from the ring

  /** Bookkeeping only: where a cell is, with absolute slot numbers, which the ring takes modulo its size. */
  datatype Place = Free(k: nat) | Queued(k: nat) | Held(i: nat) | Passing

  /** The shared variables, the cell each client is filling, and the history: the cells put and the cells
      processed so far, in order, the number of cells taken, and where each cell is. */
  datatype State = State(
    ring: seq<int>, put: nat, get: nat, take: nat, next: nat, cur: seq<int>,
    receive: ReceivePc, process: ProcessPc,
    puts: seq<int>, done: seq<int>, takes: nat, place: seq<Place>)

  /** InitServer: slot 0 is NULL, the others hold the cells. */
  function Init(n: nat, clients: nat): State
    requires n >= 3
  {
    State(seq(n, i => i - 1), 0, 0, 1, 2, seq(clients, i => NONE), Receiving, Waiting,
          [], [], 0, seq(n - 1, i requires 0 <= i => Free(i + 1)))
  }

  datatype Step =
    | TestTake(i: nat) | CopyTake | MoveTake | MoveNext
    | StorePut(i: nat) | ClearPut | MovePut
    | TestGet | ReadGet | MoveGet

  predicate Enabled(s: State, step: Step) {
    match step
    case TestTake(i) => s.receive == Receiving && i < |s.cur| && s.cur[i] == NONE && s.next != s.get
    case CopyTake => s.receive.TakeTested? && s.receive.i < |s.cur| && s.take < |s.ring|
    case MoveTake => s.receive.TakeCopied?
    case MoveNext => s.receive.TakeMoved?
    case StorePut(i) => s.receive == Receiving && i < |s.cur| && s.cur[i] != NONE && s.put < |s.ring|
    case ClearPut => s.receive.PutStored? && s.receive.i < |s.cur|
    case MovePut => s.receive.PutCleared? && s.put < |s.ring|
    case TestGet => s.process == Waiting && s.put != s.get
    case ReadGet => s.process == Seen && s.get < |s.ring|
    case MoveGet => s.process.Processing?
  }

  /** The place of a cell; NULL has none. */
  function Moved(place: seq<Place>, cell: int, to: Place): seq<Place> {
    if 0 <= cell < |place| then place[cell := to] else place
  }

  function Apply(s: State, step: Step): State
    requires Enabled(s, step) && |s.ring| > 0
  {
    var n := |s.ring|;
    match step
    case TestTake(i) => s.(receive := TakeTested(i))
    case CopyTake =>
      var i, cell := s.receive.i, s.ring[s.take];
      s.(cur := s.cur[i := cell], receive := TakeCopied(i), place := Moved(s.place, cell, Held(i)))
    case MoveTake => s.(take := s.next, takes := s.takes + 1, receive := TakeMoved(s.receive.i))
    case MoveNext => s.(next := (s.next + 1) % n, receive := Receiving)
    case StorePut(i) => s.(ring := s.ring[s.put := s.cur[i]], receive := PutStored(i))
    case ClearPut =>
      var i := s.receive.i;
      s.(cur := s.cur[i := NONE], receive := PutCleared(i), place := Moved(s.place, s.cur[i], Passing))
    case MovePut =>
      var cell := s.ring[s.put];
      s.(put := (s.put + 1) % n, puts := s.puts + [cell], receive := Receiving,
         place := Moved(s.place, cell, Queued(|s.puts|)))
    case TestGet => s.(process := Seen)
    case ReadGet => s.(process := Processing(s.ring[s.get]))
    case MoveGet =>
      s.(get := (s.get + 1) % n, done := s.done + [s.process.m], process := Waiting,
         place := Moved(s.place, s.process.m, Free(|s.done| + n)))
  }

  // ----- the invariant

  function HeldCount(cur: seq<int>): nat {
    if cur == [] then 0 else (if cur[0] == NONE then 0 else 1) + HeldCount(cur[1..])
  }

  /** The slot number the next take starts from. */
  function Taken(s: State): nat {
    s.takes + 1
  }

  /** The first slot that still holds a free cell. */
  function FirstFree(s: State): nat {
    Taken(s) + if s.receive.TakeCopied? then 1 else 0
  }

  /** The indexes, unwound: done <= puts < taken < done + n; the gap between the put and the take index
      is one slot more than there are cells with clients. */
  predicate Indexes(s: State, n: nat) {
    && n >= 3 && |s.ring| == n && |s.place| == n - 1
    && s.get == Slot(|s.done|, n) && s.put == Slot(|s.puts|, n) && s.take == Slot(Taken(s), n)
    && s.next == Slot(if s.receive.TakeMoved? then Taken(s) else Taken(s) + 1, n)
    && |s.done| <= |s.puts| < Taken(s) && FirstFree(s) < |s.done| + n
    && (s.receive.TakeTested? ==> FirstFree(s) + 1 < |s.done| + n)
    && FirstFree(s) - |s.puts| == 1 + HeldCount(s.cur) + (if s.receive.PutCleared? then 1 else 0)
  }

  predicate IsCell(s: State, c: int) {
    0 <= c < |s.place|
  }

  /** What is in the ring and with the clients is where the bookkeeping says. */
  ghost predicate Located(s: State, n: nat)
    requires n > 0 && |s.ring| == n
  {
    && (forall k :: |s.done| <= k < |s.puts| ==> HasCell(s, n, k, Queued(k)))
    && (forall k :: FirstFree(s) <= k < |s.done| + n ==> HasCell(s, n, k, Free(k)))
    && (forall i :: 0 <= i < |s.cur| && s.cur[i] != NONE ==> IsCell(s, s.cur[i]) && s.place[s.cur[i]] == Held(i))
  }

  predicate HasCell(s: State, n: nat, k: nat, place: Place)
    requires n > 0 && |s.ring| == n
  {
    var c := s.ring[Slot(k, n)];
    IsCell(s, c) && s.place[c] == place
  }

  /** Where the bookkeeping says a cell is, there it is. */
  predicate Found(s: State, n: nat, c: int)
    requires n > 0 && |s.ring| == n && IsCell(s, c)
  {
    match s.place[c]
    case Queued(k) => |s.done| <= k < |s.puts| && s.ring[Slot(k, n)] == c
    case Free(k) => FirstFree(s) <= k < |s.done| + n && s.ring[Slot(k, n)] == c
    case Held(i) => i < |s.cur| && s.cur[i] == c
    case Passing => s.receive.PutCleared? && s.ring[Slot(|s.puts|, n)] == c
  }

  predicate Pcs(s: State, n: nat)
    requires n > 0 && |s.ring| == n
  {
    && (!s.receive.Receiving? ==> s.receive.i < |s.cur|)
    && (s.receive.TakeTested? ==> s.cur[s.receive.i] == NONE)
    && (s.receive.TakeCopied? ==> s.cur[s.receive.i] != NONE && s.ring[Slot(Taken(s), n)] == s.cur[s.receive.i])
    && (s.receive.PutStored? ==> s.cur[s.receive.i] != NONE && s.ring[Slot(|s.puts|, n)] == s.cur[s.receive.i])
    && (s.receive.PutCleared? ==> HasCell(s, n, |s.puts|, Passing))
    && (!s.process.Waiting? ==> |s.done| < |s.puts|)
    && (s.process.Processing? ==> s.process.m == s.ring[Slot(|s.done|, n)])
  }

  /** Cells have been processed in the order they were put, and wait in that order. */
  predicate InOrder(s: State, n: nat)
    requires n > 0 && |s.ring| == n
  {
    && s.done <= s.puts
    && forall k :: |s.done| <= k < |s.puts| ==> s.ring[Slot(k, n)] == s.puts[k]
  }

  ghost predicate Inv(s: State, n: nat) {
    && Indexes(s, n) && Located(s, n) && (forall c :: IsCell(s, c) ==> Found(s, n, c)) && Pcs(s, n) && InOrder(s, n)
  }

  // ----- the invariant holds at the start

  lemma {:induction false} NoneHeld(cur: seq<int>)
    requires forall i :: 0 <= i < |cur| ==> cur[i] == NONE
    ensures HeldCount(cur) == 0
  {
    if cur != [] {
      NoneHeld(cur[1..]);
    }
  }

  lemma InitInv(n: nat, clients: nat)
    requires n >= 3
    ensures Inv(Init(n, clients), n)
  {
    hide Slot;
    var s := Init(n, clients);
    NoneHeld(s.cur);
    SmallSlot(0, n);
    SmallSlot(1, n);
    SmallSlot(2, n);
    forall k | 1 <= k < n
      ensures HasCell(s, n, k, Free(k))
    {
      SmallSlot(k, n);
    }
    forall c | IsCell(s, c)
      ensures Found(s, n, c)
    {
      SmallSlot(c + 1, n);
    }
  }

  // ----- every step keeps the invariant

  lemma {:induction false} HeldChange(cur: seq<int>, i: nat, c: int)
    requires i < |cur|
    ensures HeldCount(cur[i := c]) + (if cur[i] == NONE then 0 else 1) == HeldCount(cur) + (if c == NONE then 0 else 1)
  {
    if i > 0 {
      assert cur[i := c][1..] == cur[1..][i - 1 := c];
      HeldChange(cur[1..], i - 1, c);
    } else {
      assert cur[i := c][1..] == cur[1..];
    }
  }

  /** The slot the next put writes is not a slot in use. */
  lemma PutSlotIsGap(s: State, n: nat)
    requires Indexes(s, n)
    ensures forall k :: (|s.done| <= k < |s.puts| || Taken(s) <= k < |s.done| + n) ==> Slot(k, n) != s.put
  {
    hide Slot;
    forall k | |s.done| <= k < |s.puts| || Taken(s) <= k < |s.done| + n
      ensures Slot(k, n) != s.put
    {
      if k < |s.puts| {
        SlotsDiffer(k, |s.puts|, n);
      } else {
        SlotsDiffer(|s.puts|, k, n);
      }
    }
  }

  lemma QuietKeeps(s: State, step: Step, n: nat)
    requires Inv(s, n) && Enabled(s, step) && (step.TestTake? || step.TestGet? || step.ReadGet? || step.MoveTake? || step.MoveNext?)
    ensures Inv(Apply(s, step), n)
  {
    hide Slot;
    SlotStep(Taken(s), n);
    SlotStep(Taken(s) + 1, n);
    QuietIndexes(s, step, n);
    var t := Apply(s, step);
    assert FirstFree(t) == FirstFree(s) && t.ring == s.ring && t.place == s.place && t.cur == s.cur;
    forall c | IsCell(t, c)
      ensures Found(t, n, c)
    {
      assert Found(s, n, c);
    }
  }

  lemma QuietIndexes(s: State, step: Step, n: nat)
    requires Inv(s, n) && Enabled(s, step) && (step.TestTake? || step.TestGet? || step.ReadGet? || step.MoveTake? || step.MoveNext?)
    ensures Indexes(Apply(s, step), n) && Pcs(Apply(s, step), n) && InOrder(Apply(s, step), n)
  {
    hide Slot, Located, HeldCount;
    SlotStep(Taken(s), n);
    SlotStep(Taken(s) + 1, n);
    SlotStep(|s.done|, n);
  }

  lemma CopyTakeKeeps(s: State, n: nat)
    requires Inv(s, n) && Enabled(s, CopyTake)
    ensures Inv(Apply(s, CopyTake), n)
  {
    hide Slot, HeldCount;
    var i, t := s.receive.i, Apply(s, CopyTake);
    assert HasCell(s, n, Taken(s), Free(Taken(s)));
    HeldChange(s.cur, i, s.ring[s.take]);
    forall c | IsCell(t, c)
      ensures Found(t, n, c)
    {
      assert Found(s, n, c);
    }
    forall k | |t.done| <= k < |t.puts|
      ensures HasCell(t, n, k, Queued(k))
    {
      assert HasCell(s, n, k, Queued(k));
    }
    forall k | FirstFree(t) <= k < |t.done| + n
      ensures HasCell(t, n, k, Free(k))
    {
      assert HasCell(s, n, k, Free(k));
    }
  }

  lemma StorePutKeeps(s: State, i: nat, n: nat)
    requires Inv(s, n) && Enabled(s, StorePut(i))
    ensures Inv(Apply(s, StorePut(i)), n)
  {
    hide Slot, HeldCount;
    var t := Apply(s, StorePut(i));
    PutSlotIsGap(s, n);
    forall c | IsCell(t, c)
      ensures Found(t, n, c)
    {
      assert Found(s, n, c);
    }
    forall k | |t.done| <= k < |t.puts|
      ensures HasCell(t, n, k, Queued(k))
    {
      assert HasCell(s, n, k, Queued(k));
    }
    forall k | FirstFree(t) <= k < |t.done| + n
      ensures HasCell(t, n, k, Free(k))
    {
      assert HasCell(s, n, k, Free(k));
    }
  }

  lemma ClearPutKeeps(s: State, n: nat)
    requires Inv(s, n) && Enabled(s, ClearPut)
    ensures Inv(Apply(s, ClearPut), n)
  {
    hide Slot, HeldCount;
    var i, t := s.receive.i, Apply(s, ClearPut);
    HeldChange(s.cur, i, NONE);
    forall c | IsCell(t, c)
      ensures Found(t, n, c)
    {
      assert Found(s, n, c);
    }
    forall k | |t.done| <= k < |t.puts|
      ensures HasCell(t, n, k, Queued(k))
    {
      assert HasCell(s, n, k, Queued(k));
    }
    forall k | FirstFree(t) <= k < |t.done| + n
      ensures HasCell(t, n, k, Free(k))
    {
      assert HasCell(s, n, k, Free(k));
    }
  }

  lemma MovePutKeeps(s: State, n: nat)
    requires Inv(s, n) && Enabled(s, MovePut)
    ensures Inv(Apply(s, MovePut), n)
  {
    hide Slot, HeldCount;
    var t := Apply(s, MovePut);
    SlotStep(|s.puts|, n);
    forall c | IsCell(t, c)
      ensures Found(t, n, c)
    {
      assert Found(s, n, c);
    }
    forall k | |t.done| <= k < |t.puts|
      ensures HasCell(t, n, k, Queued(k))
    {
      if k < |s.puts| {
        assert HasCell(s, n, k, Queued(k));
      }
    }
    forall k | FirstFree(t) <= k < |t.done| + n
      ensures HasCell(t, n, k, Free(k))
    {
      assert HasCell(s, n, k, Free(k));
    }
  }

  lemma MoveGetKeeps(s: State, n: nat)
    requires Inv(s, n) && Enabled(s, MoveGet)
    ensures Inv(Apply(s, MoveGet), n)
  {
    hide Slot, HeldCount;
    var t := Apply(s, MoveGet);
    SlotStep(|s.done|, n);
    assert HasCell(s, n, |s.done|, Queued(|s.done|));
    forall c | IsCell(t, c)
      ensures Found(t, n, c)
    {
      assert Found(s, n, c);
    }
    forall k | |t.done| <= k < |t.puts|
      ensures HasCell(t, n, k, Queued(k))
    {
      assert HasCell(s, n, k, Queued(k));
    }
    forall k | FirstFree(t) <= k < |t.done| + n
      ensures HasCell(t, n, k, Free(k))
    {
      if k < |s.done| + n {
        assert HasCell(s, n, k, Free(k));
      }
    }
  }

  lemma StepKeepsInv(s: State, step: Step, n: nat)
    requires Inv(s, n) && Enabled(s, step)
    ensures Inv(Apply(s, step), n)
  {
    hide Inv, Apply, Enabled;
    match step
    case CopyTake => CopyTakeKeeps(s, n);
    case StorePut(i) => StorePutKeeps(s, i, n);
    case ClearPut => ClearPutKeeps(s, n);
    case MovePut => MovePutKeeps(s, n);
    case MoveGet => MoveGetKeeps(s, n);
    case _ => QuietKeeps(s, step, n);
  }

  // ----- every run

  predicate CanRun(s: State, steps: seq<Step>)
    requires |s.ring| > 0
    decreases |steps|
  {
    steps == [] || (Enabled(s, steps[0]) && |Apply(s, steps[0]).ring| > 0 && CanRun(Apply(s, steps[0]), steps[1..]))
  }

  function After(s: State, steps: seq<Step>): State
    requires |s.ring| > 0 && CanRun(s, steps)
    decreases |steps|
  {
    if steps == [] then s else After(Apply(s, steps[0]), steps[1..])
  }

  lemma {:induction false} RunKeepsInv(s: State, steps: seq<Step>, n: nat)
    requires |s.ring| > 0 && Inv(s, n) && CanRun(s, steps)
    ensures Inv(After(s, steps), n)
    decreases |steps|
  {
    hide Inv, Apply, Enabled;
    if steps != [] {
      StepKeepsInv(s, steps[0], n);
      RunKeepsInv(Apply(s, steps[0]), steps[1..], n);
    }
  }

  /** The states of all runs, for any ring of at least three slots and any number of clients. */
  ghost predicate Reachable(s: State, n: nat) {
    n >= 3 && exists clients: nat, steps: seq<Step> :: CanRun(Init(n, clients), steps) && After(Init(n, clients), steps) == s
  }

  lemma ReachableInv(s: State, n: nat)
    requires Reachable(s, n)
    ensures Inv(s, n)
  {
    hide Inv, Apply, Enabled;
    var clients: nat, steps: seq<Step> :| CanRun(Init(n, clients), steps) && After(Init(n, clients), steps) == s;
    InitInv(n, clients);
    RunKeepsInv(Init(n, clients), steps, n);
  }

  // ----- what that means for the shared variables

  /** The slots from get up to put, where cells wait or are processed. */
  predicate InQueue(s: State, d: nat) {
    |s.ring| > 0 && s.get < |s.ring| && s.put < |s.ring| && d < Distance(s.get, s.put, |s.ring|)
  }

  /** The slots from take up to get, where free cells are. */
  predicate InFree(s: State, d: nat) {
    |s.ring| > 0 && s.get < |s.ring| && s.take < |s.ring| && d < Distance(s.take, s.get, |s.ring|)
  }

  /** The indexes unwound: the d-th slot of the queue is slot done + d, the d-th free slot is slot taken + d. */
  lemma Unwound(s: State, n: nat)
    requires Indexes(s, n)
    ensures s.get < n && s.put < n && s.take < n
    ensures Distance(s.get, s.put, n) == |s.puts| - |s.done| && Distance(s.take, s.get, n) == |s.done| + n - Taken(s)
    ensures forall d: nat :: d < n ==> Behind(s.get, d, n) == Slot(|s.done| + d, n) && Behind(s.take, d, n) == Slot(Taken(s) + d, n)
  {
    hide Slot, Distance, HeldCount;
    SlotDistance(|s.done|, |s.puts|, n);
    SlotDistance(Taken(s), |s.done| + n, n);
    SlotStep(|s.done|, n);
  }

  /** Where cell c is: in which slots of the queue, in which free slots, with which clients. */
  ghost function QueueSlots(s: State, c: int): set<nat>
    requires |s.ring| > 0 && s.get < |s.ring| && s.put < |s.ring|
  {
    set d: nat | d < Distance(s.get, s.put, |s.ring|) && s.ring[Behind(s.get, d, |s.ring|)] == c
  }

  /** The first free slot is no longer counted once its cell has been copied to a client. */
  ghost function FreeSlots(s: State, c: int): set<nat>
    requires |s.ring| > 0 && s.get < |s.ring| && s.take < |s.ring|
  {
    set d: nat | (if s.receive.TakeCopied? then 1 else 0) <= d < Distance(s.take, s.get, |s.ring|)
                 && s.ring[Behind(s.take, d, |s.ring|)] == c
  }

  /** Is the cell in the ring behind the queue, while the client has already given it up? */
  function InTransit(s: State, c: int): nat {
    if s.receive.PutCleared? && s.put < |s.ring| && s.ring[s.put] == c then 1 else 0
  }

  ghost function Holders(s: State, c: int): set<nat> {
    set i: nat | i < |s.cur| && s.cur[i] == c
  }

  /** In every state, also in the middle of an operation, every cell is in exactly one place: one slot of the queue, one
      free slot, with one client, or on its way from a client to the queue. */
  lemma OnePlace(s: State, n: nat, c: int)
    requires Reachable(s, n) && 0 <= c < n - 1
    ensures |s.ring| == n && s.get < n && s.put < n && s.take < n
    ensures |QueueSlots(s, c)| + |FreeSlots(s, c)| + |Holders(s, c)| + InTransit(s, c) == 1
  {
    hide Slot, HeldCount, Reachable, Behind, Distance;
    ReachableInv(s, n);
    Unwound(s, n);
    assert Found(s, n, c);
    forall d | d in QueueSlots(s, c)
      ensures s.place[c] == Queued(|s.done| + d)
    {
      assert HasCell(s, n, |s.done| + d, Queued(|s.done| + d));
    }
    forall d | d in FreeSlots(s, c)
      ensures s.place[c] == Free(Taken(s) + d)
    {
      assert HasCell(s, n, Taken(s) + d, Free(Taken(s) + d));
    }
    match s.place[c]
    case Queued(k) =>
      assert QueueSlots(s, c) == {k - |s.done|} && FreeSlots(s, c) == {} && Holders(s, c) == {};
    case Free(k) =>
      assert QueueSlots(s, c) == {} && FreeSlots(s, c) == {k - Taken(s)} && Holders(s, c) == {};
    case Held(i) =>
      assert QueueSlots(s, c) == {} && FreeSlots(s, c) == {} && Holders(s, c) == {i};
    case Passing =>
      assert QueueSlots(s, c) == {} && FreeSlots(s, c) == {} && Holders(s, c) == {};
  }

  /** A put never overwrites a slot in use: the slot the put index names is not in the queue, not free,
      and not the one being processed; so also while an operation is under way. */
  lemma PutOverwritesNothing(s: State, n: nat)
    requires Reachable(s, n)
    ensures |s.ring| == n && s.get < n && s.take < n
    ensures forall d: nat :: InQueue(s, d) ==> Behind(s.get, d, n) != s.put
    ensures forall d: nat :: InFree(s, d) ==> Behind(s.take, d, n) != s.put
    ensures s.process != Waiting ==> s.get != s.put
  {
    hide Slot, HeldCount, Reachable, Behind, Distance;
    ReachableInv(s, n);
    Unwound(s, n);
    PutSlotIsGap(s, n);
    assert s.process != Waiting ==> Slot(|s.done|, n) != s.put;
  }

  /** The cell being processed is the one at the get index, with no client and in no free slot. */
  lemma ProcessedCellIsApart(s: State, n: nat)
    requires Reachable(s, n) && s.process.Processing?
    ensures |s.ring| == n && s.get < n && s.take < n && s.process.m == s.ring[s.get] && 0 <= s.process.m < n - 1
    ensures Holders(s, s.process.m) == {}
    ensures forall d: nat :: InFree(s, d) ==> s.ring[Behind(s.take, d, n)] != s.process.m
  {
    hide Slot, HeldCount, Reachable, Behind, Distance;
    ReachableInv(s, n);
    Unwound(s, n);
    assert HasCell(s, n, |s.done|, Queued(|s.done|));
    forall d: nat | InFree(s, d)
      ensures s.ring[Behind(s.take, d, n)] != s.process.m
    {
      if FirstFree(s) <= Taken(s) + d {
        assert HasCell(s, n, Taken(s) + d, Free(Taken(s) + d));
      }
    }
  }

  /** A take hands out a cell that nobody has and that is not being processed. */
  lemma TakeIsSafe(s: State, n: nat)
    requires Reachable(s, n) && Enabled(s, CopyTake)
    ensures var c := s.ring[s.take];
      && 0 <= c < n - 1 && Holders(s, c) == {} && (s.process.Processing? ==> s.process.m != c)
  {
    hide Slot, HeldCount, Reachable;
    ReachableInv(s, n);
    assert HasCell(s, n, Taken(s), Free(Taken(s)));
    if s.process.Processing? {
      assert HasCell(s, n, |s.done|, Queued(|s.done|));
    }
  }

  /** Cells are processed in the order in which they are put, none is skipped, none is processed twice. */
  lemma ProcessedInPutOrder(s: State, n: nat)
    requires Reachable(s, n)
    ensures s.done <= s.puts
    ensures s.process.Processing? ==> |s.done| < |s.puts| && s.process.m == s.puts[|s.done|]
  {
    hide Slot, HeldCount, Reachable;
    ReachableInv(s, n);
  }

  /** A thread waits only when it has to: a take for a client that has no cell is refused exactly when only one free slot is
      left, and the processing thread waits exactly on an empty queue. */
  lemma WaitsOnlyWhenNeeded(s: State, n: nat, i: nat)
    requires Reachable(s, n) && i < |s.cur|
    ensures |s.ring| == n && s.get < n && s.put < n && s.take < n
    ensures s.receive == Receiving && s.cur[i] == NONE ==> (Enabled(s, TestTake(i)) <==> Distance(s.take, s.get, n) > 1)
    ensures s.process == Waiting ==> (Enabled(s, TestGet) <==> |s.done| < |s.puts|)
    ensures |s.puts| - |s.done| == Distance(s.get, s.put, n)
  {
    hide Slot, HeldCount, Reachable, Behind;
    ReachableInv(s, n);
    Unwound(s, n);
    if s.receive == Receiving {
      NextToGet(s, n);
    }
    if |s.done| < |s.puts| {
      SlotsDiffer(|s.done|, |s.puts|, n);
    }
  }

  lemma NextToGet(s: State, n: nat)
    requires Indexes(s, n) && s.receive == Receiving
    ensures s.next == s.get <==> |s.done| + n == Taken(s) + 1
  {
    hide Slot, HeldCount;
    SlotStep(|s.done|, n);
    if Taken(s) + 1 < |s.done| + n {
      SlotsDiffer(Taken(s) + 1, |s.done| + n, n);
    }
  }
}
