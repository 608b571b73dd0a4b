/** fifo.c: a ring with one slot always left empty, as an object used by one thread, and under every
    interleaving of one pushing and one popping thread. */
module Fifo {
  import opened Slots

  class FifoRing {
    var r: nat
    var w: nat
    const length: nat
    const data: array<int>

    ghost predicate Valid()
      reads this
    {
      length > 1 && data.Length == length && r < length && w < length
    }

    /** What has been pushed and not popped, oldest first. */
    ghost function Contents(): (s: seq<int>)
      requires Valid()
      reads this, data
      ensures |s| < length
    {
      if r <= w then data[r..w] else data[r..] + data[..w]
    }

    /** FifoNew, once the length has been found right. */
    constructor (length: nat)
      requires length > 1
      ensures Valid() && Contents() == [] && this.length == length && fresh(data)
    {
      r, w := 0, 0;
      this.length := length;
      data := new int[length];
    }

    /** FifoPush: refused exactly when length - 1 values wait. */
    method Push(x: int) returns (ok: bool)
      requires Valid()
      modifies `w, data
      ensures Valid() && (ok <==> |old(Contents())| < length - 1)
      ensures Contents() == if ok then old(Contents()) + [x] else old(Contents())
    {
      hide Succ;
      var next := Succ(w, length);
      ok := next != r;
      if ok {
        data[w] := x;
        w := next;
      }
    }

    /** FifoPop: refused exactly when nothing waits. */
    method Pop() returns (ok: bool, x: int)
      requires Valid()
      modifies `r
      ensures Valid() && (ok <==> old(Contents()) != [])
      ensures ok ==> old(Contents()) == [x] + Contents()
      ensures !ok ==> Contents() == []
    {
      hide Succ;
      ok, x := r != w, 0;
      if ok {
        x := data[r];
        r := Succ(r, length);
      }
    }
  }

  /** FifoNew */
  method FifoNew(length: nat) returns (ring: FifoRing?)
    ensures ring == null <==> length <= 1
    ensures ring != null ==> fresh(ring) && fresh(ring.data) && ring.Valid() && ring.Contents() == [] && ring.length == length
  {
    ring := null;
    if length > 1 {
      ring := new FifoRing(length);
    }
  }

  // ----- one pushing and one popping thread

  datatype PushPc =
    | PushIdle
    | PushChecked(x: int)  // the next slot was not the read cursor
    | PushWritten(x: int)  // the value is in the array

  datatype PopPc =
    | PopIdle
    | PopChecked           // the cursors were different
    | PopRead(x: int)      // the value has been read

  /** The shared ring, the two threads, and the values pushed and popped so far. */
  datatype State = State(
    data: seq<int>, r: nat, w: nat, push: PushPc, pop: PopPc, pushed: seq<int>, popped: seq<int>)

  datatype Step = CheckPush(x: int) | WritePush | PublishPush | CheckPop | ReadPop | AdvancePop

  predicate Enabled(s: State, step: Step) {
    && s.r < |s.data| && s.w < |s.data|
    && match step
       case CheckPush(_) => s.push == PushIdle && (s.w + 1) % |s.data| != s.r
       case WritePush => s.push.PushChecked?
       case PublishPush => s.push.PushWritten?
       case CheckPop => s.pop == PopIdle && s.r != s.w
       case ReadPop => s.pop == PopChecked
       case AdvancePop => s.pop.PopRead?
  }

  function Apply(s: State, step: Step): State
    requires Enabled(s, step)
  {
    match step
    case CheckPush(x) => s.(push := PushChecked(x))
    case WritePush => s.(data := s.data[s.w := s.push.x], push := PushWritten(s.push.x))
    case PublishPush => s.(w := (s.w + 1) % |s.data|, push := PushIdle, pushed := s.pushed + [s.push.x])
    case CheckPop => s.(pop := PopChecked)
    case ReadPop => s.(pop := PopRead(s.data[s.r]))
    case AdvancePop => s.(r := (s.r + 1) % |s.data|, pop := PopIdle, popped := s.popped + [s.pop.x])
  }

  predicate Inv(s: State, n: nat) {
    && n > 1 && |s.data| == n && s.r == Slot(|s.popped|, n) && s.w == Slot(|s.pushed|, n)
    && s.popped <= s.pushed && |s.pushed| < |s.popped| + n
    && (s.push != PushIdle ==> |s.pushed| + 1 < |s.popped| + n)
    && (s.push.PushWritten? ==> s.data[s.w] == s.push.x)
    && (s.pop != PopIdle ==> |s.popped| < |s.pushed|)
    && (s.pop.PopRead? ==> s.pop.x == s.pushed[|s.popped|])
    && forall k :: |s.popped| <= k < |s.pushed| ==> s.data[Slot(k, n)] == s.pushed[k]
  }

  lemma StepKeepsInv(s: State, step: Step, n: nat)
    requires Inv(s, n) && Enabled(s, step)
    ensures Inv(Apply(s, step), n)
  {
    hide Slot;
    SlotStep(|s.pushed|, n);
    SlotStep(|s.popped|, n);
    if |s.pushed| + 1 == |s.popped| + n {
      assert Slot(|s.pushed| + 1, n) == s.r;
    }
    forall k | |s.popped| <= k < |s.pushed|
      ensures Slot(k, n) != s.w
    {
      SlotsDiffer(k, |s.pushed|, n);
    }
  }

  /** Any state of an empty ring, whatever is in the array. */
  predicate Initial(s: State, n: nat) {
    n > 1 && |s.data| == n && s == State(s.data, 0, 0, PushIdle, PopIdle, [], [])
  }

  /** The runs: sequences of states in which each is a step from the one before. */
  ghost predicate Run(trace: seq<State>, n: nat) {
    && trace != [] && Initial(trace[0], n)
    && forall i :: 0 <= i < |trace| - 1 ==> exists step :: Enabled(trace[i], step) && Apply(trace[i], step) == trace[i + 1]
  }

  lemma {:induction false} RunKeepsInv(trace: seq<State>, n: nat, i: nat)
    requires Run(trace, n) && i < |trace|
    ensures Inv(trace[i], n)
    decreases i
  {
    hide Inv;
    if i == 0 {
      InitialInv(trace[0], n);
    } else {
      RunKeepsInv(trace, n, i - 1);
      var step :| Enabled(trace[i - 1], step) && Apply(trace[i - 1], step) == trace[(i - 1) + 1];
      StepKeepsInv(trace[i - 1], step, n);
    }
  }

  lemma InitialInv(s: State, n: nat)
    requires Initial(s, n)
    ensures Inv(s, n)
  {
    SmallSlot(0, n);
  }

  /** Under every interleaving: the popped values are a prefix of the pushed ones, at most length - 1 wait, they are in the
      slots from the read cursor up to the write cursor, in order, and the slot that is about to be written is none of
      those, so not the one that is being read. */
  lemma OneProducerOneConsumer(trace: seq<State>, n: nat, i: nat)
    requires Run(trace, n) && i < |trace|
    ensures var s := trace[i];
      && |s.data| == n && s.r < n && s.w < n && s.popped <= s.pushed && |s.pushed| - |s.popped| <= n - 1
      && Distance(s.r, s.w, n) == |s.pushed| - |s.popped|
      && forall d: nat :: d < Distance(s.r, s.w, n) ==>
           Behind(s.r, d, n) != s.w && s.data[Behind(s.r, d, n)] == s.pushed[|s.popped| + d]
    ensures trace[i].pop != PopIdle ==> trace[i].r != trace[i].w
  {
    hide Slot, Distance, Behind, Run;
    RunKeepsInv(trace, n, i);
    var s := trace[i];
    SlotDistance(|s.popped|, |s.pushed|, n);
    forall d: nat | d < Distance(s.r, s.w, n)
      ensures Behind(s.r, d, n) != s.w && s.data[Behind(s.r, d, n)] == s.pushed[|s.popped| + d]
    {
      SlotsDiffer(|s.popped| + d, |s.pushed|, n);
    }
    if s.pop != PopIdle {
      SlotsDiffer(|s.popped|, |s.pushed|, n);
    }
  }

  /** A thread that is between two calls is refused only what it must be: a push exactly when length - 1 values wait, a pop
      exactly when none does. Inside a call nothing stops it. */
  lemma RefusedOnlyWhenNeeded(trace: seq<State>, n: nat, i: nat, x: int)
    requires Run(trace, n) && i < |trace|
    ensures var s := trace[i];
      && (s.push == PushIdle ==> (Enabled(s, CheckPush(x)) <==> |s.pushed| - |s.popped| < n - 1))
      && (s.pop == PopIdle ==> (Enabled(s, CheckPop) <==> s.popped != s.pushed))
      && (s.push != PushIdle ==> Enabled(s, if s.push.PushChecked? then WritePush else PublishPush))
      && (s.pop != PopIdle ==> Enabled(s, if s.pop == PopChecked then ReadPop else AdvancePop))
  {
    hide Slot, Distance, Behind, Run;
    RunKeepsInv(trace, n, i);
    var s := trace[i];
    OneProducerOneConsumer(trace, n, i);
    SlotStep(|s.pushed|, n);
    SlotStep(|s.popped|, n);
    if |s.pushed| + 1 < |s.popped| + n {
      SlotsDiffer(|s.pushed| + 1, |s.popped| + n, n);
    }
    if |s.popped| < |s.pushed| {
      SlotsDiffer(|s.popped|, |s.pushed|, n);
    }
  }
}
