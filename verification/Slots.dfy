/** The slots of a ring of n places, numbered without wrapping. */
module Slots {

  /** Absolute slot k of a ring of n slots. */
  function Slot(k: nat, n: nat): (slot: nat)
    requires n > 0
    ensures slot < n
  {
    k % n
  }

  lemma SlotStep(k: nat, n: nat)
    requires n > 0
    ensures Slot(k, n) < n && Slot(k + 1, n) == (Slot(k, n) + 1) % n && Slot(k + n, n) == Slot(k, n)
  {
    var q, r := k / n, k % n;
    assert k == q * n + r;
    if r + 1 < n {
      assert k + 1 == q * n + (r + 1);
      SlotIs(k + 1, n, q, r + 1);
      SlotIs(r + 1, n, 0, r + 1);
    } else {
      assert k + 1 == (q + 1) * n;
      SlotIs(k + 1, n, q + 1, 0);
      SlotIs(n, n, 1, 0);
    }
    assert k + n == (q + 1) * n + r;
    SlotIs(k + n, n, q + 1, r);
  }

  lemma SlotIs(k: nat, n: nat, q: nat, r: nat)
    requires n > 0 && r < n && k == q * n + r
    ensures k % n == r
  {
    var d: int := k / n - q;
    assert d >= 1 ==> d * n >= n;
    assert d <= -1 ==> d * n + n <= 0;
    assert (k / n) * n == (q + d) * n == q * n + d * n;
  }

  /** Slots less than a round apart are different. */
  lemma SlotsDiffer(j: nat, k: nat, n: nat)
    requires n > 0 && j < k < j + n
    ensures Slot(j, n) != Slot(k, n)
  {
    var d: int := k / n - j / n;
    assert d >= 1 ==> d * n >= n;
    assert d <= 0 ==> d * n <= 0;
    assert (k / n) * n == (j / n + d) * n == (j / n) * n + d * n;
  }

  lemma SmallSlot(k: nat, n: nat)
    requires k < n
    ensures Slot(k, n) == k
  {
  }

  lemma SlotPlus(k: nat, d: nat, n: nat)
    requires n > 0 && d < n
    ensures Slot(k + d, n) == if Slot(k, n) + d < n then Slot(k, n) + d else Slot(k, n) + d - n
  {
    var q, r := k / n, k % n;
    if r + d < n {
      SlotIs(k + d, n, q, r + d);
    } else {
      assert k + d == (q + 1) * n + (r + d - n);
      SlotIs(k + d, n, q + 1, r + d - n);
    }
  }

  /** The cursor one place on. */
  function Succ(k: nat, n: nat): (next: nat)
    requires k < n
    ensures next == if k + 1 == n then 0 else k + 1
  {
    SlotIs(k + 1, n, if k + 1 == n then 1 else 0, if k + 1 == n then 0 else k + 1);
    (k + 1) % n
  }

  /** How many slots from index a up to index b. */
  function Distance(a: nat, b: nat, n: nat): nat
    requires n > 0 && a < n && b < n
  {
    if a <= b then b - a else b + n - a
  }

  /** The d-th slot behind index a. */
  function Behind(a: nat, d: nat, n: nat): nat
    requires a < n
  {
    if a + d < n then a + d else if d < n then a + d - n else a
  }

  lemma SlotDistance(j: nat, k: nat, n: nat)
    requires n > 0 && j <= k < j + n
    ensures Distance(Slot(j, n), Slot(k, n), n) == k - j
    ensures forall d: nat :: d < n ==> Behind(Slot(j, n), d, n) == Slot(j + d, n)
  {
    hide Slot;
    SlotPlus(j, k - j, n);
    forall d: nat | d < n
      ensures Behind(Slot(j, n), d, n) == Slot(j + d, n)
    {
      SlotPlus(j, d, n);
    }
  }
}
