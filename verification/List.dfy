/** list.h: circular doubly linked lists through fields of their members, on integer links, and the pass
    of cdogEar.c that moves closed clients from the work list to the free list. */
module List {

  const NULL := -1

  datatype Link = Link(next: int, prev: int)

  function InsertAt(s: seq<int>, k: nat, x: int): seq<int>
    requires k <= |s|
  {
    s[..k] + [x] + s[k..]
  }

  function RemoveAt(s: seq<int>, k: nat): seq<int>
    requires k < |s|
  {
    s[..k] + s[k + 1..]
  }

  /** The neighbours in a circle. */
  function NextIn(ring: seq<int>, i: nat): int
    requires i < |ring|
  {
    if i + 1 < |ring| then ring[i + 1] else ring[0]
  }

  function PrevIn(ring: seq<int>, i: nat): int
    requires i < |ring|
  {
    if i > 0 then ring[i - 1] else ring[|ring| - 1]
  }

  predicate LinkedAt(nodes: seq<Link>, ring: seq<int>, i: nat)
    requires i < |ring|
  {
    && 0 <= ring[i] < |nodes|
    && nodes[ring[i]].next == NextIn(ring, i) && nodes[ring[i]].prev == PrevIn(ring, i)
  }

  predicate NoTwice(ring: seq<int>) {
    forall i, j :: 0 <= i < j < |ring| ==> ring[i] != ring[j]
  }

  /** ring is a circle of different nodes, the head first. */
  ghost predicate Ring(nodes: seq<Link>, ring: seq<int>) {
    ring != [] && NoTwice(ring) && forall i :: 0 <= i < |ring| ==> LinkedAt(nodes, ring, i)
  }

  /** __list_add between neighbours prev and next. */
  predicate Spliced(nodes: seq<Link>, after: seq<Link>, x: int, prev: int, next: int) {
    |after| == |nodes| && forall i :: 0 <= i < |nodes| ==>
      && after[i].next == (if i == x then next else if i == prev then x else nodes[i].next)
      && after[i].prev == (if i == x then prev else if i == next then x else nodes[i].prev)
  }

  /** __list_del, and whatever becomes of x itself. */
  predicate Unspliced(nodes: seq<Link>, after: seq<Link>, x: int, prev: int, next: int) {
    |after| == |nodes| && forall i :: 0 <= i < |nodes| && i != x ==>
      && after[i].next == (if i == prev then next else nodes[i].next)
      && after[i].prev == (if i == next then prev else nodes[i].prev)
  }

  lemma RingInsert(nodes: seq<Link>, after: seq<Link>, ring: seq<int>, k: nat, x: int)
    requires Ring(nodes, ring) && k < |ring| && 0 <= x < |nodes| && x !in ring
    requires Spliced(nodes, after, x, ring[k], NextIn(ring, k))
    ensures Ring(after, InsertAt(ring, k + 1, x))
  {
    var more := InsertAt(ring, k + 1, x);
    assert NoTwice(more);
    forall i | 0 <= i < |more|
      ensures LinkedAt(after, more, i)
    {
      if i != k + 1 {
        assert LinkedAt(nodes, ring, if i <= k then i else i - 1);
      }
    }
  }

  lemma RingRemove(nodes: seq<Link>, after: seq<Link>, ring: seq<int>, k: nat)
    requires Ring(nodes, ring) && 1 <= k < |ring|
    requires Unspliced(nodes, after, ring[k], PrevIn(ring, k), NextIn(ring, k))
    ensures Ring(after, RemoveAt(ring, k))
  {
    var rest := RemoveAt(ring, k);
    assert NoTwice(rest);
    forall i | 0 <= i < |rest|
      ensures LinkedAt(after, rest, i)
    {
      assert LinkedAt(nodes, ring, if i < k then i else i + 1);
    }
  }

  lemma RingSame(nodes: seq<Link>, after: seq<Link>, ring: seq<int>)
    requires Ring(nodes, ring) && |after| == |nodes|
    requires forall i :: 0 <= i < |ring| && 0 <= ring[i] < |nodes| ==> after[ring[i]] == nodes[ring[i]]
    ensures Ring(after, ring)
  {
    forall i | 0 <= i < |ring|
      ensures LinkedAt(after, ring, i)
    {
      assert LinkedAt(nodes, ring, i);
    }
  }

  predicate Disjoint(a: seq<int>, b: seq<int>) {
    forall i, j :: 0 <= i < |a| && 0 <= j < |b| ==> a[i] != b[j]
  }

  function CircleOf(lists: map<int, seq<int>>, head: int): seq<int>
    requires head in lists
  {
    [head] + lists[head]
  }

  /** Every list is a circle, and a node is in at most one. */
  ghost predicate RingsOk(nodes: seq<Link>, lists: map<int, seq<int>>) {
    && (forall h :: h in lists ==> Ring(nodes, CircleOf(lists, h)))
    && forall h, g :: h in lists && g in lists && h != g ==> Disjoint(CircleOf(lists, h), CircleOf(lists, g))
  }

  ghost predicate LooseIn(nodes: seq<Link>, lists: map<int, seq<int>>, x: int) {
    0 <= x < |nodes| && forall h :: h in lists ==> x !in CircleOf(lists, h)
  }

  lemma InsertKeeps(nodes: seq<Link>, after: seq<Link>, lists: map<int, seq<int>>, head: int, k: nat, x: int)
    requires RingsOk(nodes, lists) && head in lists && k <= |lists[head]| && LooseIn(nodes, lists, x)
    requires var c := CircleOf(lists, head); Spliced(nodes, after, x, c[k], NextIn(c, k))
    ensures RingsOk(after, lists[head := InsertAt(lists[head], k, x)])
  {
    hide Ring;
    var more := lists[head := InsertAt(lists[head], k, x)];
    var c := CircleOf(lists, head);
    RingInsert(nodes, after, c, k, x);
    assert CircleOf(more, head) == InsertAt(c, k + 1, x);
    forall h | h in more && h != head
      ensures Ring(after, CircleOf(more, h)) && Disjoint(CircleOf(more, h), CircleOf(more, head))
      ensures Disjoint(CircleOf(more, head), CircleOf(more, h))
    {
      assert Disjoint(CircleOf(lists, h), c);
      LooseApart(CircleOf(lists, h), x);
      RingSame(nodes, after, CircleOf(lists, h));
    }
  }

  lemma RemoveKeeps(nodes: seq<Link>, after: seq<Link>, lists: map<int, seq<int>>, head: int, k: nat)
    requires RingsOk(nodes, lists) && head in lists && k < |lists[head]|
    requires var c := CircleOf(lists, head); Unspliced(nodes, after, c[k + 1], PrevIn(c, k + 1), NextIn(c, k + 1))
    ensures var fewer := lists[head := RemoveAt(lists[head], k)];
      RingsOk(after, fewer) && LooseIn(after, fewer, lists[head][k])
  {
    hide Ring;
    var fewer := lists[head := RemoveAt(lists[head], k)];
    var c := CircleOf(lists, head);
    RingRemove(nodes, after, c, k + 1);
    RingHas(nodes, c, k + 1);
    assert CircleOf(fewer, head) == RemoveAt(c, k + 1);
    forall h | h in fewer && h != head
      ensures Ring(after, CircleOf(fewer, h)) && Disjoint(CircleOf(fewer, h), CircleOf(fewer, head))
      ensures Disjoint(CircleOf(fewer, head), CircleOf(fewer, h)) && c[k + 1] !in CircleOf(fewer, h)
    {
      assert Disjoint(CircleOf(lists, h), c);
      RingSame(nodes, after, CircleOf(lists, h));
    }
  }

  lemma RingHas(nodes: seq<Link>, ring: seq<int>, k: nat)
    requires Ring(nodes, ring) && k < |ring|
    ensures 0 <= ring[k] < |nodes| && ring[k] !in ring[..k] && ring[k] !in ring[k + 1..]
    ensures nodes[ring[k]] == Link(NextIn(ring, k), PrevIn(ring, k))
    ensures 0 <= NextIn(ring, k) < |nodes| && 0 <= PrevIn(ring, k) < |nodes|
    ensures |ring| > 1 ==> NextIn(ring, k) != ring[k] && PrevIn(ring, k) != ring[k]
  {
    assert LinkedAt(nodes, ring, k);
    assert LinkedAt(nodes, ring, if k + 1 < |ring| then k + 1 else 0);
    assert LinkedAt(nodes, ring, if k > 0 then k - 1 else |ring| - 1);
  }

  /** All nodes, and the lists among them by their heads. */
  class Lists {
    var nodes: seq<Link>
    ghost var lists: map<int, seq<int>>

    ghost predicate Valid()
      reads this
    {
      RingsOk(nodes, lists)
    }

    /** In no list. */
    ghost predicate Loose(x: int)
      reads this
    {
      LooseIn(nodes, lists, x)
    }

    /** x is the k-th member of the list. */
    ghost predicate Member(x: int, head: int, k: nat)
      reads this
    {
      head in lists && k < |lists[head]| && lists[head][k] == x
    }

    /** n nodes, none of them in a list. */
    constructor (n: nat)
      ensures Valid() && |nodes| == n && lists == map[]
    {
      nodes, lists := seq(n, i => Link(NULL, NULL)), map[];
    }

    /** INIT_LIST_HEAD */
    method InitHead(head: int)
      requires Valid() && Loose(head)
      modifies this
      ensures Valid() && |nodes| == |old(nodes)| && lists == old(lists)[head := []]
    {
      hide Ring, Disjoint;
      ghost var was := nodes;
      nodes := nodes[head := Link(head, head)];
      lists := lists[head := []];
      OneRing(nodes, head);
      forall h | h in lists && h != head
        ensures Ring(nodes, CircleOf(lists, h)) && Disjoint(CircleOf(lists, h), [head]) && Disjoint([head], CircleOf(lists, h))
      {
        LooseApart(CircleOf(lists, h), head);
        RingSame(was, nodes, CircleOf(lists, h));
      }
      assert CircleOf(lists, head) == [head];
    }

    /** __list_add */
    method AddBetween(x: int, prev: int, next: int)
      requires 0 <= x < |nodes| && 0 <= prev < |nodes| && 0 <= next < |nodes| && x != prev && x != next
      modifies `nodes
      ensures Spliced(old(nodes), nodes, x, prev, next)
    {
      nodes := nodes[next := nodes[next].(prev := x)];
      nodes := nodes[x := nodes[x].(next := next)];
      nodes := nodes[x := nodes[x].(prev := prev)];
      nodes := nodes[prev := nodes[prev].(next := x)];
    }

    /** __list_del */
    method DelBetween(ghost x: int, prev: int, next: int)
      requires 0 <= prev < |nodes| && 0 <= next < |nodes|
      modifies `nodes
      ensures Unspliced(old(nodes), nodes, x, prev, next)
      ensures 0 <= x < |nodes| && x != prev && x != next ==> nodes[x] == old(nodes)[x]
    {
      nodes := nodes[next := nodes[next].(prev := prev)];
      nodes := nodes[prev := nodes[prev].(next := next)];
    }

    /** list_add: x becomes the first member. */
    method Add(x: int, head: int)
      requires Valid() && head in lists && Loose(x)
      modifies this
      ensures Valid() && |nodes| == |old(nodes)| && lists == old(lists)[head := [x] + old(lists)[head]]
    {
      hide Ring, RingsOk, Spliced;
      ghost var c := CircleOf(lists, head);
      OneOf(nodes, lists, head);
      RingHas(nodes, c, 0);
      NotIn(nodes, lists, head, x);
      AddBetween(x, head, nodes[head].next);
      InsertKeeps(old(nodes), nodes, lists, head, 0, x);
      SplicedLength(old(nodes), nodes, x, head, old(nodes)[head].next);
      assert InsertAt(lists[head], 0, x) == [x] + lists[head];
      lists := lists[head := [x] + lists[head]];
    }

    /** list_add_tail: x becomes the last member. */
    method AddTail(x: int, head: int)
      requires Valid() && head in lists && Loose(x)
      modifies this
      ensures Valid() && |nodes| == |old(nodes)| && lists == old(lists)[head := old(lists)[head] + [x]]
    {
      hide Ring, RingsOk, Spliced;
      ghost var c, n := CircleOf(lists, head), |lists[head]|;
      OneOf(nodes, lists, head);
      RingHas(nodes, c, 0);
      RingHas(nodes, c, n);
      NotIn(nodes, lists, head, x);
      AddBetween(x, nodes[head].prev, head);
      InsertKeeps(old(nodes), nodes, lists, head, n, x);
      SplicedLength(old(nodes), nodes, x, old(nodes)[head].prev, head);
      assert InsertAt(lists[head], n, x) == lists[head] + [x];
      lists := lists[head := lists[head] + [x]];
    }

    /** Takes x, the k-th member of a list, out of it. */
    method Unlink(x: int, ghost head: int, ghost k: nat)
      requires Valid() && Member(x, head, k)
      modifies this
      ensures Valid() && Loose(x) && |nodes| == |old(nodes)| && lists == old(lists)[head := RemoveAt(old(lists)[head], k)]
      ensures 0 <= x < |nodes| && nodes[x] == old(nodes)[x]
    {
      hide Ring, RingsOk, LooseIn, Unspliced, RemoveAt;
      ghost var c := CircleOf(lists, head);
      OneOf(nodes, lists, head);
      RingHas(nodes, c, k + 1);
      DelBetween(x, nodes[x].prev, nodes[x].next);
      RemoveKeeps(old(nodes), nodes, lists, head, k);
      UnsplicedLength(old(nodes), nodes, x, old(nodes)[x].prev, old(nodes)[x].next);
      lists := lists[head := RemoveAt(lists[head], k)];
    }

    /** list_del */
    method Del(x: int, ghost head: int, ghost k: nat)
      requires Valid() && Member(x, head, k)
      modifies this
      ensures Valid() && Loose(x) && lists == old(lists)[head := RemoveAt(old(lists)[head], k)]
    {
      hide Ring, RingsOk, LooseIn, RemoveAt;
      Unlink(x, head, k);
      LooseSet(nodes, lists, x, Link(NULL, NULL));
      ghost var was := nodes;
      nodes := nodes[x := nodes[x].(next := NULL)];
      nodes := nodes[x := nodes[x].(prev := NULL)];
      assert nodes == was[x := Link(NULL, NULL)];
    }

    /** list_move: x leaves its list and becomes the first member of another, or of the same. */
    method Move(x: int, target: int, ghost head: int, ghost k: nat)
      requires Valid() && Member(x, head, k) && target in lists
      modifies this
      ensures Valid() && |nodes| == |old(nodes)|
      ensures var rest := old(lists)[head := RemoveAt(old(lists)[head], k)];
        lists == rest[target := [x] + rest[target]]
    {
      hide Ring, RingsOk, LooseIn, RemoveAt;
      Unlink(x, head, k);
      Add(x, target);
    }

    /** list_empty */
    method IsEmpty(head: int) returns (empty: bool)
      requires Valid() && head in lists
      ensures empty <==> lists[head] == []
    {
      hide Ring;
      RingHas(nodes, CircleOf(lists, head), 0);
      empty := nodes[head].next == head;
    }

    /** The body of the pass: a closed client goes to the free list. */
    method Visit(pos: int, work: int, free: int, closed: int -> bool, ghost base: map<int, seq<int>>,
                 ghost visited: seq<int>, ghost all: seq<int>)
      requires Valid() && Passing(lists, base, work, free, visited, all, closed)
      requires visited <= all && |visited| < |all| && all[|visited|] == pos
      modifies this
      ensures Valid() && |nodes| == |old(nodes)| && Passing(lists, base, work, free, visited + [pos], all, closed)
    {
      hide Ring, RingsOk, LooseIn, RemoveAt, Open, Moved;
      ghost var rest, k := all[|visited|..], |Open(visited, closed)|;
      VisitMore(visited, pos, closed);
      RestSplits(all, visited, pos);
      if closed(pos) {
        RemoveFirst(Open(visited, closed), rest);
        Move(pos, free, work, k);
        assert Open(visited, closed) + [] == Open(visited, closed) && rest[1..] == all[|visited + [pos]|..];
        assert lists == base[work := Open(visited, closed) + rest[1..]][free := [pos] + (Moved(visited, closed) + base[free])];
        assert [pos] + (Moved(visited, closed) + base[free]) == ([pos] + Moved(visited, closed)) + base[free];
      } else {
        assert rest == [pos] + all[|visited + [pos]|..];
        assert Open(visited, closed) + rest == (Open(visited, closed) + [pos]) + all[|visited + [pos]|..];
        assert [] + Moved(visited, closed) == Moved(visited, closed);
      }
    }

    /** The pass over the work list in ClientRecSndThread, with list_for_each_safe: the clients that are
        closed go to the free list. Each client that was at work is visited once, in order. */
    method MoveClosed(work: int, free: int, closed: int -> bool) returns (visited: seq<int>)
      requires Valid() && work in lists && free in lists && work != free
      modifies this
      ensures Valid() && |nodes| == |old(nodes)| && visited == old(lists)[work]
      ensures lists == old(lists)[work := Open(old(lists)[work], closed)]
                                 [free := Moved(old(lists)[work], closed) + old(lists)[free]]
      ensures Both(lists, work, free) == Both(old(lists), work, free)
      ensures forall x :: x in lists[work] <==> x in old(lists)[work] && !closed(x)
      ensures forall x :: x in lists[free] <==> x in old(lists)[free] || (x in old(lists)[work] && closed(x))
    {
      hide Ring, RingsOk, LooseIn, RemoveAt, Open, Moved, Passing;
      ghost var base, all := lists, lists[work];
      visited := [];
      HeadNext(nodes, lists, work);
      PassStarts(base, work, free, closed);
      var pos := nodes[work].next;
      var n := nodes[pos].next;
      while pos != work
        invariant Valid() && |nodes| == |old(nodes)| && visited <= all
        invariant Passing(lists, base, work, free, visited, all, closed)
        invariant Positioned(work, all[|visited|..], pos, n)
        decreases |all| - |visited|
      {
        RestSplits(all, visited, pos);
        Visit(pos, work, free, closed, base, visited, all);
        visited := visited + [pos];
        pos := n;
        PassNext(nodes, lists, base, work, free, visited, all, closed);
        n := nodes[pos].next;
      }
      PassEnds(lists, base, work, free, visited, all, closed);
      SameClients(base, lists, work, free, closed);
      ClosedMove(all, closed);
    }

    /** The part of ClientRecSndThread that accepts a connection: the first free client goes to work, if there is one. */
    method Accept(work: int, free: int) returns (client: int)
      requires Valid() && work in lists && free in lists && work != free
      modifies this
      ensures Valid() && |nodes| == |old(nodes)| && (client == NULL <==> old(lists)[free] == [])
      ensures client == NULL ==> lists == old(lists)
      ensures client != NULL ==> var waiting := old(lists)[free];
        client == waiting[0] && lists == old(lists)[free := waiting[1..]][work := [client] + old(lists)[work]]
      ensures Both(lists, work, free) == Both(old(lists), work, free)
    {
      hide Ring, RingsOk;
      client := NULL;
      var empty := IsEmpty(free);
      if !empty {
        HeadNext(nodes, lists, free);
        client := nodes[free].next;
        ghost var was := lists;
        ghost var waiting := lists[free];
        OneOf(nodes, lists, free);
        RingHas(nodes, CircleOf(lists, free), 1);
        Move(client, work, free, 0);
        assert RemoveAt(waiting, 0) == waiting[1..];
        assert lists == was[free := waiting[1..]][work := [client] + was[work]];
        FirstMoves(was, work, free);
      }
    }

    /** The set-up of the clients in InitServer: nodes 0 to n - 1 are the clients, the next two the heads. */
    constructor Clients(n: nat)
      ensures Valid() && |nodes| == n + 2 && Partitioned(lists, n + 1, n, n) && lists[n + 1] == []
    {
      nodes, lists := seq(n + 2, i => Link(NULL, NULL)), map[];
      new;
      hide Ring, Disjoint;
      assert Valid();
      InitHead(n);
      InitHead(n + 1);
      for i := 0 to n
        invariant Valid() && |nodes| == n + 2 && lists == map[n := Downto(i), n + 1 := []]
      {
        NotYet(nodes, n, i);
        Add(i, n);
      }
      EachOnce(n);
    }
  }

  // ----- every client is on one of two lists

  /** The clients on both lists. */
  function Both(lists: map<int, seq<int>>, work: int, free: int): multiset<int>
    requires work in lists && free in lists
  {
    multiset(lists[work]) + multiset(lists[free])
  }

  /** The two lists partition the clients: each of the n is on exactly one of them, once, and nobody else is. */
  predicate Partitioned(lists: map<int, seq<int>>, work: int, free: int, n: nat) {
    && work in lists && free in lists && work != free
    && (forall i :: 0 <= i < n ==> Both(lists, work, free)[i] == 1)
    && forall x :: x in Both(lists, work, free) ==> 0 <= x < n
  }

  /** i - 1, ..., 1, 0: the clients in the order they are added to the front. */
  function Downto(i: nat): seq<int> {
    if i == 0 then [] else [i - 1] + Downto(i - 1)
  }

  lemma {:induction false} DowntoHas(i: nat)
    ensures forall x :: multiset(Downto(i))[x] == if 0 <= x < i then 1 else 0
  {
    if i > 0 {
      DowntoHas(i - 1);
      assert multiset(Downto(i)) == multiset{i - 1} + multiset(Downto(i - 1));
    }
  }

  lemma EachOnce(n: nat)
    ensures Partitioned(map[n := Downto(n), n + 1 := []], n + 1, n, n)
  {
    DowntoHas(n);
  }

  lemma NotYet(nodes: seq<Link>, n: nat, i: nat)
    requires i < n && |nodes| == n + 2
    ensures LooseIn(nodes, map[n := Downto(i), n + 1 := []], i)
  {
    DowntoHas(i);
    assert i !in multiset(Downto(i));
  }

  lemma FirstMoves(lists: map<int, seq<int>>, work: int, free: int)
    requires work in lists && free in lists && work != free && lists[free] != []
    ensures var c := lists[free][0];
      Both(lists[free := lists[free][1..]][work := [c] + lists[work]], work, free) == Both(lists, work, free)
  {
    var c := lists[free][0];
    assert lists[free] == [c] + lists[free][1..];
  }

  lemma SameClients(base: map<int, seq<int>>, lists: map<int, seq<int>>, work: int, free: int, closed: int -> bool)
    requires work in base && free in base && work != free
    requires lists == base[work := Open(base[work], closed)][free := Moved(base[work], closed) + base[free]]
    ensures Both(lists, work, free) == Both(base, work, free)
  {
    NobodyLost(base[work], closed);
  }

  /** One turn of the thread: closed clients go to the free list, and a connection may come in. */
  datatype Turn = Turn(closed: int -> bool, connection: bool)

  /** From the set-up on, after any turns: the work list and the free list partition the clients. */
  method Serve(n: nat, turns: seq<Turn>) returns (clients: Lists)
    ensures fresh(clients) && clients.Valid() && Partitioned(clients.lists, n + 1, n, n)
  {
    hide Lists.Valid, Open, Moved;
    clients := new Lists.Clients(n);
    for i := 0 to |turns|
      invariant fresh(clients) && clients.Valid() && Partitioned(clients.lists, n + 1, n, n)
    {
      var visited := clients.MoveClosed(n + 1, n, turns[i].closed);
      if turns[i].connection {
        var client := clients.Accept(n + 1, n);
      }
    }
  }

  // ----- the pass over the work list

  function Open(visited: seq<int>, closed: int -> bool): seq<int> {
    if visited == [] then []
    else Open(visited[..|visited| - 1], closed) + if closed(visited[|visited| - 1]) then [] else [visited[|visited| - 1]]
  }

  /** The last one moved is the first in the free list. */
  function Moved(visited: seq<int>, closed: int -> bool): seq<int> {
    if visited == [] then []
    else (if closed(visited[|visited| - 1]) then [visited[|visited| - 1]] else []) + Moved(visited[..|visited| - 1], closed)
  }

  /** The closed ones are moved, the others stay. */
  lemma {:induction false} ClosedMove(visited: seq<int>, closed: int -> bool)
    ensures forall x :: x in Open(visited, closed) <==> x in visited && !closed(x)
    ensures forall x :: x in Moved(visited, closed) <==> x in visited && closed(x)
  {
    if visited != [] {
      var front, last := visited[..|visited| - 1], visited[|visited| - 1];
      ClosedMove(front, closed);
      assert visited == front + [last];
    }
  }

  /** pos is at the rest of the list, and n is what follows pos. */
  predicate Positioned(work: int, rest: seq<int>, pos: int, n: int) {
    && pos == (if rest == [] then work else rest[0]) && (rest != [] ==> pos != work)
    && (rest != [] ==> n == if |rest| > 1 then rest[1] else work)
  }

  /** What the lists are when some clients have been visited. */
  predicate Passing(lists: map<int, seq<int>>, base: map<int, seq<int>>, work: int, free: int,
                    visited: seq<int>, all: seq<int>, closed: int -> bool) {
    && work in base && free in base && work != free && all == base[work] && |visited| <= |all|
    && lists == base[work := Open(visited, closed) + all[|visited|..]][free := Moved(visited, closed) + base[free]]
  }

  lemma PassStarts(base: map<int, seq<int>>, work: int, free: int, closed: int -> bool)
    requires work in base && free in base && work != free
    ensures Passing(base, base, work, free, [], base[work], closed) && base[work][0..] == base[work]
  {
    assert Open([], closed) + base[work][0..] == base[work] && Moved([], closed) + base[free] == base[free];
    assert base == base[work := base[work]][free := base[free]];
  }

  lemma PassEnds(lists: map<int, seq<int>>, base: map<int, seq<int>>, work: int, free: int,
                 visited: seq<int>, all: seq<int>, closed: int -> bool)
    requires Passing(lists, base, work, free, visited, all, closed) && visited <= all && all[|visited|..] == []
    ensures visited == all
    ensures lists == base[work := Open(all, closed)][free := Moved(all, closed) + base[free]]
  {
    assert Open(all, closed) + [] == Open(all, closed);
  }

  lemma PassNext(nodes: seq<Link>, lists: map<int, seq<int>>, base: map<int, seq<int>>, work: int, free: int,
                 visited: seq<int>, all: seq<int>, closed: int -> bool)
    requires RingsOk(nodes, lists) && Passing(lists, base, work, free, visited, all, closed)
    ensures var rest := all[|visited|..];
      var pos := if rest == [] then work else rest[0];
      0 <= pos < |nodes| && Positioned(work, rest, pos, nodes[pos].next)
  {
    hide RingsOk, Open, Moved;
    var opened_ := Open(visited, closed);
    assert lists[work][|opened_|..] == all[|visited|..];
    NextNode(nodes, lists, work, |opened_|, all[|visited|..]);
  }

  /** The clients stay the same: none is lost or doubled between the two lists. */
  lemma {:induction false} NobodyLost(visited: seq<int>, closed: int -> bool)
    ensures multiset(Open(visited, closed)) + multiset(Moved(visited, closed)) == multiset(visited)
  {
    if visited != [] {
      var front, last := visited[..|visited| - 1], visited[|visited| - 1];
      NobodyLost(front, closed);
      assert visited == front + [last];
    }
  }

  lemma VisitMore(visited: seq<int>, x: int, closed: int -> bool)
    ensures Open(visited + [x], closed) == Open(visited, closed) + if closed(x) then [] else [x]
    ensures Moved(visited + [x], closed) == (if closed(x) then [x] else []) + Moved(visited, closed)
  {
    assert (visited + [x])[..|visited|] == visited;
  }

  lemma RestSplits(all: seq<int>, visited: seq<int>, x: int)
    requires visited <= all && |visited| < |all| && all[|visited|] == x
    ensures visited + [x] <= all && all[|visited|..] == [x] + all[|visited + [x]|..]
  {
  }

  lemma RemoveFirst(before: seq<int>, rest: seq<int>)
    requires rest != []
    ensures RemoveAt(before + rest, |before|) == before + rest[1..]
  {
  }

  lemma OneRing(nodes: seq<Link>, head: int)
    requires 0 <= head < |nodes| && nodes[head] == Link(head, head)
    ensures Ring(nodes, [head])
  {
    assert LinkedAt(nodes, [head], 0);
  }

  lemma LooseApart(ring: seq<int>, x: int)
    requires x !in ring
    ensures Disjoint(ring, [x]) && Disjoint([x], ring)
    ensures forall i :: 0 <= i < |ring| ==> ring[i] != x
  {
  }

  lemma OneOf(nodes: seq<Link>, lists: map<int, seq<int>>, head: int)
    requires RingsOk(nodes, lists) && head in lists
    ensures Ring(nodes, CircleOf(lists, head))
  {
  }

  lemma NotIn(nodes: seq<Link>, lists: map<int, seq<int>>, head: int, x: int)
    requires RingsOk(nodes, lists) && head in lists && LooseIn(nodes, lists, x)
    ensures var c := CircleOf(lists, head); x != head && x != NextIn(c, 0) && x != PrevIn(c, 0)
  {
    var c := CircleOf(lists, head);
    assert x !in c;
    assert head == c[0] && NextIn(c, 0) in c && PrevIn(c, 0) in c;
  }

  lemma SplicedLength(nodes: seq<Link>, after: seq<Link>, x: int, prev: int, next: int)
    requires Spliced(nodes, after, x, prev, next)
    ensures |after| == |nodes|
  {
  }

  lemma UnsplicedLength(nodes: seq<Link>, after: seq<Link>, x: int, prev: int, next: int)
    requires Unspliced(nodes, after, x, prev, next)
    ensures |after| == |nodes|
  {
  }

  lemma LooseSet(nodes: seq<Link>, lists: map<int, seq<int>>, x: int, link: Link)
    requires RingsOk(nodes, lists) && LooseIn(nodes, lists, x)
    ensures RingsOk(nodes[x := link], lists) && LooseIn(nodes[x := link], lists, x)
  {
    hide Ring;
    forall h | h in lists
      ensures Ring(nodes[x := link], CircleOf(lists, h))
    {
      RingSame(nodes, nodes[x := link], CircleOf(lists, h));
    }
  }

  lemma HeadNext(nodes: seq<Link>, lists: map<int, seq<int>>, head: int)
    requires RingsOk(nodes, lists) && head in lists
    ensures 0 <= head < |nodes| && 0 <= nodes[head].next < |nodes|
    ensures Positioned(head, lists[head], nodes[head].next, nodes[nodes[head].next].next)
  {
    hide RingsOk, Ring;
    OneOf(nodes, lists, head);
    var c := CircleOf(lists, head);
    RingHas(nodes, c, 0);
    if lists[head] != [] {
      RingHas(nodes, c, 1);
      assert c[1] == lists[head][0];
    }
  }

  /** What follows the node at the rest of the list. */
  lemma NextNode(nodes: seq<Link>, lists: map<int, seq<int>>, head: int, k: nat, rest: seq<int>)
    requires RingsOk(nodes, lists) && head in lists && k <= |lists[head]| && lists[head][k..] == rest
    ensures var pos := if rest == [] then head else rest[0];
      0 <= pos < |nodes| && Positioned(head, rest, pos, nodes[pos].next)
  {
    hide RingsOk, Ring;
    OneOf(nodes, lists, head);
    var c := CircleOf(lists, head);
    RingHas(nodes, c, 0);
    if rest != [] {
      RingHas(nodes, c, k + 1);
      assert c[k + 1] == lists[head][k] == rest[0];
      assert c[k + 1] !in c[..k + 1] && head == c[..k + 1][0];
      if |rest| > 1 {
        assert c[k + 2] == lists[head][k + 1] == rest[1];
      }
    }
  }
}
