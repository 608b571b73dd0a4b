/** iks.c: the nodes of a document, linked by next, prev and parent, and the operations that edit
    them. Nodes live in one object stack and are named by their index there; -1 is NULL. */
module Iks {
  import opened Xml
  import Dom

  const NULL := -1

  datatype Kind = TagNode | CdataNode | AttributeNode

  /** struct iks_tag, iks_cdata and iks_attrib in one: `name` is a tag's or an attribute's, `text` is
      the character data of a cdata node or the value of an attribute. */
  datatype Node = Node(
    next: int, prev: int, parent: int, kind: Kind,
    children: int, lastChild: int, attribs: int, lastAttrib: int,
    name: string, text: string)

  function NewNode(kind: Kind, name: string, text: string): Node {
    Node(NULL, NULL, NULL, kind, NULL, NULL, NULL, NULL, name, text)
  }

  // ----- chains of siblings

  function At(ids: seq<int>, i: int): int {
    if 0 <= i < |ids| then ids[i] else NULL
  }

  function InsertAt(ids: seq<int>, k: nat, y: int): seq<int>
    requires k <= |ids|
  {
    ids[..k] + [y] + ids[k..]
  }

  function RemoveAt(ids: seq<int>, k: nat): seq<int>
    requires k < |ids|
  {
    ids[..k] + ids[k + 1..]
  }

  predicate Sibling(nodes: seq<Node>, p: int, ids: seq<int>, i: nat)
    requires i < |ids|
  {
    && 0 <= ids[i] < |nodes| && nodes[ids[i]].parent == p
    && nodes[ids[i]].next == At(ids, i + 1) && nodes[ids[i]].prev == At(ids, i - 1)
  }

  /** ids is a doubly linked chain under p, from first to last. */
  predicate Chain(nodes: seq<Node>, p: int, ids: seq<int>, first: int, last: int) {
    && first == At(ids, 0) && last == At(ids, |ids| - 1)
    && forall i: nat :: i < |ids| ==> Sibling(nodes, p, ids, i)
  }

  lemma ChainDistinctAt(nodes: seq<Node>, p: int, ids: seq<int>, first: int, last: int, i: nat, j: nat)
    requires Chain(nodes, p, ids, first, last) && i < j < |ids|
    ensures ids[i] != ids[j]
    decreases i
  {
    assert Sibling(nodes, p, ids, i) && Sibling(nodes, p, ids, j);
    assert Sibling(nodes, p, ids, j - 1);
    if i > 0 {
      ChainDistinctAt(nodes, p, ids, first, last, i - 1, j - 1);
    }
  }

  /** No node is twice in a chain. */
  lemma ChainDistinct(nodes: seq<Node>, p: int, ids: seq<int>, first: int, last: int)
    requires Chain(nodes, p, ids, first, last)
    ensures forall i, j :: 0 <= i < j < |ids| ==> ids[i] != ids[j]
  {
    forall i, j | 0 <= i < j < |ids|
      ensures ids[i] != ids[j]
    {
      ChainDistinctAt(nodes, p, ids, first, last, i, j);
    }
  }

  /** The links of a node after y has been put in front of position k of the chain ids under p. */
  function LinkedIn(n: Node, i: int, p: int, ids: seq<int>, k: nat, y: int): Node {
    n.(parent := if i == y then p else n.parent,
       next := if i == y then At(ids, k) else if i == At(ids, k - 1) then y else n.next,
       prev := if i == y then At(ids, k - 1) else if i == At(ids, k) then y else n.prev)
  }

  /** The links of a node after the one at position k has been taken out of the chain; the node taken
      out keeps its own. */
  function LinkedOut(n: Node, i: int, ids: seq<int>, k: nat): Node {
    n.(next := if i == At(ids, k - 1) then At(ids, k + 1) else n.next,
       prev := if i == At(ids, k + 1) then At(ids, k - 1) else n.prev)
  }

  predicate SameLinks(m: Node, n: Node) {
    m.parent == n.parent && m.next == n.next && m.prev == n.prev
  }

  lemma ChainInsert(nodes: seq<Node>, after: seq<Node>, p: int, ids: seq<int>, first: int, last: int, k: nat, y: int)
    requires Chain(nodes, p, ids, first, last) && k <= |ids| && 0 <= y < |nodes| == |after| && y !in ids
    requires forall i :: 0 <= i < |nodes| ==> SameLinks(after[i], LinkedIn(nodes[i], i, p, ids, k, y))
    ensures Chain(after, p, InsertAt(ids, k, y), if k == 0 then y else first, if k == |ids| then y else last)
  {
    ChainDistinct(nodes, p, ids, first, last);
    var new_ := InsertAt(ids, k, y);
    forall i: nat | i < |new_|
      ensures Sibling(after, p, new_, i)
    {
      if i != k {
        assert Sibling(nodes, p, ids, if i < k then i else i - 1);
      }
    }
  }

  lemma ChainRemove(nodes: seq<Node>, after: seq<Node>, p: int, ids: seq<int>, first: int, last: int, k: nat)
    requires Chain(nodes, p, ids, first, last) && k < |ids| && |nodes| == |after|
    requires forall i :: 0 <= i < |nodes| ==> SameLinks(after[i], LinkedOut(nodes[i], i, ids, k))
    ensures Chain(after, p, RemoveAt(ids, k),
                  if k == 0 then At(ids, 1) else first, if k == |ids| - 1 then At(ids, k - 1) else last)
  {
    ChainDistinct(nodes, p, ids, first, last);
    var rest := RemoveAt(ids, k);
    forall i: nat | i < |rest|
      ensures Sibling(after, p, rest, i)
    {
      assert Sibling(nodes, p, ids, if i < k then i else i + 1);
    }
  }

  lemma ChainSame(nodes: seq<Node>, after: seq<Node>, p: int, ids: seq<int>, first: int, last: int)
    requires Chain(nodes, p, ids, first, last) && |nodes| <= |after|
    requires forall id :: id in ids && 0 <= id < |nodes| ==> SameLinks(after[id], nodes[id])
    ensures Chain(after, p, ids, first, last)
  {
    forall i: nat | i < |ids|
      ensures Sibling(after, p, ids, i)
    {
      assert Sibling(nodes, p, ids, i);
    }
  }

  // ----- a document

  /** The nodes, with the children and the attributes of each. */
  datatype Arena = Arena(nodes: seq<Node>, kids: seq<seq<int>>, atrs: seq<seq<int>>)
  {
    predicate Sized() {
      |kids| == |atrs| == |nodes|
    }

    predicate Has(x: int) {
      0 <= x < |nodes|
    }

    predicate IsTag(x: int) {
      Has(x) && nodes[x].kind == TagNode
    }

    /** Without a parent and siblings: a new node, or the root of a tree. */
    predicate IsRoot(x: int) {
      && Has(x) && nodes[x].kind != AttributeNode
      && nodes[x].parent == nodes[x].next == nodes[x].prev == NULL
    }

    /** The k-th child of its parent. */
    predicate IsKid(x: int, k: nat)
      requires Sized()
    {
      && Has(x) && Has(nodes[x].parent)
      && k < |kids[nodes[x].parent]| && kids[nodes[x].parent][k] == x
    }

    predicate KidsKind(p: int)
      requires Sized() && Has(p)
    {
      forall i :: 0 <= i < |kids[p]| ==> Has(kids[p][i]) && nodes[kids[p][i]].kind != AttributeNode
    }

    predicate AtrsKind(p: int)
      requires Sized() && Has(p)
    {
      forall i :: 0 <= i < |atrs[p]| ==> Has(atrs[p][i]) && nodes[atrs[p][i]].kind == AttributeNode
    }

    predicate UniqueNames(p: int)
      requires Sized() && Has(p) && AtrsKind(p)
    {
      forall i, j :: 0 <= i < j < |atrs[p]| ==> nodes[atrs[p][i]].name != nodes[atrs[p][j]].name
    }

    predicate Local(p: int)
      requires Sized() && Has(p)
    {
      && Chain(nodes, p, kids[p], nodes[p].children, nodes[p].lastChild)
      && Chain(nodes, p, atrs[p], nodes[p].attribs, nodes[p].lastAttrib)
      && KidsKind(p) && AtrsKind(p) && UniqueNames(p)
      && (nodes[p].kind != TagNode ==> kids[p] == [] && atrs[p] == [])
    }

    /** Every node's children and attributes are well linked: prev and next are inverse, the ends are
        NULL, parents are right, attribute names are unique. */
    ghost predicate Linked(): (b: bool)
      ensures b ==> Sized()
    {
      Sized() && forall p :: Has(p) ==> Local(p)
    }

    /** What is in the tree at x, its place among its siblings aside. */
    predicate SameContent(that: Arena, x: int) {
      && Sized() && that.Sized() && Has(x) && that.Has(x)
      && nodes[x].kind == that.nodes[x].kind && nodes[x].name == that.nodes[x].name && nodes[x].text == that.nodes[x].text
      && kids[x] == that.kids[x] && atrs[x] == that.atrs[x]
    }
  }

  /** The names and values of attribute nodes. */
  function AttrsOf(nodes: seq<Node>, ids: seq<int>): Attrs
    requires forall i :: 0 <= i < |ids| ==> 0 <= ids[i] < |nodes|
  {
    seq(|ids|, i requires 0 <= i < |ids| => (nodes[ids[i]].name, nodes[ids[i]].text))
  }

  lemma KidHome(a: Arena, p: int, id: int)
    requires a.Linked() && a.Has(p)
    ensures id in a.kids[p] ==> a.Has(id) && a.nodes[id].parent == p && a.nodes[id].kind != AttributeNode
    ensures id in a.atrs[p] ==> a.Has(id) && a.nodes[id].parent == p && a.nodes[id].kind == AttributeNode
  {
    assert a.Local(p);
    if id in a.kids[p] {
      var k :| 0 <= k < |a.kids[p]| && a.kids[p][k] == id;
      assert Sibling(a.nodes, p, a.kids[p], k);
    }
    if id in a.atrs[p] {
      var k :| 0 <= k < |a.atrs[p]| && a.atrs[p][k] == id;
      assert Sibling(a.nodes, p, a.atrs[p], k);
    }
  }

  // ----- one new node

  function Allocated(a: Arena, n: Node): Arena {
    Arena(a.nodes + [n], a.kids + [[]], a.atrs + [[]])
  }

  lemma AllocateLinked(a: Arena, n: Node)
    requires a.Linked() && n.children == n.lastChild == n.attribs == n.lastAttrib == NULL
    ensures Allocated(a, n).Linked()
  {
    hide Chain;
    var b := Allocated(a, n);
    forall p | b.Has(p)
      ensures b.Local(p)
    {
      if p < |a.nodes| {
        assert a.Local(p);
        ChainSame(a.nodes, b.nodes, p, a.kids[p], a.nodes[p].children, a.nodes[p].lastChild);
        ChainSame(a.nodes, b.nodes, p, a.atrs[p], a.nodes[p].attribs, a.nodes[p].lastAttrib);
        assert b.KidsKind(p) && b.AtrsKind(p) && b.UniqueNames(p);
      } else {
        EmptyChain(b.nodes, p);
      }
    }
  }

  lemma EmptyChain(nodes: seq<Node>, p: int)
    ensures Chain(nodes, p, [], NULL, NULL)
  {
  }

  // ----- a child is put in or taken out

  predicate KidInserted(a: Arena, x: int, k: nat, y: int, after: seq<Node>)
    requires a.Sized() && a.Has(x) && k <= |a.kids[x]|
  {
    |after| == |a.nodes| && forall i :: 0 <= i < |after| ==>
      var n := LinkedIn(a.nodes[i], i, x, a.kids[x], k, y);
      after[i] == n.(children := if i == x && k == 0 then y else n.children,
                     lastChild := if i == x && k == |a.kids[x]| then y else n.lastChild)
  }

  predicate KidRemoved(a: Arena, x: int, k: nat, after: seq<Node>)
    requires a.Sized() && a.Has(x) && k < |a.kids[x]|
  {
    |after| == |a.nodes| && forall i :: 0 <= i < |after| ==>
      var n := LinkedOut(a.nodes[i], i, a.kids[x], k);
      after[i] == n.(children := if i == x && k == 0 then At(a.kids[x], 1) else n.children,
                     lastChild := if i == x && k == |a.kids[x]| - 1 then At(a.kids[x], k - 1) else n.lastChild)
  }

  lemma KidInsertLinked(a: Arena, x: int, k: nat, y: int, after: seq<Node>)
    requires a.Linked() && a.IsTag(x) && k <= |a.kids[x]| && a.IsRoot(y) && KidInserted(a, x, k, y, after)
    ensures Arena(after, a.kids[x := InsertAt(a.kids[x], k, y)], a.atrs).Linked()
  {
    hide Chain;
    var b := Arena(after, a.kids[x := InsertAt(a.kids[x], k, y)], a.atrs);
    assert y !in a.kids[x] by {
      KidHome(a, x, y);
    }
    forall p | b.Has(p)
      ensures b.Local(p)
    {
      assert a.Local(p);
      KidsApart(a, p, x);
      KeptKinds(a, b, p, y);
      ChainKept(a.nodes, after, p, a.atrs[p], a.nodes[p].attribs, a.nodes[p].lastAttrib, x, k, y, a.kids[x]);
      if p == x {
        ChainInsert(a.nodes, after, x, a.kids[x], a.nodes[x].children, a.nodes[x].lastChild, k, y);
      } else {
        ChainKept(a.nodes, after, p, a.kids[p], a.nodes[p].children, a.nodes[p].lastChild, x, k, y, a.kids[x]);
      }
    }
  }

  /** The attributes of p and, for another p, its children are not among the children of x. */
  lemma KidsApart(a: Arena, p: int, x: int)
    requires a.Linked() && a.Has(p) && a.Has(x)
    ensures forall id :: id in a.kids[x] ==> id !in a.atrs[p] && (p != x ==> id !in a.kids[p])
    ensures forall id :: id in a.atrs[x] ==> id !in a.kids[p] && (p != x ==> id !in a.atrs[p])
    ensures forall id :: id in a.kids[p] || id in a.atrs[p] ==> a.Has(id) && a.nodes[id].parent == p
  {
    hide Arena.Linked;
    assert a.Sized();
    forall id
      ensures id in a.kids[x] ==> id !in a.atrs[p] && (p != x ==> id !in a.kids[p])
      ensures id in a.atrs[x] ==> id !in a.kids[p] && (p != x ==> id !in a.atrs[p])
      ensures id in a.kids[p] || id in a.atrs[p] ==> a.Has(id) && a.nodes[id].parent == p
    {
      KidHome(a, x, id);
      KidHome(a, p, id);
    }
  }

  lemma ChainKept(nodes: seq<Node>, after: seq<Node>, p: int, ids: seq<int>, first: int, last: int,
                  x: int, k: nat, y: int, chain: seq<int>)
    requires Chain(nodes, p, ids, first, last) && |nodes| == |after| && y !in ids
    requires forall id :: id in chain ==> id !in ids
    requires forall id :: id in ids ==> 0 <= id < |nodes|
    requires forall i :: 0 <= i < |nodes| ==> SameLinks(after[i], LinkedIn(nodes[i], i, x, chain, k, y))
    ensures Chain(after, p, ids, first, last)
  {
    hide Chain;
    forall id | id in ids
      ensures SameLinks(after[id], nodes[id])
    {
      assert id != At(chain, k) && id != At(chain, k - 1);
    }
    ChainSame(nodes, after, p, ids, first, last);
  }

  lemma KeptKinds(a: Arena, b: Arena, p: int, y: int)
    requires a.Sized() && b.Sized() && |a.nodes| == |b.nodes| && a.Has(p) && a.Local(p)
    requires forall i :: 0 <= i < |a.nodes| ==> a.nodes[i].kind == b.nodes[i].kind && a.nodes[i].name == b.nodes[i].name
    requires a.Has(y) && a.nodes[y].kind != AttributeNode
    requires forall i :: 0 <= i < |b.kids[p]| ==> b.kids[p][i] in a.kids[p] || b.kids[p][i] == y
    requires b.atrs == a.atrs
    ensures b.KidsKind(p) && b.AtrsKind(p) && b.UniqueNames(p)
  {
    hide Chain;
  }

  lemma KidRemoveLinked(a: Arena, x: int, k: nat, after: seq<Node>)
    requires a.Linked() && a.Has(x) && k < |a.kids[x]| && KidRemoved(a, x, k, after)
    ensures Arena(after, a.kids[x := RemoveAt(a.kids[x], k)], a.atrs).Linked()
  {
    hide Chain;
    var b := Arena(after, a.kids[x := RemoveAt(a.kids[x], k)], a.atrs);
    forall p | b.Has(p)
      ensures b.Local(p)
    {
      assert a.Local(p) && a.Local(x);
      KidsApart(a, p, x);
      KeptKinds(a, b, p, x);
      ChainOutKept(a.nodes, after, p, a.atrs[p], a.nodes[p].attribs, a.nodes[p].lastAttrib, k, a.kids[x]);
      if p == x {
        ChainRemove(a.nodes, after, x, a.kids[x], a.nodes[x].children, a.nodes[x].lastChild, k);
      } else {
        ChainOutKept(a.nodes, after, p, a.kids[p], a.nodes[p].children, a.nodes[p].lastChild, k, a.kids[x]);
      }
    }
  }

  lemma ChainOutKept(nodes: seq<Node>, after: seq<Node>, p: int, ids: seq<int>, first: int, last: int, k: nat, chain: seq<int>)
    requires Chain(nodes, p, ids, first, last) && |nodes| == |after|
    requires forall id :: id in chain ==> id !in ids
    requires forall id :: id in ids ==> 0 <= id < |nodes|
    requires forall i :: 0 <= i < |nodes| ==> SameLinks(after[i], LinkedOut(nodes[i], i, chain, k))
    ensures Chain(after, p, ids, first, last)
  {
    hide Chain;
    forall id | id in ids
      ensures SameLinks(after[id], nodes[id])
    {
      assert id != At(chain, k + 1) && id != At(chain, k - 1);
    }
    ChainSame(nodes, after, p, ids, first, last);
  }

  // ----- an attribute is put in at the end, or taken out

  predicate AttrAdded(a: Arena, x: int, y: int, after: seq<Node>)
    requires a.Sized() && a.Has(x)
  {
    |after| == |a.nodes| && forall i :: 0 <= i < |after| ==>
      var n := LinkedIn(a.nodes[i], i, x, a.atrs[x], |a.atrs[x]|, y);
      after[i] == n.(attribs := if i == x && a.atrs[x] == [] then y else n.attribs,
                     lastAttrib := if i == x then y else n.lastAttrib)
  }

  predicate AttrRemoved(a: Arena, x: int, k: nat, after: seq<Node>)
    requires a.Sized() && a.Has(x) && k < |a.atrs[x]|
  {
    |after| == |a.nodes| && forall i :: 0 <= i < |after| ==>
      var n := LinkedOut(a.nodes[i], i, a.atrs[x], k);
      after[i] == n.(attribs := if i == x && k == 0 then At(a.atrs[x], 1) else n.attribs,
                     lastAttrib := if i == x && k == |a.atrs[x]| - 1 then At(a.atrs[x], k - 1) else n.lastAttrib)
  }

  lemma AttrAddLinked(a: Arena, x: int, y: int, after: seq<Node>)
    requires a.Linked() && a.IsTag(x) && AttrAdded(a, x, y, after)
    requires a.Has(y) && a.nodes[y].kind == AttributeNode && a.nodes[y].parent == NULL
    requires forall i :: 0 <= i < |a.atrs[x]| && a.Has(a.atrs[x][i]) ==> a.nodes[a.atrs[x][i]].name != a.nodes[y].name
    ensures Arena(after, a.kids, a.atrs[x := a.atrs[x] + [y]]).Linked()
  {
    hide Chain;
    var b := Arena(after, a.kids, a.atrs[x := a.atrs[x] + [y]]);
    forall p | b.Has(p)
      ensures b.Local(p)
    {
      assert a.Local(p) && a.Local(x);
      KidsApart(a, p, x);
      AttrKinds(a, b, p);
      var n := |a.atrs[x]|;
      ChainKept(a.nodes, after, p, a.kids[p], a.nodes[p].children, a.nodes[p].lastChild, x, n, y, a.atrs[x]);
      if p == x {
        ChainInsert(a.nodes, after, x, a.atrs[x], a.nodes[x].attribs, a.nodes[x].lastAttrib, n, y);
        assert InsertAt(a.atrs[x], n, y) == a.atrs[x] + [y];
      } else {
        ChainKept(a.nodes, after, p, a.atrs[p], a.nodes[p].attribs, a.nodes[p].lastAttrib, x, n, y, a.atrs[x]);
      }
    }
  }

  lemma AttrKinds(a: Arena, b: Arena, p: int)
    requires a.Sized() && b.Sized() && |a.nodes| == |b.nodes| && a.Has(p) && a.Local(p)
    requires forall i :: 0 <= i < |a.nodes| ==> a.nodes[i].kind == b.nodes[i].kind && a.nodes[i].name == b.nodes[i].name
    requires b.kids == a.kids
    requires b.atrs[p] == a.atrs[p] ||
      exists y :: b.atrs[p] == a.atrs[p] + [y] && a.Has(y) && a.nodes[y].kind == AttributeNode
        && forall i :: 0 <= i < |a.atrs[p]| ==> a.nodes[a.atrs[p][i]].name != a.nodes[y].name
    ensures b.KidsKind(p) && b.AtrsKind(p) && b.UniqueNames(p)
  {
    hide Chain;
  }

  lemma FewerKinds(a: Arena, b: Arena, p: int, k: nat)
    requires a.Sized() && b.Sized() && |a.nodes| == |b.nodes| && a.Has(p) && a.Local(p)
    requires forall i :: 0 <= i < |a.nodes| ==> a.nodes[i].kind == b.nodes[i].kind && a.nodes[i].name == b.nodes[i].name
    requires b.kids == a.kids
    requires b.atrs[p] == a.atrs[p] || (k < |a.atrs[p]| && b.atrs[p] == RemoveAt(a.atrs[p], k))
    ensures b.KidsKind(p) && b.AtrsKind(p) && b.UniqueNames(p)
  {
    hide Chain;
  }

  lemma AttrRemoveLinked(a: Arena, x: int, k: nat, after: seq<Node>)
    requires a.Linked() && a.Has(x) && k < |a.atrs[x]| && AttrRemoved(a, x, k, after)
    ensures Arena(after, a.kids, a.atrs[x := RemoveAt(a.atrs[x], k)]).Linked()
  {
    hide Chain;
    var b := Arena(after, a.kids, a.atrs[x := RemoveAt(a.atrs[x], k)]);
    forall p | b.Has(p)
      ensures b.Local(p)
    {
      assert a.Local(p) && a.Local(x);
      KidsApart(a, p, x);
      FewerKinds(a, b, p, k);
      ChainOutKept(a.nodes, after, p, a.kids[p], a.nodes[p].children, a.nodes[p].lastChild, k, a.atrs[x]);
      if p == x {
        ChainRemove(a.nodes, after, x, a.atrs[x], a.nodes[x].attribs, a.nodes[x].lastAttrib, k);
      } else {
        ChainOutKept(a.nodes, after, p, a.atrs[p], a.nodes[p].attribs, a.nodes[p].lastAttrib, k, a.atrs[x]);
      }
    }
  }

  lemma TextSetLinked(a: Arena, y: int, text: string)
    requires a.Linked() && a.Has(y)
    ensures a.(nodes := a.nodes[y := a.nodes[y].(text := text)]).Linked()
  {
    hide Chain;
    var b := a.(nodes := a.nodes[y := a.nodes[y].(text := text)]);
    forall p | b.Has(p)
      ensures b.Local(p)
    {
      assert a.Local(p);
      ChainSame(a.nodes, b.nodes, p, a.kids[p], a.nodes[p].children, a.nodes[p].lastChild);
      ChainSame(a.nodes, b.nodes, p, a.atrs[p], a.nodes[p].attribs, a.nodes[p].lastAttrib);
    }
  }

  // ----- the operations

  /** Nodes keep their kind and texts. */
  predicate SameTexts(nodes: seq<Node>, after: seq<Node>) {
    && |nodes| <= |after|
    && forall i :: 0 <= i < |nodes| ==>
         nodes[i].kind == after[i].kind && nodes[i].name == after[i].name && nodes[i].text == after[i].text
  }

  /** Nodes other than x and those of the list do not change at all, and x keeps its own place. */
  predicate Elsewhere(nodes: seq<Node>, after: seq<Node>, x: int, ids: seq<int>) {
    |nodes| <= |after| && forall i :: 0 <= i < |nodes| && i !in ids ==>
      SameLinks(after[i], nodes[i]) && (i != x ==> after[i] == nodes[i])
  }

  /** The effect of the operations that create a child: y is new, and is the k-th child of x. */
  predicate NewKid(a: Arena, b: Arena, x: int, k: nat, y: int, kind: Kind, name: string, text: string)
    requires a.Sized() && a.Has(x) && k <= |a.kids[x]|
  {
    && y == |a.nodes| && |b.nodes| == y + 1 && SameTexts(a.nodes, b.nodes)
    && b.nodes[y].kind == kind && b.nodes[y].name == name && b.nodes[y].text == text && b.nodes[y].parent == x
    && b.kids == a.kids[x := InsertAt(a.kids[x], k, y)] + [[]] && b.atrs == a.atrs + [[]]
    && Elsewhere(a.nodes, b.nodes, x, a.kids[x])
    && forall i :: 0 <= i < |a.nodes| ==> b.nodes[i].parent == a.nodes[i].parent
  }

  lemma InsertedElsewhere(a: Arena, x: int, k: nat, y: int, after: seq<Node>)
    requires a.Sized() && a.Has(x) && k <= |a.kids[x]| && KidInserted(a, x, k, y, after)
    ensures forall i :: 0 <= i < |a.nodes| && i != y && i !in a.kids[x] ==>
      SameLinks(after[i], a.nodes[i]) && (i != x ==> after[i] == a.nodes[i])
  {
  }

  lemma NewKidLinked(a: Arena, n: Node, x: int, k: nat, after: seq<Node>)
    requires a.Linked() && a.IsTag(x) && k <= |a.kids[x]| && n == NewNode(n.kind, n.name, n.text) && n.kind != AttributeNode
    requires KidInserted(Allocated(a, n), x, k, |a.nodes|, after)
    ensures var b := Arena(after, a.kids[x := InsertAt(a.kids[x], k, |a.nodes|)] + [[]], a.atrs + [[]]);
      b.Linked() && NewKid(a, b, x, k, |a.nodes|, n.kind, n.name, n.text)
  {
    hide Arena.Linked, At, InsertAt;
    AllocateLinked(a, n);
    var c := Allocated(a, n);
    KidInsertLinked(c, x, k, |a.nodes|, after);
    InsertedElsewhere(c, x, k, |a.nodes|, after);
    assert c.kids[x := InsertAt(c.kids[x], k, |a.nodes|)] == a.kids[x := InsertAt(a.kids[x], k, |a.nodes|)] + [[]];
  }

  /** One object stack with the nodes that live in it. */
  class Doc {
    var nodes: seq<Node>
    ghost var kids: seq<seq<int>>
    ghost var atrs: seq<seq<int>>

    ghost function Value(): Arena
      reads this
    {
      Arena(nodes, kids, atrs)
    }

    ghost predicate Valid()
      reads this
    {
      Value().Linked()
    }

    constructor ()
      ensures Valid() && nodes == []
    {
      nodes, kids, atrs := [], [], [];
    }

    /** iks_new_within */
    method NewWithin(name: string) returns (x: int)
      requires Valid()
      modifies this
      ensures Valid() && x == |old(nodes)| && Value() == Allocated(old(Value()), NewNode(TagNode, name, ""))
    {
      AllocateLinked(Value(), NewNode(TagNode, name, ""));
      x := |nodes|;
      nodes, kids, atrs := nodes + [NewNode(TagNode, name, "")], kids + [[]], atrs + [[]];
    }

    /** Makes y the last child of x. */
    method LinkLast(x: int, y: int)
      requires Valid() && Value().IsTag(x) && Value().IsRoot(y)
      modifies `nodes
      ensures KidInserted(old(Value()), x, |kids[x]|, y, nodes)
    {
      hide Arena.Linked;
      LastOfChain(Value(), x);
      KidHome(Value(), x, nodes[x].lastChild);
      nodes := nodes[y := nodes[y].(parent := x)];
      if nodes[x].children == NULL {
        nodes := nodes[x := nodes[x].(children := y)];
      }
      var last := nodes[x].lastChild;
      if last != NULL {
        nodes := nodes[last := nodes[last].(next := y)];
        nodes := nodes[y := nodes[y].(prev := last)];
      }
      nodes := nodes[x := nodes[x].(lastChild := y)];
    }

    /** iks_insert: a new last child. */
    method Insert(x: int, name: string) returns (y: int)
      requires Valid() && (x == NULL || Value().IsTag(x))
      modifies this
      ensures Valid()
      ensures x == NULL ==> y == NULL && Value() == old(Value())
      ensures x != NULL ==> NewKid(old(Value()), Value(), x, |old(kids)[x]|, y, TagNode, name, "")
    {
      if x == NULL {
        return NULL;
      }
      y := InsertNew(x, NewNode(TagNode, name, ""));
    }

    /** A new node becomes the last child. */
    method InsertNew(x: int, n: Node) returns (y: int)
      requires Valid() && Value().IsTag(x) && n == NewNode(n.kind, n.name, n.text) && n.kind != AttributeNode
      modifies this
      ensures Valid() && NewKid(old(Value()), Value(), x, |old(kids)[x]|, y, n.kind, n.name, n.text)
    {
      ghost var a := Value();
      AllocateLinked(a, n);
      y := |nodes|;
      nodes, kids, atrs := nodes + [n], kids + [[]], atrs + [[]];
      LinkLast(x, y);
      NewKidLinked(a, n, x, |a.kids[x]|, nodes);
      kids := a.kids[x := InsertAt(a.kids[x], |a.kids[x]|, y)] + [[]];
    }

    /** iks_insert_cdata: character data joins a last child that is character data. */
    method InsertCdata(x: int, data: string) returns (y: int)
      requires Valid() && (x == NULL || Value().IsTag(x))
      modifies this
      ensures Valid()
      ensures x == NULL ==> y == NULL && Value() == old(Value())
      ensures x != NULL ==> CdataAdded(old(Value()), Value(), x, y, data)
    {
      if x == NULL {
        return NULL;
      }
      LastOfChain(Value(), x);
      y := nodes[x].lastChild;
      if y != NULL && nodes[y].kind == CdataNode {
        TextSetLinked(Value(), y, nodes[y].text + data);
        nodes := nodes[y := nodes[y].(text := nodes[y].text + data)];
      } else {
        y := InsertNew(x, NewNode(CdataNode, "", data));
      }
    }

    /** The first attribute of x with this name, or NULL. */
    method FindAttrib(x: int, name: string) returns (y: int, ghost k: nat)
      requires Valid() && Value().IsTag(x)
      ensures k == FindName(Attributes(Value(), x), name) && y == At(atrs[x], k)
      ensures y == NULL <==> forall a :: a in Attributes(Value(), x) ==> a.0 != name
      ensures y != NULL ==> Value().Has(y) && nodes[y].name == name
    {
      hide Arena.Linked, Attributes, FindName;
      ghost var ids, list := atrs[x], Attributes(Value(), x);
      LastOfChain(Value(), x);
      y, k := nodes[x].attribs, 0;
      while y != NULL
        invariant k <= |ids| && y == At(ids, k)
        invariant forall j :: 0 <= j < k ==> list[j].0 != name
        decreases |ids| - k
      {
        AtrLinks(Value(), x, k);
        if name == nodes[y].name {
          break;
        }
        y := nodes[y].next;
        k := k + 1;
      }
      if k < |ids| {
        AtrLinks(Value(), x, k);
      }
      FindNameIs(list, name, k);
    }

    /** A new attribute becomes the last one of x. */
    method AddAttrib(x: int, name: string, value: string) returns (y: int)
      requires Valid() && Value().IsTag(x) && FindName(Attributes(Value(), x), name) == |atrs[x]|
      modifies this
      ensures Valid() && y == |old(nodes)| && |nodes| == y + 1 && SameTexts(old(nodes), nodes)
      ensures kids == old(kids) + [[]] && atrs == old(atrs)[x := old(atrs)[x] + [y]] + [[]]
      ensures nodes[y].name == name && nodes[y].text == value && Elsewhere(old(nodes), nodes, x, old(atrs)[x])
    {
      ghost var a := Value();
      NameIsNew(a, x, name);
      AllocateLinked(a, NewNode(AttributeNode, name, value));
      y := |nodes|;
      nodes, kids, atrs := nodes + [NewNode(AttributeNode, name, value)], kids + [[]], atrs + [[]];
      ghost var b := Value();
      LinkLastAttrib(x, y);
      AttrAddLinked(b, x, y, nodes);
      assert b.atrs[x := b.atrs[x] + [y]] == a.atrs[x := a.atrs[x] + [y]] + [[]];
      atrs := atrs[x := atrs[x] + [y]];
    }

    method LinkLastAttrib(x: int, y: int)
      requires Valid() && Value().IsTag(x)
      requires Value().Has(y) && nodes[y].kind == AttributeNode && nodes[y].parent == nodes[y].next == nodes[y].prev == NULL
      modifies `nodes
      ensures AttrAdded(old(Value()), x, y, nodes)
    {
      hide Arena.Linked;
      LastOfChain(Value(), x);
      KidHome(Value(), x, nodes[x].lastAttrib);
      nodes := nodes[y := nodes[y].(parent := x)];
      if nodes[x].attribs == NULL {
        nodes := nodes[x := nodes[x].(attribs := y)];
      }
      var last := nodes[x].lastAttrib;
      if last != NULL {
        nodes := nodes[last := nodes[last].(next := y)];
        nodes := nodes[y := nodes[y].(prev := last)];
      }
      nodes := nodes[x := nodes[x].(lastAttrib := y)];
    }

    /** Takes attribute y, the k-th of x, out of the chain. */
    method RemoveAttrib(x: int, y: int, ghost k: nat)
      requires Valid() && Value().IsTag(x) && k < |atrs[x]| && y == atrs[x][k]
      modifies `nodes, `atrs
      ensures Valid() && |nodes| == |old(nodes)| && SameTexts(old(nodes), nodes)
      ensures atrs == old(atrs)[x := RemoveAt(old(atrs)[x], k)] && Elsewhere(old(nodes), nodes, x, old(atrs)[x])
    {
      ghost var a := Value();
      UnlinkAttrib(x, y, k);
      AttrRemoveLinked(a, x, k, nodes);
      atrs := atrs[x := RemoveAt(atrs[x], k)];
    }

    method UnlinkAttrib(x: int, y: int, ghost k: nat)
      requires Valid() && Value().IsTag(x) && k < |atrs[x]| && y == atrs[x][k]
      modifies `nodes
      ensures AttrRemoved(old(Value()), x, k, nodes)
    {
      hide Arena.Linked, Attributes;
      AtrLinks(Value(), x, k);
      var next, prev := nodes[y].next, nodes[y].prev;
      if next != NULL {
        nodes := nodes[next := nodes[next].(prev := prev)];
      }
      if prev != NULL {
        nodes := nodes[prev := nodes[prev].(next := next)];
      }
      if nodes[x].attribs == y {
        nodes := nodes[x := nodes[x].(attribs := next)];
      }
      if nodes[x].lastAttrib == y {
        nodes := nodes[x := nodes[x].(lastAttrib := prev)];
      }
    }

    /** iks_insert_attrib: sets, overwrites or, without a value, removes the attribute. */
    method InsertAttrib(x: int, name: string, value: Option<string>) returns (y: int)
      requires Valid() && (x == NULL || Value().IsTag(x))
      modifies this
      ensures Valid()
      ensures x == NULL ==> y == NULL && Value() == old(Value())
      ensures x != NULL ==> AttribSet(old(Value()), Value(), x, y, name, value)
    {
      hide Arena.Linked, Attributes, FindName, RemoveAt, SameTexts;
      if x == NULL {
        return NULL;
      }
      ghost var a, k := Value(), 0;
      y, k := FindAttrib(x, name);
      if k < |atrs[x]| {
        AtrLinks(a, x, k);
      }
      if y == NULL {
        if value.None? {
          return NULL;
        }
        y := AddAttrib(x, name, value.value);
      } else if value.Some? {
        TextSetLinked(a, y, value.value);
        nodes := nodes[y := nodes[y].(text := value.value)];
      } else {
        RemoveAttrib(x, y, k);
      }
    }

    /** iks_insert_node: a detached root, a tree built apart, becomes the last child. */
    method InsertNode(x: int, y: int)
      requires Valid() && Value().IsTag(x) && Value().IsRoot(y)
      modifies `nodes, `kids
      ensures Valid() && kids == old(kids)[x := old(kids)[x] + [y]] && |nodes| == |old(nodes)|
      ensures SameTexts(old(nodes), nodes) && nodes[y].parent == x
    {
      ghost var a := Value();
      LinkLast(x, y);
      KidInsertLinked(a, x, |a.kids[x]|, y, nodes);
      assert InsertAt(a.kids[x], |a.kids[x]|, y) == a.kids[x] + [y];
      kids := kids[x := kids[x] + [y]];
    }

    /** Puts y behind x, the way iks_append does. */
    method LinkNext(x: int, y: int, ghost k: nat)
      requires Valid() && Value().IsKid(x, k) && Value().IsRoot(y)
      modifies `nodes
      ensures KidInserted(old(Value()), old(nodes)[x].parent, k + 1, y, nodes)
    {
      hide Arena.Linked;
      KidLinks(Value(), x, k);
      var next := nodes[x].next;
      if next != NULL {
        nodes := nodes[next := nodes[next].(prev := y)];
      } else {
        var parent := nodes[x].parent;
        nodes := nodes[parent := nodes[parent].(lastChild := y)];
      }
      nodes := nodes[x := nodes[x].(next := y)];
      nodes := nodes[y := nodes[y].(next := next, parent := nodes[x].parent, prev := x)];
    }

    /** Puts y in front of x, the way iks_prepend does. */
    method LinkPrev(x: int, y: int, ghost k: nat)
      requires Valid() && Value().IsKid(x, k) && Value().IsRoot(y)
      modifies `nodes
      ensures KidInserted(old(Value()), old(nodes)[x].parent, k, y, nodes)
    {
      hide Arena.Linked;
      KidLinks(Value(), x, k);
      var prev := nodes[x].prev;
      if prev != NULL {
        nodes := nodes[prev := nodes[prev].(next := y)];
      } else {
        var parent := nodes[x].parent;
        nodes := nodes[parent := nodes[parent].(children := y)];
      }
      nodes := nodes[x := nodes[x].(prev := y)];
      nodes := nodes[y := nodes[y].(prev := prev, parent := nodes[x].parent, next := x)];
    }

    /** iks_append and iks_append_cdata: n becomes the next sibling of x, a child of some tag. */
    method Append(x: int, n: Node, ghost k: nat) returns (y: int)
      requires Valid() && Value().IsKid(x, k) && n == NewNode(n.kind, n.name, n.text) && n.kind != AttributeNode
      modifies this
      ensures Valid() && NewKid(old(Value()), Value(), old(nodes)[x].parent, k + 1, y, n.kind, n.name, n.text)
    {
      hide Arena.Linked, InsertAt;
      ghost var a := Value();
      ghost var p := nodes[x].parent;
      KidLinks(a, x, k);
      AllocateLinked(a, n);
      y := |nodes|;
      nodes, kids, atrs := nodes + [n], kids + [[]], atrs + [[]];
      assert Value() == Allocated(a, n);
      LinkNext(x, y, k);
      NewKidLinked(a, n, p, k + 1, nodes);
      kids := a.kids[p := InsertAt(a.kids[p], k + 1, y)] + [[]];
    }

    /** iks_prepend and iks_prepend_cdata: n becomes the previous sibling of x. */
    method Prepend(x: int, n: Node, ghost k: nat) returns (y: int)
      requires Valid() && Value().IsKid(x, k) && n == NewNode(n.kind, n.name, n.text) && n.kind != AttributeNode
      modifies this
      ensures Valid() && NewKid(old(Value()), Value(), old(nodes)[x].parent, k, y, n.kind, n.name, n.text)
    {
      hide Arena.Linked, InsertAt;
      ghost var a := Value();
      ghost var p := nodes[x].parent;
      KidLinks(a, x, k);
      AllocateLinked(a, n);
      y := |nodes|;
      nodes, kids, atrs := nodes + [n], kids + [[]], atrs + [[]];
      assert Value() == Allocated(a, n);
      LinkPrev(x, y, k);
      NewKidLinked(a, n, p, k, nodes);
      kids := a.kids[p := InsertAt(a.kids[p], k, y)] + [[]];
    }

    /** Takes x out of its siblings, the way iks_hide does. */
    method Unlink(x: int, ghost k: nat)
      requires Valid() && Value().IsKid(x, k)
      modifies `nodes
      ensures KidRemoved(old(Value()), old(nodes)[x].parent, k, nodes)
    {
      hide Arena.Linked;
      KidLinks(Value(), x, k);
      var prev, next, parent := nodes[x].prev, nodes[x].next, nodes[x].parent;
      if prev != NULL {
        nodes := nodes[prev := nodes[prev].(next := next)];
      }
      if next != NULL {
        nodes := nodes[next := nodes[next].(prev := prev)];
      }
      if nodes[parent].children == x {
        nodes := nodes[parent := nodes[parent].(children := next)];
      }
      if nodes[parent].lastChild == x {
        nodes := nodes[parent := nodes[parent].(lastChild := prev)];
      }
    }

    /** iks_hide: x leaves its parent and siblings; its own links, now stale, stay. */
    method Hide(x: int, ghost k: nat)
      requires Valid() && (x == NULL || Value().IsRoot(x) || Value().IsKid(x, k))
      modifies `nodes, `kids
      ensures Valid() && |nodes| == |old(nodes)| && SameTexts(old(nodes), nodes)
      ensures x == NULL || old(Value()).IsRoot(x) ==> Value() == old(Value())
      ensures x != NULL && old(Value()).IsKid(x, k) ==> var p := old(nodes)[x].parent;
        kids == old(kids)[p := RemoveAt(old(kids)[p], k)] && SameLinks(nodes[x], old(nodes)[x])
    {
      if x == NULL {
        return;
      }
      ghost var a, p := Value(), nodes[x].parent;
      if nodes[x].parent != NULL {
        KidLinks(a, x, k);
        Unlink(x, k);
        KidRemoveLinked(a, p, k, nodes);
        kids := kids[p := RemoveAt(kids[p], k)];
      }
    }
  }

  /** The attributes of a tag, in order. */
  ghost function Attributes(a: Arena, x: int): (list: Attrs)
    requires a.Linked() && a.Has(x)
    ensures |list| == |a.atrs[x]|
  {
    assert a.Local(x);
    AttrsOf(a.nodes, a.atrs[x])
  }

  /** The place of the first attribute with this name, or the length of the list. */
  function FindName(list: Attrs, name: string): (k: nat)
    ensures k <= |list|
  {
    if list == [] then 0 else if list[0].0 == name then 0 else 1 + FindName(list[1..], name)
  }

  lemma {:induction false} FindNameIs(list: Attrs, name: string, k: nat)
    requires k <= |list| && forall j :: 0 <= j < k ==> list[j].0 != name
    requires k < |list| ==> list[k].0 == name
    ensures FindName(list, name) == k
  {
    if k > 0 {
      FindNameIs(list[1..], name, k - 1);
    }
  }

  lemma {:induction false} FindNameMisses(list: Attrs, name: string, j: nat)
    requires j < FindName(list, name)
    ensures list[j].0 != name
  {
    if j > 0 {
      FindNameMisses(list[1..], name, j - 1);
    }
  }

  lemma NameIsNew(a: Arena, x: int, name: string)
    requires a.Linked() && a.Has(x) && FindName(Attributes(a, x), name) == |a.atrs[x]|
    ensures forall i :: 0 <= i < |a.atrs[x]| && a.Has(a.atrs[x][i]) ==> a.nodes[a.atrs[x][i]].name != name
  {
    assert a.Local(x);
    forall i | 0 <= i < |a.atrs[x]| && a.Has(a.atrs[x][i])
      ensures a.nodes[a.atrs[x][i]].name != name
    {
      FindNameMisses(Attributes(a, x), name, i);
    }
  }

  /** The links of an attribute, and of its tag, seen from its place in the chain. */
  lemma AtrLinks(a: Arena, x: int, k: nat)
    requires a.Linked() && a.Has(x) && k < |a.atrs[x]|
    ensures var y, ids := a.atrs[x][k], a.atrs[x];
      && a.Has(y) && a.nodes[y].next == At(ids, k + 1) && a.nodes[y].prev == At(ids, k - 1)
      && (k + 1 < |ids| ==> a.Has(ids[k + 1])) && (k > 0 ==> a.Has(ids[k - 1]))
      && (forall i :: 0 <= i < |ids| && i != k ==> ids[i] != y)
      && a.nodes[x].attribs == At(ids, 0) && a.nodes[x].lastAttrib == At(ids, |ids| - 1)
      && Attributes(a, x)[k] == (a.nodes[y].name, a.nodes[y].text)
  {
    assert a.Local(x);
    ChainDistinct(a.nodes, x, a.atrs[x], a.nodes[x].attribs, a.nodes[x].lastAttrib);
    assert Sibling(a.nodes, x, a.atrs[x], k);
    if k > 0 {
      assert Sibling(a.nodes, x, a.atrs[x], k - 1);
    }
    if k + 1 < |a.atrs[x]| {
      assert Sibling(a.nodes, x, a.atrs[x], k + 1);
    }
  }

  /** The effect of iks_insert_attrib: what it does to the attributes of x, and to nothing else. */
  ghost predicate AttribSet(a: Arena, b: Arena, x: int, y: int, name: string, value: Option<string>)
    requires a.Linked() && b.Linked() && a.Has(x)
  {
    var k, ids := FindName(Attributes(a, x), name), a.atrs[x];
    if k < |ids| then
      && y == ids[k] && |b.nodes| == |a.nodes| && b.kids == a.kids
      && (value.Some? ==> b == a.(nodes := a.nodes[y := a.nodes[y].(text := value.value)]))
      && (value.None? ==> b.atrs == a.atrs[x := RemoveAt(ids, k)])
      && (value.None? ==> SameTexts(a.nodes, b.nodes) && Elsewhere(a.nodes, b.nodes, x, ids))
    else if value.None? then
      y == NULL && b == a
    else
      && y == |a.nodes| && |b.nodes| == y + 1 && SameTexts(a.nodes, b.nodes)
      && b.kids == a.kids + [[]] && b.atrs == a.atrs[x := ids + [y]] + [[]]
      && b.nodes[y].name == name && b.nodes[y].text == value.value && Elsewhere(a.nodes, b.nodes, x, ids)
  }

  /** The links of a child, and of its parent, seen from its place in the chain. */
  lemma KidLinks(a: Arena, x: int, k: nat)
    requires a.Linked() && a.IsKid(x, k)
    ensures var p, ids := a.nodes[x].parent, a.kids[a.nodes[x].parent];
      && a.Has(x) && a.IsTag(p) && a.nodes[x].next == At(ids, k + 1) && a.nodes[x].prev == At(ids, k - 1)
      && (k + 1 < |ids| ==> a.Has(ids[k + 1]) && a.nodes[ids[k + 1]].parent == p)
      && (k > 0 ==> a.Has(ids[k - 1]) && a.nodes[ids[k - 1]].parent == p)
      && (forall i :: 0 <= i < |ids| && i != k ==> ids[i] != x)
      && a.nodes[p].children == At(ids, 0) && a.nodes[p].lastChild == At(ids, |ids| - 1)
  {
    var p := a.nodes[x].parent;
    assert a.Local(p);
    ChainDistinct(a.nodes, p, a.kids[p], a.nodes[p].children, a.nodes[p].lastChild);
    assert Sibling(a.nodes, p, a.kids[p], k);
    if k > 0 {
      assert Sibling(a.nodes, p, a.kids[p], k - 1);
    }
    if k + 1 < |a.kids[p]| {
      assert Sibling(a.nodes, p, a.kids[p], k + 1);
    }
  }

  /** The effect of iks_insert_cdata. */
  predicate CdataAdded(a: Arena, b: Arena, x: int, y: int, data: string)
    requires a.Sized() && a.Has(x)
  {
    var n := |a.kids[x]|;
    if n > 0 && a.Has(a.kids[x][n - 1]) && a.nodes[a.kids[x][n - 1]].kind == CdataNode then
      y == a.kids[x][n - 1] && b == a.(nodes := a.nodes[y := a.nodes[y].(text := a.nodes[y].text + data)])
    else
      NewKid(a, b, x, n, y, CdataNode, "", data)
  }

  /** The last child is what lastChild says. */
  lemma LastOfChain(a: Arena, x: int)
    requires a.Linked() && a.Has(x)
    ensures var n := a.nodes[x];
      && n.children == At(a.kids[x], 0) && (n.children == NULL <==> a.kids[x] == [])
      && (n.lastChild == NULL <==> a.kids[x] == [])
      && (a.kids[x] != [] ==> a.Has(n.lastChild) && n.lastChild == a.kids[x][|a.kids[x]| - 1])
      && n.attribs == At(a.atrs[x], 0) && (n.attribs == NULL <==> a.atrs[x] == []) && (n.lastAttrib == NULL <==> a.atrs[x] == [])
      && (a.atrs[x] != [] ==> a.Has(n.lastAttrib) && n.lastAttrib == a.atrs[x][|a.atrs[x]| - 1])
  {
    assert a.Local(x);
    if a.kids[x] != [] {
      assert Sibling(a.nodes, x, a.kids[x], 0) && Sibling(a.nodes, x, a.kids[x], |a.kids[x]| - 1);
    }
    if a.atrs[x] != [] {
      assert Sibling(a.nodes, x, a.atrs[x], 0) && Sibling(a.nodes, x, a.atrs[x], |a.atrs[x]| - 1);
    }
  }

  // ----- what setting an attribute means

  function RemoveAttr(list: Attrs, name: string): Attrs {
    if list == [] then [] else if list[0].0 == name then list[1..] else [list[0]] + RemoveAttr(list[1..], name)
  }

  lemma {:induction false} SetAttrAt(list: Attrs, name: string, value: string)
    ensures var k := FindName(list, name);
      && (k < |list| ==> list[k].0 == name && Dom.SetAttr(list, name, value) == list[k := (name, value)])
      && (k == |list| ==> Dom.SetAttr(list, name, value) == list + [(name, value)])
  {
    if list != [] && list[0].0 != name {
      SetAttrAt(list[1..], name, value);
    }
  }

  lemma {:induction false} RemoveAttrAt(list: Attrs, name: string)
    ensures var k := FindName(list, name);
      RemoveAttr(list, name) == if k < |list| then list[..k] + list[k + 1..] else list
  {
    if list != [] && list[0].0 != name {
      RemoveAttrAt(list[1..], name);
    }
  }

  lemma TextSetAttributes(a: Arena, b: Arena, x: int, k: nat, text: string)
    requires a.Linked() && b.Linked() && a.Has(x) && k < |a.atrs[x]| && a.Has(a.atrs[x][k])
    requires b == a.(nodes := a.nodes[a.atrs[x][k] := a.nodes[a.atrs[x][k]].(text := text)])
    ensures Attributes(b, x) == Attributes(a, x)[k := (Attributes(a, x)[k].0, text)]
  {
    AtrLinks(a, x, k);
    assert a.Local(x) && b.Local(x);
    hide Arena.Linked, Chain;
  }

  lemma AttribAddedAttributes(a: Arena, b: Arena, x: int, y: int)
    requires a.Linked() && b.Linked() && a.Has(x) && b.Has(y) && SameTexts(a.nodes, b.nodes)
    requires b.atrs == a.atrs[x := a.atrs[x] + [y]] + [[]]
    ensures Attributes(b, x) == Attributes(a, x) + [(b.nodes[y].name, b.nodes[y].text)]
  {
    hide Chain;
    assert a.Local(x) && b.Local(x);
  }

  lemma AttribRemovedAttributes(a: Arena, b: Arena, x: int, k: nat)
    requires a.Linked() && b.Linked() && a.Has(x) && k < |a.atrs[x]| && SameTexts(a.nodes, b.nodes)
    requires b.atrs == a.atrs[x := RemoveAt(a.atrs[x], k)]
    ensures Attributes(b, x) == Attributes(a, x)[..k] + Attributes(a, x)[k + 1..]
  {
    hide Chain;
    assert a.Local(x) && b.Local(x);
  }

  /** iks_insert_attrib on the attributes of a tag: a value is set in place or added at the end, without
      a value the attribute goes. */
  lemma AttribSetMeans(a: Arena, b: Arena, x: int, y: int, name: string, value: Option<string>)
    requires a.Linked() && b.Linked() && a.Has(x) && AttribSet(a, b, x, y, name, value)
    ensures Attributes(b, x)
         == if value.Some? then Dom.SetAttr(Attributes(a, x), name, value.value) else RemoveAttr(Attributes(a, x), name)
  {
    hide Arena.Linked, FindName, Attributes, SameTexts, Elsewhere, RemoveAt, Dom.SetAttr, RemoveAttr;
    var list := Attributes(a, x);
    var k := FindName(list, name);
    RemoveAttrAt(list, name);
    if value.Some? {
      SetAttrAt(list, name, value.value);
    }
    if k < |list| {
      AtrLinks(a, x, k);
      if value.Some? {
        TextSetAttributes(a, b, x, k, value.value);
      } else {
        AttribRemovedAttributes(a, b, x, k);
      }
    } else if value.Some? {
      AttribAddedAttributes(a, b, x, y);
    }
  }
}
