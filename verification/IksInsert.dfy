/** What iks_insert_node makes of the trees that two nodes stand for, and when the result is a tree at all: the call does
    not look whether the node is inserted below itself. */
module IksInsert {
  import opened Xml
  import opened Iks
  import opened IksWalk

  /** x is in the tree v at z. */
  ghost predicate InTree(a: Arena, z: int, v: Tree, x: int)
    requires a.Linked()
    decreases v, 1
  {
    a.Has(z) && (z == x || (v.Element? && exists i :: 0 <= i < |v.kids| && InKid(a, z, v, x, i)))
  }

  ghost predicate InKid(a: Arena, z: int, v: Tree, x: int, i: nat)
    requires a.Linked() && a.Has(z) && v.Element? && i < |v.kids|
    decreases v, 0
  {
    i < |a.kids[z]| && InTree(a, a.kids[z][i], v.kids[i], x)
  }

  function Size(t: Tree): nat
    decreases t, 1
  {
    match t
    case Cdata(_) => 1
    case Element(_, _, kids) => 1 + SizeAll(kids)
  }

  function SizeAll(ts: seq<Tree>): nat
    decreases ts, 0
  {
    if ts == [] then 0 else Size(ts[0]) + SizeAll(ts[1..])
  }

  lemma {:induction false} SizeOfKid(ts: seq<Tree>, i: nat)
    requires i < |ts|
    ensures Size(ts[i]) <= SizeAll(ts)
  {
    if i > 0 {
      SizeOfKid(ts[1..], i - 1);
    }
  }

  /** A node stands for at most one tree. */
  lemma {:induction false} RepresentsUnique(a: Arena, x: int, t: Tree, u: Tree)
    requires a.Linked() && Represents(a, x, t, 0, |a.nodes|) && Represents(a, x, u, 0, |a.nodes|)
    ensures t == u
    decreases t
  {
    hide Arena.Linked;
    if t.Element? {
      forall i | 0 <= i < |t.kids|
        ensures t.kids[i] == u.kids[i]
      {
        RepresentsUnique(a, a.kids[x][i], t.kids[i], u.kids[i]);
      }
      assert t.kids == u.kids;
    }
  }

  /** What a node in a tree stands for is no larger than the tree. */
  lemma {:induction false} SubtreeAt(a: Arena, z: int, v: Tree, x: int) returns (w: Tree)
    requires a.Linked() && Represents(a, z, v, 0, |a.nodes|) && InTree(a, z, v, x)
    ensures Represents(a, x, w, 0, |a.nodes|) && Size(w) <= Size(v)
    decreases v
  {
    hide Arena.Linked;
    if z == x {
      w := v;
    } else {
      var i :| 0 <= i < |v.kids| && InKid(a, z, v, x, i);
      w := SubtreeAt(a, a.kids[z][i], v.kids[i], x);
      SizeOfKid(v.kids, i);
    }
  }

  /** No node is below itself in the tree it stands for. */
  lemma NotBelowItself(a: Arena, x: int, t: Tree, i: nat)
    requires a.Linked() && Represents(a, x, t, 0, |a.nodes|) && t.Element? && i < |t.kids|
    ensures !InKid(a, x, t, x, i)
  {
    hide Arena.Linked;
    if InKid(a, x, t, x, i) {
      var w := SubtreeAt(a, a.kids[x][i], t.kids[i], x);
      SizeOfKid(t.kids, i);
      RepresentsUnique(a, x, t, w);
    }
  }

  /** y has become the last child of x, and nothing else that is in a tree has changed. */
  ghost predicate Grafted(a: Arena, b: Arena, x: int, y: int) {
    && a.Linked() && b.Linked() && a.IsTag(x) && a.Has(y)
    && |b.nodes| == |a.nodes| && SameTexts(a.nodes, b.nodes)
    && b.kids == a.kids[x := a.kids[x] + [y]] && b.atrs == a.atrs
  }

  lemma SameAttributes(a: Arena, b: Arena, x: int, y: int, z: int)
    requires Grafted(a, b, x, y) && a.Has(z)
    ensures Attributes(a, z) == Attributes(b, z)
  {
    assert a.Local(z) && b.Local(z);
    forall i | 0 <= i < |a.atrs[z]|
      ensures Attributes(a, z)[i] == Attributes(b, z)[i]
    {
      assert Sibling(a.nodes, z, a.atrs[z], i);
    }
  }

  /** A tree without x stays. */
  lemma {:induction false} TreeKept(a: Arena, b: Arena, x: int, y: int, z: int, v: Tree)
    requires Grafted(a, b, x, y) && Represents(a, z, v, 0, |a.nodes|) && !InTree(a, z, v, x)
    ensures Represents(b, z, v, 0, |b.nodes|)
    decreases v
  {
    hide Arena.Linked;
    SameAttributes(a, b, x, y, z);
    if v.Element? {
      forall i | 0 <= i < |v.kids|
        ensures Represents(b, b.kids[z][i], v.kids[i], 0, |b.nodes|)
      {
        assert !InKid(a, z, v, x, i);
        TreeKept(a, b, x, y, a.kids[z][i], v.kids[i]);
      }
    }
  }

  /** The tree at x gets another child. */
  lemma TreeGrows(a: Arena, b: Arena, x: int, y: int, t: Tree, u: Tree)
    requires Grafted(a, b, x, y) && t.Element? && Represents(a, x, t, 0, |a.nodes|) && Represents(a, y, u, 0, |a.nodes|)
    requires !InTree(a, y, u, x)
    ensures Represents(b, y, u, 0, |b.nodes|)
    ensures Represents(b, x, Element(t.name, t.atts, t.kids + [u]), 0, |b.nodes|)
  {
    hide Arena.Linked;
    TreeKept(a, b, x, y, y, u);
    SameAttributes(a, b, x, y, x);
    var kids := t.kids + [u];
    forall i | 0 <= i < |kids|
      ensures Represents(b, b.kids[x][i], kids[i], 0, |b.nodes|)
    {
      if i < |t.kids| {
        NotBelowItself(a, x, t, i);
        TreeKept(a, b, x, y, a.kids[x][i], t.kids[i]);
      }
    }
  }

  /** The way from z down to x is still there. */
  lemma {:induction false} WayKept(a: Arena, b: Arena, x: int, y: int, z: int, v: Tree, w: Tree)
    requires Grafted(a, b, x, y) && InTree(a, z, v, x)
    requires Represents(a, z, v, 0, |a.nodes|) && Represents(b, z, w, 0, |b.nodes|)
    ensures InTree(b, z, w, x)
    decreases v
  {
    hide Arena.Linked;
    if z != x {
      var i :| 0 <= i < |v.kids| && InKid(a, z, v, x, i);
      WayKept(a, b, x, y, a.kids[z][i], v.kids[i], w.kids[i]);
      assert InKid(b, z, w, x, i);
    }
  }

  /** Inserted below itself, a node stands for no tree any more. */
  lemma Knotted(a: Arena, b: Arena, x: int, y: int, u: Tree, t: Tree)
    requires Grafted(a, b, x, y) && Represents(a, y, u, 0, |a.nodes|) && InTree(a, y, u, x)
    ensures !Represents(b, x, t, 0, |b.nodes|)
  {
    hide Arena.Linked;
    if Represents(b, x, t, 0, |b.nodes|) {
      var i := |a.kids[x]|;
      assert b.nodes[x].kind == TagNode && t.Element?;
      assert RepresentAll(b, b.kids[x], t.kids, 0, |b.nodes|);
      var w := t.kids[i];
      assert b.kids[x][i] == y && Represents(b, y, w, 0, |b.nodes|);
      WayKept(a, b, x, y, y, u, w);
      var s := SubtreeAt(b, y, w, x);
      RepresentsUnique(b, x, t, s);
      SizeOfKid(t.kids, i);
    }
  }

  /** Exactly when iks_insert_node leaves a tree: when the tag is not in the tree of the node that is inserted. It is then
      the same tree with one more child, the other one unchanged. */
  lemma InsertNodeIsTreeIff(a: Arena, b: Arena, x: int, y: int, t: Tree, u: Tree)
    requires Grafted(a, b, x, y) && t.Element? && Represents(a, x, t, 0, |a.nodes|) && Represents(a, y, u, 0, |a.nodes|)
    ensures (exists s :: Represents(b, x, s, 0, |b.nodes|)) <==> !InTree(a, y, u, x)
    ensures !InTree(a, y, u, x) ==>
      && Represents(b, y, u, 0, |b.nodes|)
      && Represents(b, x, Element(t.name, t.atts, t.kids + [u]), 0, |b.nodes|)
  {
    hide Arena.Linked, Represents, InTree;
    if InTree(a, y, u, x) {
      forall s
        ensures !Represents(b, x, s, 0, |b.nodes|)
      {
        Knotted(a, b, x, y, u, s);
      }
    } else {
      TreeGrows(a, b, x, y, t, u);
    }
  }

  /** iks_insert_node on nodes that stand for trees. */
  method InsertTree(d: Doc, x: int, y: int, ghost t: Tree, ghost u: Tree)
    requires d.Valid() && d.Value().IsTag(x) && d.Value().IsRoot(y)
    requires Represents(d.Value(), x, t, 0, |d.nodes|) && Represents(d.Value(), y, u, 0, |d.nodes|)
    modifies d
    ensures d.Valid() && Grafted(old(d.Value()), d.Value(), x, y)
    ensures (exists s :: Represents(d.Value(), x, s, 0, |d.nodes|)) <==> !InTree(old(d.Value()), y, u, x)
    ensures t.Element? && (!InTree(old(d.Value()), y, u, x) ==>
      Represents(d.Value(), x, Element(t.name, t.atts, t.kids + [u]), 0, |d.nodes|))
  {
    hide InTree;
    ghost var a := d.Value();
    d.InsertNode(x, y);
    hide Arena.Linked;
    InsertNodeIsTreeIff(a, d.Value(), x, y, t, u);
  }
}
