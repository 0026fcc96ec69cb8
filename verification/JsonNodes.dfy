/** The linked nodes of the library: child lists threaded through next and prev, and the
    duplication of whole trees. */
module JsonNodes {
  import opened Bytes

  const REFERENCE: nat := 256

  class Node {
    var next: Node?
    var prev: Node?
    var child: Node?
    var kind: nat
    var text: Option<bytes>
    var name: Option<bytes>
    var intValue: int
    var realValue: real

    /** A node with every field zero. */
    constructor ()
      ensures next == null && prev == null && child == null && kind == 0
      ensures text == None && name == None && intValue == 0 && realValue == 0.0
    {
      next, prev, child := null, null, null;
      kind, text, name, intValue, realValue := 0, None, None, 0, 0.0;
    }
  }

  // ------------------------------------------------------------ child lists

  function NodeAt(ns: seq<Node>, i: int): Node? { if 0 <= i < |ns| then ns[i] else null }

  /** Both links of node i are those of the sequence. */
  ghost predicate Linked(ns: seq<Node>, i: nat)
    requires i < |ns|
    reads ns[i]
  {
    ns[i].next == NodeAt(ns, i + 1) && ns[i].prev == NodeAt(ns, i - 1)
  }

  ghost predicate Distinct(ns: seq<Node>) { forall i, j :: 0 <= i < j < |ns| ==> ns[i] != ns[j] }

  /** The children of `a` are `ns`, in this order: next and prev are inverse to each other. */
  ghost predicate Children(a: Node, ns: seq<Node>)
    reads a, ns
  {
    && a.child == NodeAt(ns, 0)
    && a !in ns
    && Distinct(ns)
    && forall i :: 0 <= i < |ns| ==> Linked(ns, i)
  }

  /** The position a caller's index stands for: anything negative is the first. */
  function Position(which: int): nat { if which > 0 then which else 0 }

  /** A negative position is the first one. */
  lemma {:induction false} PositionIs(which: int)
    ensures which >= 0 ==> Position(which) == which
    ensures which < 0 ==> Position(which) == 0
  {
  }

  /** The loop all positional operations start with. */
  method Walk(a: Node, which: int, ghost ns: seq<Node>) returns (c: Node?)
    requires Children(a, ns)
    ensures c == NodeAt(ns, Position(which))
  {
    c := a.child;
    var w := which;
    ghost var i := 0;
    while c != null && w > 0
      invariant 0 <= i <= |ns| && c == NodeAt(ns, i)
      invariant w == which - i && (w >= 0 || i == 0)
      decreases |ns| - i
    {
      assert Linked(ns, i);
      c, w, i := c.next, w - 1, i + 1;
    }
  }

  /** Append. */
  method AddItemToArray(a: Node, item: Node?, ghost ns: seq<Node>)
    requires Children(a, ns)
    requires item != null ==> item != a && item !in ns && item.next == null && (ns == [] ==> item.prev == null)
    modifies a`child, ns`next, (if item == null then {} else {item})`prev
    ensures if item == null then Children(a, ns) else Children(a, ns + [item])
  {
    if item == null {
      return;
    }
    var c := a.child;
    if c == null {
      a.child := item;
    } else {
      ghost var i := 0;
      while c.next != null
        invariant 0 <= i < |ns| && c == ns[i]
        decreases |ns| - i
      {
        assert Linked(ns, i);
        c, i := c.next, i + 1;
      }
      assert Linked(ns, i);
      c.next := item;
      item.prev := c;
    }
    ghost var ms := ns + [item];
    forall j | 0 <= j < |ms| ensures Linked(ms, j) {
      assert j < |ns| ==> old(Linked(ns, j));
    }
  }

  /** Take a child out of the list; nothing happens at a position behind the last child. */
  method DetachItemFromArray(a: Node, which: int, ghost ns: seq<Node>) returns (c: Node?)
    requires Children(a, ns)
    modifies a`child, ns`next, ns`prev
    ensures var k := Position(which);
            c == NodeAt(ns, k) && if k < |ns| then Children(a, ns[..k] + ns[k + 1..]) else Children(a, ns)
    ensures c != null ==> c.next == null && c.prev == null
  {
    c := Walk(a, which, ns);
    if c == null {
      return;
    }
    ghost var k := Position(which);
    Unlink(a, c, k, ns);
  }

  method Unlink(a: Node, c: Node, ghost k: nat, ghost ns: seq<Node>)
    requires Children(a, ns) && k < |ns| && c == ns[k]
    modifies a`child, ns`next, ns`prev
    ensures Children(a, ns[..k] + ns[k + 1..]) && c.next == null && c.prev == null
  {
    assert Linked(ns, k);
    if c.prev != null {
      c.prev.next := c.next;
    }
    if c.next != null {
      c.next.prev := c.prev;
    }
    if c == a.child {
      a.child := c.next;
    }
    c.prev, c.next := null, null;
    ghost var ms := ns[..k] + ns[k + 1..];
    forall j | 0 <= j < |ms| ensures Linked(ms, j) {
      assert old(Linked(ns, if j < k then j else j + 1));
    }
  }

  /** Put a new item in front of the child at a position, or behind the last one. */
  method InsertItemInArray(a: Node, which: int, newitem: Node, ghost ns: seq<Node>)
    requires Children(a, ns) && newitem != a && newitem !in ns
    requires Position(which) >= |ns| ==> newitem.next == null && (ns == [] ==> newitem.prev == null)
    modifies a`child, ns`next, ns`prev, newitem`next, newitem`prev
    ensures var k := if Position(which) < |ns| then Position(which) else |ns|;
            Children(a, ns[..k] + [newitem] + ns[k..])
  {
    var c := Walk(a, which, ns);
    if c == null {
      AddItemToArray(a, newitem, ns);
      assert ns[..|ns|] + [newitem] + ns[|ns|..] == ns + [newitem];
      return;
    }
    LinkBefore(a, c, newitem, Position(which), ns);
  }

  method LinkBefore(a: Node, c: Node, newitem: Node, ghost k: nat, ghost ns: seq<Node>)
    requires Children(a, ns) && k < |ns| && c == ns[k] && newitem != a && newitem !in ns
    modifies a`child, ns`next, ns`prev, newitem`next, newitem`prev
    ensures Children(a, ns[..k] + [newitem] + ns[k..])
  {
    assert Linked(ns, k);
    newitem.next := c;
    newitem.prev := c.prev;
    c.prev := newitem;
    if c == a.child {
      a.child := newitem;
    } else {
      newitem.prev.next := newitem;
    }
    ghost var ms := ns[..k] + [newitem] + ns[k..];
    forall j | 0 <= j < |ms| ensures Linked(ms, j) {
      assert j != k ==> old(Linked(ns, if j < k then j else j - 1));
    }
  }

  /** Put a new item in the place of a child; nothing happens behind the last child. The replaced
      node is left unlinked for deletion. */
  method ReplaceItemInArray(a: Node, which: int, newitem: Node, ghost ns: seq<Node>)
    requires Children(a, ns) && newitem != a && newitem !in ns
    modifies a`child, ns`next, ns`prev, newitem`next, newitem`prev
    ensures var k := Position(which);
            if k < |ns| then Children(a, ns[k := newitem]) && ns[k].next == null && ns[k].prev == null
            else Children(a, ns) && newitem.next == old(newitem.next) && newitem.prev == old(newitem.prev)
  {
    var c := Walk(a, which, ns);
    if c == null {
      return;
    }
    Substitute(a, c, newitem, Position(which), ns);
  }

  method Substitute(a: Node, c: Node, newitem: Node, ghost k: nat, ghost ns: seq<Node>)
    requires Children(a, ns) && k < |ns| && c == ns[k] && newitem != a && newitem !in ns
    modifies a`child, ns`next, ns`prev, newitem`next, newitem`prev
    ensures Children(a, ns[k := newitem]) && c.next == null && c.prev == null
  {
    assert Linked(ns, k);
    newitem.next := c.next;
    newitem.prev := c.prev;
    if newitem.next != null {
      newitem.next.prev := newitem;
    }
    if c == a.child {
      a.child := newitem;
    } else {
      newitem.prev.next := newitem;
    }
    c.next, c.prev := null, null;
    ghost var ms := ns[k := newitem];
    forall j | 0 <= j < |ms| ensures Linked(ms, j) {
      assert old(Linked(ns, j));
    }
  }

  // ------------------------------------------------------------ trees of nodes

  /** Which nodes make up a tree. */
  datatype Tree = Tree(node: Node, kids: seq<Tree>)

  ghost function Nodes(ts: seq<Tree>): (ns: seq<Node>)
    ensures |ns| == |ts|
    ensures forall i :: 0 <= i < |ts| ==> ns[i] == ts[i].node
  {
    seq(|ts|, i requires 0 <= i < |ts| => ts[i].node)
  }

  ghost function Below(t: Tree): set<Node>
    decreases t, 0
  {
    set i, n | 0 <= i < |t.kids| && n in All(t.kids[i]) :: n
  }

  ghost function All(t: Tree): set<Node>
    decreases t, 1
  {
    {t.node} + Below(t)
  }

  lemma {:induction false} KidBelow(t: Tree, i: nat)
    requires i < |t.kids|
    ensures All(t.kids[i]) <= Below(t)
    ensures t.kids[i].node in Below(t) && Below(t.kids[i]) <= Below(t)
  {
  }

  /** The links of the nodes are those of the tree. */
  ghost predicate Spans(t: Tree)
    reads t.node`child, Below(t)
    decreases t
  {
    && t.node.child == NodeAt(Nodes(t.kids), 0)
    && forall i :: 0 <= i < |t.kids| ==> (KidBelow(t, i); KidLinked(t.kids, i) && Spans(t.kids[i]))
  }

  ghost predicate KidLinked(ts: seq<Tree>, i: nat)
    requires i < |ts|
    reads ts[i].node
  {
    Linked(Nodes(ts), i)
  }

  /** No node occurs twice in the tree. */
  ghost predicate Proper(t: Tree) {
    && t.node !in Below(t)
    && Apart(t.kids)
    && forall i :: 0 <= i < |t.kids| ==> Proper(t.kids[i])
  }

  ghost predicate Apart(ts: seq<Tree>) { forall i, j :: 0 <= i < j < |ts| ==> All(ts[i]) !! All(ts[j]) }

  /** What a tree of nodes holds. */
  datatype Data = Data(kind: nat, text: Option<bytes>, name: Option<bytes>, intValue: int, realValue: real, kids: seq<Data>)

  ghost predicate NodeHolds(n: Node, v: Data)
    reads n`kind, n`text, n`name, n`intValue, n`realValue
  {
    && n.kind == v.kind && n.text == v.text && n.name == v.name
    && n.intValue == v.intValue && n.realValue == v.realValue
  }

  ghost predicate Holds(t: Tree, v: Data)
    reads t.node`kind, t.node`text, t.node`name, t.node`intValue, t.node`realValue, Below(t)
    decreases t
  {
    && NodeHolds(t.node, v)
    && |t.kids| == |v.kids|
    && forall i :: 0 <= i < |t.kids| ==> (KidBelow(t, i); Holds(t.kids[i], v.kids[i]))
  }

  /** Every tree holds some data. */
  lemma {:induction false} DataOf(t: Tree) returns (v: Data)
    ensures Holds(t, v)
    decreases t
  {
    var vs: seq<Data> := [];
    while |vs| < |t.kids|
      invariant |vs| <= |t.kids| && forall i :: 0 <= i < |vs| ==> Holds(t.kids[i], vs[i])
    {
      var k := DataOf(t.kids[|vs|]);
      vs := vs + [k];
    }
    v := Data(t.node.kind, t.node.text, t.node.name, t.node.intValue, t.node.realValue, vs);
  }

  function WithoutReference(kind: nat): nat { if kind / REFERENCE % 2 == 1 then kind - REFERENCE else kind }

  /** Bit 8 is the mark: with and without it a kind becomes the kind without it, all other bits kept. */
  lemma {:induction false} ReferenceCleared(k: nat, high: nat)
    requires k < 256
    ensures WithoutReference(512 * high + k) == 512 * high + k
    ensures WithoutReference(512 * high + 256 + k) == 512 * high + k
  {
    EighthBit(2 * high, k);
    EighthBit(2 * high + 1, k);
  }

  lemma {:induction false} EighthBit(m: nat, k: nat)
    requires k < 256
    ensures (256 * m + k) / 256 == m
  {
  }

  /** The same data with every reference mark cleared. */
  ghost function Cleared(v: Data): Data {
    v.(kind := WithoutReference(v.kind), kids := seq(|v.kids|, i requires 0 <= i < |v.kids| => Cleared(v.kids[i])))
  }

  // ------------------------------------------------------------ duplication

  /** The last of the copies made so far. */
  ghost function Last(cs: seq<Tree>): Node? { NodeAt(Nodes(cs), |cs| - 1) }

  lemma {:induction false} KidsApart(p: Node, cs: seq<Tree>, j: nat)
    requires Proper(Tree(p, cs)) && j < |cs|
    ensures p !in All(cs[j]) && cs[|cs| - 1].node !in Below(cs[j])
  {
    hide Proper, Below, All, Apart;
    ProperKid(Tree(p, cs), j);
    KidsDisjoint(Tree(p, cs), j, |cs| - 1);
    OwnNode(cs[|cs| - 1]);
    OwnNode(cs[j]);
  }

  lemma {:induction false} ProperKid(t: Tree, j: nat)
    requires Proper(t) && j < |t.kids|
    ensures Proper(t.kids[j]) && t.node !in All(t.kids[j]) && t.kids[j].node !in Below(t.kids[j])
  {
    KidBelow(t, j);
    hide Below, All;
  }

  lemma {:induction false} KidsDisjoint(t: Tree, i: nat, j: nat)
    requires Proper(t) && i <= j < |t.kids|
    ensures i < j ==> All(t.kids[i]) !! All(t.kids[j])
  {
    hide Below, All;
  }

  lemma {:induction false} OwnNode(t: Tree)
    ensures t.node in All(t) && Below(t) <= All(t)
  {
    hide Below;
  }

  lemma {:induction false} ProperSnoc(p: Node, cs: seq<Tree>, d: Tree)
    requires Proper(Tree(p, cs)) && Proper(d) && All(d) !! All(Tree(p, cs))
    ensures Proper(Tree(p, cs + [d]))
  {
    var t := Tree(p, cs + [d]);
    forall i | 0 <= i < |t.kids| ensures Proper(t.kids[i]) && p !in All(t.kids[i]) {
      if i < |cs| { KidBelow(Tree(p, cs), i); assert Proper(cs[i]); }
    }
    forall i, j | 0 <= i < j < |t.kids| ensures All(t.kids[i]) !! All(t.kids[j]) {
      KidBelow(Tree(p, cs), i);
    }
  }

  lemma {:induction false} BelowSnoc(p: Node, cs: seq<Tree>, d: Tree)
    ensures All(Tree(p, cs + [d])) == All(Tree(p, cs)) + All(d)
  {
    var t, u := Tree(p, cs + [d]), Tree(p, cs);
    forall n | n in Below(t) ensures n in Below(u) + All(d) {
      var i :| 0 <= i < |t.kids| && n in All(t.kids[i]);
      if i < |cs| { assert t.kids[i] == u.kids[i]; }
    }
    forall n | n in Below(u) + All(d) ensures n in Below(t) {
      if n in All(d) {
        assert t.kids[|cs|] == d;
      } else {
        var i :| 0 <= i < |cs| && n in All(u.kids[i]);
        assert t.kids[i] == u.kids[i];
      }
    }
  }

  lemma {:induction false} RootsDistinct(p: Node, cs: seq<Tree>, d: Tree)
    requires Proper(Tree(p, cs)) && All(d) !! All(Tree(p, cs))
    ensures Distinct(Nodes(cs + [d])) && p !in Nodes(cs + [d])
  {
    hide Below, All, Proper, Apart;
    var t, ns := Tree(p, cs), Nodes(cs + [d]);
    OwnNode(t);
    OwnNode(d);
    forall i | 0 <= i < |cs| ensures ns[i] != p && ns[i] in All(cs[i]) && All(cs[i]) <= All(t) {
      ProperKid(t, i);
      OwnNode(cs[i]);
      KidBelow(t, i);
    }
    forall i, j | 0 <= i < j < |ns| ensures ns[i] != ns[j] {
      if j < |cs| { KidsDisjoint(t, i, j); }
    }
  }

  /** The node is not below any of the trees. */
  ghost predicate Outside(n: Node?, cs: seq<Tree>) {
    n != null ==> forall i :: 0 <= i < |cs| ==> n !in Below(cs[i])
  }

  lemma {:induction false} AttachOutside(p: Node, cs: seq<Tree>, d: Tree)
    requires Proper(Tree(p, cs)) && Proper(d) && All(d) !! All(Tree(p, cs))
    ensures Outside(p, cs + [d]) && Outside(d.node, cs + [d]) && Outside(Last(cs), cs + [d])
  {
    var ds := cs + [d];
    forall i | 0 <= i < |ds|
      ensures p !in Below(ds[i]) && d.node !in Below(ds[i]) && (cs != [] ==> cs[|cs| - 1].node !in Below(ds[i]))
    {
      if i < |cs| {
        KidOutside(p, cs, d, i);
      } else {
        NewOutside(p, cs, d);
      }
    }
    hide Below, All, Proper;
  }

  lemma {:induction false} KidOutside(p: Node, cs: seq<Tree>, d: Tree, i: nat)
    requires Proper(Tree(p, cs)) && All(d) !! All(Tree(p, cs)) && i < |cs|
    ensures p !in Below(cs[i]) && d.node !in Below(cs[i]) && cs[|cs| - 1].node !in Below(cs[i])
  {
    KidsApart(p, cs, i);
    KidBelow(Tree(p, cs), i);
    RootIn(p, cs, d);
    hide Below, Proper;
  }

  lemma {:induction false} NewOutside(p: Node, cs: seq<Tree>, d: Tree)
    requires Proper(d) && All(d) !! All(Tree(p, cs))
    ensures p !in Below(d) && d.node !in Below(d) && (cs != [] ==> cs[|cs| - 1].node !in Below(d))
  {
    RootIn(p, cs, d);
    if cs != [] { KidBelow(Tree(p, cs), |cs| - 1); }
    hide Below;
  }

  lemma {:induction false} RootIn(p: Node, cs: seq<Tree>, d: Tree)
    ensures p in All(Tree(p, cs)) && Below(Tree(p, cs)) <= All(Tree(p, cs)) && d.node in All(d) && Below(d) <= All(d)
  {
  }

  /** The children of a tree's root, as a list. */
  lemma {:induction false} SpansChildren(p: Node, cs: seq<Tree>)
    requires Spans(Tree(p, cs)) && Distinct(Nodes(cs)) && p !in Nodes(cs)
    ensures Children(p, Nodes(cs))
    ensures forall i :: 0 <= i < |cs| ==> Spans(cs[i])
  {
    hide Below;
    var t := Tree(p, cs);
    forall i | 0 <= i < |cs| ensures Linked(Nodes(cs), i) && Spans(cs[i]) {
      assert KidLinked(t.kids, i) && Spans(t.kids[i]);
    }
  }

  lemma {:induction false} ChildrenSpan(p: Node, cs: seq<Tree>)
    requires Children(p, Nodes(cs)) && forall i :: 0 <= i < |cs| ==> Spans(cs[i])
    ensures Spans(Tree(p, cs))
  {
    hide Below;
    var t := Tree(p, cs);
    forall i | 0 <= i < |t.kids| ensures KidLinked(t.kids, i) && Spans(t.kids[i]) {
      assert Linked(Nodes(cs), i) && Spans(cs[i]);
    }
  }

  method LinkLast(p: Node, nptr: Node?, n: Node, ghost ns: seq<Node>)
    requires Children(p, ns) && nptr == NodeAt(ns, |ns| - 1)
    requires n != p && n !in ns && n.next == null && n.prev == null
    modifies p`child, (if nptr == null then {} else {nptr})`next, n`prev
    ensures Children(p, ns + [n])
  {
    if nptr != null {
      nptr.next := n;
      n.prev := nptr;
    } else {
      p.child := n;
    }
    ghost var ms := ns + [n];
    forall j | 0 <= j < |ms| ensures Linked(ms, j) {
      assert j < |ns| ==> old(Linked(ns, j));
    }
  }

  lemma {:induction false} RootsOf(p: Node, cs: seq<Tree>, d: Tree)
    requires Distinct(Nodes(cs + [d])) && p !in Nodes(cs + [d])
    ensures Nodes(cs + [d]) == Nodes(cs) + [d.node]
    ensures Distinct(Nodes(cs)) && p !in Nodes(cs) && d.node !in Nodes(cs) && d.node != p
  {
    var ms, ns := Nodes(cs + [d]), Nodes(cs);
    assert ms == ns + [d.node];
    assert ms[|cs|] == d.node;
    forall i | 0 <= i < |ns| ensures ns[i] == ms[i] && ns[i] != p && ns[i] != d.node {
      assert ms[i] != ms[|cs|];
    }
    forall i, j | 0 <= i < j < |ns| ensures ns[i] != ns[j] {
      assert ms[i] != ms[j];
    }
  }

  /** What has to be known before a copy is attached. */
  lemma {:induction false} AttachReady(p: Node, cs: seq<Tree>, d: Tree)
    requires Spans(Tree(p, cs)) && Proper(Tree(p, cs)) && Spans(d) && Proper(d) && All(d) !! All(Tree(p, cs))
    ensures Children(p, Nodes(cs)) && d.node !in Nodes(cs) && d.node != p
    ensures Nodes(cs + [d]) == Nodes(cs) + [d.node] && p !in Nodes(cs + [d])
    ensures Outside(p, cs + [d]) && Outside(d.node, cs + [d]) && Outside(Last(cs), cs + [d])
    ensures forall i :: 0 <= i < |cs + [d]| ==> Spans((cs + [d])[i])
  {
    hide Proper, Below, All, Spans, Apart, Nodes;
    RootsDistinct(p, cs, d);
    AttachOutside(p, cs, d);
    RootsOf(p, cs, d);
    SpansChildren(p, cs);
  }

  lemma {:induction false} TreeAllocated(t: Tree)
    ensures forall n :: n in All(t) ==> allocated(n)
    ensures forall n :: n in Below(t) ==> allocated(n)
    decreases t
  {
    forall n | n in Below(t) ensures allocated(n) {
      var i :| 0 <= i < |t.kids| && n in All(t.kids[i]);
      TreeAllocated(t.kids[i]);
    }
  }

  /** Links that did not change still span the tree. */
  twostate lemma {:induction false} SpansKept(t: Tree)
    requires forall n :: n in Below(t) ==> old(allocated(n))
    requires old(Spans(t)) && t.node.child == old(t.node.child)
    requires forall n :: n in Below(t) ==> n.next == old(n.next) && n.prev == old(n.prev) && n.child == old(n.child)
    ensures Spans(t)
    decreases t
  {
    forall i | 0 <= i < |t.kids| ensures KidLinked(t.kids, i) && Spans(t.kids[i]) {
      KidBelow(t, i);
      assert old(KidLinked(t.kids, i)) && old(Spans(t.kids[i]));
      SpansKept(t.kids[i]);
    }
  }

  /** Fields that did not change still hold the data. */
  twostate lemma {:induction false} HoldsKept(h: (Tree, Data))
    requires forall n :: n in All(h.0) ==> old(allocated(n))
    requires old(Holds(h.0, h.1))
    requires forall n :: n in All(h.0) ==>
                           && n.kind == old(n.kind) && n.text == old(n.text) && n.name == old(n.name)
                           && n.intValue == old(n.intValue) && n.realValue == old(n.realValue)
    ensures Holds(h.0, h.1)
    decreases h.0
  {
    var (t, v) := h;
    assert t.node in All(t);
    forall i | 0 <= i < |t.kids| ensures Holds(t.kids[i], v.kids[i]) {
      KidBelow(t, i);
      assert old(Holds(t.kids[i], v.kids[i]));
      HoldsKept((t.kids[i], v.kids[i]));
    }
  }

  /** The children of the root hold these data. */
  ghost predicate KidsHold(t: Tree, vs: seq<Data>)
    reads Below(t)
  {
    |t.kids| == |vs| && forall i :: 0 <= i < |vs| ==> (KidBelow(t, i); Holds(t.kids[i], vs[i]))
  }

  twostate lemma {:induction false} KidsHoldKept(h: (Tree, seq<Data>))
    requires forall n :: n in Below(h.0) ==> old(allocated(n))
    requires old(KidsHold(h.0, h.1))
    requires forall n :: n in Below(h.0) ==>
                           && n.kind == old(n.kind) && n.text == old(n.text) && n.name == old(n.name)
                           && n.intValue == old(n.intValue) && n.realValue == old(n.realValue)
    ensures KidsHold(h.0, h.1)
  {
    var (t, vs) := h;
    forall i | 0 <= i < |vs| ensures Holds(t.kids[i], vs[i]) {
      KidBelow(t, i);
      assert old(Holds(t.kids[i], vs[i]));
      HoldsKept((t.kids[i], vs[i]));
    }
  }

  lemma {:induction false} OneMoreHolds(p: Node, cs: seq<Tree>, d: Tree, vs: seq<Data>, v: Data)
    requires KidsHold(Tree(p, cs), vs) && Holds(d, v)
    ensures KidsHold(Tree(p, cs + [d]), vs + [v])
  {
    hide Holds, Below;
    var t, u := Tree(p, cs), Tree(p, cs + [d]);
    forall i | 0 <= i < |vs + [v]| ensures Holds(u.kids[i], (vs + [v])[i]) {
      assert i < |vs| ==> Holds(t.kids[i], vs[i]);
    }
  }

  /** Hang a finished copy behind the last one. */
  method Attach(p: Node, nptr: Node?, n: Node, ghost cs: seq<Tree>, ghost d: Tree, ghost vs: seq<Data>)
    requires Spans(Tree(p, cs)) && Proper(Tree(p, cs)) && nptr == Last(cs)
    requires d.node == n && Spans(d) && Proper(d) && All(d) !! All(Tree(p, cs))
    requires n.next == null && n.prev == null && KidsHold(Tree(p, cs + [d]), vs)
    modifies p`child, (if nptr == null then {} else {nptr})`next, n`prev
    ensures Spans(Tree(p, cs + [d])) && KidsHold(Tree(p, cs + [d]), vs)
  {
    hide Proper, Below, All, Spans, Apart, Children, Holds, KidsHold;
    ghost var ds := cs + [d];
    AttachReady(p, cs, d);
    TreeAllocated(Tree(p, ds));
    forall i | 0 <= i < |ds| ensures forall n :: n in Below(ds[i]) ==> allocated(n) {
      TreeAllocated(ds[i]);
    }
    LinkLast(p, nptr, n, Nodes(cs));
    forall i | 0 <= i < |ds| ensures Spans(ds[i]) {
      assert old(Spans(ds[i]));
      assert Nodes(ds)[i] == ds[i].node && ds[i].node in Nodes(ds);
      assert p !in Below(ds[i]) && n !in Below(ds[i]) && (nptr != null ==> nptr !in Below(ds[i]));
      SpansKept(ds[i]);
    }
    ChildrenSpan(p, ds);
    KidsHoldKept((Tree(p, ds), vs));
  }

  /** One turn of the loop: copy a child and hang it in. */
  method DuplicateKid(copy: Node, nptr: Node?, cptr: Node, ghost cs: seq<Tree>, ghost vs: seq<Data>, ghost t: Tree, ghost v: Data)
    returns (n: Node, ghost d: Tree)
    requires Spans(t) && Holds(t, v) && cptr == t.node
    requires Spans(Tree(copy, cs)) && Proper(Tree(copy, cs)) && nptr == Last(cs) && KidsHold(Tree(copy, cs), vs)
    modifies copy`child, (if nptr == null then {} else {nptr})`next
    ensures d.node == n && fresh(All(d))
    ensures Spans(Tree(copy, cs + [d])) && Proper(Tree(copy, cs + [d]))
    ensures KidsHold(Tree(copy, cs + [d]), vs + [Cleared(v)])
    decreases t, 3
  {
    hide Proper, Below, All, Spans, Apart, Holds, Cleared, KidsHold;
    ghost var so := Tree(copy, cs);
    TreeAllocated(so);
    label before:
    n, d := Duplicate(cptr, true, t, v);
    SpansKept@before(so);
    KidsHoldKept@before((so, vs));
    assert All(d) !! All(so);
    OneMoreHolds(copy, cs, d, vs, Cleared(v));
    ProperSnoc(copy, cs, d);
    Attach(copy, nptr, n, cs, d, vs + [Cleared(v)]);
  }

  lemma {:induction false} LeafOk(n: Node)
    requires n.child == null
    ensures All(Tree(n, [])) == {n} && Spans(Tree(n, [])) && Proper(Tree(n, [])) && KidsHold(Tree(n, []), [])
  {
    assert Below(Tree(n, [])) == {};
  }

  lemma {:induction false} HoldsIntro(t: Tree, v: Data)
    requires NodeHolds(t.node, v) && KidsHold(t, v.kids)
    ensures Holds(t, v)
  {
    hide Below;
  }

  lemma {:induction false} KidOf(t: Tree, v: Data, i: nat)
    requires Spans(t) && Holds(t, v) && i < |t.kids|
    ensures |v.kids| == |t.kids| && Spans(t.kids[i]) && Holds(t.kids[i], v.kids[i])
    ensures t.kids[i].node.next == NodeAt(Nodes(t.kids), i + 1)
  {
    hide Below;
    assert KidLinked(t.kids, i);
  }

  lemma {:induction false} LastIn(p: Node, cs: seq<Tree>)
    requires Proper(Tree(p, cs)) && cs != []
    ensures Last(cs) in All(Tree(p, cs)) - {p}
  {
    KidBelow(Tree(p, cs), |cs| - 1);
  }

  lemma {:induction false} ClearedKids(v: Data, vs: seq<Data>)
    requires |vs| == |v.kids| && forall i :: 0 <= i < |vs| ==> vs[i] == Cleared(v.kids[i])
    ensures vs == Cleared(v).kids
  {
    var ks := Cleared(v).kids;
    forall i | 0 <= i < |vs| ensures vs[i] == ks[i] {
      assert ks[i] == Cleared(v.kids[i]);
    }
  }

  lemma {:induction false} ClearedLeaf(v: Data)
    ensures Cleared(v.(kids := [])).kids == []
  {
  }

  lemma {:induction false} CopiedFields(n: Node, v: Data, kids: seq<Data>)
    requires NodeHolds(n, v.(kind := WithoutReference(v.kind)))
    ensures NodeHolds(n, Cleared(v.(kids := kids)))
  {
  }

  /** cJSON_Duplicate: new nodes with the same data, the reference marks cleared; with `recurse`
      for the whole tree. Nothing that existed is changed. */
  method Duplicate(item: Node, recurse: bool, ghost t: Tree, ghost v: Data) returns (copy: Node, ghost c: Tree)
    requires Spans(t) && Holds(t, v) && item == t.node
    ensures c.node == copy && fresh(copy) && fresh(All(c)) && Spans(c) && Proper(c)
    ensures copy.next == null && copy.prev == null
    ensures Holds(c, if recurse then Cleared(v) else Cleared(v.(kids := [])))
    decreases t, 2
  {
    hide Proper, Below, All, Spans, Apart, Holds, Cleared, KidsHold;
    RootFacts(t, v);
    TreeAllocated(t);
    copy := new Node();
    copy.kind := WithoutReference(item.kind);
    copy.intValue, copy.realValue, copy.text, copy.name := item.intValue, item.realValue, item.text, item.name;
    c := Tree(copy, []);
    LeafOk(copy);
    CopiedFields(copy, v, []);
    CopiedFields(copy, v, v.kids);
    ClearedLeaf(v);
    if !recurse {
      HoldsIntro(c, Cleared(v.(kids := [])));
      return;
    }
    SpansKept(t);
    HoldsKept((t, v));
    c := DuplicateKids(item, copy, t, v);
    assert v.(kids := v.kids) == v;
    HoldsIntro(c, Cleared(v));
  }

  /** The loop over the children. */
  method DuplicateKids(item: Node, copy: Node, ghost t: Tree, ghost v: Data) returns (ghost c: Tree)
    requires Spans(t) && Holds(t, v) && item == t.node
    requires copy.child == null && copy !in All(t)
    modifies copy`child
    ensures c.node == copy && Spans(c) && Proper(c) && KidsHold(c, Cleared(v).kids)
    ensures forall n :: n in All(c) ==> n == copy || fresh(n)
    decreases t, 1
  {
    hide Proper, Below, All, Spans, Apart, Holds, Cleared, KidsHold;
    RootFacts(t, v);
    TreeAllocated(t);
    ghost var cs: seq<Tree>, vs: seq<Data> := [], [];
    LeafOk(copy);
    var cptr, nptr := item.child, null;
    while cptr != null
      invariant |cs| == |vs| <= |t.kids| && cptr == NodeAt(Nodes(t.kids), |cs|) && nptr == Last(cs)
      invariant Spans(t) && Holds(t, v)
      invariant Spans(Tree(copy, cs)) && Proper(Tree(copy, cs)) && KidsHold(Tree(copy, cs), vs)
      invariant forall n :: n in All(Tree(copy, cs)) ==> n == copy || fresh(n)
      invariant forall i :: 0 <= i < |vs| ==> vs[i] == Cleared(v.kids[i])
      decreases |t.kids| - |cs|
    {
      ghost var i := |cs|;
      KidOf(t, v, i);
      if i > 0 { LastIn(copy, cs); }
      var n: Node;
      ghost var d: Tree;
      n, d := DuplicateKid(copy, nptr, cptr, cs, vs, t.kids[i], v.kids[i]);
      BelowSnoc(copy, cs, d);
      cs, vs, nptr, cptr := cs + [d], vs + [Cleared(v.kids[i])], n, cptr.next;
      SpansKept(t);
      HoldsKept((t, v));
    }
    ClearedKids(v, vs);
    c := Tree(copy, cs);
  }

  lemma {:induction false} RootFacts(t: Tree, v: Data)
    requires Spans(t) && Holds(t, v)
    ensures t.node.child == NodeAt(Nodes(t.kids), 0) && |v.kids| == |t.kids|
    ensures t.node in All(t) && Below(t) <= All(t)
    ensures NodeHolds(t.node, v)
  {
  }
}
